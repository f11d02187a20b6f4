# Verified models of the kernels' core data structures and protocols

The repository holds two small kernels (a C kernel and a Rust one) and a hypervisor. This project
models the parts of them that hold the hard logic and proves what each part is for. Code that
updates objects in place is modelled as Dafny classes and arrays that are updated in place;
protocols between concurrent parties are modelled as steps that may interleave in any way;
arithmetic is modelled with every truncation of the source written out.

`dafny verify dfyconfig.toml` checks the whole project.

## How the project is organised

**Red-black tree** (`rbtree.c`, `rbtree.h`). Nodes are heap objects with a colour, a parent and two
children; the packed parent-and-colour word is two fields. A ghost tree says which node is where.
`RbShape` states the five red-black properties on trees and on trees with a hole (the path from a
node to the root), because the fix-up loops break the properties at one place and carry the damage
upward. `RbHeap` says when a snapshot of the link fields is such a tree, and what a few field
updates do to it; nodes are kept apart by a ghost position for each of them, which no operation
changes. `RbRotate`, `RbInsert`, `RbEraseColor`, `RbPropagate`, `RbErase`, `RbSuccessor` and
`RbEraseTwo` follow the source case by case. `RbOrder` removes the positions again, and `RbTree`,
`RbIterate` and `RbReplace` state the public operations: from any red-black tree to a red-black
tree with the in-order sequence it should have. `RbMeaning` draws the consequences: the height
bound, and the value stored at a node being the fold of its subtree. The callbacks of an augmented
tree are any `compute` for which a rotation leaves the value of the rotated pair unchanged
(`Law`), which is what the rotate callback assumes by copying the value; every callback made of an
associative operation with a unit is one. With the dummy callbacks `Law` and `AugOk` are true.

**Stage-2 page table** (`page_table.rs`). `PtTables` gives the descriptor words and, on values, the
tree of table frames that a memory holds: which word leads where, that no two tables share a
frame, and the translation of every page that follows from it. `PageTables` has the class whose
methods are those of the source, over a memory of frames of 512 words. A table of height 1 holds
page descriptors; the root has height 3, or 4 with the feature `lvl4`. `Lookup` is the
translation; `Walk` shows that the source's own walk computes it, and `PtHardware` that the
architecture's does, stated with its bit positions and none of the constants here. The allocator hands out a fresh
zeroed frame or fails; a dropped frame goes back to it.

**Wait list and locks** (`list.rs`, `rwlock.rs`, `semaphore.rs`, `mutex.rs`). `WaitList` is the
intrusive doubly linked list on the heap, proved to be a sequence sorted by contents, with the
futures of `join` and `join_with_cleanup`. `WaitOrder` says what first come, first served means for
the claims that ever joined a list, and what a step may do to the claims of others. `RwLocks`, `Semaphores` and `Mutexes` are the locks on that
list. Each future and guard is an object; a step is one call (first poll, later poll, drop of a
future, clone or drop of a guard, try). A waiter that has been woken but not polled is a state of
its own and holds its grant. Ghost fields record who holds a grant, who arrived, who was cancelled
in the queue and who was granted, so that the invariants speak of every run. `Together` says that
any number of futures on one lock are as they should be; making, polling or dropping any of them,
trying the lock, and cloning or releasing any grant each keeps it (the members named `…Among`), so
every sequence of calls does.

**VM memory regions** (`mem.rs`): `MemRegions`. **Concurrent protocols**: `Spsc` (one atomic load,
store or slot access per step), `Executor` (wake bits and `Notify`), `TicketLock` (the 32-bit word
with its two 16-bit halves). **Sweeps, bytes and calendar**: `Intervals`, `Reservations` (bytes of
the blob, overlapping moves included; Devicetree Specification sections 5.2 and 5.3), `Calendar`,
`TickMath`.

## What the source and the model take for granted

- Page table: addresses lie below what the root table looks at; physical addresses are page
  aligned and below 2^48; attributes have no address bits and no type bits, so that the `or` of the
  three parts of a descriptor is their sum (`DescriptorBits` shows this on 64-bit words). A 4 KB
  operation inside a 2 MB block, and unmapping a block where a page table hangs, are excluded: the
  source only logs the former. `map_2mb` over a page table is allowed and changes nothing.
- `pa` of a block need only be page aligned, as in the source; the hardware then drops the bits
  below 2 MB (`PtHardware.HardwareTranslates` says exactly when that matters).
- Region sizes are whole pages and not zero; the matching free has the size of the allocation.
- What is left of the permits released, once everybody who waits has one, fits a semaphore's count.
- Atomics are sequentially consistent.
- In `date`, `long` is 64 bits wide.
- `mem_reserve` is modelled on blobs laid out as the diagram at the top of `memrsv.rs` shows, with a
  terminated reservation block; it leaves the blob's total size in the header alone, and so does the model.

Where comments and code differ the model follows the code: `lock_shared` registers a cleanup
action although its comment says that none is needed (`rwlock.rs:262-265`); `mem_reserve` skips the
entries in use, not the empty ones (`memrsv.rs:190`); `try_lock_shared` also fails when somebody
waits or the count is full (`rwlock.rs:284-299`), where its documentation speaks of exclusive claims
only.

Some properties hold only under a condition, which is proved exact. The ticket lock keeps mutual
exclusion for up to 2^16 contenders (`TicketLock.RunSafe`) and for no larger number
(`TicketLock.Overrun`). A run loses a wakeup of `until` exactly if, somewhere between a test that finds
the condition false and the subscription after it, a notifier makes the condition true, every
notifier at work gets past its swap of the mask, and the task's bit was nowhere and is set by nobody
(`Executor.LostExactly`, over the windows that `Executor.WindowExact` describes). So `until` is safe if
no notify gets through both its steps in such a window (`Executor.SafeUntil`). States between test and
subscription with the bit nowhere and no notifier short of its swap are reached
(`Executor.WindowReached`), and from each of them one notify by a notifier not at work loses the wakeup
(`Executor.UntilLosesWakeup`). With `until_racy` none is ever lost (`Executor.RacyNeverLost`). Mapping a
range of pages maps them all exactly if there are as many free frames as tables missing
(`PageTables.AllMapped`). The hardware translates a 2 MB block as the page table means it exactly if it was
mapped from a 2 MB boundary (`PtHardware.HardwareTranslates`), which `pt_map_range` checks and `map_2mb`
leaves to its callers.

For the interval excluder `Intervals.Collect` gives the exact outcome for all ranges, whatever the order
of their ends. The usual reading, the points of added ranges that no excluded range contains, holds if
no range has its ends swapped (`Intervals.ForwardKept`); this is sufficient but not necessary. Excluding
a range with swapped ends adds its points where nothing excludes them (`Intervals.SwappedAdds`).

## Model

| member | source | states |
|---|---|---|
| RbShape.PlugRedBlack | tinyos/cimp/tiny/rbtree.c:7-27 | The five properties hold of a whole tree exactly when they hold of a subtree and of the path above it: what the loops reason with when only one place is wrong. |
| RbShape.PlugIsAround | tinyos/cimp/tiny/rbtree.c:7-27 | The in-order sequence of a tree is that of any subtree within what lies before and after it. |
| RbHeap.RotateRight | tinyos/cimp/tiny/rbtree.c:126-141 | The field writes of a right rotation turn the tree ((x p b) g u) into (x p (b g u)) in place, wherever in the tree, with parent links again matching child links and every other node untouched. |
| RbHeap.RotateLeft | tinyos/cimp/tiny/rbtree.c:168-175 | The mirror image. |
| RbHeap.AugRotateRight | tinyos/cimp/tiny/include/rbtree.h:127-134 | After the rotate callback all stored values of the whole tree are right again, those above the rotated pair included, although only two were written. |
| RbHeap.AugRotateLeft | tinyos/cimp/tiny/include/rbtree.h:127-134 | The mirror image. |
| RbRotate.ChangeChild | tinyos/cimp/tiny/include/rbtree.h:163-174 | The parent's pointer to the old child, or the root pointer, now leads to the new one and its other pointer is kept. |
| RbRotate.RotateSetParents | tinyos/cimp/tiny/rbtree.c:44-52 | The risen node has the parent and colour of the old one, the old one hangs below it in the given colour, and the parent's pointer leads to the risen node. |
| RbRotate.RaiseRight | tinyos/cimp/tiny/rbtree.c:126-141 | Case 3 of insertion as a step on the heap: the red child rises over its black parent, colours exchanged, values recomputed. |
| RbRotate.RaiseLeft | tinyos/cimp/tiny/rbtree.c:168-175 | The mirror image. |
| RbInsert.Case1 | tinyos/cimp/tiny/rbtree.c:79-99 | Both children of the grandparent turn black and it turns red; the tree is otherwise the same, and the next parent to look at is its owner. |
| RbInsert.Case2Left | tinyos/cimp/tiny/rbtree.c:101-124 | The inner red child is rotated to the outside below the grandparent, values kept right, leaving exactly the one stale pointer that case 3 overwrites. |
| RbInsert.Case2Right | tinyos/cimp/tiny/rbtree.c:154-166 | The mirror image. |
| RbInsert.LoopShape | tinyos/cimp/tiny/rbtree.c:62-78 | The loop invariant of insertion: node is red, its parent red too, so the grandparent exists and is black. |
| RbInsert.Insert | tinyos/cimp/tiny/rbtree.c:54-178 | From a tree whose only fault is a red node that may have a red parent, the loop ends and leaves a red-black tree with the same in-order sequence and right values. |
| RbEraseColor.Case3Left | tinyos/cimp/tiny/rbtree.c:250-271 | The sibling's red inner child is rotated outward with values kept right, leaving exactly the links that case 4 overwrites. |
| RbEraseColor.Case4Left | tinyos/cimp/tiny/rbtree.c:272-292 | The sibling rises over the parent in the parent's colour, parent and outer child black; values right. |
| RbEraseColor.Case3Right | tinyos/cimp/tiny/rbtree.c:322-332 | The mirror image of case 3. |
| RbEraseColor.Case4Right | tinyos/cimp/tiny/rbtree.c:333-342 | The mirror image of case 4. |
| RbEraseColor.SinkLeft | tinyos/cimp/tiny/rbtree.c:201-218 | Case 1: a red sibling is rotated above the parent, which keeps the order and the one-black-too-few shape and gives a black sibling. |
| RbEraseColor.CaseTwo | tinyos/cimp/tiny/rbtree.c:219-249 | Case 2: the sibling turns red; either the tree is settled, or the parent's subtree is the one that is short of a black node. |
| RbEraseColor.EraseColor | tinyos/cimp/tiny/rbtree.c:184-345 | From a tree in which every path through one place has one black node too few, the loop ends and leaves a red-black tree with the same in-order sequence and right values. |
| RbPropagate.Recompute | tinyos/cimp/tiny/include/rbtree.h:111-118 | One round of propagate: stopping because the value did not change leaves every value up to the stop node right; otherwise only the node above can be stale. |
| RbPropagate.Propagate | tinyos/cimp/tiny/include/rbtree.h:108-119 | Despite the early exit every stored value below the stop node is right afterwards, and no value outside is written. |
| RbErase.LiftChild | tinyos/cimp/tiny/include/rbtree.h:195-210 | The field writes of erase case 1 put the only child in the place and colour of the erased node. |
| RbErase.LoneShape | tinyos/cimp/tiny/include/rbtree.h:187-210 | With one child that child was red and nothing needs rebalancing; with none, rebalancing is needed exactly if the node was black and not the root. |
| RbErase.EraseLone | tinyos/cimp/tiny/include/rbtree.h:187-210 | Erase case 1 with propagate: the node's only child, if any, stands in its place with all values right, and the returned parent is where rebalancing must start. |
| RbEraseTwo.FindSuccessor | tinyos/cimp/tiny/include/rbtree.h:242-246 | The do-while loop finds the first node of the right subtree and its parent. |
| RbSuccessor.SpineOrder | tinyos/cimp/tiny/include/rbtree.h:214-246 | The successor is the first node in order of the right subtree, and the rest keep their order. |
| RbSuccessor.TwoShape | tinyos/cimp/tiny/include/rbtree.h:257-268 | After the successor has taken the node's place and colour, either the tree is red-black or its old place is short of one black node. |
| RbSuccessor.PlaceSuccessor | tinyos/cimp/tiny/include/rbtree.h:247-269 | All field writes of erase cases 2 and 3 together make the tree in which the successor stands in the node's place. |
| RbEraseTwo.EraseTwo | tinyos/cimp/tiny/include/rbtree.h:211-273 | Erase cases 2 and 3: the successor stands in the node's place, all values are right after copy and both propagates, and the returned parent is where rebalancing must start. |
| RbTree.UnlinkNode | tinyos/cimp/tiny/include/rbtree.h:179-274 | Erasing leaves a red-black tree, or one black node too few exactly below the returned parent, without the node and with right values. |
| RbTree.Erase | tinyos/cimp/tiny/include/rbtree.h:276-283 | Erasing any node of a red-black tree gives a red-black tree whose in-order sequence is the old one without that node, and every stored value again equals the recomputed one; with the dummy callbacks this is rb_erase. |
| RbTree.RemovedAt | tinyos/cimp/tiny/rbtree.c:379-385 | What remains around an erased node is the in-order sequence with its one occurrence left out. |
| RbTree.LinkNode | tinyos/cimp/tiny/include/rbtree.h:54-61 | A red leaf hangs in the empty place that rb_link points to; the rest of the tree is unchanged. |
| RbTree.InsertColor | tinyos/cimp/tiny/rbtree.c:374-377 | Wherever a red leaf was linked into a red-black tree, the result is a red-black tree, the node stands in order where it was linked, and all values are right. |
| RbOrder.PositionsExist | tinyos/cimp/tiny/rbtree.c:7-27 | Any linked tree whose nodes occur once has the ghost positions the proofs use: they assume nothing. |
| RbOrder.RoomFor | tinyos/cimp/tiny/include/rbtree.h:54-61 | A new node fits, in order, into any empty place. |
| RbIterate.First | tinyos/cimp/tiny/rbtree.c:403-413 | The first node in order, or NULL for the empty tree. |
| RbIterate.Last | tinyos/cimp/tiny/rbtree.c:415-425 | The last node in order, or NULL. |
| RbIterate.Next | tinyos/cimp/tiny/rbtree.c:427-456 | The node that follows in order, NULL after the last and for an unlinked node. |
| RbIterate.Prev | tinyos/cimp/tiny/rbtree.c:458-484 | The node that precedes in order, NULL before the first and for an unlinked node. |
| RbIterate.NextPostorder | tinyos/cimp/tiny/rbtree.c:514-530 | The node that follows in postorder, NULL after the root and for NULL. |
| RbIterate.FirstPostorder | tinyos/cimp/tiny/rbtree.c:532-538 | The first node in postorder, or NULL. |
| RbIterate.LeftDeepest | tinyos/cimp/tiny/rbtree.c:502-512 | The first node of a subtree in postorder. |
| RbIterate.PostParts | tinyos/cimp/tiny/rbtree.c:514-530 | Postorder of a tree is that of any subtree within what comes before and after it. |
| RbReplace.ReplaceNode | tinyos/cimp/tiny/rbtree.c:486-500 | The new node stands in the victim's place in order and colour; the rest is unchanged, so a red-black tree stays one. |
| RbMeaning.HeightBound | tinyos/cimp/tiny/rbtree.c:7-27 | A red-black tree of n nodes has height at most 2 log2(n + 1). |
| RbMeaning.FoldSplit | tinyos/cimp/tiny/include/rbtree.h:106-137 | Under the law of rotations the callback computes the same value for a sequence however it is split. |
| RbMeaning.StoredIsFold | tinyos/cimp/tiny/include/rbtree.h:106-137 | The value stored at a node is the fold of the items of its subtree in order. |
| RbMeaning.MonoidLaw | tinyos/cimp/tiny/include/rbtree.h:127-134 | Every callback made of an associative operation with a unit obeys the law of rotations. |
| RbMeaning.StoredIsProduct | tinyos/cimp/tiny/include/rbtree.h:106-137 | For such a callback the root stores the product of all items of the tree. |
| PtTables.Descriptor | tinyvm/src/arch/aarch64/page_table.rs:119-157 | A descriptor gives back the address, attributes and type it was made of. |
| PtTables.DescriptorBits | tinyvm/src/arch/aarch64/page_table.rs:132-138 | On 64-bit words the or of disjoint parts is their sum and the masks of to_pa and valid recover them. |
| PtTables.GrownInv | tinyvm/src/arch/aarch64/page_table.rs:252-270 | Hanging a zeroed frame in an invalid entry keeps the tables one tree without shared frames. |
| PtTables.GrownLookup | tinyvm/src/arch/aarch64/page_table.rs:252-270 | and changes no translation. |
| PtTables.DroppedInv | tinyvm/src/arch/aarch64/page_table.rs:481-495 | Taking out an empty table keeps the tables one tree. |
| PtTables.DroppedLookup | tinyvm/src/arch/aarch64/page_table.rs:481-495 | and changes no translation. |
| PtTables.LeafLookup | tinyvm/src/arch/aarch64/page_table.rs:299-311 | Writing a page or block descriptor decides the translation of its page or of its 512 pages and of nothing else. |
| PtTables.PageTableNeeded | tinyvm/src/arch/aarch64/page_table.rs:478-525 | When no empty table is kept, a page table exists exactly where some page is mapped by 4 KB. |
| PtTables.BlockTableNeeded | tinyvm/src/arch/aarch64/page_table.rs:478-525 | and a table of 2 MB pieces exactly where some page is mapped. |
| PtTables.SameTables | tinyvm/src/arch/aarch64/page_table.rs:478-525 | So the translation determines the tables, and in the three-level form also their frames when both states lie within a common one. |
| PageTables.Indices | tinyvm/src/arch/aarch64/page_table.rs:97-112 | The four indices of an address are the positions, level by level, of its page in the tree of tables. |
| PageTables.Retained | tinyvm/src/arch/aarch64/page_table.rs:494-495 | retain drops exactly the frame of the freed table. |
| PageTables.PageTable.constructor | tinyvm/src/arch/aarch64/page_table.rs:168-173 | A new page table translates nothing and owns no frame but its directory. |
| PageTables.PageTable.NextTable | tinyvm/src/arch/aarch64/page_table.rs:269-297 | The step of map and map_2mb at every level: the next table exists afterwards, in the frame it had or in a fresh one, and no translation changes; if no frame is left nothing changes. |
| PageTables.PageTable.Map | tinyvm/src/arch/aarch64/page_table.rs:368-454 | One entry is added if the page was not mapped, all other pages translate as before; it fails, changing no translation, exactly if fewer frames are free than tables are missing. |
| PageTables.PageTable.Map2mb | tinyvm/src/arch/aarch64/page_table.rs:247-313 | The 512 pages of the piece are mapped if it held neither a block nor a table; all other pages translate as before; failure as for map. |
| PageTables.PageTable.Unmap | tinyvm/src/arch/aarch64/page_table.rs:457-527 | Exactly the one page is no longer translated; tables are only removed, and none is left empty but of height 3. |
| PageTables.PageTable.Unmap2mb | tinyvm/src/arch/aarch64/page_table.rs:316-365 | Exactly the 512 pages of the piece are no longer translated; tables as for unmap. |
| PageTables.PageTable.EmptyPage | tinyvm/src/arch/aarch64/page_table.rs:623-632 | True exactly if all 512 words are 0. |
| PageTables.PageTable.DropTable | tinyvm/src/arch/aarch64/page_table.rs:482-522 | An empty table is taken out and its frame, and no other, leaves pages; the translation stays as the operation left it. |
| PageTables.PageTable.MapRange | tinyvm/src/arch/aarch64/page_table.rs:550-555 | Each page of the range that was not mapped is, to consecutive addresses, exactly if its table existed or the free frames suffice for all tables missing up to it; no other page changes, and the frames spent are the tables made. |
| PageTables.AllMapped | tinyvm/src/arch/aarch64/page_table.rs:550-555 | map_range leaves no page of its range unmapped exactly if at least as many frames are free as tables are missing on the ways to its pages. |
| PageTables.AllBlocksMapped | tinyvm/src/arch/aarch64/page_table.rs:530-537 | The same for map_range_2mb, except for pages below a page table, which it never touches. |
| PageTables.SuppliedStep | tinyvm/src/arch/aarch64/page_table.rs:269-297 | One page or block more: it finds its tables exactly if it fits, whatever happened before in the range. |
| PageTables.PageTable.MapRange2mb | tinyvm/src/arch/aarch64/page_table.rs:530-537 | The same for 2 MB pieces. |
| PageTables.PageTable.UnmapRange | tinyvm/src/arch/aarch64/page_table.rs:558-563 | No page of the range is translated afterwards, every other as before. |
| PageTables.PageTable.UnmapRange2mb | tinyvm/src/arch/aarch64/page_table.rs:540-547 | The same for 2 MB pieces. |
| PageTables.PageTable.PtMapRange | tinyvm/src/arch/aarch64/page_table.rs:591-609 | Whether it chooses blocks or pages, exactly the unmapped pages of the range that fit go to consecutive addresses with the given attributes, blocks only where no page table hangs, and no other page changes. |
| PageTables.PageTable.PtUnmapRange | tinyvm/src/arch/aarch64/page_table.rs:612-619 | Whether it chooses blocks or pages, no page of the range is translated afterwards and no other changes. |
| PageTables.PageTable.Walk | tinyvm/src/arch/aarch64/page_table.rs:566-588 | The walk through the words in memory computes the abstract translation, byte by byte. |
| PageTables.BlockedIsHit | tinyvm/src/arch/aarch64/page_table.rs:436-438 | A page lies in a block exactly when a block translates it. |
| PageTables.BlocksAndPagesAgree | tinyvm/src/arch/aarch64/page_table.rs:591-609 | On an unmapped aligned range, mapping by blocks and mapping by pages give every page the same output address and attributes. |
| PageTables.MapUnmapRestores | tinyvm/src/arch/aarch64/page_table.rs:550-563 | Unmapping pages just mapped restores the translation of every page and all tables below height 3; in the three-level form exactly the old table frames. |
| PageTables.MapUnmapBlocksRestores | tinyvm/src/arch/aarch64/page_table.rs:530-547 | The same for 2 MB blocks. |
| PageTables.SamePages | tinyvm/src/arch/aarch64/page_table.rs:159-165 | The same tables mean the same frames in pages and the same free frames. |
| PageTables.RoundUpLeast | tinyvm/src/utils/util.rs:22-24 | round_up gives the least multiple that is not below the value. |
| PtHardware.HardwareTranslates | tinyvm/src/arch/aarch64/page_table.rs:22-26 | A walk by the bit positions of DDI 0487 section D8.3 finds a descriptor exactly where a page is mapped, with its attributes, and with its output address exactly if it is a page or a block mapped from a 2 MB boundary. |
| PtHardware.PageTableTranslates | tinyvm/src/arch/aarch64/page_table.rs:566-588 | So it does from the directory in every valid state of the class. |
| PtHardware.BlockStaysAligned | tinyvm/src/arch/aarch64/page_table.rs:591-609 | Mapping blocks to aligned addresses, as pt_map_range does, keeps all blocks aligned. |
| PtHardware.OthersStayAligned | tinyvm/src/arch/aarch64/page_table.rs:316-527 | So do mapping pages and unmapping anything. |
| WaitList.PlaceStable | tinyos/rust/tiny/src/list.rs:251-253 | The place the search finds is after every node that does not exceed the new one and before every node that does. |
| WaitList.InsertedSorted | tinyos/rust/tiny/src/list.rs:251-253 | Inserting there keeps the list sorted, for any total preorder. |
| WaitList.List.Attach | tinyos/rust/tiny/src/list.rs:359-419 | The links of all nodes are those of the sequence with the new node inserted after every node that does not exceed it. |
| WaitList.List.WakeHeadIf | tinyos/rust/tiny/src/list.rs:184-238 | Exactly the head is removed and detached, if there is one and it passes; else nothing changes. |
| WaitList.List.WakeWhile | tinyos/rust/tiny/src/list.rs:158-170 | Exactly the longest prefix that passes is woken. |
| WaitList.List.WakeAll | tinyos/rust/tiny/src/list.rs:175-177 | Every node is woken and the list is empty. |
| WaitList.List.DropNode | tinyos/rust/tiny/src/list.rs:550-598 | Dropping an attached node removes exactly it, wherever it stands, and links its neighbours, head and tail. |
| WaitList.Wait.Poll | tinyos/rust/tiny/src/list.rs:350-438 | The first poll attaches, later ones resolve exactly when the node has been detached, again and again; a resolved future no longer has its cleanup action. |
| WaitList.Wait.Drop | tinyos/rust/tiny/src/list.rs:449-462 | The cleanup action runs exactly if the node was woken and nobody polled since; a waiting node leaves the list, an unpolled future has no effect. |
| WaitOrder.Cancel | tinyos/rust/tiny/src/list.rs:265-267 | Cancelling a queued claim keeps the others in order of arrival. |
| WaitOrder.NoOvertaking | tinyos/rust/tiny/src/rwlock.rs:55-75 | Of two claims that queued and were not cancelled there, the later is granted only after the earlier. |
| WaitOrder.ServedMoves | tinyos/rust/tiny/src/list.rs:158-177 | Waking a prefix of the queue loses nobody: who was queued or woken still is. |
| WaitOrder.PassedMoves | tinyos/rust/tiny/src/list.rs:449-462 | Nor does handing on the grant of a dropped claim, but that claim. |
| WaitOrder.CancelMoves | tinyos/rust/tiny/src/rwlock.rs:302-320 | Nor does cancelling a queued claim and serving those it held back. |
| RwLocks.Exclusion | tinyos/rust/tiny/src/rwlock.rs:51-53 | In every state any two holders of a grant are both shared, or both exclusive and split from one acquisition. |
| RwLocks.ReleaseStep | tinyos/rust/tiny/src/rwlock.rs:385-390 | Whoever gives back a grant finds readers positive if it was shared and negative if exclusive: the assertions of the release routines hold. |
| RwLocks.WakeSharedStep | tinyos/rust/tiny/src/rwlock.rs:411-425 | Counting a woken shared claim keeps the count of grants and the order of arrival. |
| RwLocks.WakeExclusiveStep | tinyos/rust/tiny/src/rwlock.rs:399-405 | Waking an exclusive claim at a free lock makes it the one grant of a new acquisition. |
| RwLocks.CancelStep | tinyos/rust/tiny/src/rwlock.rs:340-343 | A claim cancelled in the queue takes no grant with it and the others keep their order. |
| RwLocks.LockImpl.TryLockShared | tinyos/rust/tiny/src/rwlock.rs:284-300 | Succeeds exactly if nobody waits and the count is neither negative nor full; one more shared grant then. |
| RwLocks.LockImpl.TryLockExclusive | tinyos/rust/tiny/src/rwlock.rs:367-378 | Succeeds exactly if nothing holds a grant; nobody waits then, so nobody is overtaken. |
| RwLocks.LockImpl.WakeShared | tinyos/rust/tiny/src/rwlock.rs:302-320 | Shared claims are woken from the head, in order and each counted, until the queue is empty, an exclusive claim is at its head, or the count is full. |
| RwLocks.LockImpl.ProcessExclusiveCancellation | tinyos/rust/tiny/src/rwlock.rs:302-320 | After a queued exclusive claim is gone nobody is stranded: the shared claims it held back are served. |
| RwLocks.LockImpl.ReleaseExclusive | tinyos/rust/tiny/src/rwlock.rs:385-430 | Giving back the last exclusive grant serves the claim at the head if exclusive, else the shared claims there; an earlier one serves nobody; nobody is stranded or overtaken. |
| RwLocks.LockImpl.ReleaseShared | tinyos/rust/tiny/src/rwlock.rs:432-468 | Giving back the last shared grant serves an exclusive claim at the head, giving one back at the full count serves one shared claim; nobody is stranded or overtaken. |
| RwLocks.LockImpl.CloneShared | tinyos/rust/tiny/src/rwlock.rs:485-494 | Splitting a shared guard counts one more grant, and is refused exactly at the full count. |
| RwLocks.LockImpl.CloneExclusive | tinyos/rust/tiny/src/rwlock.rs:597-606 | Splitting an exclusive guard counts one more grant of the same acquisition, and is refused exactly at the full count. |
| RwLocks.LockImpl.DropGuard | tinyos/rust/tiny/src/rwlock.rs:496-502 | Dropping any guard is the release of its grant. |
| RwLocks.Claim.Poll | tinyos/rust/tiny/src/rwlock.rs:256-282 | A claim is granted at its first poll exactly if it overtakes nobody and the lock allows it, and then only the count and the guards change; else it waits at the end; later it resolves exactly when woken, and the grant it was given becomes its guard. No other claim is touched. |
| RwLocks.Claim.Drop | tinyos/rust/tiny/src/rwlock.rs:322-365 | At any point a dropped future leaves the lock consistent: a woken one gives its grant to the next in line, a queued one only leaves, and a queued exclusive one lets those behind it go ahead. |
| RwLocks.Claim.Bystander | tinyos/rust/tiny/src/rwlock.rs:256-365 | A step of the lock or of another claim leaves this claim as it should be: still queued or woken, or woken by the step. |
| RwLocks.PollAmong | tinyos/rust/tiny/src/rwlock.rs:256-282 | Polling one of any number of claims keeps them all valid, and everybody queued or woken one of them. |
| RwLocks.DropAmong | tinyos/rust/tiny/src/rwlock.rs:322-365 | So does dropping one, whatever its stage; none of the others refers to it. |
| RwLocks.DropGuardAmong | tinyos/rust/tiny/src/rwlock.rs:496-502 | So does dropping any guard. |
| RwLocks.TryLockAmong | tinyos/rust/tiny/src/rwlock.rs:284-300 | So does trying the lock for either access. |
| RwLocks.CloneAmong | tinyos/rust/tiny/src/rwlock.rs:485-494 | So does cloning any guard. |
| RwLocks.ReleaseMoves | tinyos/rust/tiny/src/rwlock.rs:385-468 | A release loses no claim. |
| Semaphores.WakeStep | tinyos/rust/tiny/src/semaphore.rs:184-190 | A permit handed to the head of the queue is neither lost nor doubled. |
| Semaphores.Semaphore.TryAcquire | tinyos/rust/tiny/src/semaphore.rs:146-153 | Takes a permit exactly if one is available. |
| Semaphores.Semaphore.ReleaseMultiple | tinyos/rust/tiny/src/semaphore.rs:181-214 | The first n waiters, or all of them, get a permit each in order, the rest becomes available; permits are conserved and none is available while somebody waits. |
| Semaphores.Semaphore.Release | tinyos/rust/tiny/src/semaphore.rs:321-323 | Releasing permits that were held keeps the total, releasing others raises it by exactly their number. |
| Semaphores.Acquire.FirstPoll | tinyos/rust/tiny/src/semaphore.rs:125-141 | Resolves at once exactly if a permit is available, which it takes, else waits at the end of the queue; no other waiter is touched. |
| Semaphores.Acquire.PollAgain | tinyos/rust/tiny/src/semaphore.rs:125-141 | Resolves exactly when a permit has been handed over, which it then holds. |
| Semaphores.Acquire.Drop | tinyos/rust/tiny/src/semaphore.rs:131-139 | A woken waiter's permit goes to the next in line, or becomes available if nobody waits; a queued waiter only leaves; an unpolled or finished future changes nothing. |
| Semaphores.Acquire.Bystander | tinyos/rust/tiny/src/semaphore.rs:125-141 | A step of the semaphore or of another future leaves this one as it should be. |
| Semaphores.PollAmong | tinyos/rust/tiny/src/semaphore.rs:125-141 | Polling one of any number of futures keeps them all valid, and everybody queued or woken one of them. |
| Semaphores.DropAmong | tinyos/rust/tiny/src/semaphore.rs:131-139 | So does dropping one. |
| Semaphores.ReleaseAmong | tinyos/rust/tiny/src/semaphore.rs:181-214 | So does releasing any number of permits. |
| Semaphores.TryAmong | tinyos/rust/tiny/src/semaphore.rs:146-153 | So does trying to take a permit. |
| Mutexes.Mutex.OneOwner | tinyos/rust/tiny/src/mutex.rs:158-168 | There is at most one owner, counting a woken waiter; with state 0 there is none and nobody waits. |
| Mutexes.Mutex.TryLock | tinyos/rust/tiny/src/mutex.rs:135-141 | Succeeds exactly if the mutex is free, and makes the caller the one owner. |
| Mutexes.Mutex.Unlock | tinyos/rust/tiny/src/mutex.rs:158-168 | The head of the queue becomes the owner with the state left taken; with nobody waiting the mutex is free. |
| Mutexes.Mutex.DropGuard | tinyos/rust/tiny/src/mutex.rs:295-304 | Dropping the owner's guard passes the mutex on or frees it. |
| Mutexes.Lock.FirstPoll | tinyos/rust/tiny/src/mutex.rs:198-206 | Locks a free mutex at once, else waits at the end of the queue. |
| Mutexes.Lock.PollAgain | tinyos/rust/tiny/src/mutex.rs:207-227 | Resolves exactly when the mutex was passed on to this future, and the state is then 1 as asserted. |
| Mutexes.Lock.Drop | tinyos/rust/tiny/src/mutex.rs:209-218 | A woken waiter passes the mutex on, or frees it if nobody waits; a queued one only leaves; an unpolled or finished future changes nothing. |
| Mutexes.Lock.Bystander | tinyos/rust/tiny/src/mutex.rs:198-227 | A step of the mutex or of another future leaves this one as it should be. |
| Mutexes.PollAmong | tinyos/rust/tiny/src/mutex.rs:198-227 | Polling one of any number of futures keeps them all valid, and everybody queued or woken one of them. |
| Mutexes.DropAmong | tinyos/rust/tiny/src/mutex.rs:209-218 | So does dropping one. |
| Mutexes.UnlockAmong | tinyos/rust/tiny/src/mutex.rs:158-168 | So does unlocking by the owner. |
| Mutexes.TryAmong | tinyos/rust/tiny/src/mutex.rs:135-141 | So does trying to lock. |
| MemRegions.LiveApart | tinyvm/src/kernel/mem.rs:78-101 | Live allocations are pairwise disjoint and lie in memory of the platform's regions. |
| MemRegions.SplitLive | tinyvm/src/kernel/mem.rs:84-94 | Splitting a free region adds exactly the one allocation. |
| MemRegions.SplitCover | tinyvm/src/kernel/mem.rs:84-94 | and covers exactly the addresses covered before. |
| MemRegions.MergeLive | tinyvm/src/kernel/mem.rs:120-142 | Merging two free regions, one removed from the vector and indices shifted, changes no allocation. |
| MemRegions.MergeCover | tinyvm/src/kernel/mem.rs:120-142 | and covers exactly the addresses covered before. |
| MemRegions.MergeStep | tinyvm/src/kernel/mem.rs:120-142 | After a merge the shifted index is that of the merged region, and only that region can touch another free one. |
| MemRegions.MergeKept | tinyvm/src/kernel/mem.rs:120-142 | A merge changes no third region, and the merged one stands where the lower of the two stood. |
| MemRegions.VmRegion.constructor | tinyvm/src/kernel/mem.rs:20-50 | Every region of the platform but the first becomes one free region. |
| MemRegions.VmRegion.Alloc | tinyvm/src/kernel/mem.rs:78-101 | Fails, changing nothing, exactly if every region has too few free pages; else the first that fits gives its first pages away, what is left of it goes to the end of the vector, all other regions keep their places, free pages drop by as many and total pages, memory covered and other allocations stay. |
| MemRegions.VmRegion.Free | tinyvm/src/kernel/mem.rs:103-147 | Exactly the one allocation ends, its pages are free again, the free region that now holds it touches no other free one, no other region changes, the vector keeps its order, and if no two free regions touched before none do after; freeing anything else changes nothing. |
| MemRegions.VmRegion.MergeAll | tinyvm/src/kernel/mem.rs:114-144 | The merge loop ends, because every round removes a region, with no free neighbour left. |
| MemRegions.VmRegion.MergeOnce | tinyvm/src/kernel/mem.rs:114-143 | One round merges a free neighbour on either side, or finds that there is none. |
| Spsc.StepInv | tinyos/rust/tiny/src/spsc.rs:122-131 | Every atomic step of either end, in any order, keeps the ring consistent. |
| Spsc.RunSafe | tinyos/rust/tiny/src/spsc.rs:297-327 | In every interleaving what was popped is a prefix of what was pushed, at most n - 1 elements are stored, and no slot is read uninitialised or written over. |
| Spsc.SlotAccess | tinyos/rust/tiny/src/spsc.rs:297-327 | In every interleaving a slot that is written holds nothing, and one that is read holds the oldest element not yet popped. |
| Spsc.ReserveExact | tinyos/rust/tiny/src/spsc.rs:192-215 | try_reserve hands out the slot at head exactly if one more element fits, and None exactly if it does not. |
| Spsc.CanPushExact | tinyos/rust/tiny/src/spsc.rs:181-186 | can_push says true exactly if one more element fits. |
| Spsc.PopExact | tinyos/rust/tiny/src/spsc.rs:297-306 | try_pop goes on to take an element exactly if one has been pushed and not popped. |
| Spsc.PromiseKept | tinyos/rust/tiny/src/spsc.rs:172-215 | Once can_push has said true and until something is pushed, a try_reserve succeeds, whatever the popping end does before, between and after its two loads. |
| Spsc.PushedGiven | tinyos/rust/tiny/src/spsc.rs:377-381 | In every interleaving the elements pushed are the values given to push, in order. |
| Spsc.PushStep | tinyos/rust/tiny/src/spsc.rs:377-381 | A push on a queue with room puts the value into the slot at head, advances head, and appends it. |
| Spsc.PopStep | tinyos/rust/tiny/src/spsc.rs:297-327 | A pop from a queue that is not empty takes the oldest element and clears its slot. |
| Spsc.Drop | tinyos/rust/tiny/src/spsc.rs:137-157 | Dropping the queue drops exactly the elements pushed and not popped, each once, in order. |
| Executor.StepInv | tinyos/rust/tiny/src/task.rs:552-577 | Every step of the executor, of the task it polls and of notifying code keeps track of every waiting task's bit. |
| Executor.StepLost | tinyos/rust/tiny/src/task.rs:857-911 | Of all steps only the subscription of until can leave a task waiting for good, and does exactly if the condition holds by then and neither the wake bits nor any notifier at work has or will bring the task's bit. |
| Executor.WindowExact | tinyos/rust/tiny/src/task.rs:864-873 | For anything that happens between test and subscription: the subscription loses the wakeup exactly if the condition was last made true there, every notifier at work swapped its mask, and the task's bit was nowhere and set by nobody. |
| Executor.LostExactly | tinyos/rust/tiny/src/task.rs:857-911 | In every run no wakeup is lost, at any time and for any task, if and only if no such window of until occurs in it. |
| Executor.NoLostWakeup | tinyos/rust/tiny/src/task.rs:857-911 | In a run without such a window, whenever no notifier is at work, a task waiting for a condition that holds has its bit set, or captured in a pass that has not reached it. |
| Executor.IdleIsRight | tinyos/rust/tiny/src/task.rs:571-575 | When a pass is over, no wake bit is set and no wakeup was lost, no task that could go on is waiting. |
| Executor.RacyNeverLost | tinyos/rust/tiny/src/task.rs:763-768 | With until_racy no wakeup is lost in any interleaving. |
| Executor.SafeUntil | tinyos/rust/tiny/src/task.rs:857-873 | No wakeup is lost in a run where, between each test of until that fails and its subscription, no notify makes a condition true or no notify swaps the mask. |
| Executor.UntilLosesWakeup | tinyos/rust/tiny/src/task.rs:864-873 | From every state between a test of until and its subscription in which the task's bit is not set, subscribed or with a notifier, and no notifier has yet to swap the mask, a single notify loses the wakeup: the task waits, its condition holds, and nothing at work will bring a poll. |
| Executor.WindowReached | tinyos/rust/tiny/src/task.rs:864-873 | For every number of wake bits, tasks and notifiers such a state is reached by the first poll of a task that uses until. |
| Executor.LostShows | tinyos/rust/tiny/src/task.rs:857-873 | A lost wakeup stays lost when all notifiers have finished: the task waits, its condition holds, and no poll of it is coming. |
| Executor.ResolvesExactly | tinyos/rust/tiny/src/task.rs:857-899 | A poll of until or until_racy resolves exactly if its test finds the condition true in that state, and otherwise the task goes on waiting; nothing else ends a wait but leaving it. |
| Executor.WaitEnds | tinyos/rust/tiny/src/task.rs:857-899 | In every run, whenever a wait has resolved there was a step of that task whose test found its condition true, unless it left without a test. |
| Executor.Progress | tinyos/rust/tiny/src/task.rs:552-577 | The executor, the task it polls and every notifier always have a next step. |
| Executor.WakeBit | tinyos/rust/tiny/src/task.rs:168-173 | Task i below the number of bits has bit i to itself, and bits repeat with every further word. |
| Executor.WakeBits | tinyos/rust/tiny/src/task.rs:565 | A bit is set exactly if some wake set it since the wake bits were captured last. |
| Executor.PolledExactly | tinyos/rust/tiny/src/task.rs:565-570 | A pass polls exactly the tasks whose bit was set between the last two captures. |
| TicketLock.Halves | tinyos/cimp/tiny/include/spinlock.h:9-17 | The draw adds one to tail around 2^16 and leaves head alone, the release adds one to head and leaves tail alone. |
| TicketLock.WordParts | tinyos/cimp/tiny/include/spinlock.h:9-17 | The same on words written as a low and a high half, with every carry spelt out. |
| TicketLock.StepInv | tinyos/cimp/tiny/spinlock.c:24-48 | Every step of any thread keeps tickets equal to positions in the order of draws. |
| TicketLock.RunSafe | tinyos/cimp/tiny/spinlock.c:24-48 | With at most 2^16 threads, in every interleaving at most one is inside, threads are served in the order they drew, and the next in that order enters at its next look. |
| TicketLock.Overrun | tinyos/cimp/tiny/spinlock.c:30-35 | The bound is exact: with any more threads some run has two inside. |
| Intervals.PositiveIsYielded | tinyvm/src/utils/interval.rs:24-43 | Because fewer ranges than INF can be added, no number of them outweighs one excluded range: the sum at a point is positive exactly if the exclusions there balance and the additions do not, or more exclusions have their ends swapped than not. |
| Intervals.ForwardKept | tinyvm/src/utils/interval.rs:24-43 | With no ends swapped those points are exactly the ones in an added range and in no excluded one. |
| Intervals.SwappedAdds | tinyvm/src/utils/interval.rs:39-43 | Excluding a range with swapped ends adds its points instead, where nothing excludes them. |
| Intervals.SortSorted | tinyvm/src/utils/interval.rs:67-70 | Sorting keeps the sum at every point. |
| Intervals.GroupSums | tinyvm/src/utils/interval.rs:70-75 | Grouping equal positions keeps the sum at every point. |
| Intervals.GroupIncreasing | tinyvm/src/utils/interval.rs:70-75 | and leaves every position once, in order. |
| Intervals.IntervalExcluder.AddRange | tinyvm/src/utils/interval.rs:24-31 | One more added range, refused exactly if the events would exceed the limit. |
| Intervals.IntervalExcluder.ExcludeRange | tinyvm/src/utils/interval.rs:39-43 | One more excluded range. |
| Intervals.IntervalIter.Next | tinyvm/src/utils/interval.rs:83-98 | The next interval reaches from where the sum becomes positive to where it stops being so; its left end has been written whenever it is read; nothing is left after the last. |
| Intervals.Collect | tinyvm/src/utils/interval.rs:63-98 | All intervals together: not empty, ordered, strictly apart, and exactly the points of positive sum, which are those in some added and no excluded range if no ends are swapped. |
| Reservations.Bytes32Back | tinyvm/src/device/memrsv.rs:52-63 | A big-endian word reads back as it was written. |
| Reservations.Be32Bytes | tinyvm/src/device/memrsv.rs:52-63 | A word is read with its most significant byte first. |
| Reservations.EntryNumbers | tinyvm/src/device/memrsv.rs:66-77 | An entry is its address in 8 bytes and then its size in 8 bytes, most significant byte first. |
| Reservations.ReservedInBytes | tinyvm/src/device/memrsv.rs:179-205 | After success, by byte offsets alone: the header's two offsets are raised, structure and strings are moved, old entries stay, byte j of the k-th new chunk is that byte of its base and byte 8 + j that of its size, and 16 zero bytes follow. |
| Reservations.CopyWithin | tinyvm/src/device/memrsv.rs:104 | The destination holds the bytes the source held before, overlap or not. |
| Reservations.Shift | tinyvm/src/device/memrsv.rs:87-107 | The section is refused, nothing changed, exactly if it or its new place does not fit; else its offset and then its bytes are moved. |
| Reservations.BothMoved | tinyvm/src/device/memrsv.rs:153-175 | Moving strings and then structure up leaves the bytes of both readable through the new offsets and the gap before them untouched. |
| Reservations.Resize | tinyvm/src/device/memrsv.rs:153-175 | Succeeds exactly if there is room, and otherwise changes nothing. |
| Reservations.ListsEntries | tinyvm/src/device/memrsv.rs:187-190 | Entries followed by a terminator are what a reader of the block sees. |
| Reservations.MemReserve | tinyvm/src/device/memrsv.rs:179-205 | On a blob laid out in the usual order it succeeds exactly if there is room, and else changes nothing; on success structure and strings read the same through the updated offsets, the block lists the old entries and then the new ones up to the first (0, 0), and every byte is as ReservedInBytes says. |
| Reservations.ReservedReads | tinyvm/src/device/memrsv.rs:179-205 | With no (0, 0) among the ranges a reader sees the old entries followed by all new ones, and the blob is laid out as before. |
| Calendar.DaysClosed | tinyos/cimp/tiny/util.c:147-156 | The days before a year, counted year by year by the leap-year rule, follow the usual closed form. |
| Calendar.FourCenturies | tinyos/cimp/tiny/util.c:177-181 | The calendar repeats after 400 years, which are a whole number of weeks. |
| Calendar.Date | tinyos/cimp/tiny/util.c:164-219 | For every t all fields are in range, converting the date back gives the low 40 bits of t as a signed number, weekday and day of the year agree with it, and all loops end. |
| Calendar.YearOf | tinyos/cimp/tiny/util.c:198-206 | The two loops find the year that contains a day. |
| Calendar.MonthOf | tinyos/cimp/tiny/util.c:210-215 | The loop finds the month and never runs past December. |
| Calendar.MonthLength | tinyos/cimp/tiny/util.c:151-156 | The lengths of the twelve months. |
| Calendar.MonthStartClosed | tinyos/cimp/tiny/util.c:208-213 | The days before a month, by the closed form for months from March on. |
| Calendar.SecondsClosed | tinyos/cimp/tiny/util.c:164-219 | The seconds a date stands for, as an arithmetic expression of its fields that names no table and no loop. |
| Calendar.SignedIs | tinyos/cimp/tiny/util.c:176-184 | The low 40 bits read as a two's complement number. |
| TickMath.MulDivExact | tinyos/cimp/tiny/util.c:90-108 | No intermediate value overflows: the result is the low 64 bits of the exact quotient a * b / c. |

## Left out

- RbHeap.Law: stored values are claimed right only for callbacks that a rotation leaves unchanged, because the rotate callback copies the old value without recomputing it.
- `RB_DECLARE_CALLBACKS` for several augmented fields at once, and `rb_entry` pointer arithmetic; a node carries its item and one value directly.
- `rbtree_postorder_for_each_entry_safe`: only the two functions it calls are modelled.
- Which garbage the fields of an erased or replaced node hold afterwards.
- `access_permission` of the page table, which steps by whole 1 GB or 2 MB from an unaligned address.
- Page-table operations that mix granularities, TLB maintenance, and the `Arc` and `Mutex` around the page list.
- PageTables.PageTable.MemPageAlloc: a failing allocation is an error value; the source's allocator returns a null frame without checking it.
- Wakers as objects: a waiting node has one or not, and waking is leaving the list. Replacing one waker by another on a later poll has no effect here.
- The data inside locks, projections of guards, `CancelSafe`, pinning and lifetimes: the type system of the source sees to them.
- Semaphores.Semaphore.ReleaseMultiple: requires that what is left after serving the queue fits the count, where the source panics or wraps.
- RwLocks.LockImpl.CloneShared: a panic is a null result.
- Timers of the executor, `FairQueue` and `PeriodicGate`, and tasks that wait on more than one `Notify`; wakes from elsewhere are steps that set any bits.
- Weak memory orderings, barriers, interrupt masking and preemption counts around the protocols.
- `can_pop` of the queue, which changes nothing, and the wakers its push and pop notify.
- Queue storage of length 0.
- `mem_rsvmap_resize` with a negative count, which `mem_reserve` never asks for.
- `timeofday`, `nanosecond` and the other readings of clocks; `atoi`, `atoh` and string routines.
- Registers, interrupt controllers, device models, VM configuration and device-tree writers.
