/** The public operations of rbtree.h and rbtree.c on a root and its linked nodes. */
module RbTree {
  import opened Common
  import opened RbShape
  import opened RbHeap
  import opened RbRotate
  import opened RbPropagate
  import opened RbErase
  import opened RbSuccessor
  import opened RbEraseTwo
  import opened RbOrder
  import RbInsert
  import RbEraseColor

  // ---- erasing --------------------------------------------------------------------------

  /** Unlinking left either a red-black tree, or one black node too few below rebalance. */
  ghost predicate Unlinking(rk: Rank, m: View, a: Values, top: RbNode?, cb: Callbacks, order: seq<RbNode>,
                            rebalance: RbNode?, d: Ctx, t: Tree) {
    if rebalance == null then Settled(rk, m, a, top, cb, t, order)
    else RbEraseColor.Deficient(rk, m, a, top, cb, d, Leaf, order) && Owner(d) == rebalance
  }

  lemma LoneUnlinked(rk: Rank, m: View, a: Values, top: RbNode?, cb: Callbacks, c: Ctx, l: Tree, node: RbNode, nc: bool, r: Tree, u: Tree, rebalance: RbNode?)
    requires RedBlack(Plug(c, Node(l, node, nc, r))) && Law(cb)
    requires (l.Leaf? && u == r) || (r.Leaf? && u == l)
    requires Focus(rk, m, top, c, Paint(u, nc)) && AugAll(cb, a, c, Paint(u, nc))
    requires rebalance == if u.Leaf? && !nc then Owner(c) else null
    ensures Unlinking(rk, m, a, top, cb, Around(c, Inorder(l) + Inorder(r)), rebalance, c, Plug(c, Paint(u, nc)))
  {
    hide Focus, AugAll, AugOk, RedBlack, RbEraseColor.EraseShape, Settled, Law;
    LoneShape(c, l, node, nc, r, u);
    if rebalance == null {
      Settle(rk, m, a, top, cb, c, Paint(u, nc), Around(c, Inorder(l) + Inorder(r)));
    }
  }

  lemma TwoUnlinked(rk: Rank, m: View, a: Values, top: RbNode?, cb: Callbacks, c: Ctx, x: Tree, node: RbNode, nc: bool, y: Tree, rebalance: RbNode?)
    requires RedBlack(Plug(c, Node(x, node, nc, y))) && Law(cb) && y.Node?
    requires var b := InR(c, MinTree(y).node, nc, x); Focus(rk, m, top, b, RemoveMin(y)) && AugAll(cb, a, b, RemoveMin(y))
    requires rebalance == if MinTree(y).right.Leaf? && !MinTree(y).red then MinParent(y, MinTree(y).node) else null
    ensures var b := InR(c, MinTree(y).node, nc, x);
      Unlinking(rk, m, a, top, cb, Around(c, Inorder(x) + Inorder(y)), rebalance, SpineCtx(b, y), Plug(b, RemoveMin(y)))
  {
    var s, u := MinTree(y).node, MinTree(y).right;
    var b := InR(c, s, nc, x);
    var d := SpineCtx(b, y);
    TwoShape(c, x, node, nc, y);
    assert Inorder(Paint(Leaf, false)) == [];
    hide Focus, AugAll, AugOk, RedBlack, RbEraseColor.EraseShape, Settled, Law, RemoveMin, MinTree, MinParent, SpineCtx;
    SpineOrder(b, y);
    assert Inorder(x) + [s] + Inorder(RemoveMin(y)) == Inorder(x) + Inorder(y);
    SpinePlug(b, y);
    PaintOrder(u, false);
    SpineOwner(b, y, s);
    if rebalance == null {
      Settle(rk, m, a, top, cb, b, RemoveMin(y), Around(c, Inorder(x) + Inorder(y)));
    } else {
      FocusPlug(rk, m, top, b, RemoveMin(y));
      FocusPlug(rk, m, top, d, Paint(u, false));
      AugPlug(cb, a, b, RemoveMin(y));
      AugPlug(cb, a, d, Paint(u, false));
    }
  }

  /** __rb_erase_augmented */
  method UnlinkNode(root: RbRoot, node: RbNode, cb: Callbacks, ghost S: set<RbNode>, ghost rk: Rank,
                    ghost c: Ctx, ghost l: Tree, ghost nc: bool, ghost r: Tree)
    returns (rebalance: RbNode?, ghost d: Ctx, ghost t: Tree)
    requires Focus(rk, LinksOf(S), root.node, c, Node(l, node, nc, r)) && RedBlack(Plug(c, Node(l, node, nc, r)))
    requires Law(cb) && AugAll(cb, ValuesOf(S), c, Node(l, node, nc, r))
    modifies root`node, S`left, S`right, S`parent, S`red, S`aug
    ensures Unlinking(rk, LinksOf(S), ValuesOf(S), root.node, cb, Around(c, Inorder(l) + Inorder(r)), rebalance, d, t)
  {
    hide Focus, AugAll, AugOk, RedBlack, Law, Unlinking, RemoveMin, MinTree, MinParent, SpineCtx, Plug;
    LoneReady(rk, LinksOf(S), root.node, c, l, node, nc, r, l);
    var child, tmp := node.right, node.left;
    if tmp == null {
      rebalance := EraseLone(root, node, child, cb, S, rk, c, l, nc, r, r);
      LoneUnlinked(rk, LinksOf(S), ValuesOf(S), root.node, cb, c, l, node, nc, r, r, rebalance);
      d, t := c, Plug(c, Paint(r, nc));
    } else if child == null {
      rebalance := EraseLone(root, node, tmp, cb, S, rk, c, l, nc, r, l);
      LoneUnlinked(rk, LinksOf(S), ValuesOf(S), root.node, cb, c, l, node, nc, r, l, rebalance);
      d, t := c, Plug(c, Paint(l, nc));
    } else {
      rebalance := EraseTwo(root, node, child, cb, S, rk, c, l, nc, r);
      TwoUnlinked(rk, LinksOf(S), ValuesOf(S), root.node, cb, c, l, node, nc, r, rebalance);
      ghost var b := InR(c, MinTree(r).node, nc, l);
      d, t := SpineCtx(b, r), Plug(b, RemoveMin(r));
    }
  }

  /** rb_erase_augmented with node in the hole of c. */
  method EraseAt(root: RbRoot, node: RbNode, cb: Callbacks, ghost S: set<RbNode>, ghost rk: Rank,
                 ghost c: Ctx, ghost l: Tree, ghost nc: bool, ghost r: Tree) returns (ghost t: Tree)
    requires Focus(rk, LinksOf(S), root.node, c, Node(l, node, nc, r)) && RedBlack(Plug(c, Node(l, node, nc, r)))
    requires Law(cb) && AugAll(cb, ValuesOf(S), c, Node(l, node, nc, r))
    modifies root`node, S`left, S`right, S`parent, S`red, S`aug
    ensures Settled(rk, LinksOf(S), ValuesOf(S), root.node, cb, t, Around(c, Inorder(l) + Inorder(r)))
  {
    hide Focus, AugAll, AugOk, RedBlack, Law, Settled, RbEraseColor.Deficient;
    ghost var order, d := Around(c, Inorder(l) + Inorder(r)), c;
    var rebalance: RbNode?;
    rebalance, d, t := UnlinkNode(root, node, cb, S, rk, c, l, nc, r);
    if rebalance != null {
      t := RbEraseColor.EraseColor(root, rebalance, cb, S, rk, d, order);
    }
  }

  /** rb_erase_augmented, and rb_erase with the dummy callbacks: from a red-black tree to one
      without node, the others in the same order, with every stored value right again. */
  method Erase(root: RbRoot, node: RbNode, cb: Callbacks, ghost S: set<RbNode>, ghost t: Tree) returns (ghost t': Tree)
    requires Represents(LinksOf(S), root.node, t) && RedBlack(t) && node in Inorder(t)
    requires Law(cb) && AugOk(cb, ValuesOf(S), t)
    modifies root`node, S`left, S`right, S`parent, S`red, S`aug
    ensures Represents(LinksOf(S), root.node, t') && RedBlack(t') && AugOk(cb, ValuesOf(S), t')
    ensures Drops(Inorder(t), node, Inorder(t'))
  {
    ghost var m, top := LinksOf(S), root.node;
    ghost var rk := RankOf(Inorder(t));
    ghost var c, z := Locate(Top, t, node);
    hide Linked, NoDup, Focus, AugAll, AugOk, RedBlack, Law, RankOf, Represents, Drops;
    PositionsExist(m, top, t);
    FocusPlug(rk, m, top, c, z);
    AugPlug(cb, ValuesOf(S), c, z);
    t' := EraseAt(root, node, cb, S, rk, c, z.left, z.red, z.right);
    PositionsDistinct(rk, LinksOf(S), root.node, t');
    RemovedAt(c, z);
  }

  /** s' is s without one occurrence of n. */
  ghost predicate Drops(s: seq<RbNode>, n: RbNode, s': seq<RbNode>) {
    exists k :: 0 <= k < |s| && s[k] == n && s' == s[..k] + s[k + 1..]
  }

  lemma RemovedAt(c: Ctx, z: Tree)
    requires z.Node?
    ensures Drops(Inorder(Plug(c, z)), z.node, Around(c, Inorder(z.left) + Inorder(z.right)))
  {
    assert Inorder(z) == Inorder(z.left) + [z.node] + Inorder(z.right);
    hide Inorder, Before, After, Around, Plug, Drops;
    PlugIsAround(c, z);
    AroundParts(c, Inorder(z));
    AroundParts(c, Inorder(z.left) + Inorder(z.right));
    DropMiddle(Before(c), Inorder(z.left), z.node, Inorder(z.right), After(c));
  }

  lemma DropMiddle(a: seq<RbNode>, l: seq<RbNode>, n: RbNode, r: seq<RbNode>, b: seq<RbNode>)
    ensures Drops(a + (l + [n] + r) + b, n, a + (l + r) + b)
  {
    var s, p, q := a + (l + [n] + r) + b, a + l, r + b;
    assert s == p + [n] + q && s[|p|] == n;
    assert s[..|p|] == p && s[|p| + 1..] == q;
    assert a + (l + r) + b == p + q;
  }

  // ---- inserting ------------------------------------------------------------------------

  /** The pointer rb_link of rb_link_node. */
  datatype Slot = RootSlot | LeftSlot | RightSlot

  function SlotOf(c: Ctx): Slot {
    match c
    case Top => RootSlot
    case InL(_, _, _, _) => LeftSlot
    case InR(_, _, _, _) => RightSlot
  }

  method LinkWrites(root: RbRoot, node: RbNode, parent: RbNode?, slot: Slot)
    requires parent != node && (slot == RootSlot <==> parent == null)
    modifies root`node, node`left, node`right, node`parent, node`red, Opt(parent)`left, Opt(parent)`right
    ensures node.left == node.right == null && node.parent == parent && node.red
    ensures root.node == if slot == RootSlot then node else old(root.node)
    ensures slot == LeftSlot ==> parent.left == node && parent.right == old(parent.right)
    ensures slot == RightSlot ==> parent.right == node && parent.left == old(parent.left)
  {
    node.parent, node.red := parent, true;
    node.left, node.right := null, null;
    match slot
    case RootSlot => root.node := node;
    case LeftSlot => parent.left := node;
    case RightSlot => parent.right := node;
  }

  method LinkStep(root: RbRoot, node: RbNode, parent: RbNode?, slot: Slot, ghost S: set<RbNode>, ghost c: Ctx)
    requires node in S && parent == Owner(c) && slot == SlotOf(c) && Opt(parent) <= S && parent != node
    modifies root`node, S`left, S`right, S`parent, S`red
    ensures Only(old(LinksOf(S)), LinksOf(S), node, null, null, null, null, Owner(c))
    ensures Redirected(old(LinksOf(S)), LinksOf(S), old(root.node), root.node, c, node)
    ensures LinksOf(S)[node] == Links(null, null, Owner(c), true)
  {
    LinkWrites(root, node, parent, slot);
  }

  lemma LinkedLeaf(rk: Rank, m: View, m': View, top: RbNode?, top': RbNode?, c: Ctx, node: RbNode)
    requires Focus(rk, m, top, c, Leaf) && node in rk && Lo(rk, c) < rk[node] < Hi(rk, c)
    requires Only(m, m', node, null, null, null, null, Owner(c)) && Redirected(m, m', top, top', c, node)
    requires node in m' && m'[node] == Links(null, null, Owner(c), true)
    ensures Focus(rk, m', top', c, Node(Leaf, node, true, Leaf))
  {
    hide Seg, Redirected, Only;
    Surround(rk, m, m', c, null, node, top, top', node, null, null, null, null, Owner(c));
    assert Seg(rk, m', c, node, top');
    assert Match(rk, m', Leaf, node, Lo(rk, c), rk[node]);
    assert Match(rk, m', Leaf, node, rk[node], Hi(rk, c));
    assert Match(rk, m', Node(Leaf, node, true, Leaf), Owner(c), Lo(rk, c), Hi(rk, c));
  }

  lemma OwnerKnown(rk: Rank, m: View, top: RbNode?, c: Ctx, node: RbNode)
    requires Focus(rk, m, top, c, Leaf) && node in rk && Lo(rk, c) < rk[node] < Hi(rk, c)
    ensures Owner(c) != node && Opt(Owner(c)) <= m.Keys
  {
    OwnerOff(rk, m, c, null, top);
  }

  /** rb_link_node: a red leaf in the empty place c leaves open. */
  method LinkNode(root: RbRoot, node: RbNode, parent: RbNode?, slot: Slot, ghost S: set<RbNode>, ghost c: Ctx)
    requires Represents(LinksOf(S), root.node, Plug(c, Leaf)) && node in S && node !in Inorder(Plug(c, Leaf))
    requires parent == Owner(c) && slot == SlotOf(c)
    modifies root`node, S`left, S`right, S`parent, S`red
    ensures Represents(LinksOf(S), root.node, Plug(c, Node(Leaf, node, true, Leaf)))
  {
    hide Linked, NoDup, Focus, Represents, Redirected, Only, Plug, Inorder;
    ghost var m, top := LinksOf(S), root.node;
    ghost var rk := RoomFor(m, top, c, node);
    OwnerKnown(rk, m, top, c, node);
    LinkStep(root, node, parent, slot, S, c);
    LinkedLeaf(rk, m, LinksOf(S), top, root.node, c, node);
    FocusPlug(rk, LinksOf(S), root.node, c, Node(Leaf, node, true, Leaf));
    PositionsDistinct(rk, LinksOf(S), root.node, Plug(c, Node(Leaf, node, true, Leaf)));
  }

  lemma LeafShape(c: Ctx, node: RbNode)
    requires RedBlack(Plug(c, Leaf))
    ensures RbInsert.InsertShape(c, Node(Leaf, node, true, Leaf)) && Inorder(Node(Leaf, node, true, Leaf)) == [node]
  {
    PlugRedBlack(c, Leaf);
  }

  /** rb_insert_augmented, and rb_insert_color with the dummy callbacks: whatever red leaf was
      linked into a red-black tree, the result is one with the in-order sequence as linked. */
  method InsertColor(root: RbRoot, node: RbNode, cb: Callbacks, ghost S: set<RbNode>, ghost c: Ctx) returns (ghost t': Tree)
    requires Represents(LinksOf(S), root.node, Plug(c, Node(Leaf, node, true, Leaf))) && RedBlack(Plug(c, Leaf))
    requires Law(cb) && AugOk(cb, ValuesOf(S), Plug(c, Node(Leaf, node, true, Leaf)))
    modifies root`node, S`left, S`right, S`parent, S`red, S`aug
    ensures Represents(LinksOf(S), root.node, t') && RedBlack(t') && AugOk(cb, ValuesOf(S), t')
    ensures Inorder(t') == Before(c) + [node] + After(c) && Inorder(Plug(c, Leaf)) == Before(c) + After(c)
  {
    hide Linked, NoDup, Focus, AugAll, AugOk, RedBlack, Law, RankOf, Represents, RbInsert.InsertShape, Plug, Inorder;
    ghost var m, top, leaf := LinksOf(S), root.node, Node(Leaf, node, true, Leaf);
    ghost var rk := RankOf(Inorder(Plug(c, leaf)));
    PositionsExist(m, top, Plug(c, leaf));
    FocusPlug(rk, m, top, c, leaf);
    AugPlug(cb, ValuesOf(S), c, leaf);
    LeafShape(c, node);
    AroundParts(c, [node]);
    AroundParts(c, []);
    PlugIsAround(c, Leaf);
    LeafOrder();
    t' := RbInsert.Insert(root, node, cb, S, rk, c, leaf, Around(c, [node]));
    PositionsDistinct(rk, LinksOf(S), root.node, t');
  }
}
