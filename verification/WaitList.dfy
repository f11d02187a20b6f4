/** The intrusive wait list of list.rs: nodes live in the futures that wait, the list links
    them in order of their contents, and waking unlinks the head. */
module WaitList {
  import opened Common

  datatype Poll = Pending | Ready

  /** Root: links to the first and last node of a list that has one. */
  datatype Root<T(!new)> = Root(head: Node<T>, tail: Node<T>)

  class Node<T(!new)> {
    const contents: T
    var prev: Node?<T>
    var next: Node?<T>
    /** The list the node is in, or null. */
    var list: List?<T>
    /** Whether a waker is stored. */
    var waker: bool

    constructor (contents: T)
      ensures this.contents == contents && Detached()
    {
      this.contents := contents;
      prev, next, list, waker := null, null, null, false;
    }

    predicate Detached()
      reads this
    {
      prev == null && next == null && list == null && !waker
    }
  }

  /** le orders contents: any two are comparable, and the order is transitive. */
  ghost predicate TotalPreorder<T(!new)>(le: (T, T) -> bool) {
    (forall x, y :: le(x, y) || le(y, x)) && (forall x, y, z :: le(x, y) && le(y, z) ==> le(x, z))
  }

  ghost predicate Sorted<T(!new)>(le: (T, T) -> bool, s: seq<Node<T>>) {
    forall i, j :: 0 <= i < j < |s| ==> le(s[i].contents, s[j].contents)
  }

  /** The links a node has. */
  datatype Cell<T(!new)> = Cell(prev: Node?<T>, next: Node?<T>, list: List?<T>, waker: bool)

  function CellOf<T(!new)>(n: Node<T>): Cell<T>
    reads n
  {
    Cell(n.prev, n.next, n.list, n.waker)
  }

  /** The links the node at place i of s has in list l. */
  ghost function Due<T(!new)>(s: seq<Node<T>>, i: int, l: List<T>): Cell<T>
    requires 0 <= i < |s|
  {
    Cell(if i == 0 then null else s[i - 1], if i == |s| - 1 then null else s[i + 1], l, true)
  }

  /** The links node i is left with when the node at place k gets its neighbours to bypass it. */
  ghost function Patched<T(!new)>(s: seq<Node<T>>, k: int, i: int, l: List<T>): Cell<T>
    requires 0 <= k < |s| && 0 <= i < |s|
  {
    var c, d := Due(s, i, l), Due(s, k, l);
    if i == k - 1 then c.(next := d.next) else if i == k + 1 then c.(prev := d.prev) else c
  }

  /** Leaving out place k only concerns its neighbours. */
  lemma DueWithout<T(!new)>(s: seq<Node<T>>, k: int, i: int, l: List<T>)
    requires 0 <= k < |s| && 0 <= i < |s| && i != k
    ensures var s', i' := s[..k] + s[k + 1..], if i < k then i else i - 1;
      s'[i'] == s[i] && Due(s', i', l) == Patched(s, k, i, l)
  {
  }

  /** The links node i is left with when its neighbour at place k is told of a new node n there. */
  ghost function DuePatched<T(!new)>(s: seq<Node<T>>, k: int, n: Node<T>, i: int, l: List<T>): Cell<T>
    requires 0 <= i < |s|
  {
    var c := Due(s, i, l);
    if i == k - 1 then c.(next := n) else if i == k then c.(prev := n) else c
  }

  /** So does adding a node at place k. */
  lemma DueWith<T(!new)>(s: seq<Node<T>>, k: int, n: Node<T>, i: int, l: List<T>)
    requires 0 <= k <= |s| && 0 <= i < |s|
    ensures var s', i' := s[..k] + [n] + s[k..], if i < k then i else i + 1;
      s'[i'] == s[i] && Due(s', i', l) == DuePatched(s, k, n, i, l)
  {
  }

  lemma DueNew<T(!new)>(s: seq<Node<T>>, k: int, n: Node<T>, l: List<T>)
    requires 0 <= k <= |s|
    ensures var s' := s[..k] + [n] + s[k..];
      s'[k] == n && Due(s', k, l) == Cell(if k == 0 then null else s[k - 1], if k == |s| then null else s[k], l, true)
  {
  }

  lemma WithoutOrdered<T(!new)>(le: (T, T) -> bool, s: seq<Node<T>>, k: int)
    requires 0 <= k < |s| && NoDup(s) && Sorted(le, s)
    ensures NoDup(s[..k] + s[k + 1..]) && Sorted(le, s[..k] + s[k + 1..])
  {
    var s' := s[..k] + s[k + 1..];
    forall i, j | 0 <= i < j < |s'| ensures s'[i] != s'[j] && le(s'[i].contents, s'[j].contents) {
      assert s'[i] == s[if i < k then i else i + 1] && s'[j] == s[if j < k then j else j + 1];
    }
  }

  /** How many nodes of s come before a new node with contents c: the last of them that does not exceed c
      and all before it. */
  function Place<T(!new)>(le: (T, T) -> bool, s: seq<Node<T>>, c: T): (k: nat)
    ensures k <= |s|
    ensures k > 0 ==> le(s[k - 1].contents, c)
    ensures forall i :: k <= i < |s| ==> !le(s[i].contents, c)
  {
    if s == [] then 0
    else if le(s[|s| - 1].contents, c) then |s|
    else Place(le, s[..|s| - 1], c)
  }

  function Inserted<T(!new)>(le: (T, T) -> bool, s: seq<Node<T>>, n: Node<T>): seq<Node<T>> {
    var k := Place(le, s, n.contents);
    s[..k] + [n] + s[k..]
  }

  /** In a sorted list a new node goes after every node that does not exceed it, and before
      every node that does: stably. */
  lemma PlaceStable<T(!new)>(le: (T, T) -> bool, s: seq<Node<T>>, c: T)
    requires TotalPreorder(le) && Sorted(le, s)
    ensures forall i :: 0 <= i < |s| ==> (i < Place(le, s, c) <==> le(s[i].contents, c))
  {
    var k := Place(le, s, c);
    forall i | 0 <= i < k ensures le(s[i].contents, c) {
      if i < k - 1 {
        assert le(s[i].contents, s[k - 1].contents);
      }
    }
  }

  lemma InsertedSorted<T(!new)>(le: (T, T) -> bool, s: seq<Node<T>>, n: Node<T>)
    requires TotalPreorder(le) && Sorted(le, s)
    ensures Sorted(le, Inserted(le, s, n))
  {
    var k, t := Place(le, s, n.contents), Inserted(le, s, n);
    PlaceStable(le, s, n.contents);
    assert t[k] == n && (forall i :: 0 <= i < k ==> t[i] == s[i]) && (forall i :: k < i < |t| ==> t[i] == s[i - 1]);
    forall i, j | 0 <= i < j < |t| ensures le(t[i].contents, t[j].contents) {
      var i', j' := if i < k then i else i - 1, if j < k then j else j - 1;
      if i != k && j != k {
        assert le(s[i'].contents, s[j'].contents);
      }
    }
  }

  ghost function RootOf<T(!new)>(s: seq<Node<T>>): Option<Root<T>> {
    if s == [] then None else Some(Root(s[0], s[|s| - 1]))
  }

  class List<T(!new)> {
    const le: (T, T) -> bool
    var root: Option<Root<T>>
    ghost var nodes: seq<Node<T>>

    constructor (le: (T, T) -> bool)
      requires TotalPreorder(le)
      ensures Valid() && nodes == [] && this.le == le
    {
      this.le, root, nodes := le, None, [];
    }

    ghost predicate Valid()
      reads this, nodes
    {
      && TotalPreorder(le) && NoDup(nodes) && Sorted(le, nodes)
      && root == RootOf(nodes)
      && forall i {:trigger CellOf(nodes[i])} :: 0 <= i < |nodes| ==> CellOf(nodes[i]) == Due(nodes, i, this)
    }

    predicate IsEmpty()
      requires Valid()
      reads this, nodes
      ensures IsEmpty() <==> nodes == []
    {
      root.None?
    }

    /** wake_head_if: the head, if it passes, is unlinked and its waker used. */
    method WakeHeadIf(pred: T -> bool) returns (woken: bool)
      requires Valid()
      modifies this, nodes
      ensures Valid()
      ensures woken <==> old(nodes) != [] && pred(old(nodes)[0].contents)
      ensures woken ==> nodes == old(nodes)[1..] && old(nodes)[0].Detached()
      ensures !woken ==> nodes == old(nodes) && unchanged(nodes)
    {
      hide Due, NoDup, Sorted, TotalPreorder;
      if root.None? {
        return false;
      }
      if !pred(root.value.head.contents) {
        return false;
      }
      TakeHead();
      WithoutOrdered(le, old(nodes), 0);
      assert old(nodes)[..0] + old(nodes)[1..] == nodes;
      Unlinked(old(nodes), 0);
      return true;
    }

    /** wake_while: the longest prefix of nodes that pass is woken, in order. */
    method WakeWhile(pred: T -> bool) returns (any: bool, ghost k: nat)
      requires Valid()
      modifies this, nodes
      ensures Valid() && k <= |old(nodes)| && nodes == old(nodes)[k..] && (any <==> k > 0)
      ensures forall i :: 0 <= i < k ==> pred(old(nodes)[i].contents) && old(nodes)[i].Detached()
      ensures k < |old(nodes)| ==> !pred(old(nodes)[k].contents)
    {
      hide Due, Sorted, TotalPreorder, RootOf;
      any, k := false, 0;
      while true
        invariant Valid() && k <= |old(nodes)| && nodes == old(nodes)[k..] && (any <==> k > 0)
        invariant forall i :: 0 <= i < k ==> pred(old(nodes)[i].contents) && old(nodes)[i].Detached()
        decreases |nodes|
      {
        var woken := WakeHeadIf(pred);
        if !woken {
          break;
        }
        any, k := true, k + 1;
      }
    }

    /** wake_all */
    method WakeAll() returns (any: bool)
      requires Valid()
      modifies this, nodes
      ensures Valid() && nodes == [] && (any <==> old(nodes) != [])
      ensures forall i :: 0 <= i < |old(nodes)| ==> old(nodes)[i].Detached()
    {
      ghost var k;
      any, k := WakeWhile(_ => true);
    }

    /** wake_one */
    method WakeOne() returns (woken: bool)
      requires Valid()
      modifies this, nodes
      ensures Valid() && (woken <==> old(nodes) != [])
      ensures woken ==> nodes == old(nodes)[1..] && old(nodes)[0].Detached()
      ensures !woken ==> nodes == old(nodes) && unchanged(nodes)
    {
      woken := WakeHeadIf(_ => true);
    }

    method TakeHead()
      requires Valid() && nodes != []
      modifies this, nodes
      ensures nodes == old(nodes)[1..] && root == RootOf(nodes) && old(nodes)[0].Detached()
      ensures forall i :: 1 <= i < |old(nodes)| ==> CellOf(old(nodes)[i]) == Patched(old(nodes), 0, i, this)
    {
      hide Due, NoDup, Sorted, TotalPreorder, Patched;
      assert forall i :: 0 <= i < |nodes| ==> CellOf(nodes[i]) == Due(nodes, i, this);
      var node := root.value.head;
      ghost var s := nodes;
      DueEnds(s, this);
      NoDupAt(s, 0);
      PatchedFirst(s, this);
      if node == root.value.tail {
        root := None;
      } else {
        NoDupAt(s, 1);
        var next := node.next;
        node.next := null;
        next.prev := null;
        root := Some(Root(next, root.value.tail));
      }
      node.list := null;
      node.waker := false;
      nodes := nodes[1..];
    }

    /** The node is linked in after every node that does not exceed it. */
    method Attach(node: Node<T>)
      requires Valid() && node.Detached()
      modifies this, nodes, node
      ensures Valid() && nodes == Inserted(le, old(nodes), node)
    {
      hide Due, NoDup, Sorted, TotalPreorder, DuePatched, RootOf, Place;
      ghost var s := nodes;
      ghost var k := Place(le, s, node.contents);
      NotIn(s, node, this);
      DueNew(s, k, node, this);
      LinkIn(node);
      node.list := this;
      node.waker := true;
      nodes := s[..k] + [node] + s[k..];
      InsertedSorted(le, s, node);
      InsertedDistinct(s, node, k);
      Linked(s, k, node);
    }

    /** The search from the tail in WaitForDetach::poll. */
    method LinkIn(node: Node<T>)
      requires Valid() && node.Detached() && node !in nodes
      modifies this, nodes, node
      ensures var k := Place(le, nodes, node.contents); var s' := nodes[..k] + [node] + nodes[k..];
        && nodes == old(nodes) && root == RootOf(s') && CellOf(node) == Due(s', k, this).(list := null, waker := false)
        && forall i :: 0 <= i < |nodes| ==> CellOf(nodes[i]) == DuePatched(nodes, k, node, i, this)
    {
      hide Due, NoDup, Sorted, TotalPreorder, DuePatched, RootOf, Place;
      assert forall i :: 0 <= i < |nodes| ==> CellOf(nodes[i]) == Due(nodes, i, this);
      EmptyRoot(nodes);
      if root.None? {
        PlaceIs(le, nodes, node.contents, 0);
        root := Some(Root(node, node));
        DueAlone(nodes, node, this);
        return;
      }
      var cand: Node?<T> := root.value.tail;
      ghost var j := |nodes| - 1;
      while cand != null
        invariant -1 <= j < |nodes| && cand == (if j < 0 then null else nodes[j])
        invariant forall i :: j < i < |nodes| ==> !le(nodes[i].contents, node.contents)
        invariant unchanged(this) && unchanged(nodes) && unchanged(node)
        decreases j
      {
        if le(cand.contents, node.contents) {
          PlaceIs(le, nodes, node.contents, j + 1);
          LinkAfter(cand, node, j);
          return;
        }
        PrevOf(nodes, j, this);
        cand := cand.prev;
        j := j - 1;
      }
      PlaceIs(le, nodes, node.contents, 0);
      LinkHead(node);
    }

    /** The candidate becomes the new node's predecessor. */
    method LinkAfter(cand: Node<T>, node: Node<T>, ghost j: nat)
      requires Valid() && j < |nodes| && nodes[j] == cand && node !in nodes && node.Detached()
      modifies this, nodes, node
      ensures nodes == old(nodes) && root == RootOf(nodes[..j + 1] + [node] + nodes[j + 1..])
      ensures CellOf(node) == Due(nodes[..j + 1] + [node] + nodes[j + 1..], j + 1, this).(list := null, waker := false)
      ensures forall i :: 0 <= i < |nodes| ==> CellOf(nodes[i]) == DuePatched(nodes, j + 1, node, i, this)
    {
      hide Due, NoDup, Sorted, TotalPreorder, DuePatched;
      assert forall i :: 0 <= i < |nodes| ==> CellOf(nodes[i]) == Due(nodes, i, this);
      NoDupAt(nodes, j);
      DueLinks(nodes, j, this);
      DueNew(nodes, j + 1, node, this);
      PatchedBy(nodes, j + 1, node, this);
      var oldNext := cand.next;
      cand.next := node;
      if oldNext != null {
        NoDupAt(nodes, j + 1);
        oldNext.prev := node;
      }
      node.next := oldNext;
      node.prev := cand;
      if cand == root.value.tail {
        root := Some(Root(root.value.head, node));
      }
    }

    /** The new node becomes the head. */
    method LinkHead(node: Node<T>)
      requires Valid() && nodes != [] && node !in nodes && node.Detached()
      modifies this, nodes, node
      ensures nodes == old(nodes) && root == RootOf(nodes[..0] + [node] + nodes[0..])
      ensures CellOf(node) == Due(nodes[..0] + [node] + nodes[0..], 0, this).(list := null, waker := false)
      ensures forall i :: 0 <= i < |nodes| ==> CellOf(nodes[i]) == DuePatched(nodes, 0, node, i, this)
    {
      hide Due, NoDup, Sorted, TotalPreorder, DuePatched;
      assert forall i :: 0 <= i < |nodes| ==> CellOf(nodes[i]) == Due(nodes, i, this);
      NoDupAt(nodes, 0);
      DueNew(nodes, 0, node, this);
      PatchedBy(nodes, 0, node, this);
      var oldHead := root.value.head;
      oldHead.prev := node;
      node.next := root.value.head;
      root := Some(Root(node, root.value.tail));
    }

    /** The old nodes have their links when the neighbours of the new one know it. */
    lemma Linked(s: seq<Node<T>>, k: nat, node: Node<T>)
      requires k <= |s| && nodes == s[..k] + [node] + s[k..]
      requires forall i :: 0 <= i < |s| ==> CellOf(s[i]) == DuePatched(s, k, node, i, this)
      requires CellOf(node) == Due(nodes, k, this)
      ensures forall i :: 0 <= i < |nodes| ==> CellOf(nodes[i]) == Due(nodes, i, this)
    {
      hide CellOf, Due, DuePatched;
      forall i | 0 <= i < |nodes| ensures CellOf(nodes[i]) == Due(nodes, i, this) {
        if i < k {
          DueWith(s, k, node, i, this);
        } else if i > k {
          DueWith(s, k, node, i - 1, this);
        }
      }
    }

    /** Node::drop for a node of this list, or of none: the node is taken out, wherever it is. */
    method DropNode(node: Node<T>) returns (ghost k: nat)
      requires Valid() && (node.list == this || node.list == null) && (node.list == this <==> node in nodes)
      modifies this, nodes, node
      ensures Valid() && node.list == null && node !in nodes
      ensures old(node.list) == null ==> nodes == old(nodes) && unchanged(this) && unchanged(nodes) && unchanged(node)
      ensures old(node.list) != null ==> k < |old(nodes)| && old(nodes)[k] == node && nodes == old(nodes)[..k] + old(nodes)[k + 1..]
    {
      hide Due, NoDup, Sorted, TotalPreorder;
      k := 0;
      if node.list != null {
        k :| k < |nodes| && nodes[k] == node;
        Bypass(node, k);
        nodes := nodes[..k] + nodes[k + 1..];
        WithoutOrdered(le, old(nodes), k);
        Unlinked(old(nodes), k);
        NotIn(nodes, node, this);
      }
    }

    /** The neighbours of a node are linked to each other. */
    method Bypass(node: Node<T>, ghost k: nat)
      requires Valid() && k < |nodes| && nodes[k] == node
      modifies this, nodes
      ensures nodes == old(nodes) && root == RootOf(nodes[..k] + nodes[k + 1..]) && node.list == null
      ensures forall i :: 0 <= i < |nodes| && i != k ==> CellOf(nodes[i]) == Patched(nodes, k, i, this)
    {
      hide Due, NoDup, Sorted, TotalPreorder, Patched;
      assert forall i :: 0 <= i < |nodes| ==> CellOf(nodes[i]) == Due(nodes, i, this);
      NoDupAt(nodes, k);
      DueLinks(nodes, k, this);
      PatchedAround(nodes, k, this);
      node.list := null;
      if node.prev != null {
        NoDupAt(nodes, k - 1);
        node.prev.next := node.next;
      }
      if node.next != null {
        NoDupAt(nodes, k + 1);
        node.next.prev := node.prev;
      }
      if node.prev == null && node.next == null {
        root := None;
      } else if node.next == null {
        root := Some(Root(root.value.head, node.prev));
      } else if node.prev == null {
        root := Some(Root(node.next, root.value.tail));
      }
    }

    /** The nodes other than that at place k have their links when their neighbours did theirs. */
    lemma Unlinked(s: seq<Node<T>>, k: int)
      requires 0 <= k < |s| && nodes == s[..k] + s[k + 1..]
      requires forall i :: 0 <= i < |s| && i != k ==> CellOf(s[i]) == Patched(s, k, i, this)
      ensures forall i :: 0 <= i < |nodes| ==> CellOf(nodes[i]) == Due(nodes, i, this)
    {
      hide CellOf, Due, Patched;
      forall i | 0 <= i < |nodes| ensures CellOf(nodes[i]) == Due(nodes, i, this) {
        DueWithout(s, k, if i < k then i else i + 1, this);
      }
    }
  }

  lemma NotIn<T(!new)>(s: seq<Node<T>>, node: Node<T>, l: List<T>)
    requires node.list == null && forall i :: 0 <= i < |s| ==> CellOf(s[i]) == Due(s, i, l)
    ensures node !in s && forall i :: 0 <= i < |s| ==> s[i] != node
  {
    forall i | 0 <= i < |s| ensures s[i] != node {
      assert CellOf(s[i]).list == l;
    }
  }

  lemma PlaceIs<T(!new)>(le: (T, T) -> bool, s: seq<Node<T>>, c: T, k: nat)
    requires k <= |s| && (k > 0 ==> le(s[k - 1].contents, c)) && forall i :: k <= i < |s| ==> !le(s[i].contents, c)
    ensures Place(le, s, c) == k
  {
    var k' := Place(le, s, c);
    assert k' > 0 ==> le(s[k' - 1].contents, c);
  }

  lemma EmptyRoot<T(!new)>(s: seq<Node<T>>)
    ensures RootOf(s).None? <==> s == []
    ensures RootOf(s).Some? ==> RootOf(s).value.tail == s[|s| - 1]
  {
  }

  lemma PrevOf<T(!new)>(s: seq<Node<T>>, j: nat, l: List<T>)
    requires j < |s|
    ensures Due(s, j, l).prev == if j == 0 then null else s[j - 1]
  {
  }

  lemma DueLinks<T(!new)>(s: seq<Node<T>>, j: nat, l: List<T>)
    requires j < |s|
    ensures Due(s, j, l) == Cell(if j == 0 then null else s[j - 1], if j == |s| - 1 then null else s[j + 1], l, true)
  {
  }

  lemma DueAlone<T(!new)>(s: seq<Node<T>>, node: Node<T>, l: List<T>)
    requires s == []
    ensures s[..0] + [node] + s[0..] == [node] && Due([node], 0, l) == Cell(null, null, l, true) && RootOf([node]) == Some(Root(node, node))
  {
  }

  lemma PatchedBy<T(!new)>(s: seq<Node<T>>, k: nat, node: Node<T>, l: List<T>)
    requires k <= |s|
    ensures forall i :: 0 <= i < |s| ==>
      DuePatched(s, k, node, i, l) == (var c := Due(s, i, l); if i == k - 1 then c.(next := node) else if i == k then c.(prev := node) else c)
  {
  }

  lemma PatchedAround<T(!new)>(s: seq<Node<T>>, k: nat, l: List<T>)
    requires k < |s|
    ensures forall i :: 0 <= i < |s| ==>
      Patched(s, k, i, l) ==
        (var c, d := Due(s, i, l), Due(s, k, l); if i == k - 1 then c.(next := d.next) else if i == k + 1 then c.(prev := d.prev) else c)
  {
  }

  lemma InsertedDistinct<T(!new)>(s: seq<Node<T>>, node: Node<T>, k: nat)
    requires NoDup(s) && node !in s && k <= |s|
    ensures NoDup(s[..k] + [node] + s[k..])
  {
    var t := s[..k] + [node] + s[k..];
    forall i, j | 0 <= i < j < |t| ensures t[i] != t[j] {
      if i != k && j != k {
        assert t[i] == s[if i < k then i else i - 1] && t[j] == s[if j < k then j else j - 1];
      }
    }
  }

  lemma PatchedFirst<T(!new)>(s: seq<Node<T>>, l: List<T>)
    requires s != []
    ensures |s| > 1 ==> Patched(s, 0, 1, l) == Due(s, 1, l).(prev := null)
    ensures forall i :: 2 <= i < |s| ==> Patched(s, 0, i, l) == Due(s, i, l)
  {
  }

  lemma NoDupAt<T(!new)>(s: seq<Node<T>>, k: int)
    requires NoDup(s) && 0 <= k < |s|
    ensures forall i :: 0 <= i < |s| && i != k ==> s[i] != s[k]
  {
  }

  lemma DueEnds<T(!new)>(s: seq<Node<T>>, l: List<T>)
    requires s != []
    ensures Due(s, 0, l).prev == null && Due(s, 0, l).next == (if |s| == 1 then null else s[1])
    ensures Due(s, |s| - 1, l).next == null && Due(s, |s| - 1, l).prev == (if |s| == 1 then null else s[|s| - 2])
  {
  }

  // ---- futures -----------------------------------------------------------------------------------

  datatype Stage = Unpolled | Waiting | Woken

  /** WaitForDetach and, with cleanup, WaitWithCleanup: the future of join and of join_with_cleanup. */
  class Wait<T(!new)> {
    const home: List<T>
    const node: Node<T>
    /** list.is_some(): the node has not been attached yet. */
    var unattached: bool
    /** cleanup.is_some() */
    var cleanup: bool

    constructor (home: List<T>, contents: T, cleanup: bool)
      ensures this.home == home && node.contents == contents && this.cleanup == cleanup
      ensures fresh(node) && node.Detached() && unattached
    {
      this.home, this.cleanup, unattached := home, cleanup, true;
      node := new Node(contents);
    }

    ghost function Stage(): Stage
      reads this, node
    {
      if unattached then Unpolled else if node.list != null then Waiting else Woken
    }

    ghost predicate Valid()
      reads this, node, home, home.nodes
    {
      && home.Valid()
      && (unattached ==> node.Detached())
      && (node.list == null || node.list == home)
      && (node.list == home <==> node in home.nodes)
    }

    /** poll: the first attaches the node, later ones resolve once the node has been detached. */
    method Poll() returns (r: Poll)
      requires Valid()
      modifies this, node, home, home.nodes
      ensures Valid() && (r == Ready <==> old(Stage()) == Woken)
      ensures old(Stage()) == Unpolled ==> Stage() == Waiting && home.nodes == Inserted(home.le, old(home.nodes), node)
      ensures old(Stage()) == Waiting ==> Stage() == Waiting && home.nodes == old(home.nodes)
      ensures old(Stage()) == Woken ==> Stage() == Woken && home.nodes == old(home.nodes) && !cleanup
      ensures old(Stage()) != Woken ==> cleanup == old(cleanup)
    {
      hide Due, Sorted, TotalPreorder, NoDup, RootOf;
      if unattached {
        ghost var k := Place(home.le, home.nodes, node.contents);
        unattached := false;
        home.Attach(node);
        assert home.nodes[k] == node;
        AttachedAt(home, k);
        return Pending;
      }
      if node.list == null {
        cleanup := false;
        return Ready;
      }
      ghost var k :| 0 <= k < |home.nodes| && home.nodes[k] == node;
      AttachedAt(home, k);
      node.waker := true;
      return Pending;
    }

    /** Dropping the future takes an attached node out, and says whether the cleanup action runs:
        only when the node was woken and nobody has polled since. */
    method Drop() returns (run: bool, ghost k: nat)
      requires Valid()
      modifies this, node, home, home.nodes
      ensures Valid() && node.list == null
      ensures (run <==> old(Stage()) == Woken && old(cleanup)) && !cleanup
      ensures old(Stage()) != Waiting ==> home.nodes == old(home.nodes) && unchanged(home.nodes) && unchanged(home)
      ensures old(Stage()) == Waiting ==>
        k < |old(home.nodes)| && old(home.nodes)[k] == node && home.nodes == old(home.nodes)[..k] + old(home.nodes)[k + 1..]
    {
      hide Due, Sorted, TotalPreorder, RootOf;
      run := !unattached && node.list == null && cleanup;
      cleanup := false;
      k := home.DropNode(node);
    }
  }

  lemma AttachedAt<T(!new)>(l: List<T>, k: nat)
    requires l.Valid() && k < |l.nodes|
    ensures l.nodes[k].list == l && l.nodes[k].waker
  {
    assert CellOf(l.nodes[k]) == Due(l.nodes, k, l);
  }
}
