/** Trees without positions: what it means that linked nodes form a tree, and that
    positions for the proofs can always be read off its in-order sequence. */
module RbOrder {
  import opened Common
  import opened RbShape
  import opened RbHeap

  /** The nodes of t are linked as t says. */
  ghost predicate Linked(m: View, t: Tree, p: RbNode?) {
    t.Node? ==>
      && t.node in m && m[t.node] == Links(Root(t.left), Root(t.right), p, t.red)
      && Linked(m, t.left, t.node) && Linked(m, t.right, t.node)
  }

  /** The nodes under pointer top form the tree t, each occurring once. */
  ghost predicate Represents(m: View, top: RbNode?, t: Tree) {
    Linked(m, t, null) && top == Root(t) && NoDup(Inorder(t))
  }

  // ---- from links to positions and back --------------------------------------------------

  function Index(s: seq<RbNode>, n: RbNode): nat {
    if s == [] || s[0] == n then 0 else 1 + Index(s[1..], n)
  }

  lemma {:induction false} IndexAt(s: seq<RbNode>, k: nat)
    requires NoDup(s) && k < |s|
    ensures Index(s, s[k]) == k
  {
    if k > 0 {
      assert s[1..][k - 1] == s[k];
      IndexAt(s[1..], k - 1);
    }
  }

  lemma {:induction false} Cardinality(s: seq<RbNode>)
    requires NoDup(s)
    ensures |set n | n in s| == |s|
  {
    if s != [] {
      Cardinality(s[1..]);
      assert (set n | n in s) == (set n | n in s[1..]) + {s[0]};
    }
  }

  ghost function RankOf(s: seq<RbNode>): Rank {
    map n | n in s :: Index(s, n)
  }

  /** Positions between lo and hi that increase along s. */
  ghost predicate Increasing(rk: Rank, s: seq<RbNode>, lo: int, hi: int) {
    && (forall k :: 0 <= k < |s| ==> s[k] in rk && lo < rk[s[k]] < hi)
    && (forall i, j :: 0 <= i < j < |s| ==> rk[s[i]] < rk[s[j]])
  }

  lemma IncreasingParts(rk: Rank, a: seq<RbNode>, n: RbNode, b: seq<RbNode>, lo: int, hi: int)
    requires Increasing(rk, a + [n] + b, lo, hi)
    ensures n in rk && lo < rk[n] < hi && Increasing(rk, a, lo, rk[n]) && Increasing(rk, b, rk[n], hi)
  {
    var s := a + [n] + b;
    assert s[|a|] == n;
    assert forall k :: 0 <= k < |a| ==> a[k] == s[k];
    assert forall k :: 0 <= k < |b| ==> b[k] == s[|a| + 1 + k];
  }

  lemma {:induction false} MatchLinked(rk: Rank, m: View, t: Tree, p: RbNode?, lo: int, hi: int)
    requires Linked(m, t, p) && Increasing(rk, Inorder(t), lo, hi)
    ensures Match(rk, m, t, p, lo, hi)
  {
    if t.Node? {
      hide Increasing;
      IncreasingParts(rk, Inorder(t.left), t.node, Inorder(t.right), lo, hi);
      MatchLinked(rk, m, t.left, t.node, lo, rk[t.node]);
      MatchLinked(rk, m, t.right, t.node, rk[t.node], hi);
    }
  }

  lemma {:induction false} LinkedMatch(rk: Rank, m: View, t: Tree, p: RbNode?, lo: int, hi: int)
    requires Match(rk, m, t, p, lo, hi)
    ensures Linked(m, t, p) && Increasing(rk, Inorder(t), lo, hi)
  {
    if t.Node? {
      LinkedMatch(rk, m, t.left, t.node, lo, rk[t.node]);
      LinkedMatch(rk, m, t.right, t.node, rk[t.node], hi);
    }
  }

  /** Positions can be read off a tree whose nodes occur once ... */
  lemma PositionsExist(m: View, top: RbNode?, t: Tree)
    requires Represents(m, top, t)
    ensures Focus(RankOf(Inorder(t)), m, top, Top, t)
  {
    RanksIncrease(Inorder(t));
    MatchLinked(RankOf(Inorder(t)), m, t, null, -1, |Inorder(t)|);
  }

  lemma RanksIncrease(s: seq<RbNode>)
    requires NoDup(s)
    ensures |RankOf(s)| == |s| && Increasing(RankOf(s), s, -1, |s|)
    ensures forall k :: 0 <= k < |s| ==> RankOf(s)[s[k]] == k
  {
    forall k | 0 <= k < |s| ensures s[k] in RankOf(s) && RankOf(s)[s[k]] == k {
      IndexAt(s, k);
    }
    Cardinality(s);
    assert RankOf(s).Keys == set n | n in s;
  }

  /** ... and a tree that has positions is one. */
  lemma PositionsDistinct(rk: Rank, m: View, top: RbNode?, t: Tree)
    requires Focus(rk, m, top, Top, t)
    ensures Represents(m, top, t)
  {
    LinkedMatch(rk, m, t, null, -1, |rk|);
    var s := Inorder(t);
    forall i, j | 0 <= i < j < |s| ensures s[i] != s[j] {
      assert rk[s[i]] < rk[s[j]];
    }
  }

  // ---- finding a node, and what comes before and after it ---------------------------------

  ghost function Before(c: Ctx): seq<RbNode> {
    match c
    case Top => []
    case InL(up, _, _, _) => Before(up)
    case InR(up, n, _, sib) => Before(up) + Inorder(sib) + [n]
  }

  ghost function After(c: Ctx): seq<RbNode> {
    match c
    case Top => []
    case InL(up, n, _, sib) => [n] + Inorder(sib) + After(up)
    case InR(up, _, _, _) => After(up)
  }

  lemma {:induction false} AroundParts(c: Ctx, s: seq<RbNode>)
    ensures Around(c, s) == Before(c) + s + After(c)
    decreases c
  {
    match c
    case Top =>
    case InL(up, n, _, sib) => AroundParts(up, s + [n] + Inorder(sib));
    case InR(up, n, _, sib) => AroundParts(up, Inorder(sib) + [n] + s);
  }

  lemma {:induction false} Locate(c: Ctx, t: Tree, n: RbNode) returns (d: Ctx, z: Tree)
    requires n in Inorder(t)
    ensures z.Node? && z.node == n && Plug(d, z) == Plug(c, t)
    decreases t
  {
    if n == t.node {
      d, z := c, t;
    } else if n in Inorder(t.left) {
      d, z := Locate(InL(c, t.node, t.red, t.right), t.left, n);
    } else {
      d, z := Locate(InR(c, t.node, t.red, t.left), t.right, n);
    }
  }

  ghost function PosOf(rk: Rank, n: RbNode): int {
    if n in rk then rk[n] else -1
  }

  /** The positions available to a hole lie between its neighbours in order. */
  lemma {:induction false} HoleBounds(rk: Rank, c: Ctx)
    requires forall n :: n in Before(c) || n in After(c) ==> n in rk
    ensures Lo(rk, c) == if Before(c) == [] then -1 else PosOf(rk, Before(c)[|Before(c)| - 1])
    ensures Hi(rk, c) == if After(c) == [] then |rk| else PosOf(rk, After(c)[0])
  {
    match c
    case Top =>
    case InL(up, n, _, sib) =>
      assert forall x :: x in After(up) ==> x in After(c);
      HoleBounds(rk, up);
    case InR(up, n, _, sib) =>
      assert forall x :: x in Before(up) ==> x in Before(c);
      HoleBounds(rk, up);
  }

  lemma InsertNoDup(a: seq<RbNode>, n: RbNode, b: seq<RbNode>)
    requires NoDup(a + b) && n !in a + b
    ensures NoDup(a + [n] + b)
  {
    var s, s0 := a + [n] + b, a + b;
    forall i, j | 0 <= i < j < |s| ensures s[i] != s[j] {
      var i', j' := if i < |a| then i else i - 1, if j < |a| then j else j - 1;
      assert i != |a| ==> s[i] == s0[i'];
      assert j != |a| ==> s[j] == s0[j'];
    }
  }

  lemma DropIncreasing(rk: Rank, a: seq<RbNode>, n: RbNode, b: seq<RbNode>, lo: int, hi: int)
    requires Increasing(rk, a + [n] + b, lo, hi)
    ensures Increasing(rk, a + b, lo, hi) && n in rk && lo < rk[n] < hi
    ensures a != [] ==> PosOf(rk, a[|a| - 1]) < rk[n]
    ensures b != [] ==> rk[n] < PosOf(rk, b[0])
    ensures forall x :: x in a || x in b ==> x in rk
  {
    var s, s0 := a + [n] + b, a + b;
    assert s[|a|] == n;
    forall k | 0 <= k < |s0| ensures s0[k] in rk && lo < rk[s0[k]] < hi {
      assert s0[k] == s[if k < |a| then k else k + 1];
    }
    forall i, j | 0 <= i < j < |s0| ensures rk[s0[i]] < rk[s0[j]] {
      assert s0[i] == s[if i < |a| then i else i + 1];
      assert s0[j] == s[if j < |a| then j else j + 1];
    }
    assert a != [] ==> s[|a| - 1] == a[|a| - 1];
    assert b != [] ==> s[|a| + 1] == b[0];
    forall x | x in a || x in b ensures x in rk {
      assert x in s0;
    }
  }

  /** A new node can be given a position in the hole of c, the others keeping an order. */
  lemma RoomFor(m: View, top: RbNode?, c: Ctx, node: RbNode) returns (rk: Rank)
    requires Represents(m, top, Plug(c, Leaf)) && node !in Inorder(Plug(c, Leaf))
    ensures Focus(rk, m, top, c, Leaf) && node in rk && Lo(rk, c) < rk[node] < Hi(rk, c)
  {
    hide Linked, Focus, NoDup, Increasing, Lo, Hi, Match, Seg, Before, After, Around, Plug, Inorder;
    var a, b := Before(c), After(c);
    PlugIsAround(c, Leaf);
    AroundParts(c, Inorder(Leaf));
    LeafOrder();
    assert a + [] + b == a + b;
    InsertNoDup(a, node, b);
    rk := RankOf(a + [node] + b);
    RanksIncrease(a + [node] + b);
    DropIncreasing(rk, a, node, b, -1, |rk|);
    HoleBounds(rk, c);
    MatchLinked(rk, m, Plug(c, Leaf), null, -1, |rk|);
    TopFocus(rk, m, top, Plug(c, Leaf));
    FocusPlug(rk, m, top, c, Leaf);
  }

  lemma LeafOrder()
    ensures Inorder(Leaf) == []
  {
  }

  lemma TopFocus(rk: Rank, m: View, top: RbNode?, t: Tree)
    requires Match(rk, m, t, null, -1, |rk|) && top == Root(t)
    ensures Focus(rk, m, top, Top, t)
  {
  }
}
