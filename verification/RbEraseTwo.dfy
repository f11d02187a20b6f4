/** The writes of cases 2 and 3 of __rb_erase_augmented, in the source's order: find
    the successor, detach it, copy and propagate values, put it in node's place. */
module RbEraseTwo {
  import opened Common
  import opened RbShape
  import opened RbHeap
  import opened RbRotate
  import opened RbPropagate
  import opened RbErase
  import opened RbSuccessor

  // ---- the values ---------------------------------------------------------------------

  /** a' differs from a at s only. */
  lemma {:induction false} SpineBeyond(cb: Callbacks, rk: Rank, m: View, a: Values, a': Values, c: Ctx, y: Tree, p0: RbNode?, c1: Ctx, lo: int, hi: int)
    requires y.Node? && Match(rk, m, y, p0, lo, hi) && AugOk(cb, a, y) && OnlyVal(a, a', MinTree(y).node, MinTree(y).node)
    requires AugUpTo(cb, a', c, At(a, Root(y)), c1)
    ensures AugOk(cb, a', MinTree(y).right) && Beyond(cb, a', SpineCtx(c, y), c1)
    decreases y
  {
    var s := MinTree(y).node;
    MinRanks(rk, m, y, p0, s, lo, hi);
    AugPiece(cb, rk, m, a, a', y.right, y.node, rk[y.node], hi, s, s);
    if !y.left.Leaf? {
      SpineBeyond(cb, rk, m, a, a', InL(c, y.node, y.red, y.right), y.left, y.node, c1, lo, rk[y.node]);
    }
  }

  function Depth(c: Ctx): nat {
    if c.Top? then 0 else 1 + Depth(c.up)
  }

  lemma {:induction false} ReachesDepth(c: Ctx, c1: Ctx)
    requires Reaches(c, c1)
    ensures Depth(c1) <= Depth(c)
  {
    if c != c1 {
      ReachesDepth(c.up, c1);
    }
  }

  lemma {:induction false} SpinePlugTo(c: Ctx, y: Tree, c1: Ctx)
    requires y.Node? && Reaches(c, c1)
    ensures Reaches(SpineCtx(c, y), c1)
    ensures PlugTo(SpineCtx(c, y), Paint(MinTree(y).right, false), c1) == PlugTo(c, RemoveMin(y), c1)
    decreases y
  {
    if !y.left.Leaf? {
      ReachesDepth(c, c1);
      SpinePlugTo(InL(c, y.node, y.red, y.right), y.left, c1);
    }
  }

  lemma {:induction false} SpineOwner(c: Ctx, y: Tree, p: RbNode)
    requires y.Node? && Owner(c) == p
    ensures Owner(SpineCtx(c, y)) == MinParent(y, p)
    decreases y
  {
    if !y.left.Leaf? {
      SpineOwner(InL(c, y.node, y.red, y.right), y.left, y.node);
    }
  }

  /** Values after copy and the first propagate: s holds node's value, and nothing changed
      but s and nodes positioned between s and hi. */
  ghost predicate Copied(cb: Callbacks, rk: Rank, a: Values, a': Values, node: RbNode, s: RbNode, hi: int) {
    cb.Augmented? ==>
      && s in rk && node in a && s in a' && a'[s] == a[node]
      && forall n :: n in a && n != s && (n !in rk || rk[n] <= rk[s] || hi <= rk[n]) ==> n in a' && a'[n] == a[n]
  }

  lemma CopiedKeeps(cb: Callbacks, rk: Rank, a: Values, a': Values, node: RbNode, s: RbNode, hi: int, lo: int)
    requires cb.Augmented? && Copied(cb, rk, a, a', node, s, hi) && node in rk && lo < rk[node] < rk[s] < hi
    ensures KeepsVal(rk, a, a', lo, rk[node]) && KeepsValOut(rk, a, a', lo, hi)
  {
  }

  /** With s in node's place, only s can be stale. */
  lemma BeyondPlaced(cb: Callbacks, rk: Rank, m: View, a: Values, a': Values, top: RbNode?, c: Ctx, x: Tree, node: RbNode, nc: bool, y: Tree)
    requires y.Node? && Focus(rk, m, top, c, Node(x, node, nc, y)) && AugAll(cb, a, c, Node(x, node, nc, y))
    requires Copied(cb, rk, a, a', node, MinTree(y).node, Hi(rk, c))
    ensures Beyond(cb, a', InR(c, MinTree(y).node, nc, x), Top)
  {
    if cb.Augmented? {
      var s, lo, hi := MinTree(y).node, Lo(rk, c), Hi(rk, c);
      assert AugOk(cb, a, x) && AugCtx(cb, a, c, Some(a[node]));
      hide Focus, Seg, Match, Solo, Copied, AugOk, AugCtx, AugAll, KeepsVal, KeepsValOut;
      SoloFocus(rk, m, top, c, x, node, y, nc);
      SoloParts(rk, m, top, c, node, x, node, y);
      MinRanks(rk, m, y, node, s, rk[node], hi);
      CopiedKeeps(cb, rk, a, a', node, s, hi, lo);
      AugFrame(cb, rk, m, a, a', x, node, lo, rk[node]);
      AugSegFrame(cb, rk, m, a, a', c, node, top, Some(a[node]));
      UpToTop(cb, a', c, Some(a[node]));
      CopiedValue(cb, rk, a, a', node, s, hi);
    }
  }

  lemma CopiedValue(cb: Callbacks, rk: Rank, a: Values, a': Values, node: RbNode, s: RbNode, hi: int)
    requires cb.Augmented? && Copied(cb, rk, a, a', node, s, hi)
    ensures node in a && s in a' && a'[s] == a[node]
  {
  }

  // ---- the writes ---------------------------------------------------------------------

  /** The copy callback. */
  method Copy(cb: Callbacks, oldNode: RbNode, newNode: RbNode)
    modifies newNode`aug
    ensures newNode.aug == if cb.Augmented? then old(oldNode.aug) else old(newNode.aug)
  {
    if cb.Augmented? {
      newNode.aug := oldNode.aug;
    }
  }

  /** The do-while loop of case 3. */
  method FindSuccessor(child: RbNode, ghost S: set<RbNode>, ghost rk: Rank, ghost y: Tree, ghost p0: RbNode?, ghost lo: int, ghost hi: int)
    returns (parent: RbNode, successor: RbNode)
    requires y.Node? && y.node == child && Match(rk, LinksOf(S), y, p0, lo, hi) && child.left != null
    ensures successor == MinTree(y).node && parent == MinParent(y, successor)
  {
    parent, successor := child, child.left;
    var tmp := successor.left;
    ghost var z, h := y.left, rk[child];
    while tmp != null
      invariant z.Node? && Root(z) == successor && tmp == Root(z.left) && Match(rk, LinksOf(S), z, parent, lo, h)
      invariant MinTree(z) == MinTree(y) && MinParent(z, parent) == MinParent(y, MinTree(y).node)
      decreases z
    {
      parent := successor;
      successor := tmp;
      tmp := tmp.left;
      h := rk[z.node];
      z := z.left;
    }
  }

  /** Links of n once the successor s is detached from q and owns the right subtree. */
  ghost function Unlinked(l: Links, n: RbNode, s: RbNode, child: RbNode, q: RbNode, rc: RbNode?): Links {
    if n == s then l.(right := child)
    else Links(if n == q then rc else l.left, l.right, if n == child then s else l.parent, l.red)
  }

  method Unlink(parent: RbNode, successor: RbNode, child: RbNode, ghost S: set<RbNode>) returns (child2: RbNode?)
    requires {parent, successor, child} <= S && parent != successor && child != successor
    modifies parent`left, successor`right, child`parent
    ensures child2 == old(successor.right)
    ensures forall n :: n in S ==> LinksOf(S)[n] == Unlinked(old(LinksOf(S))[n], n, successor, child, parent, child2)
  {
    child2 := successor.right;
    parent.left := child2;
    successor.right := child;
    child.parent := successor;
  }

  /** From "successor->rb_left = node->rb_left" on. */
  method Place(root: RbRoot, node: RbNode, successor: RbNode, parent: RbNode, child2: RbNode?) returns (rebalance: RbNode?)
    requires node.left != null && successor != node && node.left !in {node, successor} && child2 !in {node, successor, node.left}
    requires node.parent !in {node, successor, node.left} && (child2 != null ==> child2 != node.parent)
    modifies root`node, successor`left, successor`parent, successor`red, node.left`parent
    modifies Opt(child2)`parent, Opt(child2)`red, Opt(node.parent)`left, Opt(node.parent)`right
    ensures successor.left == node.left && successor.parent == node.parent && successor.red == node.red && node.left.parent == successor
    ensures child2 != null ==> child2.parent == parent && !child2.red
    ensures node.parent == null ==> root.node == successor
    ensures node.parent != null ==> root.node == old(root.node)
    ensures node.parent != null ==>
      if old(node.parent.left) == node then node.parent.left == successor && node.parent.right == old(node.parent.right)
                                       else node.parent.right == successor && node.parent.left == old(node.parent.left)
    ensures rebalance == if child2 == null && !old(successor.red) then parent else null
  {
    var tmp := node.left;
    successor.left := tmp;
    tmp.parent := successor;
    ChangeChild(root, node, successor, node.parent);
    if child2 != null {
      successor.parent, successor.red := node.parent, node.red;
      child2.parent, child2.red := parent, false;
      rebalance := null;
    } else {
      var black := !successor.red;
      successor.parent, successor.red := node.parent, node.red;
      rebalance := if black then parent else null;
    }
  }

  /** Links of n after Place, l being those before. */
  ghost function Placed(l: Links, n: RbNode, s: RbNode, x: RbNode, q: RbNode, rc: RbNode?, c: Ctx, nc: bool): Links {
    if n == s then Links(x, l.right, Owner(c), nc)
    else if n == x then l.(parent := s)
    else if n == Owner(c) then (if c.InL? then l.(left := s) else l.(right := s))
    else if n == rc then l.(parent := q, red := false)
    else l
  }

  /** Place on snapshots. */
  method PlaceStep(root: RbRoot, node: RbNode, s: RbNode, q: RbNode, rc: RbNode?, ghost S: set<RbNode>, ghost c: Ctx, ghost x: RbNode, ghost nc: bool)
    returns (rebalance: RbNode?)
    requires {node, s, x} <= S && Opt(rc) <= S && s != node && x !in {node, s} && rc !in {node, s, x}
    requires node.left == x && node.parent == Owner(c) && node.red == nc
    requires !c.Top? ==> c.node in S && c.node !in {node, s, x} && rc != c.node && (c.node.left == node <==> c.InL?)
    modifies root`node, S`left, S`right, S`parent, S`red
    ensures forall n :: n in S ==> LinksOf(S)[n] == Placed(old(LinksOf(S))[n], n, s, x, q, rc, c, nc)
    ensures root.node == if c.Top? then s else old(root.node)
    ensures rebalance == if rc == null && !old(s.red) then q else null
  {
    rebalance := Place(root, node, s, q, rc);
  }

  /** Detaching and placing the successor gives the final links. */
  lemma PlacedAt(m: View, n: RbNode, c: Ctx, x: Tree, node: RbNode, nc: bool, y: Tree)
    requires x.Node? && y.Node? && Ready2(m, c, x, node, nc, y) && n in m
    ensures var s, q, rc := MinTree(y).node, MinParent(y, MinTree(y).node), Root(MinTree(y).right);
      Placed(if y.left.Leaf? then m[n] else Unlinked(m[n], n, s, y.node, q, rc), n, s, x.node, q, rc, c, nc) == Final(m[n], n, c, x, nc, y)
  {
    RemoveMinRoot(y);
    hide RemoveMin, MinTree, MinParent;
  }

  lemma PlacedIsFinal(m: View, m1: View, m2: View, c: Ctx, x: Tree, node: RbNode, nc: bool, y: Tree)
    requires x.Node? && y.Node? && Ready2(m, c, x, node, nc, y) && m.Keys == m1.Keys == m2.Keys
    requires var s, q, rc := MinTree(y).node, MinParent(y, MinTree(y).node), Root(MinTree(y).right);
      && (forall n :: n in m ==> m1[n] == (if y.left.Leaf? then m[n] else Unlinked(m[n], n, s, y.node, q, rc)))
      && (forall n :: n in m ==> m2[n] == Placed(m1[n], n, s, x.node, q, rc, c, nc))
    ensures m2 == FinalView(m, c, x, nc, y)
  {
    hide Ready2, Unlinked, Placed, Final, MinTree, MinParent;
    forall n | n in m ensures m2[n] == Final(m[n], n, c, x, nc, y) {
      PlacedAt(m, n, c, x, node, nc, y);
    }
  }

  // ---- the values along the way -----------------------------------------------------

  lemma {:induction false} SpineBounds(rk: Rank, m: View, c: Ctx, y: Tree, p0: RbNode?, lo: int, hi: int, s: RbNode)
    requires y.Node? && Match(rk, m, y, p0, lo, hi) && Hi(rk, c) == hi
    requires Owner(c) == s == MinTree(y).node && c.InR?
    ensures y.left.Node? ==> s in rk && MinParent(y, s) in rk
    ensures y.left.Node? ==> Lo(rk, SpineCtx(c, y)) == rk[s] && Hi(rk, SpineCtx(c, y)) == rk[MinParent(y, s)]
  {
    MinRanks(rk, m, y, p0, s, lo, hi);
    if y.left.Node? {
      SpineBounds2(rk, m, InL(c, y.node, y.red, y.right), y.left, y.node, lo, rk[y.node]);
    }
  }

  lemma {:induction false} SpineBounds2(rk: Rank, m: View, c: Ctx, y: Tree, p: RbNode, lo: int, hi: int)
    requires y.Node? && Match(rk, m, y, p, lo, hi) && c.InL? && c.node == p && p in rk && rk[p] == hi
    ensures MinParent(y, p) in rk && Hi(rk, SpineCtx(c, y)) == rk[MinParent(y, p)] && Lo(rk, SpineCtx(c, y)) == Lo(rk, c)
    decreases y
  {
    if y.left.Node? {
      SpineBounds2(rk, m, InL(c, y.node, y.red, y.right), y.left, y.node, lo, rk[y.node]);
    }
  }

  lemma AgreeAt(m: View, n: RbNode, c: Ctx, x: Tree, node: RbNode, nc: bool, y: Tree)
    requires y.Node? && y.left.Node? && Ready2(m, c, x, node, nc, y) && n in m
    requires n != MinTree(y).node && n != Root(x) && n != Owner(c) && n != Root(MinTree(y).right)
    ensures Final(m[n], n, c, x, nc, y) == Unlinked(m[n], n, MinTree(y).node, y.node, MinParent(y, MinTree(y).node), Root(MinTree(y).right))
  {
  }

  lemma SpineHole(rk: Rank, m: View, top: RbNode?, c: Ctx, x: Tree, node: RbNode, nc: bool, y: Tree)
    requires y.Node? && y.left.Node? && Focus(rk, m, top, c, Node(x, node, nc, y))
    ensures var s, q := MinTree(y).node, MinParent(y, MinTree(y).node); var b := InR(c, s, nc, x);
      s in rk && q in rk && rk[s] < rk[q] && Lo(rk, SpineCtx(b, y)) == rk[s] && Hi(rk, SpineCtx(b, y)) == rk[q]
  {
    hide Match, Seg, Focus, Solo;
    var s := MinTree(y).node;
    SoloFocus(rk, m, top, c, x, node, y, nc);
    SoloParts(rk, m, top, c, node, x, node, y);
    MinRanks(rk, m, y, node, s, rk[node], Hi(rk, c));
    SpineBounds(rk, m, InR(c, s, nc, x), y, node, rk[node], Hi(rk, c), s);
  }

  lemma SpineApart(rk: Rank, m: View, top: RbNode?, c: Ctx, x: Tree, node: RbNode, nc: bool, y: Tree, n: RbNode)
    requires y.Node? && y.left.Node? && Focus(rk, m, top, c, Node(x, node, nc, y))
    requires var s, q := MinTree(y).node, MinParent(y, MinTree(y).node);
      s in rk && q in rk && n in rk && rk[s] < rk[n] < Hi(rk, c) && rk[q] <= rk[n]
    ensures n != MinTree(y).node && n != Root(x) && n != Owner(c) && n != Root(MinTree(y).right)
  {
    hide Match, Seg, Focus, Solo;
    SoloFocus(rk, m, top, c, x, node, y, nc);
    SoloParts(rk, m, top, c, node, x, node, y);
    MinRanks(rk, m, y, node, MinTree(y).node, rk[node], Hi(rk, c));
    MatchRoot(rk, m, x, node, Lo(rk, c), rk[node]);
    OwnerOff(rk, m, c, node, top);
  }

  /** After the detachment the heap agrees with the final links on the spine. */
  lemma SpineAgrees(S: set<RbNode>, rk: Rank, m: View, top: RbNode?, c: Ctx, x: Tree, node: RbNode, nc: bool, y: Tree)
    requires y.Node? && y.left.Node? && Focus(rk, m, top, c, Node(x, node, nc, y)) && m.Keys == S
    requires forall n :: n in S ==>
      LinksOf(S)[n] == Unlinked(m[n], n, MinTree(y).node, y.node, MinParent(y, MinTree(y).node), Root(MinTree(y).right))
    ensures var b := InR(c, MinTree(y).node, nc, x);
      Agrees(S, rk, FinalView(m, c, x, nc, y), SpineCtx(b, y), b)
  {
    hide Match, Seg, Focus, Ready2, Final, Unlinked, MinTree, MinParent, SpineCtx;
    var s, q := MinTree(y).node, MinParent(y, MinTree(y).node);
    TwoReady(rk, m, top, c, x, node, nc, y);
    SpineHole(rk, m, top, c, x, node, nc, y);
    forall n | n in S && n in rk && rk[s] < rk[n] < Hi(rk, c) && rk[q] <= rk[n]
      ensures FinalView(m, c, x, nc, y)[n] == Links(n.left, n.right, n.parent, n.red)
    {
      SpineApart(rk, m, top, c, x, node, nc, y, n);
      AgreeAt(m, n, c, x, node, nc, y);
      assert LinksOf(S)[n] == Links(n.left, n.right, n.parent, n.red);
    }
  }

  /** propagate(parent, successor) of case 3, run before the links above are final. */
  method PropagateSpine(cb: Callbacks, parent: RbNode, successor: RbNode, ghost S: set<RbNode>, ghost rk: Rank, ghost m: View, ghost top: RbNode?,
                        ghost a: Values, ghost c: Ctx, ghost x: Tree, ghost node: RbNode, ghost nc: bool, ghost y: Tree)
    requires y.Node? && y.left.Node? && Focus(rk, m, top, c, Node(x, node, nc, y)) && m.Keys == S
    requires successor == MinTree(y).node && parent == MinParent(y, successor)
    requires AugOk(cb, a, y) && OnlyVal(a, ValuesOf(S), successor, successor)
    requires forall n :: n in S ==>
      LinksOf(S)[n] == Unlinked(m[n], n, MinTree(y).node, y.node, MinParent(y, MinTree(y).node), Root(MinTree(y).right))
    modifies S`aug
    ensures AugOk(cb, ValuesOf(S), RemoveMin(y))
    ensures Spared(rk, old(ValuesOf(S)), ValuesOf(S), InR(c, successor, nc, x))
  {
    hide Match, Seg, Focus, Solo, Agrees, Unlinked, MinTree, MinParent, SpineCtx, RemoveMin, AugOk, AugUpTo, Stale, Spared, FinalView;
    ghost var s, u := MinTree(y).node, MinTree(y).right;
    ghost var b, m' := InR(c, s, nc, x), FinalView(m, c, x, nc, y);
    ghost var top' := if c.Top? then s else top;
    ghost var d := SpineCtx(b, y);
    SpineAgrees(S, rk, m, top, c, x, node, nc, y);
    PlaceSuccessor(rk, m, top, top', c, x, node, nc, y);
    SpineFocus(rk, m', top', c, x, nc, y);
    SpineStale(cb, rk, m, a, ValuesOf(S), top, c, x, node, nc, y);
    SpineOwner(b, y, s);
    SpinePlugTo(b, y, b);
    Propagate(cb, parent, successor, S, rk, m', top', d, Paint(u, false), b);
    assert PlugTo(b, RemoveMin(y), b) == RemoveMin(y);
  }

  lemma SpineFocus(rk: Rank, m: View, top: RbNode?, c: Ctx, x: Tree, nc: bool, y: Tree)
    requires y.Node?
    ensures var s, u := MinTree(y).node, MinTree(y).right; var b := InR(c, s, nc, x);
      Focus(rk, m, top, c, Node(x, s, nc, RemoveMin(y))) <==> Focus(rk, m, top, SpineCtx(b, y), Paint(u, false))
  {
    hide Focus;
    var s, u := MinTree(y).node, MinTree(y).right;
    var b := InR(c, s, nc, x);
    SpinePlug(b, y);
    FocusUp(rk, m, top, b, RemoveMin(y));
    FocusPlug(rk, m, top, b, RemoveMin(y));
    FocusPlug(rk, m, top, SpineCtx(b, y), Paint(u, false));
  }

  lemma SpineStale(cb: Callbacks, rk: Rank, m: View, a: Values, a': Values, top: RbNode?, c: Ctx, x: Tree, node: RbNode, nc: bool, y: Tree)
    requires y.Node? && Focus(rk, m, top, c, Node(x, node, nc, y)) && AugOk(cb, a, y)
    requires OnlyVal(a, a', MinTree(y).node, MinTree(y).node)
    ensures var s, u := MinTree(y).node, MinTree(y).right; var b := InR(c, s, nc, x);
      Stale(cb, a', SpineCtx(b, y), Paint(u, false), b)
  {
    hide Focus, Match, Seg, Solo;
    var s, u := MinTree(y).node, MinTree(y).right;
    var b := InR(c, s, nc, x);
    SoloFocus(rk, m, top, c, x, node, y, nc);
    SoloParts(rk, m, top, c, node, x, node, y);
    SpineBeyond(cb, rk, m, a, a', b, y, node, b, rk[node], Hi(rk, c));
    AugPaint(cb, a', b, u, false);
  }

  // ---- cases 2 and 3 ------------------------------------------------------------------

  /** Links after the successor is detached; in case 2 there is nothing to detach. */
  ghost predicate Detached(m: View, m1: View, y: Tree)
    requires y.Node?
  {
    && m1.Keys == m.Keys
    && forall n :: n in m ==>
         m1[n] == (if y.left.Leaf? then m[n]
                   else Unlinked(m[n], n, MinTree(y).node, y.node, MinParent(y, MinTree(y).node), Root(MinTree(y).right)))
  }

  /** Case 2: the successor is the right child itself. */
  method DetachChild(node: RbNode, child: RbNode, cb: Callbacks, ghost S: set<RbNode>, ghost rk: Rank, ghost top: RbNode?,
                     ghost c: Ctx, ghost x: Tree, ghost nc: bool, ghost y: Tree)
    requires y.Node? && y.node == child && y.left.Leaf?
    requires Focus(rk, LinksOf(S), top, c, Node(x, node, nc, y)) && AugAll(cb, ValuesOf(S), c, Node(x, node, nc, y))
    modifies S`aug
    ensures AugOk(cb, ValuesOf(S), RemoveMin(y)) && Beyond(cb, ValuesOf(S), InR(c, child, nc, x), Top)
  {
    ghost var m, a := LinksOf(S), ValuesOf(S);
    AugParts(cb, a, c, x, node, nc, y);
    assert AugOk(cb, a, y.right);
    hide Focus, Match, Seg, Solo, AugOk, AugAll, Beyond, Ready2;
    TwoReady(rk, m, top, c, x, node, nc, y);
    SoloFocus(rk, m, top, c, x, node, y, nc);
    SoloParts(rk, m, top, c, node, x, node, y);
    ReadyNodes(m, c, x, node, nc, y);
    Copy(cb, node, child);
    ghost var a' := ValuesOf(S);
    BeyondPlaced(cb, rk, m, a, a', top, c, x, node, nc, y);
    AugPiece(cb, rk, m, a, a', y.right, child, rk[child], Hi(rk, c), child, child);
    AugPaint(cb, a', Top, y.right, false);
  }

  lemma ReadyNodes(m: View, c: Ctx, x: Tree, node: RbNode, nc: bool, y: Tree)
    requires y.Node? && Ready2(m, c, x, node, nc, y)
    ensures node in m && MinTree(y).node in m && MinTree(y).node != node && y.node in m && MinParent(y, MinTree(y).node) in m
    ensures y.node != node && m[node] == Links(Root(x), y.node, Owner(c), nc)
    ensures y.left.Node? ==> MinTree(y).node != y.node && MinTree(y).node != MinParent(y, MinTree(y).node)
    ensures m[MinTree(y).node].right == Root(MinTree(y).right) && m[MinTree(y).node].red == MinTree(y).red
  {
  }

  lemma DeepOpen(cb: Callbacks, rk: Rank, m: View, a: Values, top: RbNode?, c: Ctx, x: Tree, node: RbNode, nc: bool, y: Tree)
    requires y.Node? && y.left.Node? && Focus(rk, m, top, c, Node(x, node, nc, y)) && AugAll(cb, a, c, Node(x, node, nc, y))
    ensures node in rk && Match(rk, m, y, node, rk[node], Hi(rk, c)) && AugOk(cb, a, y)
    ensures y.node in m && m[y.node].left == Root(y.left) && node in m
    ensures var s, q := MinTree(y).node, MinParent(y, MinTree(y).node);
      && s in m && q in m && s in rk && s != node && s != q && s != y.node && m[s].right == Root(MinTree(y).right)
  {
    hide Focus, Match, Seg, Solo, AugOk, AugAll, Beyond, Ready2, MinTree, MinParent;
    AugParts(cb, a, c, x, node, nc, y);
    TwoReady(rk, m, top, c, x, node, nc, y);
    SoloFocus(rk, m, top, c, x, node, y, nc);
    SoloParts(rk, m, top, c, node, x, node, y);
    ReadyNodes(m, c, x, node, nc, y);
    MinRanks(rk, m, y, node, node, rk[node], Hi(rk, c));
  }

  /** Case 3: the successor lies deeper. */
  method DetachDeep(node: RbNode, child: RbNode, cb: Callbacks, ghost S: set<RbNode>, ghost rk: Rank, ghost top: RbNode?,
                    ghost c: Ctx, ghost x: Tree, ghost nc: bool, ghost y: Tree)
    returns (parent: RbNode, successor: RbNode, child2: RbNode?)
    requires y.Node? && y.node == child && y.left.Node?
    requires Focus(rk, LinksOf(S), top, c, Node(x, node, nc, y)) && AugAll(cb, ValuesOf(S), c, Node(x, node, nc, y))
    modifies S`left, S`right, S`parent, S`aug
    ensures successor == MinTree(y).node && parent == MinParent(y, successor) && child2 == Root(MinTree(y).right)
    ensures Detached(old(LinksOf(S)), LinksOf(S), y)
    ensures AugOk(cb, ValuesOf(S), RemoveMin(y)) && Beyond(cb, ValuesOf(S), InR(c, successor, nc, x), Top)
  {
    hide Focus, Match, Seg, Solo, AugOk, AugAll, Beyond, MinTree, MinParent, Unlinked, RemoveMin, Spared;
    ghost var m, a := LinksOf(S), ValuesOf(S);
    DeepOpen(cb, rk, m, a, top, c, x, node, nc, y);
    parent, successor := FindSuccessor(child, S, rk, y, node, rk[node], Hi(rk, c));
    child2 := Unlink(parent, successor, child, S);
    Copy(cb, node, successor);
    ghost var a1 := ValuesOf(S);
    PropagateSpine(cb, parent, successor, S, rk, m, top, a, c, x, node, nc, y);
    DeepValues(cb, rk, m, a, a1, ValuesOf(S), top, c, x, node, nc, y);
  }

  lemma DeepValues(cb: Callbacks, rk: Rank, m: View, a: Values, a1: Values, a2: Values, top: RbNode?, c: Ctx, x: Tree, node: RbNode, nc: bool, y: Tree)
    requires y.Node? && Focus(rk, m, top, c, Node(x, node, nc, y)) && AugAll(cb, a, c, Node(x, node, nc, y))
    requires var s := MinTree(y).node;
      && s in rk && node in a && s in a && a1.Keys == a.Keys && (cb.Augmented? ==> a1[s] == a[node])
      && OnlyVal(a, a1, s, s) && Spared(rk, a1, a2, InR(c, s, nc, x))
    ensures Beyond(cb, a2, InR(c, MinTree(y).node, nc, x), Top)
  {
    hide Focus, AugAll, Beyond, MinTree, Copied;
    SparedCopied(cb, rk, a, a1, a2, c, x, node, nc, MinTree(y).node);
    BeyondPlaced(cb, rk, m, a, a2, top, c, x, node, nc, y);
  }

  lemma SparedCopied(cb: Callbacks, rk: Rank, a: Values, a1: Values, a2: Values, c: Ctx, x: Tree, node: RbNode, nc: bool, s: RbNode)
    requires s in rk && node in a && s in a && a1.Keys == a.Keys
    requires cb.Augmented? ==> a1[s] == a[node]
    requires OnlyVal(a, a1, s, s) && Spared(rk, a1, a2, InR(c, s, nc, x))
    ensures Copied(cb, rk, a, a2, node, s, Hi(rk, c))
  {
  }

  /** Cases 2 and 3 up to the point where they join. */
  method Detach(node: RbNode, child: RbNode, cb: Callbacks, ghost S: set<RbNode>, ghost rk: Rank, ghost top: RbNode?,
                ghost c: Ctx, ghost x: Tree, ghost nc: bool, ghost y: Tree)
    returns (parent: RbNode, successor: RbNode, child2: RbNode?)
    requires y.Node? && y.node == child
    requires Focus(rk, LinksOf(S), top, c, Node(x, node, nc, y)) && AugAll(cb, ValuesOf(S), c, Node(x, node, nc, y))
    modifies S`left, S`right, S`parent, S`aug
    ensures successor == MinTree(y).node && parent == MinParent(y, successor) && child2 == Root(MinTree(y).right)
    ensures Detached(old(LinksOf(S)), LinksOf(S), y)
    ensures AugOk(cb, ValuesOf(S), RemoveMin(y)) && Beyond(cb, ValuesOf(S), InR(c, successor, nc, x), Top)
  {
    hide Focus, AugOk, AugAll, Beyond, MinTree, MinParent, Unlinked, RemoveMin;
    RootLeft(rk, LinksOf(S), top, c, x, node, nc, y);
    if child.left == null {
      parent, successor, child2 := child, child, child.right;
      MinOfChild(y);
      DetachChild(node, child, cb, S, rk, top, c, x, nc, y);
    } else {
      parent, successor, child2 := DetachDeep(node, child, cb, S, rk, top, c, x, nc, y);
    }
  }

  /** From the point where they join; m is the snapshot before the detachment. */
  method PlaceFinal(root: RbRoot, node: RbNode, successor: RbNode, parent: RbNode, child2: RbNode?, ghost S: set<RbNode>, ghost rk: Rank,
                    ghost m: View, ghost c: Ctx, ghost x: Tree, ghost nc: bool, ghost y: Tree) returns (rebalance: RbNode?)
    requires x.Node? && y.Node? && Focus(rk, m, root.node, c, Node(x, node, nc, y)) && Detached(m, LinksOf(S), y)
    requires successor == MinTree(y).node && parent == MinParent(y, successor) && child2 == Root(MinTree(y).right)
    modifies root`node, S`left, S`right, S`parent, S`red
    ensures Focus(rk, LinksOf(S), root.node, InR(c, successor, nc, x), RemoveMin(y))
    ensures rebalance == if child2 == null && !MinTree(y).red then parent else null
  {
    hide Focus, Ready2, MinTree, MinParent, Unlinked, Placed, RemoveMin, Detached, FinalView;
    ghost var top, m1 := root.node, LinksOf(S);
    assert m1.Keys == S;
    TwoReady(rk, m, top, c, x, node, nc, y);
    DetachedReady(m, m1, c, x, node, nc, y);
    rebalance := PlaceStep(root, node, successor, parent, child2, S, c, x.node, nc);
    FinishPlace(m, m1, LinksOf(S), c, x, node, nc, y);
    PlaceSuccessor(rk, m, top, root.node, c, x, node, nc, y);
    FocusUp(rk, LinksOf(S), root.node, InR(c, successor, nc, x), RemoveMin(y));
  }

  /** node has two children: the leftmost node of y takes its place. */
  method EraseTwo(root: RbRoot, node: RbNode, child: RbNode, cb: Callbacks, ghost S: set<RbNode>, ghost rk: Rank,
                  ghost c: Ctx, ghost x: Tree, ghost nc: bool, ghost y: Tree) returns (rebalance: RbNode?)
    requires x.Node? && y.Node? && y.node == child
    requires Focus(rk, LinksOf(S), root.node, c, Node(x, node, nc, y)) && AugAll(cb, ValuesOf(S), c, Node(x, node, nc, y))
    modifies root`node, S`left, S`right, S`parent, S`red, S`aug
    ensures var s := MinTree(y).node; var b := InR(c, s, nc, x);
      && Focus(rk, LinksOf(S), root.node, b, RemoveMin(y)) && AugAll(cb, ValuesOf(S), b, RemoveMin(y))
      && rebalance == if MinTree(y).right.Leaf? && !MinTree(y).red then MinParent(y, s) else null
  {
    hide Focus, AugOk, AugAll, Beyond, MinTree, MinParent, RemoveMin, Detached;
    ghost var m := LinksOf(S);
    var parent, successor, child2 := Detach(node, child, cb, S, rk, root.node, c, x, nc, y);
    rebalance := PlaceFinal(root, node, successor, parent, child2, S, rk, m, c, x, nc, y);
    PropagateToTop(cb, successor, root, S, rk, InR(c, successor, nc, x), RemoveMin(y));
  }

  lemma RootLeft(rk: Rank, m: View, top: RbNode?, c: Ctx, x: Tree, node: RbNode, nc: bool, y: Tree)
    requires y.Node? && Focus(rk, m, top, c, Node(x, node, nc, y))
    ensures y.node in m && m[y.node].left == Root(y.left) && m[y.node].right == Root(y.right)
  {
    assert Match(rk, m, y, node, rk[node], Hi(rk, c));
  }

  lemma MinOfChild(y: Tree)
    requires y.Node? && y.left.Leaf?
    ensures MinTree(y) == y && MinParent(y, y.node) == y.node
  {
  }

  /** What PlaceStep needs to know of the links after the detachment. */
  lemma DetachedReady(m: View, m1: View, c: Ctx, x: Tree, node: RbNode, nc: bool, y: Tree)
    requires x.Node? && y.Node? && Ready2(m, c, x, node, nc, y) && Detached(m, m1, y)
    ensures m1.Keys == m.Keys
    ensures var s, rc := MinTree(y).node, Root(MinTree(y).right);
      && {node, s, x.node} <= m1.Keys && (rc != null ==> rc in m1) && s != node && x.node !in {node, s} && rc !in {node, s, x.node}
      && m1[node].left == x.node && m1[node].parent == Owner(c) && m1[node].red == nc && m1[s].red == MinTree(y).red
      && (!c.Top? ==> c.node in m1 && c.node !in {node, s, x.node} && rc != c.node && (m1[c.node].left == node <==> c.InL?))
  {
  }

  lemma FinishPlace(m: View, m1: View, m2: View, c: Ctx, x: Tree, node: RbNode, nc: bool, y: Tree)
    requires x.Node? && y.Node? && Ready2(m, c, x, node, nc, y) && Detached(m, m1, y) && m2.Keys == m.Keys
    requires forall n :: n in m ==>
      m2[n] == Placed(m1[n], n, MinTree(y).node, x.node, MinParent(y, MinTree(y).node), Root(MinTree(y).right), c, nc)
    ensures m2 == FinalView(m, c, x, nc, y)
  {
    hide Ready2, Unlinked, Placed, MinTree, MinParent, FinalView;
    PlacedIsFinal(m, m1, m2, c, x, node, nc, y);
  }
}
