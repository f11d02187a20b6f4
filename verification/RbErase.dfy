/** __rb_erase_augmented: unlinking a node, its successor taking its place when it
    has two children. */
module RbErase {
  import opened Common
  import opened RbShape
  import opened RbHeap
  import opened RbRotate
  import opened RbPropagate
  import opened RbEraseColor

  lemma {:induction false} MatchWiden(rk: Rank, m: View, t: Tree, p: RbNode?, lo: int, hi: int, lo': int, hi': int)
    requires Match(rk, m, t, p, lo, hi) && lo' <= lo && hi <= hi'
    ensures Match(rk, m, t, p, lo', hi')
  {
    if t.Node? {
      MatchWiden(rk, m, t.left, t.node, lo, rk[t.node], lo', rk[t.node]);
      MatchWiden(rk, m, t.right, t.node, rk[t.node], hi, rk[t.node], hi');
    }
  }

  // ---- a node with at most one child ---------------------------------------------

  /** The only child u of node, if any, takes node's place and colour. */
  lemma LiftChild(rk: Rank, m: View, m': View, top: RbNode?, top': RbNode?, c: Ctx, l: Tree, node: RbNode, nc: bool, r: Tree, u: Tree)
    requires Focus(rk, m, top, c, Node(l, node, nc, r))
    requires (l.Leaf? && u == r) || (r.Leaf? && u == l)
    requires Only(m, m', Root(u), null, null, null, null, Owner(c))
    requires Redirected(m, m', top, top', c, Root(u)) && Hung(m, m', u, Owner(c), nc)
    ensures Focus(rk, m', top', c, Paint(u, nc))
  {
    hide Seg, Only, Hung, Redirected;
    var ru, ow, lo, hi := Root(u), Owner(c), Lo(rk, c), Hi(rk, c);
    OwnerOff(rk, m, c, node, top);
    if u == l {
      MatchWiden(rk, m, u, node, lo, rk[node], lo, hi);
    } else {
      MatchWiden(rk, m, u, node, rk[node], hi, lo, hi);
    }
    MatchRoot(rk, m, u, node, lo, hi);
    Piece(rk, m, m', u, node, ow, nc, lo, hi, ru, null, null, null, null, ow);
    Surround(rk, m, m', c, node, ru, top, top', ru, null, null, null, null, ow);
  }

  lemma LoneShape(c: Ctx, l: Tree, node: RbNode, nc: bool, r: Tree, u: Tree)
    requires RedBlack(Plug(c, Node(l, node, nc, r)))
    requires (l.Leaf? && u == r) || (r.Leaf? && u == l)
    ensures u.Node? ==> !nc && RedBlack(Plug(c, Paint(u, false)))
    ensures u.Leaf? && (nc || c.Top?) ==> RedBlack(Plug(c, Leaf))
    ensures u.Leaf? && !nc && !c.Top? ==> EraseShape(c, Leaf)
    ensures Inorder(Paint(u, nc)) == Inorder(l) + Inorder(r)
  {
    var t := Node(l, node, nc, r);
    PlugRedBlack(c, t);
    PlugRedBlack(c, Paint(u, false));
    PaintOrder(u, nc);
  }

  lemma {:induction false} UpToTop(cb: Callbacks, a: Values, c: Ctx, hole: Option<Aug>)
    ensures AugUpTo(cb, a, c, hole, Top) <==> AugCtx(cb, a, c, hole)
  {
    if cb.Augmented? && !c.Top? && c.node in a {
      UpToTop(cb, a, c.up, Some(a[c.node]));
    }
  }

  /** Above a replaced subtree only the node that owns the hole may be stale. */
  lemma BeyondHole(cb: Callbacks, a: Values, c: Ctx, hole: Option<Aug>)
    requires AugCtx(cb, a, c, hole)
    ensures Beyond(cb, a, c, Top)
  {
    if cb.Augmented? && !c.Top? {
      UpToTop(cb, a, c.up, Some(a[c.node]));
    }
  }

  /** The writes of case 1: u, node's only child or NULL, moves up. */
  method LiftWrites(root: RbRoot, node: RbNode, u: RbNode?)
    requires node.parent != node && u != node && (u != null ==> u != node.parent)
    modifies root`node, Opt(u)`parent, Opt(u)`red, Opt(node.parent)`left, Opt(node.parent)`right
    ensures u != null ==> u.parent == node.parent && u.red == node.red
    ensures node.parent == null ==> root.node == u
    ensures node.parent != null ==> root.node == old(root.node)
    ensures node.parent != null ==>
      if old(node.parent.left) == node then node.parent.left == u && node.parent.right == old(node.parent.right)
                                       else node.parent.right == u && node.parent.left == old(node.parent.left)
  {
    ChangeChild(root, node, u, node.parent);
    if u != null {
      u.parent, u.red := node.parent, node.red;
    }
  }

  method LiftStep(root: RbRoot, node: RbNode, child: RbNode?, ghost S: set<RbNode>, ghost c: Ctx, ghost u: Tree)
    requires node in S && child == Root(u) && node.parent == Owner(c) && (u.Node? ==> u.node in S && u.node != node)
    requires !c.Top? ==>
      && c.node in S && c.node != node && c.node != Root(u)
      && (c.node.left == node <==> c.InL?) && (c.InR? ==> c.node.right == node)
    modifies root`node, S`left, S`right, S`parent, S`red
    ensures Only(old(LinksOf(S)), LinksOf(S), Root(u), null, null, null, null, Owner(c))
    ensures Redirected(old(LinksOf(S)), LinksOf(S), old(root.node), root.node, c, Root(u))
    ensures Hung(old(LinksOf(S)), LinksOf(S), u, Owner(c), old(node.red))
  {
    LiftWrites(root, node, child);
  }

  /** What the writes of case 1 rely on. */
  lemma LoneReady(rk: Rank, m: View, top: RbNode?, c: Ctx, l: Tree, node: RbNode, nc: bool, r: Tree, u: Tree)
    requires Focus(rk, m, top, c, Node(l, node, nc, r)) && u in {l, r}
    ensures node in m && m[node] == Links(Root(l), Root(r), Owner(c), nc)
    ensures u.Node? ==> u.node in m && u.node != node
    ensures !c.Top? ==>
      && c.node in m && c.node != node && c.node != Root(u)
      && (m[c.node].left == node <==> c.InL?) && (c.InR? ==> m[c.node].right == node)
  {
    hide Match, Seg;
    SoloFocus(rk, m, top, c, l, node, r, nc);
    SoloReady(rk, m, top, c, l, node, r);
    SoloParts(rk, m, top, c, node, l, node, r);
    OwnerReady(rk, m, c, node, top);
  }

  method LinkLift(root: RbRoot, node: RbNode, child: RbNode?, ghost S: set<RbNode>, ghost rk: Rank,
                  ghost c: Ctx, ghost l: Tree, ghost nc: bool, ghost r: Tree, ghost u: Tree)
    requires Focus(rk, LinksOf(S), root.node, c, Node(l, node, nc, r))
    requires ((l.Leaf? && u == r) || (r.Leaf? && u == l)) && child == Root(u)
    modifies root`node, S`left, S`right, S`parent, S`red
    ensures Focus(rk, LinksOf(S), root.node, c, Paint(u, nc))
  {
    hide Focus, Match, Seg;
    ghost var m, top := LinksOf(S), root.node;
    LoneReady(rk, m, top, c, l, node, nc, r, u);
    LiftStep(root, node, child, S, c, u);
    LiftChild(rk, m, LinksOf(S), top, root.node, c, l, node, nc, r, u);
  }

  /** propagate(tmp, NULL) once the links are final. */
  method PropagateToTop(cb: Callbacks, rb: RbNode?, root: RbRoot, ghost S: set<RbNode>, ghost rk: Rank, ghost c: Ctx, ghost t: Tree)
    requires Focus(rk, LinksOf(S), root.node, c, t) && rb == Owner(c)
    requires AugOk(cb, ValuesOf(S), t) && Beyond(cb, ValuesOf(S), c, Top)
    modifies S`aug
    ensures AugAll(cb, ValuesOf(S), c, t)
  {
    hide Focus, AugOk, AugAll, Beyond, Reaches;
    ReachesTop(c);
    Propagate(cb, rb, null, S, rk, LinksOf(S), root.node, c, t, Top);
    PlugToTop(c, t);
    AugPlug(cb, ValuesOf(S), c, t);
  }

  lemma AugParts(cb: Callbacks, a: Values, c: Ctx, l: Tree, n: RbNode, red: bool, r: Tree)
    requires AugAll(cb, a, c, Node(l, n, red, r))
    ensures AugOk(cb, a, l) && AugOk(cb, a, r) && Beyond(cb, a, c, Top)
  {
    BeyondHole(cb, a, c, At(a, n));
  }

  /** Case 1 up to the values: node has at most one child. */
  method EraseLone(root: RbRoot, node: RbNode, child: RbNode?, cb: Callbacks, ghost S: set<RbNode>, ghost rk: Rank,
                   ghost c: Ctx, ghost l: Tree, ghost nc: bool, ghost r: Tree, ghost u: Tree) returns (rebalance: RbNode?)
    requires Focus(rk, LinksOf(S), root.node, c, Node(l, node, nc, r)) && AugAll(cb, ValuesOf(S), c, Node(l, node, nc, r))
    requires ((l.Leaf? && u == r) || (r.Leaf? && u == l)) && child == Root(u)
    modifies root`node, S`left, S`right, S`parent, S`red, S`aug
    ensures Focus(rk, LinksOf(S), root.node, c, Paint(u, nc)) && AugAll(cb, ValuesOf(S), c, Paint(u, nc))
    ensures rebalance == if child == null && !nc then Owner(c) else null
  {
    hide Focus, AugOk, AugAll, Beyond;
    LoneReady(rk, LinksOf(S), root.node, c, l, node, nc, r, u);
    AugParts(cb, ValuesOf(S), c, l, node, nc, r);
    AugPaint(cb, ValuesOf(S), c, u, nc);
    var parent, black := node.parent, !node.red;
    LinkLift(root, node, child, S, rk, c, l, nc, r, u);
    rebalance := if child == null && black then parent else null;
    PropagateToTop(cb, parent, root, S, rk, c, Paint(u, nc));
  }
}
