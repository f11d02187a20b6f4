/** The propagate callback of RB_DECLARE_CALLBACKS: walking up from a node whose
    stored value may be stale, stopping early when a value turns out right. */
module RbPropagate {
  import opened Common
  import opened RbShape
  import opened RbHeap
  import opened RbRotate

  /** Context c1 is c or lies above it. */
  ghost predicate Reaches(c: Ctx, c1: Ctx) {
    c == c1 || (!c.Top? && Reaches(c.up, c1))
  }

  /** What fills the hole of c1 when t fills the hole of c. */
  ghost function PlugTo(c: Ctx, t: Tree, c1: Ctx): Tree
    requires Reaches(c, c1)
    decreases c
  {
    if c == c1 then t else PlugTo(c.up, Close(c, t), c1)
  }

  /** Values are right on the way from c up to c1, for a hole of value hole. */
  ghost predicate AugUpTo(cb: Callbacks, a: Values, c: Ctx, hole: Option<Aug>, c1: Ctx) {
    cb.Augmented? && c != c1 && !c.Top? ==>
      && c.node in a && AugOk(cb, a, c.sib)
      && a[c.node] == (if c.InL? then cb.compute(hole, c.node.item, At(a, Root(c.sib)))
                                 else cb.compute(At(a, Root(c.sib)), c.node.item, hole))
      && AugUpTo(cb, a, c.up, Some(a[c.node]), c1)
  }

  /** What lies strictly above c is right, whatever c's own node holds. */
  ghost predicate Beyond(cb: Callbacks, a: Values, c: Ctx, c1: Ctx) {
    cb.Augmented? && c != c1 && !c.Top? ==>
      c.node in a && AugOk(cb, a, c.sib) && AugUpTo(cb, a, c.up, Some(a[c.node]), c1)
  }

  /** The same, except that the node owning the hole may hold a stale value. */
  ghost predicate Stale(cb: Callbacks, a: Values, c: Ctx, t: Tree, c1: Ctx) {
    AugOk(cb, a, t) && Beyond(cb, a, c, c1)
  }

  lemma {:induction false} AugPlugTo(cb: Callbacks, a: Values, c: Ctx, t: Tree, c1: Ctx)
    requires Reaches(c, c1) && AugOk(cb, a, t) && AugUpTo(cb, a, c, At(a, Root(t)), c1)
    ensures AugOk(cb, a, PlugTo(c, t, c1))
    decreases c
  {
    if c != c1 {
      AugPlugTo(cb, a, c.up, Close(c, t), c1);
    }
  }

  lemma {:induction false} ReachesTop(c: Ctx)
    ensures Reaches(c, Top)
  {
    if !c.Top? {
      ReachesTop(c.up);
    }
  }

  lemma {:induction false} PlugToTop(c: Ctx, t: Tree)
    requires Reaches(c, Top)
    ensures PlugTo(c, t, Top) == Plug(c, t)
    decreases c
  {
    if !c.Top? {
      PlugToTop(c.up, Close(c, t));
    }
  }

  /** Nodes between c and c1 are positioned inside the hole of c1. */
  lemma {:induction false} ReachesBounds(rk: Rank, m: View, c: Ctx, child: RbNode?, top: RbNode?, c1: Ctx)
    requires Reaches(c, c1) && Seg(rk, m, c, child, top)
    ensures Lo(rk, c1) <= Lo(rk, c) && Hi(rk, c) <= Hi(rk, c1)
    ensures c != c1 ==> c.node in rk && c.node in m && Lo(rk, c1) < rk[c.node] < Hi(rk, c1)
  {
    if c != c1 {
      ReachesBounds(rk, m, c.up, c.node, top, c1);
    }
  }

  lemma {:induction false} AugUpToFrame(cb: Callbacks, rk: Rank, m: View, a: Values, a': Values, c: Ctx, child: RbNode?, top: RbNode?,
                                        hole: Option<Aug>, c1: Ctx)
    requires Seg(rk, m, c, child, top) && AugUpTo(cb, a, c, hole, c1) && KeepsValOut(rk, a, a', Lo(rk, c), Hi(rk, c))
    ensures AugUpTo(cb, a', c, hole, c1)
  {
    if cb.Augmented? && c != c1 && !c.Top? {
      AugFrame(cb, rk, m, a, a', c.sib, c.node,
        if c.InL? then rk[c.node] else Lo(rk, c.up), if c.InL? then Hi(rk, c.up) else rk[c.node]);
      AugUpToFrame(cb, rk, m, a, a', c.up, c.node, top, Some(a[c.node]), c1);
    }
  }

  lemma BeyondFrame(cb: Callbacks, rk: Rank, m: View, a: Values, a': Values, c: Ctx, child: RbNode?, top: RbNode?, c1: Ctx)
    requires Seg(rk, m, c, child, top) && Beyond(cb, a, c, c1) && KeepsValOut(rk, a, a', Lo(rk, c), Hi(rk, c))
    ensures Beyond(cb, a', c, c1)
  {
    if cb.Augmented? && c != c1 && !c.Top? {
      AugFrame(cb, rk, m, a, a', c.sib, c.node,
        if c.InL? then rk[c.node] else Lo(rk, c.up), if c.InL? then Hi(rk, c.up) else rk[c.node]);
      AugUpToFrame(cb, rk, m, a, a', c.up, c.node, top, Some(a[c.node]), c1);
    }
  }

  /** Writing the value of the node that owns the hole leaves the rest right. */
  lemma StaleUp(cb: Callbacks, rk: Rank, m: View, a: Values, a': Values, top: RbNode?, c: Ctx, t: Tree, c1: Ctx)
    requires Focus(rk, m, top, c, t) && Reaches(c, c1) && c != c1 && cb.Augmented? && Stale(cb, a, c, t, c1)
    requires c.node in a' && OnlyVal(a, a', c.node, c.node)
    requires a'[c.node] == if c.InL? then Recomputed(cb, a, Root(t), c.node, Root(c.sib))
                                     else Recomputed(cb, a, Root(c.sib), c.node, Root(t))
    ensures Stale(cb, a', c.up, Close(c, t), c1)
  {
    hide Focus, Seg, Match, Solo, OnlyVal, KeepsValOut;
    var n, up := c.node, c.up;
    var l := if c.InL? then t else c.sib;
    var r := if c.InL? then c.sib else t;
    FocusUp(rk, m, top, c, t);
    SoloFocus(rk, m, top, up, l, n, r, c.red);
    SoloParts(rk, m, top, up, n, l, n, r);
    AugPiece(cb, rk, m, a, a', l, n, Lo(rk, up), rk[n], n, n);
    AugPiece(cb, rk, m, a, a', r, n, rk[n], Hi(rk, up), n, n);
    OnlyValOut(rk, a, a', n, Lo(rk, up), Hi(rk, up));
    BeyondFrame(cb, rk, m, a, a', up, n, top, c1);
  }

  lemma OnlyValOut(rk: Rank, a: Values, a': Values, n: RbNode, lo: int, hi: int)
    requires OnlyVal(a, a', n, n) && n in rk && lo < rk[n] < hi
    ensures KeepsValOut(rk, a, a', lo, hi)
  {
  }

  lemma SoloMake(rk: Rank, m: View, top: RbNode?, c: Ctx, child: RbNode, l: Tree, n: RbNode, r: Tree)
    requires n in rk && n in m && Lo(rk, c) < rk[n] < Hi(rk, c)
    requires Match(rk, m, l, n, Lo(rk, c), rk[n]) && Match(rk, m, r, n, rk[n], Hi(rk, c)) && Seg(rk, m, c, child, top)
    ensures Solo(rk, m, top, c, child, l, n, r)
  {
  }

  lemma SoloParts(rk: Rank, m: View, top: RbNode?, c: Ctx, child: RbNode, l: Tree, n: RbNode, r: Tree)
    requires Solo(rk, m, top, c, child, l, n, r)
    ensures n in rk && n in m && Lo(rk, c) < rk[n] < Hi(rk, c)
    ensures Match(rk, m, l, n, Lo(rk, c), rk[n]) && Match(rk, m, r, n, rk[n], Hi(rk, c)) && Seg(rk, m, c, child, top)
  {
  }

  /** The heap links the nodes inside the hole of c1 but outside that of c0 as m says. */
  ghost predicate Agrees(S: set<RbNode>, rk: Rank, m: View, c0: Ctx, c1: Ctx)
    reads S`left, S`right, S`parent, S`red
  {
    && m.Keys == S
    && forall n :: n in S && n in rk && Lo(rk, c1) < rk[n] < Hi(rk, c1) && (rk[n] <= Lo(rk, c0) || Hi(rk, c0) <= rk[n]) ==>
         m[n] == Links(n.left, n.right, n.parent, n.red)
  }

  /** Outside the hole of c1 values are as before. */
  ghost predicate Spared(rk: Rank, a: Values, a': Values, c1: Ctx) {
    a'.Keys == a.Keys && forall n :: n in a && (n !in rk || rk[n] <= Lo(rk, c1) || Hi(rk, c1) <= rk[n]) ==> a'[n] == a[n]
  }

  /** A value that is right already: nothing above can be wrong. */
  lemma StopEarly(cb: Callbacks, a: Values, c: Ctx, t: Tree, c1: Ctx)
    requires Reaches(c, c1) && c != c1 && cb.Augmented? && Stale(cb, a, c, t, c1)
    requires c.node in a && a[c.node] == if c.InL? then Recomputed(cb, a, Root(t), c.node, Root(c.sib))
                                                   else Recomputed(cb, a, Root(c.sib), c.node, Root(t))
    ensures AugOk(cb, a, PlugTo(c, t, c1))
  {
    AugPlugTo(cb, a, c, t, c1);
  }

  /** What propagate reads around the node it is about to recompute. */
  lemma PathNode(rk: Rank, m: View, top: RbNode?, c: Ctx, t: Tree, c1: Ctx)
    requires Focus(rk, m, top, c, t) && Reaches(c, c1) && c != c1
    ensures !c.Top?
    ensures Owner(c) != Owner(c1) && c.node in rk && Lo(rk, c1) < rk[c.node] < Hi(rk, c1)
    ensures c.node in m && m[c.node].parent == Owner(c.up) && c.node != Root(t)
    ensures m[c.node].left == (if c.InL? then Root(t) else Root(c.sib)) && Opt(m[c.node].left) <= m.Keys
    ensures m[c.node].right == (if c.InL? then Root(c.sib) else Root(t)) && Opt(m[c.node].right) <= m.Keys
    ensures c.node !in {m[c.node].left, m[c.node].right}
    ensures Lo(rk, c.up) <= Lo(rk, c) && Hi(rk, c) <= Hi(rk, c.up) && (rk[c.node] <= Lo(rk, c) || Hi(rk, c) <= rk[c.node])
    ensures Focus(rk, m, top, c.up, Close(c, t)) && Reaches(c.up, c1)
    ensures PlugTo(c, t, c1) == PlugTo(c.up, Close(c, t), c1) && Root(Close(c, t)) == c.node
  {
    hide Focus, Seg, Match, Solo;
    var n, up := c.node, c.up;
    var l := if c.InL? then t else c.sib;
    var r := if c.InL? then c.sib else t;
    FocusUp(rk, m, top, c, t);
    SoloFocus(rk, m, top, up, l, n, r, c.red);
    SoloReady(rk, m, top, up, l, n, r);
    SoloParts(rk, m, top, up, n, l, n, r);
    StopApart(rk, m, top, c, t, c1);
  }

  lemma StopApart(rk: Rank, m: View, top: RbNode?, c: Ctx, t: Tree, c1: Ctx)
    requires Focus(rk, m, top, c, t) && Reaches(c, c1) && c != c1
    ensures !c.Top?
    ensures Owner(c) != Owner(c1) && c.node in rk && Lo(rk, c1) < rk[c.node] < Hi(rk, c1)
  {
    hide Match;
    ReachesBounds(rk, m, c, Root(t), top, c1);
  }

  /** One round: either the value is right and all is done, or it is written. */
  method Recompute(cb: Callbacks, rb: RbNode, ghost S: set<RbNode>, ghost rk: Rank, ghost m: View,
                   ghost top: RbNode?, ghost c: Ctx, ghost t: Tree, ghost c1: Ctx) returns (done: bool)
    requires Focus(rk, m, top, c, t) && Reaches(c, c1) && c != c1 && c.node == rb && cb.Augmented?
    requires m.Keys == S && m[rb] == Links(rb.left, rb.right, rb.parent, rb.red) && Stale(cb, ValuesOf(S), c, t, c1)
    modifies S`aug
    ensures done ==> AugOk(cb, ValuesOf(S), PlugTo(c, t, c1)) && ValuesOf(S) == old(ValuesOf(S))
    ensures !done ==> Stale(cb, ValuesOf(S), c.up, Close(c, t), c1)
    ensures forall n :: n in S && n != rb ==> n.aug == old(n.aug)
  {
    hide Focus, Stale, PlugTo, AugOk, Reaches, Lo, Hi;
    ghost var a := ValuesOf(S);
    PathNode(rk, m, top, c, t, c1);
    var augmented := cb.compute(AugAt(rb.left), rb.item, AugAt(rb.right));
    if rb.aug == augmented {
      StopEarly(cb, a, c, t, c1);
      done := true;
    } else {
      rb.aug := augmented;
      StaleUp(cb, rk, m, a, ValuesOf(S), top, c, t, c1);
      done := false;
    }
  }

  method Propagate(cb: Callbacks, rb0: RbNode?, stop: RbNode?, ghost S: set<RbNode>, ghost rk: Rank, ghost m: View,
                   ghost top: RbNode?, ghost c0: Ctx, ghost t0: Tree, ghost c1: Ctx)
    requires Focus(rk, m, top, c0, t0) && Reaches(c0, c1) && rb0 == Owner(c0) && stop == Owner(c1)
    requires Agrees(S, rk, m, c0, c1) && Stale(cb, ValuesOf(S), c0, t0, c1)
    modifies S`aug
    ensures AugOk(cb, ValuesOf(S), PlugTo(c0, t0, c1)) && Spared(rk, old(ValuesOf(S)), ValuesOf(S), c1)
  {
    hide Focus, Stale, PlugTo, AugOk, Reaches, Lo, Hi;
    if cb.Dummy? {
      NothingStored(cb, ValuesOf(S), PlugTo(c0, t0, c1));
      return;
    }
    ghost var c, t := c0, t0;
    var rb := rb0;
    while rb != stop
      invariant Focus(rk, m, top, c, t) && Reaches(c, c1) && rb == Owner(c)
      invariant Lo(rk, c) <= Lo(rk, c0) && Hi(rk, c0) <= Hi(rk, c)
      invariant PlugTo(c, t, c1) == PlugTo(c0, t0, c1) && Stale(cb, ValuesOf(S), c, t, c1)
      invariant Spared(rk, old(ValuesOf(S)), ValuesOf(S), c1)
      decreases c
    {
      PathNode(rk, m, top, c, t, c1);
      var done := Recompute(cb, rb, S, rk, m, top, c, t, c1);
      if done {
        return;
      }
      rb := rb.parent;
      c, t := c.up, Close(c, t);
    }
    StopReached(rk, m, top, c, t, c1, cb, ValuesOf(S));
  }

  lemma NothingStored(cb: Callbacks, a: Values, t: Tree)
    requires cb.Dummy?
    ensures AugOk(cb, a, t)
  {
  }

  /** At the stopping point the plugged tree is t itself. */
  lemma StopReached(rk: Rank, m: View, top: RbNode?, c: Ctx, t: Tree, c1: Ctx, cb: Callbacks, a: Values)
    requires Focus(rk, m, top, c, t) && Reaches(c, c1) && Owner(c) == Owner(c1) && Stale(cb, a, c, t, c1)
    ensures AugOk(cb, a, PlugTo(c, t, c1))
  {
    if c != c1 {
      StopApart(rk, m, top, c, t, c1);
    }
  }
}
