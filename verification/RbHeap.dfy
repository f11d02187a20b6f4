/** The heap side of rbtree.h. A snapshot of the link fields is a map from nodes
    to Links; which tree a snapshot represents, and what a few field updates do
    to it, is then a matter of values. Augmented values are treated the same. */
module RbHeap {
  import opened Common
  import opened RbShape

  /** struct rb_root. */
  class RbRoot {
    var node: RbNode?

    constructor ()
      ensures node == null
    {
      node := null;
    }
  }

  datatype Links = Links(left: RbNode?, right: RbNode?, parent: RbNode?, red: bool)

  type View = map<RbNode, Links>
  type Values = map<RbNode, Aug>

  ghost function LinksOf(S: set<RbNode>): View
    reads S`left, S`right, S`parent, S`red
  {
    map n | n in S :: Links(n.left, n.right, n.parent, n.red)
  }

  ghost function ValuesOf(S: set<RbNode>): Values
    reads S`aug
  {
    map n | n in S :: n.aug
  }

  // ---- representation ------------------------------------------------------

  /** A position for every node; open intervals of positions keep subtrees apart. */
  type Rank = map<RbNode, int>

  /** In m the nodes of t are linked exactly as t says, below parent p, at
      positions that increase in order strictly between lo and hi. */
  ghost predicate Match(rk: Rank, m: View, t: Tree, p: RbNode?, lo: int, hi: int) {
    t.Node? ==>
      && t.node in rk && lo < rk[t.node] < hi
      && t.node in m && m[t.node] == Links(Root(t.left), Root(t.right), p, t.red)
      && Match(rk, m, t.left, t.node, lo, rk[t.node])
      && Match(rk, m, t.right, t.node, rk[t.node], hi)
  }

  /** The positions available to the hole of c. */
  ghost function Lo(rk: Rank, c: Ctx): int {
    match c
    case Top => -1
    case InL(up, _, _, _) => Lo(rk, up)
    case InR(_, n, _, _) => if n in rk then rk[n] else -1
  }

  ghost function Hi(rk: Rank, c: Ctx): int {
    match c
    case Top => |rk|
    case InL(_, n, _, _) => if n in rk then rk[n] else -1
    case InR(up, _, _, _) => Hi(rk, up)
  }

  /** Going down from pointer top along c leads to child. */
  ghost predicate Seg(rk: Rank, m: View, c: Ctx, child: RbNode?, top: RbNode?) {
    match c
    case Top => child == top
    case InL(up, n, red, sib) =>
      && n in rk && Lo(rk, up) < rk[n] < Hi(rk, up)
      && n in m && m[n] == Links(child, Root(sib), Owner(up), red)
      && Match(rk, m, sib, n, rk[n], Hi(rk, up)) && Seg(rk, m, up, n, top)
    case InR(up, n, red, sib) =>
      && n in rk && Lo(rk, up) < rk[n] < Hi(rk, up)
      && n in m && m[n] == Links(Root(sib), child, Owner(up), red)
      && Match(rk, m, sib, n, Lo(rk, up), rk[n]) && Seg(rk, m, up, n, top)
  }

  /** The tree under pointer top is c with t in its hole. */
  ghost predicate Focus(rk: Rank, m: View, top: RbNode?, c: Ctx, t: Tree) {
    Match(rk, m, t, Owner(c), Lo(rk, c), Hi(rk, c)) && Seg(rk, m, c, Root(t), top)
  }

  /** Moving the hole one node up changes nothing. */
  lemma FocusUp(rk: Rank, m: View, top: RbNode?, c: Ctx, t: Tree)
    requires !c.Top?
    ensures Focus(rk, m, top, c, t) <==> Focus(rk, m, top, c.up, Close(c, t))
  {
  }

  // ---- what updates leave alone ------------------------------------------------

  /** m' differs from m on at most these nodes. */
  ghost predicate Only(m: View, m': View, a: RbNode?, b: RbNode?, c: RbNode?, d: RbNode?, e: RbNode?, f: RbNode?) {
    forall n :: n in m && n != a && n != b && n != c && n != d && n != e && n != f ==> n in m' && m'[n] == m[n]
  }

  /** Nodes positioned strictly between lo and hi keep their links, except perhaps r. */
  ghost predicate Keeps(rk: Rank, m: View, m': View, lo: int, hi: int, r: RbNode?) {
    forall n :: n in m && n in rk && lo < rk[n] < hi && n != r ==> n in m' && m'[n] == m[n]
  }

  /** So do the others. */
  ghost predicate KeepsOut(rk: Rank, m: View, m': View, lo: int, hi: int, r: RbNode?) {
    forall n :: n in m && n in rk && (rk[n] <= lo || hi <= rk[n]) && n != r ==> n in m' && m'[n] == m[n]
  }

  lemma {:induction false} MatchFrame(rk: Rank, m: View, m': View, t: Tree, p: RbNode?, lo: int, hi: int)
    requires Match(rk, m, t, p, lo, hi) && Keeps(rk, m, m', lo, hi, null)
    ensures Match(rk, m', t, p, lo, hi)
  {
    if t.Node? {
      MatchFrame(rk, m, m', t.left, t.node, lo, rk[t.node]);
      MatchFrame(rk, m, m', t.right, t.node, rk[t.node], hi);
    }
  }

  /** The subtree t keeps its links, except that its root gets parent p' and colour red. */
  ghost predicate Hung(m: View, m': View, t: Tree, p': RbNode?, red: bool) {
    t.Node? ==> t.node in m && t.node in m' && m'[t.node] == m[t.node].(parent := p', red := red)
  }

  lemma Reattach(rk: Rank, m: View, m': View, t: Tree, p: RbNode?, p': RbNode?, red: bool, lo: int, hi: int)
    requires Match(rk, m, t, p, lo, hi)
    requires Keeps(rk, m, m', lo, hi, Root(t)) && Hung(m, m', t, p', red)
    ensures Match(rk, m', Paint(t, red), p', lo, hi)
  {
    if t.Node? {
      MatchFrame(rk, m, m', t.left, t.node, lo, rk[t.node]);
      MatchFrame(rk, m, m', t.right, t.node, rk[t.node], hi);
    }
  }

  lemma {:induction false} SegFrame(rk: Rank, m: View, m': View, c: Ctx, child: RbNode?, top: RbNode?)
    requires Seg(rk, m, c, child, top)
    requires KeepsOut(rk, m, m', Lo(rk, c), Hi(rk, c), null)
    ensures Seg(rk, m', c, child, top)
  {
    if !c.Top? {
      MatchFrame(rk, m, m', c.sib, c.node,
        if c.InL? then rk[c.node] else Lo(rk, c.up), if c.InL? then Hi(rk, c.up) else rk[c.node]);
      SegFrame(rk, m, m', c.up, c.node, top);
    }
  }

  /** The effect of __rb_change_child(child, child', Owner(c), root) on a snapshot. */
  ghost predicate Redirected(m: View, m': View, top: RbNode?, top': RbNode?, c: Ctx, child': RbNode?) {
    match c
    case Top => top' == child'
    case InL(_, n, _, _) => top' == top && n in m && n in m' && m'[n] == m[n].(left := child')
    case InR(_, n, _, _) => top' == top && n in m && n in m' && m'[n] == m[n].(right := child')
  }

  lemma SegRedirect(rk: Rank, m: View, m': View, c: Ctx, child: RbNode?, child': RbNode?, top: RbNode?, top': RbNode?)
    requires Seg(rk, m, c, child, top)
    requires KeepsOut(rk, m, m', Lo(rk, c), Hi(rk, c), Owner(c))
    requires Redirected(m, m', top, top', c, child')
    ensures Seg(rk, m', c, child', top')
  {
    if !c.Top? {
      MatchFrame(rk, m, m', c.sib, c.node,
        if c.InL? then rk[c.node] else Lo(rk, c.up), if c.InL? then Hi(rk, c.up) else rk[c.node]);
      SegFrame(rk, m, m', c.up, c.node, top);
    }
  }

  // ---- rotations ---------------------------------------------------------------

  /** Node e is r, or has no position strictly between lo and hi. */
  ghost predicate Off(rk: Rank, e: RbNode?, lo: int, hi: int, r: RbNode?) {
    e == null || e == r || e !in rk || rk[e] <= lo || hi <= rk[e]
  }

  /** Node e is r, or has a position strictly between lo and hi. */
  ghost predicate In(rk: Rank, e: RbNode?, lo: int, hi: int, r: RbNode?) {
    e == null || e == r || (e in rk && lo < rk[e] < hi)
  }

  lemma Piece(rk: Rank, m: View, m': View, t: Tree, p: RbNode?, p': RbNode?, red: bool, lo: int, hi: int,
              a: RbNode?, b: RbNode?, c: RbNode?, d: RbNode?, e: RbNode?, f: RbNode?)
    requires Match(rk, m, t, p, lo, hi) && Hung(m, m', t, p', red)
    requires Only(m, m', a, b, c, d, e, f)
    requires Off(rk, a, lo, hi, Root(t)) && Off(rk, b, lo, hi, Root(t)) && Off(rk, c, lo, hi, Root(t))
    requires Off(rk, d, lo, hi, Root(t)) && Off(rk, e, lo, hi, Root(t)) && Off(rk, f, lo, hi, Root(t))
    ensures Match(rk, m', Paint(t, red), p', lo, hi)
  {
    hide Match, Hung;
    Reattach(rk, m, m', t, p, p', red, lo, hi);
  }

  lemma Surround(rk: Rank, m: View, m': View, cx: Ctx, child: RbNode?, child': RbNode?, top: RbNode?, top': RbNode?,
                 a: RbNode?, b: RbNode?, c: RbNode?, d: RbNode?, e: RbNode?, f: RbNode?)
    requires Seg(rk, m, cx, child, top) && Redirected(m, m', top, top', cx, child')
    requires Only(m, m', a, b, c, d, e, f)
    requires In(rk, a, Lo(rk, cx), Hi(rk, cx), Owner(cx)) && In(rk, b, Lo(rk, cx), Hi(rk, cx), Owner(cx))
    requires In(rk, c, Lo(rk, cx), Hi(rk, cx), Owner(cx)) && In(rk, d, Lo(rk, cx), Hi(rk, cx), Owner(cx))
    requires In(rk, e, Lo(rk, cx), Hi(rk, cx), Owner(cx)) && In(rk, f, Lo(rk, cx), Hi(rk, cx), Owner(cx))
    ensures Seg(rk, m', cx, child', top')
  {
    hide Seg, Redirected;
    SegRedirect(rk, m, m', cx, child, child', top, top');
  }

  lemma SegStill(rk: Rank, m: View, m': View, cx: Ctx, child: RbNode?, top: RbNode?, a: RbNode?, b: RbNode?, c: RbNode?)
    requires Seg(rk, m, cx, child, top) && Only(m, m', a, b, c, null, null, null)
    requires In(rk, a, Lo(rk, cx), Hi(rk, cx), null) && In(rk, b, Lo(rk, cx), Hi(rk, cx), null) && In(rk, c, Lo(rk, cx), Hi(rk, cx), null)
    ensures Seg(rk, m', cx, child, top)
  {
    hide Seg;
    SegFrame(rk, m, m', cx, child, top);
  }

  /** A node n in the hole of c, which points to child, and its subtrees. */
  ghost predicate Solo(rk: Rank, m: View, top: RbNode?, c: Ctx, child: RbNode, l: Tree, n: RbNode, r: Tree) {
    && n in rk && n in m && Lo(rk, c) < rk[n] < Hi(rk, c)
    && Match(rk, m, l, n, Lo(rk, c), rk[n]) && Match(rk, m, r, n, rk[n], Hi(rk, c))
    && Seg(rk, m, c, child, top)
  }

  lemma SoloFocus(rk: Rank, m: View, top: RbNode?, c: Ctx, l: Tree, n: RbNode, r: Tree, nc: bool)
    ensures Focus(rk, m, top, c, Node(l, n, nc, r)) <==>
            Solo(rk, m, top, c, n, l, n, r) && m[n] == Links(Root(l), Root(r), Owner(c), nc)
  {
  }

  /** Two adjacent nodes p, g of a tree and what hangs around them: subtrees x, b, u
      below nodes xp, bp, up, in the hole of c, which points to child. */
  ghost predicate Trio(rk: Rank, m: View, top: RbNode?, c: Ctx, child: RbNode,
                       x: Tree, xp: RbNode, p: RbNode, b: Tree, bp: RbNode, g: RbNode, u: Tree, up: RbNode) {
    && p in rk && g in rk && p in m && g in m && Lo(rk, c) < rk[p] < rk[g] < Hi(rk, c)
    && Match(rk, m, x, xp, Lo(rk, c), rk[p]) && Match(rk, m, b, bp, rk[p], rk[g]) && Match(rk, m, u, up, rk[g], Hi(rk, c))
    && Seg(rk, m, c, child, top)
  }

  lemma TrioLeft(rk: Rank, m: View, top: RbNode?, c: Ctx, x: Tree, p: RbNode, b: Tree, g: RbNode, u: Tree, pc: bool, gc: bool)
    ensures Focus(rk, m, top, c, Node(Node(x, p, pc, b), g, gc, u)) <==>
            && Trio(rk, m, top, c, g, x, p, p, b, p, g, u, g)
            && m[p] == Links(Root(x), Root(b), g, pc) && m[g] == Links(p, Root(u), Owner(c), gc)
  {
    hide Focus, Seg;
    var left := Node(x, p, pc, b);
    SoloFocus(rk, m, top, c, left, g, u, gc);
    if g in rk {
      assert Match(rk, m, left, g, Lo(rk, c), rk[g]) <==>
        && p in rk && Lo(rk, c) < rk[p] < rk[g] && p in m && m[p] == Links(Root(x), Root(b), g, pc)
        && Match(rk, m, x, p, Lo(rk, c), rk[p]) && Match(rk, m, b, p, rk[p], rk[g]);
    }
  }

  lemma TrioRight(rk: Rank, m: View, top: RbNode?, c: Ctx, x: Tree, p: RbNode, b: Tree, g: RbNode, u: Tree, pc: bool, gc: bool)
    ensures Focus(rk, m, top, c, Node(x, p, pc, Node(b, g, gc, u))) <==>
            && Trio(rk, m, top, c, p, x, p, p, b, g, g, u, g)
            && m[p] == Links(Root(x), g, Owner(c), pc) && m[g] == Links(Root(b), Root(u), p, gc)
  {
    hide Focus, Seg;
    var right := Node(b, g, gc, u);
    SoloFocus(rk, m, top, c, x, p, right, pc);
    if p in rk {
      assert Match(rk, m, right, p, rk[p], Hi(rk, c)) <==>
        && g in rk && rk[p] < rk[g] < Hi(rk, c) && g in m && m[g] == Links(Root(b), Root(u), p, gc)
        && Match(rk, m, b, g, rk[p], rk[g]) && Match(rk, m, u, g, rk[g], Hi(rk, c));
    }
  }

  lemma MatchRoot(rk: Rank, m: View, t: Tree, p: RbNode?, lo: int, hi: int)
    requires Match(rk, m, t, p, lo, hi)
    ensures t.Node? ==> t.node in rk && lo < rk[t.node] < hi
  {
  }

  lemma OwnerOff(rk: Rank, m: View, c: Ctx, child: RbNode?, top: RbNode?)
    requires Seg(rk, m, c, child, top)
    ensures !c.Top? ==> c.node in rk && (rk[c.node] <= Lo(rk, c) || Hi(rk, c) <= rk[c.node])
  {
  }

  lemma Rearrange(rk: Rank, m: View, m': View, top: RbNode?, top': RbNode?, c: Ctx, child: RbNode, child': RbNode,
                  x: Tree, xp: RbNode, p: RbNode, b: Tree, bp: RbNode, g: RbNode, u: Tree, up: RbNode,
                  bp': RbNode, xc': bool, bc': bool, uc': bool)
    requires Trio(rk, m, top, c, child, x, xp, p, b, bp, g, u, up)
    requires Only(m, m', p, g, Root(x), Root(b), Root(u), Owner(c))
    requires Redirected(m, m', top, top', c, child')
    requires Hung(m, m', x, xp, xc') && Hung(m, m', b, bp', bc') && Hung(m, m', u, up, uc')
    ensures p in m' && g in m' ==>
      Trio(rk, m', top', c, child', Paint(x, xc'), xp, p, Paint(b, bc'), bp', g, Paint(u, uc'), up)
  {
    hide Match, Seg, Hung, Redirected, Only;
    var rx, rb, ru, ow := Root(x), Root(b), Root(u), Owner(c);
    MatchRoot(rk, m, x, xp, Lo(rk, c), rk[p]);
    MatchRoot(rk, m, b, bp, rk[p], rk[g]);
    MatchRoot(rk, m, u, up, rk[g], Hi(rk, c));
    OwnerOff(rk, m, c, child, top);
    Piece(rk, m, m', x, xp, xp, xc', Lo(rk, c), rk[p], p, g, rx, rb, ru, ow);
    Piece(rk, m, m', b, bp, bp', bc', rk[p], rk[g], p, g, rx, rb, ru, ow);
    Piece(rk, m, m', u, up, up, uc', rk[g], Hi(rk, c), p, g, rx, rb, ru, ow);
    Surround(rk, m, m', c, child, child', top, top', p, g, rx, rb, ru, ow);
  }

  /** Field updates that turn ((x p b) g u) into (x p (b g u)). */
  lemma RotateRight(rk: Rank, m: View, m': View, top: RbNode?, top': RbNode?, c: Ctx,
                    x: Tree, p: RbNode, b: Tree, g: RbNode, u: Tree,
                    pc: bool, gc: bool, xc': bool, pc': bool, bc': bool, gc': bool)
    requires Focus(rk, m, top, c, Node(Node(x, p, pc, b), g, gc, u))
    requires Only(m, m', p, g, Root(x), Root(b), null, Owner(c))
    requires Redirected(m, m', top, top', c, p)
    requires p in m' && m'[p] == Links(Root(x), g, Owner(c), pc')
    requires g in m' && m'[g] == Links(Root(b), Root(u), p, gc')
    requires Hung(m, m', x, p, xc') && Hung(m, m', b, g, bc')
    ensures Focus(rk, m', top', c, Node(Paint(x, xc'), p, pc', Node(Paint(b, bc'), g, gc', u)))
  {
    hide Focus, Seg;
    TrioLeft(rk, m, top, c, x, p, b, g, u, pc, gc);
    assert Hung(m, m', u, g, IsRed(u));
    Rearrange(rk, m, m', top, top', c, g, p, x, p, p, b, p, g, u, g, g, xc', bc', IsRed(u));
    TrioRight(rk, m', top', c, Paint(x, xc'), p, Paint(b, bc'), g, u, pc', gc');
  }

  /** Field updates that turn (x p (b g u)) into ((x p b) g u). */
  lemma RotateLeft(rk: Rank, m: View, m': View, top: RbNode?, top': RbNode?, c: Ctx,
                   x: Tree, p: RbNode, b: Tree, g: RbNode, u: Tree,
                   pc: bool, gc: bool, uc': bool, pc': bool, bc': bool, gc': bool)
    requires Focus(rk, m, top, c, Node(x, p, pc, Node(b, g, gc, u)))
    requires Only(m, m', p, g, null, Root(b), Root(u), Owner(c))
    requires Redirected(m, m', top, top', c, g)
    requires g in m' && m'[g] == Links(p, Root(u), Owner(c), gc')
    requires p in m' && m'[p] == Links(Root(x), Root(b), g, pc')
    requires Hung(m, m', u, g, uc') && Hung(m, m', b, p, bc')
    ensures Focus(rk, m', top', c, Node(Node(x, p, pc', Paint(b, bc')), g, gc', Paint(u, uc')))
  {
    hide Focus, Seg;
    TrioRight(rk, m, top, c, x, p, b, g, u, pc, gc);
    assert Hung(m, m', x, p, IsRed(x));
    Rearrange(rk, m, m', top, top', c, p, g, x, p, p, b, g, g, u, g, p, IsRed(x), bc', uc');
    TrioLeft(rk, m', top', c, x, p, Paint(b, bc'), g, Paint(u, uc'), pc', gc');
  }

  /** Moving the hole all the way up. */
  lemma {:induction false} FocusPlug(rk: Rank, m: View, top: RbNode?, c: Ctx, t: Tree)
    ensures Focus(rk, m, top, c, t) <==> Focus(rk, m, top, Top, Plug(c, t))
    decreases c
  {
    if !c.Top? {
      FocusUp(rk, m, top, c, t);
      FocusPlug(rk, m, top, c.up, Close(c, t));
    }
  }

  /** What a method that rotates p and g may rely on before it writes. */
  ghost predicate Ready(m: View, c: Ctx, child: RbNode, p: RbNode, b: Tree, g: RbNode) {
    && p != g && p in m && g in m
    && (b.Node? ==> b.node in m && b.node != p && b.node != g && m[b.node].red == b.red)
    && (!c.Top? ==>
         && c.node in m && c.node != p && c.node != g && (b.Node? ==> b.node != c.node)
         && (m[c.node].left == child <==> c.InL?) && (c.InR? ==> m[c.node].right == child))
  }

  lemma OwnerReady(rk: Rank, m: View, c: Ctx, child: RbNode, top: RbNode?)
    requires Seg(rk, m, c, child, top) && child in rk && Lo(rk, c) < rk[child] < Hi(rk, c)
    ensures !c.Top? ==>
      && c.node in m && c.node in rk && (rk[c.node] <= Lo(rk, c) || Hi(rk, c) <= rk[c.node])
      && (m[c.node].left == child <==> c.InL?) && (c.InR? ==> m[c.node].right == child)
  {
    if c.InR? {
      MatchRoot(rk, m, c.sib, c.node, Lo(rk, c.up), rk[c.node]);
    }
  }

  lemma TrioReady(rk: Rank, m: View, top: RbNode?, c: Ctx, child: RbNode,
                  x: Tree, xp: RbNode, p: RbNode, b: Tree, bp: RbNode, g: RbNode, u: Tree, up: RbNode)
    requires Trio(rk, m, top, c, child, x, xp, p, b, bp, g, u, up) && child in {p, g}
    ensures Ready(m, c, child, p, b, g)
    ensures x.Node? ==>
      && x.node in m && m[x.node].parent == xp && m[x.node].red == x.red
      && x.node != p && x.node != g && x.node != Root(b) && x.node != Root(u) && x.node != Owner(c)
    ensures u.Node? ==>
      && u.node in m && m[u.node].parent == up && m[u.node].red == u.red
      && u.node != p && u.node != g && u.node != Root(b) && u.node != Owner(c)
  {
    hide Seg;
    OwnerReady(rk, m, c, child, top);
  }

  lemma SoloReady(rk: Rank, m: View, top: RbNode?, c: Ctx, l: Tree, n: RbNode, r: Tree)
    requires Solo(rk, m, top, c, n, l, n, r)
    ensures l.Node? ==> l.node in m && l.node != n && l.node != Root(r) && m[l.node].parent == n && m[l.node].red == l.red
    ensures r.Node? ==> r.node in m && r.node != n && m[r.node].parent == n && m[r.node].red == r.red
    ensures !c.Top? ==> c.node in m && c.node != n && c.node != Root(l) && c.node != Root(r)
  {
    hide Seg;
    OwnerReady(rk, m, c, n, top);
  }

  // ---- recolouring -------------------------------------------------------------

  lemma RepaintSolo(rk: Rank, m: View, m': View, top: RbNode?, c: Ctx, l: Tree, n: RbNode, r: Tree, lc': bool, rc': bool)
    requires Solo(rk, m, top, c, n, l, n, r)
    requires Only(m, m', n, Root(l), Root(r), null, null, null)
    requires Hung(m, m', l, n, lc') && Hung(m, m', r, n, rc')
    ensures n in m' ==> Solo(rk, m', top, c, n, Paint(l, lc'), n, Paint(r, rc'))
  {
    hide Match, Seg, Hung, Only;
    var rl, rr := Root(l), Root(r);
    MatchRoot(rk, m, l, n, Lo(rk, c), rk[n]);
    MatchRoot(rk, m, r, n, rk[n], Hi(rk, c));
    Piece(rk, m, m', l, n, n, lc', Lo(rk, c), rk[n], n, rl, rr, null, null, null);
    Piece(rk, m, m', r, n, n, rc', rk[n], Hi(rk, c), n, rl, rr, null, null, null);
    SegStill(rk, m, m', c, n, top, n, rl, rr);
  }

  /** Colours of a node and of its children are rewritten in place. */
  lemma Repaint(rk: Rank, m: View, m': View, top: RbNode?, c: Ctx, l: Tree, n: RbNode, r: Tree,
                nc: bool, lc': bool, nc': bool, rc': bool)
    requires Focus(rk, m, top, c, Node(l, n, nc, r))
    requires Only(m, m', n, Root(l), Root(r), null, null, null)
    requires n in m' && m'[n] == m[n].(red := nc') && Hung(m, m', l, n, lc') && Hung(m, m', r, n, rc')
    ensures Focus(rk, m', top, c, Node(Paint(l, lc'), n, nc', Paint(r, rc')))
  {
    hide Match, Seg, Focus, Solo;
    SoloFocus(rk, m, top, c, l, n, r, nc);
    RepaintSolo(rk, m, m', top, c, l, n, r, lc', rc');
    SoloFocus(rk, m', top, c, Paint(l, lc'), n, Paint(r, rc'), nc');
  }

  lemma AugPaint(cb: Callbacks, a: Values, c: Ctx, t: Tree, red: bool)
    ensures AugAll(cb, a, c, Paint(t, red)) <==> AugAll(cb, a, c, t)
    ensures AugOk(cb, a, Paint(t, red)) <==> AugOk(cb, a, t)
  {
  }

  // ---- augmented values ----------------------------------------------------

  /** struct rb_augment_callbacks: the dummy ones, or those RB_DECLARE_CALLBACKS
      makes from rbcompute, which reads a node and its children's values. */
  datatype Callbacks =
    | Dummy
    | Augmented(compute: (Option<Aug>, Item, Option<Aug>) -> Aug)

  /** A rotation leaves the value of the rotated pair unchanged. */
  ghost predicate Law(cb: Callbacks) {
    cb.Augmented? ==>
      forall a, x, b, y, c ::
        cb.compute(Some(cb.compute(a, x, b)), y, c) == cb.compute(a, x, Some(cb.compute(b, y, c)))
  }

  ghost function At(a: Values, n: RbNode?): Option<Aug> {
    if n != null && n in a then Some(a[n]) else None
  }

  ghost function Recomputed(cb: Callbacks, a: Values, l: RbNode?, n: RbNode, r: RbNode?): Aug
    requires cb.Augmented?
  {
    cb.compute(At(a, l), n.item, At(a, r))
  }

  /** Every value stored under t equals the recomputed one. */
  ghost predicate AugOk(cb: Callbacks, a: Values, t: Tree) {
    cb.Augmented? && t.Node? ==>
      && t.node in a && a[t.node] == Recomputed(cb, a, Root(t.left), t.node, Root(t.right))
      && AugOk(cb, a, t.left) && AugOk(cb, a, t.right)
  }

  /** The same along a context whose hole holds a tree of value hole. */
  ghost predicate AugCtx(cb: Callbacks, a: Values, c: Ctx, hole: Option<Aug>) {
    cb.Augmented? && !c.Top? ==>
      && c.node in a && AugOk(cb, a, c.sib)
      && a[c.node] == (if c.InL? then cb.compute(hole, c.node.item, At(a, Root(c.sib)))
                                 else cb.compute(At(a, Root(c.sib)), c.node.item, hole))
      && AugCtx(cb, a, c.up, Some(a[c.node]))
  }

  ghost predicate AugAll(cb: Callbacks, a: Values, c: Ctx, t: Tree) {
    AugOk(cb, a, t) && AugCtx(cb, a, c, At(a, Root(t)))
  }

  lemma AugUp(cb: Callbacks, a: Values, c: Ctx, t: Tree)
    requires !c.Top?
    ensures AugAll(cb, a, c, t) <==> AugAll(cb, a, c.up, Close(c, t))
  {
  }

  lemma {:induction false} AugPlug(cb: Callbacks, a: Values, c: Ctx, t: Tree)
    ensures AugAll(cb, a, c, t) <==> AugOk(cb, a, Plug(c, t))
    decreases c
  {
    if !c.Top? {
      AugPlug(cb, a, c.up, Close(c, t));
    }
  }

  /** Nodes positioned strictly between lo and hi keep their values. */
  ghost predicate KeepsVal(rk: Rank, a: Values, a': Values, lo: int, hi: int) {
    forall n :: n in a && n in rk && lo < rk[n] < hi ==> n in a' && a'[n] == a[n]
  }

  /** So do the others. */
  ghost predicate KeepsValOut(rk: Rank, a: Values, a': Values, lo: int, hi: int) {
    forall n :: n in a && n in rk && (rk[n] <= lo || hi <= rk[n]) ==> n in a' && a'[n] == a[n]
  }

  lemma {:induction false} AugFrame(cb: Callbacks, rk: Rank, m: View, a: Values, a': Values, t: Tree, p: RbNode?, lo: int, hi: int)
    requires Match(rk, m, t, p, lo, hi) && AugOk(cb, a, t) && KeepsVal(rk, a, a', lo, hi)
    ensures AugOk(cb, a', t)
    ensures cb.Augmented? ==> At(a', Root(t)) == At(a, Root(t))
  {
    if t.Node? {
      AugFrame(cb, rk, m, a, a', t.left, t.node, lo, rk[t.node]);
      AugFrame(cb, rk, m, a, a', t.right, t.node, rk[t.node], hi);
    }
  }

  lemma {:induction false} AugSegFrame(cb: Callbacks, rk: Rank, m: View, a: Values, a': Values, c: Ctx, child: RbNode?, top: RbNode?, hole: Option<Aug>)
    requires Seg(rk, m, c, child, top) && AugCtx(cb, a, c, hole) && KeepsValOut(rk, a, a', Lo(rk, c), Hi(rk, c))
    ensures AugCtx(cb, a', c, hole)
  {
    if cb.Augmented? && !c.Top? {
      AugFrame(cb, rk, m, a, a', c.sib, c.node,
        if c.InL? then rk[c.node] else Lo(rk, c.up), if c.InL? then Hi(rk, c.up) else rk[c.node]);
      AugSegFrame(cb, rk, m, a, a', c.up, c.node, top, Some(a[c.node]));
    }
  }

  /** The values after augment_rotate(oldNode, newNode) at a pair with outer children l, r of oldNode. */
  ghost predicate Rotated(cb: Callbacks, a: Values, a': Values, oldNode: RbNode, newNode: RbNode, l: RbNode?, r: RbNode?) {
    cb.Augmented? ==>
      && oldNode in a && oldNode in a' && newNode in a'
      && a'[newNode] == a[oldNode] && a'[oldNode] == Recomputed(cb, a', l, oldNode, r)
      && OnlyVal(a, a', oldNode, newNode)
  }

  /** a' differs from a on at most p and g. */
  ghost predicate OnlyVal(a: Values, a': Values, p: RbNode, g: RbNode) {
    forall n :: n in a && n != p && n != g ==> n in a' && a'[n] == a[n]
  }

  lemma AugPiece(cb: Callbacks, rk: Rank, m: View, a: Values, a': Values, t: Tree, tp: RbNode?, lo: int, hi: int, p: RbNode, g: RbNode)
    requires Match(rk, m, t, tp, lo, hi) && AugOk(cb, a, t)
    requires OnlyVal(a, a', p, g) && Off(rk, p, lo, hi, null) && Off(rk, g, lo, hi, null)
    ensures AugOk(cb, a', t)
    ensures cb.Augmented? ==> At(a', Root(t)) == At(a, Root(t))
  {
    hide Match, AugOk, At;
    AugFrame(cb, rk, m, a, a', t, tp, lo, hi);
  }

  lemma AugSurround(cb: Callbacks, rk: Rank, m: View, a: Values, a': Values, c: Ctx, child: RbNode?, top: RbNode?, hole: Option<Aug>, p: RbNode, g: RbNode)
    requires Seg(rk, m, c, child, top) && AugCtx(cb, a, c, hole)
    requires OnlyVal(a, a', p, g) && In(rk, p, Lo(rk, c), Hi(rk, c), null) && In(rk, g, Lo(rk, c), Hi(rk, c), null)
    ensures AugCtx(cb, a', c, hole)
  {
    hide Seg, AugCtx;
    AugSegFrame(cb, rk, m, a, a', c, child, top, hole);
  }

  lemma AugTrio(cb: Callbacks, rk: Rank, m: View, a: Values, a': Values, top: RbNode?, c: Ctx, child: RbNode,
                x: Tree, xp: RbNode, p: RbNode, b: Tree, bp: RbNode, g: RbNode, u: Tree, up: RbNode, hole: Option<Aug>)
    requires Trio(rk, m, top, c, child, x, xp, p, b, bp, g, u, up) && OnlyVal(a, a', p, g)
    requires AugOk(cb, a, x) && AugOk(cb, a, b) && AugOk(cb, a, u) && AugCtx(cb, a, c, hole)
    ensures AugOk(cb, a', x) && AugOk(cb, a', b) && AugOk(cb, a', u) && AugCtx(cb, a', c, hole)
    ensures cb.Augmented? ==>
      At(a', Root(x)) == At(a, Root(x)) && At(a', Root(b)) == At(a, Root(b)) && At(a', Root(u)) == At(a, Root(u))
  {
    hide Match, Seg, AugOk, AugCtx, At, OnlyVal;
    AugPiece(cb, rk, m, a, a', x, xp, Lo(rk, c), rk[p], p, g);
    AugPiece(cb, rk, m, a, a', b, bp, rk[p], rk[g], p, g);
    AugPiece(cb, rk, m, a, a', u, up, rk[g], Hi(rk, c), p, g);
    AugSurround(cb, rk, m, a, a', c, child, top, hole, p, g);
  }

  lemma AugRotateRight(cb: Callbacks, rk: Rank, m: View, a: Values, a': Values, top: RbNode?, c: Ctx,
                       x: Tree, p: RbNode, b: Tree, g: RbNode, u: Tree, pc: bool, gc: bool, pc': bool, gc': bool)
    requires Law(cb) && Focus(rk, m, top, c, Node(Node(x, p, pc, b), g, gc, u))
    requires AugAll(cb, a, c, Node(Node(x, p, pc, b), g, gc, u)) && Rotated(cb, a, a', g, p, Root(b), Root(u))
    ensures AugAll(cb, a', c, Node(x, p, pc', Node(b, g, gc', u)))
  {
    if cb.Augmented? {
      hide Focus, Match, Seg, Trio;
      var left, right := Node(x, p, pc, b), Node(b, g, gc', u);
      assert AugOk(cb, a, left);
      TrioLeft(rk, m, top, c, x, p, b, g, u, pc, gc);
      AugTrio(cb, rk, m, a, a', top, c, g, x, p, p, b, p, g, u, g, Some(a[g]));
      assert AugOk(cb, a', right);
    }
  }

  lemma AugRotateLeft(cb: Callbacks, rk: Rank, m: View, a: Values, a': Values, top: RbNode?, c: Ctx,
                      x: Tree, p: RbNode, b: Tree, g: RbNode, u: Tree, pc: bool, gc: bool, pc': bool, gc': bool)
    requires Law(cb) && Focus(rk, m, top, c, Node(x, p, pc, Node(b, g, gc, u)))
    requires AugAll(cb, a, c, Node(x, p, pc, Node(b, g, gc, u))) && Rotated(cb, a, a', p, g, Root(x), Root(b))
    ensures AugAll(cb, a', c, Node(Node(x, p, pc', b), g, gc', u))
  {
    if cb.Augmented? {
      hide Focus, Match, Seg, Trio;
      var right, left := Node(b, g, gc, u), Node(x, p, pc', b);
      assert AugOk(cb, a, right);
      TrioRight(rk, m, top, c, x, p, b, g, u, pc, gc);
      AugTrio(cb, rk, m, a, a', top, c, p, x, p, p, b, g, g, u, g, Some(a[p]));
      assert AugOk(cb, a', left);
    }
  }

  lemma AugPaintRight(cb: Callbacks, a: Values, c: Ctx, l: Tree, n: RbNode, red: bool, r: Tree, red': bool)
    requires AugAll(cb, a, c, Node(l, n, red, r))
    ensures AugAll(cb, a, c, Node(l, n, red, Paint(r, red')))
  {
    AugPaint(cb, a, c, r, red');
  }

  lemma AugPaintLeft(cb: Callbacks, a: Values, c: Ctx, l: Tree, n: RbNode, red: bool, r: Tree, red': bool)
    requires AugAll(cb, a, c, Node(l, n, red, r))
    ensures AugAll(cb, a, c, Node(Paint(l, red'), n, red, r))
  {
    AugPaint(cb, a, c, l, red');
  }

  /** The result: a red-black tree t with the values and the order it should have. */
  ghost predicate Settled(rk: Rank, m: View, a: Values, top: RbNode?, cb: Callbacks, t: Tree, order: seq<RbNode>) {
    Focus(rk, m, top, Top, t) && RedBlack(t) && AugOk(cb, a, t) && Inorder(t) == order
  }

  lemma Settle(rk: Rank, m: View, a: Values, top: RbNode?, cb: Callbacks, c: Ctx, t: Tree, order: seq<RbNode>)
    requires Focus(rk, m, top, c, t) && AugAll(cb, a, c, t)
    requires RedBlack(Plug(c, t)) && Around(c, Inorder(t)) == order
    ensures Settled(rk, m, a, top, cb, Plug(c, t), order)
  {
    hide Focus, AugAll, AugOk, RedBlack;
    FocusPlug(rk, m, top, c, t);
    AugPlug(cb, a, c, t);
    PlugIsAround(c, t);
  }
}
