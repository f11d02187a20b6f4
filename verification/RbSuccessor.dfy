/** Cases 2 and 3 of __rb_erase_augmented: the leftmost node of the right subtree
    takes the place of the erased node. */
module RbSuccessor {
  import opened RbShape
  import opened RbHeap
  import opened RbRotate
  import opened RbPropagate
  import opened RbEraseColor
  import opened RbErase

  // ---- the leftmost node and what is left without it ------------------------------

  /** The subtree of the leftmost node of y. */
  function MinTree(y: Tree): (t: Tree)
    requires y.Node?
    ensures t.Node? && t.left.Leaf?
  {
    if y.left.Leaf? then y else MinTree(y.left)
  }

  /** y without its leftmost node, whose right child moves up, painted black. */
  function RemoveMin(y: Tree): Tree
    requires y.Node?
  {
    if y.left.Leaf? then Paint(y.right, false) else Node(RemoveMin(y.left), y.node, y.red, y.right)
  }

  /** The node below which that child ends up; p when the leftmost node is y's root. */
  function MinParent(y: Tree, p: RbNode): RbNode
    requires y.Node?
  {
    if y.left.Leaf? then p else MinParent(y.left, y.node)
  }

  /** The path from the leftmost node of y to the root, when y fills the hole of c. */
  function SpineCtx(c: Ctx, y: Tree): Ctx
    requires y.Node?
    decreases y
  {
    if y.left.Leaf? then c else SpineCtx(InL(c, y.node, y.red, y.right), y.left)
  }

  lemma {:induction false} SpineOrder(c: Ctx, y: Tree)
    requires y.Node?
    ensures Inorder(y) == [MinTree(y).node] + Inorder(RemoveMin(y))
    ensures Around(SpineCtx(c, y), Inorder(MinTree(y).right)) == Around(c, Inorder(RemoveMin(y)))
    decreases y
  {
    if y.left.Leaf? {
      PaintOrder(y.right, false);
    } else {
      SpineOrder(InL(c, y.node, y.red, y.right), y.left);
    }
  }

  lemma {:induction false} SpinePlug(c: Ctx, y: Tree)
    requires y.Node?
    ensures Plug(SpineCtx(c, y), MinTree(y)) == Plug(c, y)
    ensures Plug(SpineCtx(c, y), Paint(MinTree(y).right, false)) == Plug(c, RemoveMin(y))
    decreases y
  {
    if !y.left.Leaf? {
      SpinePlug(InL(c, y.node, y.red, y.right), y.left);
    }
  }

  /** Which node sits at the bottom of c does not matter to the shape. */
  ghost predicate SameShape(c: Ctx, c': Ctx) {
    || c == c'
    || (c.InR? && c'.InR? && c.red == c'.red && c.sib == c'.sib && c.up == c'.up)
    || (c.InL? && c'.InL? && c.red == c'.red && c.sib == c'.sib && SameShape(c.up, c'.up))
  }

  lemma {:induction false} SameShapeOk(c: Ctx, c': Ctx, h: nat)
    requires SameShape(c, c')
    ensures CtxBalanced(c, h) <==> CtxBalanced(c', h)
    ensures CtxColourOk(c) <==> CtxColourOk(c')
    ensures c.Top? <==> c'.Top?
    ensures RedFits(c) <==> RedFits(c')
  {
    if !c.Top? && c.InL? && c'.InL? && SameShape(c.up, c'.up) {
      SameShapeOk(c.up, c'.up, h + if c.red then 0 else 1);
    }
  }

  lemma {:induction false} SpineSameShape(c: Ctx, c': Ctx, y: Tree)
    requires y.Node? && SameShape(c, c')
    ensures SameShape(SpineCtx(c, y), SpineCtx(c', y))
    ensures !c.Top? ==> !SpineCtx(c, y).Top?
    decreases y
  {
    if !y.left.Leaf? {
      SpineSameShape(InL(c, y.node, y.red, y.right), InL(c', y.node, y.red, y.right), y.left);
    }
  }

  /** The shape after the successor s has taken node's place. */
  lemma TwoShape(c: Ctx, x: Tree, node: RbNode, nc: bool, y: Tree)
    requires y.Node? && RedBlack(Plug(c, Node(x, node, nc, y)))
    ensures var s, u := MinTree(y).node, MinTree(y).right; var d := SpineCtx(InR(c, s, nc, x), y);
      && (u.Node? || MinTree(y).red ==> RedBlack(Plug(d, Paint(u, false))))
      && (u.Leaf? && !MinTree(y).red ==> EraseShape(d, Leaf))
  {
    var t := MinTree(y);
    var s, u := t.node, t.right;
    var b, b' := InR(c, node, nc, x), InR(c, s, nc, x);
    var d, d' := SpineCtx(b, y), SpineCtx(b', y);
    SpinePlug(b, y);
    PlugRedBlack(d, t);
    SpineSameShape(b, b', y);
    SameShapeOk(d, d', BlackHeight(t));
    PlugRedBlack(d', Paint(u, false));
  }

  // ---- the links ----------------------------------------------------------------------

  /** Where the nodes involved are positioned. */
  lemma {:induction false} MinRanks(rk: Rank, m: View, y: Tree, p0: RbNode?, p: RbNode, lo: int, hi: int)
    requires y.Node? && Match(rk, m, y, p0, lo, hi)
    ensures var s, q, u := MinTree(y).node, MinParent(y, p), MinTree(y).right;
      && s in rk && s in m && lo < rk[s] <= rk[y.node] && m[s].right == Root(u) && m[s].red == MinTree(y).red
      && (y.left.Leaf? ==> s == y.node && q == p)
      && (y.left.Node? ==> q in rk && q in m && rk[s] < rk[q] <= rk[y.node] && m[q].left == s && m[s].parent == q)
      && (y.left.Node? ==> (y.left.left.Leaf? <==> q == y.node))
      && (u.Node? ==> u.node in rk && u.node in m && rk[s] < rk[u.node] < (if y.left.Leaf? then hi else rk[q]))
  {
    if !y.left.Leaf? {
      MinRanks(rk, m, y.left, y.node, y.node, lo, rk[y.node]);
    } else {
      MatchRoot(rk, m, y.right, y.node, rk[y.node], hi);
    }
  }

  /** Links of a node n of the right subtree, rooted at top, after the successor has left
      it: rc hangs below q, top below p. */
  function Spliced(l: Links, n: RbNode, top: RbNode?, p: RbNode, q: RbNode, rc: RbNode?): Links {
    Links(if n == q then rc else l.left, l.right,
          if n == rc then q else if n == top then p else l.parent, if n == rc then false else l.red)
  }

  ghost predicate SplicedAll(rk: Rank, m: View, m': View, lo: int, hi: int, top: RbNode?, p: RbNode, q: RbNode, rc: RbNode?) {
    forall n :: n in m && n in rk && lo < rk[n] < hi ==> n in m' && m'[n] == Spliced(m[n], n, top, p, q, rc)
  }

  /** The same seen from the left subtree l of node n, which stays below n. */
  lemma SplicedLeft(rk: Rank, m: View, m': View, lo: int, hi: int, n: RbNode, l: Tree, p: RbNode, q: RbNode, rc: RbNode?)
    requires n in rk && rk[n] < hi && l.Node? && l.node in m && m[l.node].parent == n
    requires SplicedAll(rk, m, m', lo, hi, n, p, q, rc)
    ensures SplicedAll(rk, m, m', lo, rk[n], l.node, n, q, rc)
  {
  }

  lemma SplicedRight(rk: Rank, m: View, m': View, lo: int, hi: int, n: RbNode, p: RbNode, q: RbNode, rc: RbNode?)
    requires n in rk && lo < rk[n] && q in rk && rk[q] <= rk[n] && (rc != null ==> rc in rk && rk[rc] < rk[n])
    requires SplicedAll(rk, m, m', lo, hi, n, p, q, rc)
    ensures Keeps(rk, m, m', rk[n], hi, null)
  {
  }

  lemma SplicedBase(rk: Rank, m: View, m': View, lo: int, hi: int, top: RbNode?, p: RbNode, rc: RbNode?)
    requires p in rk && (rk[p] <= lo || hi <= rk[p]) && (top != null ==> top in rk && rk[top] <= lo)
    requires SplicedAll(rk, m, m', lo, hi, top, p, p, rc)
    ensures Keeps(rk, m, m', lo, hi, rc)
    ensures rc != null && rc in rk && rc in m && lo < rk[rc] < hi ==> rc in m' && m'[rc] == m[rc].(parent := p, red := false)
  {
  }

  /** The right subtree after the successor has left it. */
  lemma {:induction false} MinMatch(rk: Rank, m: View, m': View, y: Tree, p0: RbNode?, p: RbNode, lo: int, hi: int)
    requires y.Node? && Match(rk, m, y, p0, lo, hi) && MinTree(y).node in rk
    requires p in rk && (rk[p] <= rk[MinTree(y).node] || hi <= rk[p])
    requires SplicedAll(rk, m, m', rk[MinTree(y).node], hi, Root(y), p, MinParent(y, p), Root(MinTree(y).right))
    ensures Match(rk, m', RemoveMin(y), p, rk[MinTree(y).node], hi)
  {
    hide SplicedAll, Keeps;
    var s, q, u := MinTree(y).node, MinParent(y, p), MinTree(y).right;
    MinRanks(rk, m, y, p0, p, lo, hi);
    if y.left.Leaf? {
      SplicedBase(rk, m, m', rk[s], hi, Root(y), p, Root(u));
      Reattach(rk, m, m', u, s, p, false, rk[s], hi);
    } else {
      SplicedLeft(rk, m, m', rk[s], hi, y.node, y.left, p, q, Root(u));
      MinMatch(rk, m, m', y.left, y.node, y.node, lo, rk[y.node]);
      SplicedRight(rk, m, m', rk[s], hi, y.node, p, q, Root(u));
      MatchFrame(rk, m, m', y.right, y.node, rk[y.node], hi);
      RemoveMinRoot(y.left);
      MinSpliced(rk, m, m', rk[s], hi, y, p, q, u);
    }
  }

  lemma RemoveMinRoot(y: Tree)
    requires y.Node?
    ensures Root(RemoveMin(y)) == if y.left.Leaf? then Root(MinTree(y).right) else Root(y)
  {
  }

  lemma MinSpliced(rk: Rank, m: View, m': View, lo: int, hi: int, y: Tree, p: RbNode, q: RbNode, u: Tree)
    requires y.Node? && y.node in rk && y.node in m && lo < rk[y.node] < hi && Root(u) != y.node
    requires SplicedAll(rk, m, m', lo, hi, y.node, p, q, Root(u))
    ensures y.node in m' && m'[y.node] == m[y.node].(left := if q == y.node then Root(u) else m[y.node].left, parent := p)
  {
  }

  /** What the methods below may rely on before they write. */
  ghost predicate Ready2(m: View, c: Ctx, x: Tree, node: RbNode, nc: bool, y: Tree)
    requires y.Node?
  {
    var s, q, rc := MinTree(y).node, MinParent(y, MinTree(y).node), Root(MinTree(y).right);
    && node in m && m[node] == Links(Root(x), y.node, Owner(c), nc)
    && s in m && m[s].right == rc && m[s].red == MinTree(y).red && s != node && s != Root(x) && s != Owner(c) && s != rc
    && y.node in m && y.node != node && y.node != Root(x) && y.node != Owner(c) && y.node != rc
    && q in m && q != node && q != Root(x) && q != Owner(c) && q != rc
    && (y.left.Leaf? <==> s == y.node) && (y.left.Leaf? <==> s == q)
    && (rc != null ==> rc in m && rc != node && rc != Root(x) && rc != Owner(c))
    && (x.Node? ==> x.node in m && x.node != node && x.node != Owner(c) && m[x.node].parent == node && m[x.node].red == x.red)
    && (!c.Top? ==>
         && c.node in m && c.node != node
         && (m[c.node].left == node <==> c.InL?) && (c.InR? ==> m[c.node].right == node))
  }

  lemma TwoReady(rk: Rank, m: View, top: RbNode?, c: Ctx, x: Tree, node: RbNode, nc: bool, y: Tree)
    requires y.Node? && Focus(rk, m, top, c, Node(x, node, nc, y))
    ensures Ready2(m, c, x, node, nc, y)
  {
    hide Match, Seg, Focus, Solo;
    SoloFocus(rk, m, top, c, x, node, y, nc);
    SoloReady(rk, m, top, c, x, node, y);
    SoloParts(rk, m, top, c, node, x, node, y);
    OwnerReady(rk, m, c, node, top);
    MatchRoot(rk, m, x, node, Lo(rk, c), rk[node]);
    MatchRoot(rk, m, y, node, rk[node], Hi(rk, c));
    MinRanks(rk, m, y, node, MinTree(y).node, rk[node], Hi(rk, c));
  }

  /** The final links of n. */
  ghost function Final(l: Links, n: RbNode, c: Ctx, x: Tree, nc: bool, y: Tree): Links
    requires y.Node?
  {
    var s, q, rc := MinTree(y).node, MinParent(y, MinTree(y).node), Root(MinTree(y).right);
    if n == s then Links(Root(x), Root(RemoveMin(y)), Owner(c), nc)
    else if n == Root(x) then l.(parent := s)
    else if n == Owner(c) then (if c.InL? then l.(left := s) else l.(right := s))
    else Spliced(l, n, y.node, s, q, rc)
  }

  ghost function FinalView(m: View, c: Ctx, x: Tree, nc: bool, y: Tree): View
    requires y.Node?
  {
    map n | n in m :: Final(m[n], n, c, x, nc, y)
  }

  /** The successor in node's place: the links are as they should be. */
  lemma PlaceSuccessor(rk: Rank, m: View, top: RbNode?, top': RbNode?, c: Ctx, x: Tree, node: RbNode, nc: bool, y: Tree)
    requires y.Node? && Focus(rk, m, top, c, Node(x, node, nc, y))
    requires top' == if c.Top? then MinTree(y).node else top
    ensures Focus(rk, FinalView(m, c, x, nc, y), top', c, Node(x, MinTree(y).node, nc, RemoveMin(y)))
  {
    hide Match, Seg, Focus, Solo, RemoveMin, Keeps, KeepsOut, Hung, SplicedAll, FinalView, Ready2;
    var m', s, lo, hi := FinalView(m, c, x, nc, y), MinTree(y).node, Lo(rk, c), Hi(rk, c);
    TwoReady(rk, m, top, c, x, node, nc, y);
    SoloFocus(rk, m, top, c, x, node, y, nc);
    SoloParts(rk, m, top, c, node, x, node, y);
    MinRanks(rk, m, y, node, s, rk[node], hi);
    MatchRoot(rk, m, x, node, lo, rk[node]);
    OwnerOff(rk, m, c, node, top);
    FinalNode(m, c, x, node, nc, y);
    FinalSpliced(rk, m, c, x, node, nc, y);
    FinalLeft(rk, m, c, x, node, nc, y, lo);
    FinalAround(rk, m, c, x, node, nc, y);
    Reattach(rk, m, m', x, node, s, IsRed(x), lo, rk[node]);
    MatchWiden(rk, m', x, s, lo, rk[node], lo, rk[s]);
    MinMatch(rk, m, m', y, node, s, rk[node], hi);
    SegRedirect(rk, m, m', c, node, s, top, top');
    SoloMake(rk, m', top', c, s, x, s, RemoveMin(y));
    SoloFocus(rk, m', top', c, x, s, RemoveMin(y), nc);
  }

  lemma FinalNode(m: View, c: Ctx, x: Tree, node: RbNode, nc: bool, y: Tree)
    requires y.Node? && Ready2(m, c, x, node, nc, y)
    ensures var m', s := FinalView(m, c, x, nc, y), MinTree(y).node; s in m' && m'[s] == Links(Root(x), Root(RemoveMin(y)), Owner(c), nc)
  {
  }

  lemma FinalSpliced(rk: Rank, m: View, c: Ctx, x: Tree, node: RbNode, nc: bool, y: Tree)
    requires y.Node? && node in rk && MinTree(y).node in rk && Lo(rk, c) < rk[node] < rk[MinTree(y).node]
    requires x.Node? ==> x.node in rk && rk[x.node] < rk[node]
    requires !c.Top? ==> c.node in rk && (rk[c.node] <= Lo(rk, c) || Hi(rk, c) <= rk[c.node])
    ensures var t := MinTree(y);
      SplicedAll(rk, m, FinalView(m, c, x, nc, y), rk[t.node], Hi(rk, c), Root(y), t.node, MinParent(y, t.node), Root(t.right))
  {
    hide MinTree, MinParent, RemoveMin;
  }

  lemma FinalLeft(rk: Rank, m: View, c: Ctx, x: Tree, node: RbNode, nc: bool, y: Tree, lo: int)
    requires y.Node? && node in rk && Ready2(m, c, x, node, nc, y)
    requires MinTree(y).node in rk && rk[node] < rk[MinTree(y).node] && y.node in rk && rk[node] < rk[y.node]
    requires MinParent(y, MinTree(y).node) in rk && rk[node] < rk[MinParent(y, MinTree(y).node)]
    requires MinTree(y).right.Node? ==> MinTree(y).right.node in rk && rk[node] < rk[MinTree(y).right.node]
    requires !c.Top? ==> c.node in rk && (rk[c.node] <= lo || rk[node] <= rk[c.node])
    ensures Keeps(rk, m, FinalView(m, c, x, nc, y), lo, rk[node], Root(x))
    ensures Hung(m, FinalView(m, c, x, nc, y), x, MinTree(y).node, IsRed(x))
  {
  }

  lemma FinalAround(rk: Rank, m: View, c: Ctx, x: Tree, node: RbNode, nc: bool, y: Tree)
    requires y.Node? && node in rk && Ready2(m, c, x, node, nc, y) && Lo(rk, c) < rk[node] < Hi(rk, c)
    requires var s, q, u := MinTree(y).node, MinParent(y, MinTree(y).node), MinTree(y).right;
      && s in rk && q in rk && y.node in rk && rk[node] < rk[s] < Hi(rk, c) && rk[node] < rk[q] < Hi(rk, c) && rk[node] < rk[y.node] < Hi(rk, c)
      && (u.Node? ==> u.node in rk && rk[node] < rk[u.node] < Hi(rk, c))
    requires x.Node? ==> x.node in rk && Lo(rk, c) < rk[x.node] < rk[node]
    ensures KeepsOut(rk, m, FinalView(m, c, x, nc, y), Lo(rk, c), Hi(rk, c), Owner(c))
    ensures !c.Top? ==> Redirected(m, FinalView(m, c, x, nc, y), Owner(c), Owner(c), c, MinTree(y).node)
  {
  }
}
