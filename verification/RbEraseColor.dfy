/** ____rb_erase_color: restoring equal black heights after a black node is gone. */
module RbEraseColor {
  import opened RbShape
  import opened RbHeap
  import opened RbRotate

  // ---- what the cases do to the shape -----------------------------------------

  /** Invariant of the loop in terms of shapes: the hole is not the root, t is black,
      and every path through it has one black node too few. */
  ghost predicate EraseShape(c: Ctx, t: Tree) {
    && !c.Top? && !IsRed(t) && Balanced(t) && ColourOk(t)
    && CtxBalanced(c, BlackHeight(t) + 1) && CtxColourOk(c)
  }

  /** Case 1: a red sibling is rotated up, a black one comes down. */
  lemma SinkShapeLeft(up: Ctx, p: RbNode, pc: bool, l: Tree, s: RbNode, r: Tree, t: Tree)
    requires EraseShape(InL(up, p, pc, Node(l, s, true, r)), t)
    ensures !pc && l.Node? && !l.red && EraseShape(InL(InL(up, s, false, r), p, true, l), t)
    ensures Inorder(Node(Node(t, p, true, l), s, false, r)) == Inorder(Node(t, p, pc, Node(l, s, true, r)))
  {
    var c' := InL(up, s, false, r);
    assert Balanced(l) && Balanced(r) && ColourOk(l) && ColourOk(r);
    assert CtxColourOk(c') && CtxBalanced(c', BlackHeight(t) + 1);
  }

  lemma SinkShapeRight(up: Ctx, p: RbNode, pc: bool, l: Tree, s: RbNode, r: Tree, t: Tree)
    requires EraseShape(InR(up, p, pc, Node(l, s, true, r)), t)
    ensures !pc && r.Node? && !r.red && EraseShape(InR(InR(up, s, false, l), p, true, r), t)
    ensures Inorder(Node(l, s, false, Node(r, p, true, t))) == Inorder(Node(Node(l, s, true, r), p, pc, t))
  {
    var c' := InR(up, s, false, l);
    assert Balanced(l) && Balanced(r) && ColourOk(l) && ColourOk(r);
    assert CtxColourOk(c') && CtxBalanced(c', BlackHeight(t) + 1);
  }

  predicate BlackChildren(s: Tree) {
    s.Node? && !s.red && !IsRed(s.left) && !IsRed(s.right)
  }

  /** Case 2: the sibling turns red, the parent black. */
  function Flip(c: Ctx, t: Tree): Tree
    requires !c.Top?
  {
    Close(c.(red := false, sib := Paint(c.sib, true)), t)
  }

  lemma FlipShape(c: Ctx, t: Tree)
    requires EraseShape(c, t) && BlackChildren(c.sib)
    ensures c.red || c.up.Top? ==> RedBlack(Plug(c.up, Flip(c, t)))
    ensures !c.red && !c.up.Top? ==> EraseShape(c.up, Flip(c, t))
    ensures Around(c.up, Inorder(Flip(c, t))) == Around(c, Inorder(t))
  {
    var s, h := Paint(c.sib, true), BlackHeight(t);
    assert Balanced(s) && ColourOk(s) && BlackHeight(s) == h;
    assert Balanced(Flip(c, t)) && ColourOk(Flip(c, t)) && BlackHeight(Flip(c, t)) == h + 1;
    PlugRedBlack(c.up, Flip(c, t));
  }

  /** Case 4: a red outer nephew is painted black, the sibling rotated up. */
  lemma RaiseShapeLeft(up: Ctx, p: RbNode, pc: bool, t: Tree, l: Tree, s: RbNode, r: Tree)
    requires EraseShape(InL(up, p, pc, Node(l, s, false, r)), t) && IsRed(r)
    ensures RedBlack(Plug(up, Node(Node(t, p, false, l), s, pc, Paint(r, false))))
    ensures Inorder(Node(Node(t, p, false, l), s, pc, Paint(r, false))) == Inorder(Node(t, p, pc, Node(l, s, false, r)))
  {
    var x, y, h := Node(t, p, false, l), Paint(r, false), BlackHeight(t);
    assert Balanced(l) && Balanced(r) && ColourOk(l) && ColourOk(r);
    assert Balanced(x) && ColourOk(x) && BlackHeight(x) == h + 1;
    assert Balanced(y) && ColourOk(y) && BlackHeight(y) == h + 1;
    PaintOrder(r, false);
    RotationOrder(t, p, l, s, r, false, pc, pc, false);
    PlugRedBlack(up, Node(x, s, pc, y));
  }

  lemma RaiseShapeRight(up: Ctx, p: RbNode, pc: bool, t: Tree, l: Tree, s: RbNode, r: Tree)
    requires EraseShape(InR(up, p, pc, Node(l, s, false, r)), t) && IsRed(l)
    ensures RedBlack(Plug(up, Node(Paint(l, false), s, pc, Node(r, p, false, t))))
    ensures Inorder(Node(Paint(l, false), s, pc, Node(r, p, false, t))) == Inorder(Node(Node(l, s, false, r), p, pc, t))
  {
    var x, y, h := Paint(l, false), Node(r, p, false, t), BlackHeight(t);
    assert Balanced(l) && Balanced(r) && ColourOk(l) && ColourOk(r);
    assert Balanced(x) && ColourOk(x) && BlackHeight(x) == h + 1;
    assert Balanced(y) && ColourOk(y) && BlackHeight(y) == h + 1;
    PaintOrder(l, false);
    RotationOrder(l, s, r, p, t, false, pc, pc, false);
    PlugRedBlack(up, Node(x, s, pc, y));
  }

  /** Cases 3 and 4: a red inner nephew n is rotated up twice. */
  lemma TwistShapeLeft(up: Ctx, p: RbNode, pc: bool, t: Tree, a: Tree, n: RbNode, b: Tree, s: RbNode, r: Tree)
    requires EraseShape(InL(up, p, pc, Node(Node(a, n, true, b), s, false, r)), t) && !IsRed(r)
    ensures !IsRed(b) && RedBlack(Plug(up, Node(Node(t, p, false, a), n, pc, Node(b, s, false, r))))
    ensures Inorder(Node(Node(t, p, false, a), n, pc, Node(b, s, false, r)))
         == Inorder(Node(t, p, pc, Node(Node(a, n, true, b), s, false, r)))
  {
    var x, y, h := Node(t, p, false, a), Node(b, s, false, r), BlackHeight(t);
    assert Balanced(Node(a, n, true, b)) && ColourOk(Node(a, n, true, b)) && Balanced(r) && ColourOk(r);
    assert Balanced(x) && ColourOk(x) && BlackHeight(x) == h + 1;
    assert Balanced(y) && ColourOk(y) && BlackHeight(y) == h + 1;
    RotationOrder(a, n, b, s, r, true, false, pc, false);
    RotationOrder(t, p, a, n, y, false, pc, pc, pc);
    PlugRedBlack(up, Node(x, n, pc, y));
  }

  lemma TwistShapeRight(up: Ctx, p: RbNode, pc: bool, t: Tree, l: Tree, s: RbNode, a: Tree, n: RbNode, b: Tree)
    requires EraseShape(InR(up, p, pc, Node(l, s, false, Node(a, n, true, b))), t) && !IsRed(l)
    ensures !IsRed(a) && RedBlack(Plug(up, Node(Node(l, s, false, a), n, pc, Node(b, p, false, t))))
    ensures Inorder(Node(Node(l, s, false, a), n, pc, Node(b, p, false, t)))
         == Inorder(Node(Node(l, s, false, Node(a, n, true, b)), p, pc, t))
  {
    var x, y, h := Node(l, s, false, a), Node(b, p, false, t), BlackHeight(t);
    assert Balanced(Node(a, n, true, b)) && ColourOk(Node(a, n, true, b)) && Balanced(l) && ColourOk(l);
    assert Balanced(x) && ColourOk(x) && BlackHeight(x) == h + 1;
    assert Balanced(y) && ColourOk(y) && BlackHeight(y) == h + 1;
    RotationOrder(l, s, a, n, b, false, pc, false, true);
    RotationOrder(x, n, b, p, t, pc, pc, pc, false);
    PlugRedBlack(up, Node(x, n, pc, y));
  }

  // ---- case 3: rotate at the sibling ------------------------------------------------

  /** Snapshot m is the heap, except that the parents of sibling and tmp1 are still to be
      set: the source leaves them stale between cases 3 and 4. */
  ghost predicate Pending(m: View, S: set<RbNode>, sibling: RbNode, tmp1: RbNode, parent: RbNode)
    reads S`left, S`right, S`parent, S`red
  {
    && m.Keys == S && sibling in S && tmp1 in S && sibling != tmp1
    && m[sibling] == Links(sibling.left, sibling.right, parent, sibling.red)
    && m[tmp1] == Links(tmp1.left, tmp1.right, sibling, tmp1.red)
    && forall n :: n in S && n != sibling && n != tmp1 ==> m[n] == Links(n.left, n.right, n.parent, n.red)
  }

  method TwistLeft(parent: RbNode, sibling: RbNode, tmp2: RbNode, tmp1: RbNode?)
    requires tmp1 == tmp2.right && sibling != tmp2 && parent !in {sibling, tmp2} && tmp1 !in {sibling, tmp2, parent}
    modifies sibling`left, tmp2`right, parent`right, Opt(tmp1)`parent, Opt(tmp1)`red
    ensures sibling.left == tmp1 && tmp2.right == sibling && parent.right == tmp2
    ensures tmp1 != null ==> tmp1.parent == sibling && !tmp1.red
  {
    sibling.left := tmp1;
    tmp2.right := sibling;
    parent.right := tmp2;
    if tmp1 != null {
      tmp1.parent, tmp1.red := sibling, false;
    }
  }

  method TwistStepLeft(parent: RbNode, sibling: RbNode, tmp2: RbNode, tmp1: RbNode?, ghost S: set<RbNode>, ghost cs: Ctx, ghost b: Tree)
    returns (ghost m: View)
    requires cs.InR? && cs.node == parent && Ready(LinksOf(S), cs, sibling, tmp2, b, sibling)
    requires tmp1 == Root(b) == tmp2.right && !IsRed(b)
    modifies S`left, S`right, S`parent, S`red
    ensures Pending(m, S, tmp2, sibling, parent)
    ensures Only(old(LinksOf(S)), m, tmp2, sibling, null, tmp1, null, parent)
    ensures parent in S && m[parent] == old(LinksOf(S))[parent].(right := tmp2)
    ensures tmp2 in S && m[tmp2] == Links(old(tmp2.left), sibling, parent, old(tmp2.red))
    ensures sibling in S && m[sibling] == Links(tmp1, old(sibling.right), tmp2, old(sibling.red))
    ensures Hung(old(LinksOf(S)), m, b, sibling, false)
    ensures sibling.left == tmp1 && sibling.right == old(sibling.right) && tmp2.left == old(tmp2.left)
  {
    TwistLeft(parent, sibling, tmp2, tmp1);
    ghost var m1 := LinksOf(S);
    m := m1[tmp2 := m1[tmp2].(parent := parent)][sibling := m1[sibling].(parent := tmp2)];
  }

  method LinkCase3Left(root: RbRoot, parent: RbNode, sibling: RbNode, tmp2: RbNode, ghost S: set<RbNode>, ghost rk: Rank,
                       ghost cs: Ctx, ghost a: Tree, ghost b: Tree, ghost r: Tree)
    returns (ghost m: View)
    requires cs.InR? && cs.node == parent
    requires Focus(rk, LinksOf(S), root.node, cs, Node(Node(a, tmp2, true, b), sibling, false, r)) && !IsRed(b)
    modifies S`left, S`right, S`parent, S`red
    ensures Pending(m, S, tmp2, sibling, parent)
    ensures Focus(rk, m, root.node, cs, Node(a, tmp2, true, Node(b, sibling, false, r)))
    ensures {tmp2, sibling} <= S && Opt(sibling.left) <= S && Opt(sibling.right) <= S
    ensures sibling.left == Root(b) && sibling.right == Root(r) && tmp2.left == Root(a)
    ensures tmp2 != sibling && sibling.left !in {tmp2, sibling} && sibling.right !in {tmp2, sibling}
  {
    hide Focus, Match, Seg, Trio, Pending;
    ghost var m0, top := LinksOf(S), root.node;
    TrioLeft(rk, m0, top, cs, a, tmp2, b, sibling, r, true, false);
    TrioReady(rk, m0, top, cs, sibling, a, tmp2, tmp2, b, tmp2, sibling, r, sibling);
    m := TwistStepLeft(parent, sibling, tmp2, tmp2.right, S, cs, b);
    RotateRight(rk, m0, m, top, top, cs, a, tmp2, b, sibling, r, true, false, IsRed(a), true, false, false);
  }

  /** Case 3 - right rotate at sibling. */
  method Case3Left(root: RbRoot, parent: RbNode, sibling: RbNode, tmp2: RbNode, cb: Callbacks, ghost S: set<RbNode>, ghost rk: Rank,
                   ghost cs: Ctx, ghost a: Tree, ghost b: Tree, ghost r: Tree)
    returns (ghost m: View)
    requires cs.InR? && cs.node == parent
    requires Focus(rk, LinksOf(S), root.node, cs, Node(Node(a, tmp2, true, b), sibling, false, r)) && !IsRed(b)
    requires Law(cb) && AugAll(cb, ValuesOf(S), cs, Node(Node(a, tmp2, true, b), sibling, false, r))
    modifies S`left, S`right, S`parent, S`red, S`aug
    ensures Pending(m, S, tmp2, sibling, parent) && tmp2.left == Root(a)
    ensures Focus(rk, m, root.node, cs, Node(a, tmp2, true, Node(b, sibling, false, r)))
    ensures AugAll(cb, ValuesOf(S), cs, Node(a, tmp2, true, Node(b, sibling, false, r)))
  {
    hide Focus, AugAll, Law, Rotated;
    ghost var m0, v, top := LinksOf(S), ValuesOf(S), root.node;
    m := LinkCase3Left(root, parent, sibling, tmp2, S, rk, cs, a, b, r);
    AugmentStep(cb, sibling, tmp2, S);
    AugRotateRight(cb, rk, m0, v, ValuesOf(S), top, cs, a, tmp2, b, sibling, r, true, false, true, false);
  }

  // ---- case 4: rotate at the parent and repaint ---------------------------------------

  method ShiftLeft(root: RbRoot, parent: RbNode, sibling: RbNode, tmp1: RbNode, tmp2: RbNode?, ghost ow: RbNode?)
    requires parent != sibling && tmp1 !in {parent, sibling} && tmp2 !in {parent, sibling} && ow !in {parent, sibling}
    requires tmp1 != tmp2 && tmp1 != ow && (tmp2 != null ==> tmp2 != ow) && ow == parent.parent
    modifies root`node, {parent, sibling}`left, {parent, sibling}`right, {parent, sibling}`parent, {parent, sibling}`red
    modifies tmp1`parent, tmp1`red, Opt(tmp2)`parent, Opt(ow)`left, Opt(ow)`right
    ensures parent.right == tmp2 && parent.left == old(parent.left) && parent.parent == sibling && !parent.red
    ensures sibling.left == parent && sibling.right == old(sibling.right) && sibling.parent == ow && sibling.red == old(parent.red)
    ensures tmp1.parent == sibling && !tmp1.red && (tmp2 != null ==> tmp2.parent == parent)
    ensures ow == null ==> root.node == sibling
    ensures ow != null ==> root.node == old(root.node)
    ensures ow != null ==> if old(ow.left) == parent then ow.left == sibling && ow.right == old(ow.right)
                                                     else ow.right == sibling && ow.left == old(ow.left)
  {
    parent.right := tmp2;
    sibling.left := parent;
    tmp1.parent, tmp1.red := sibling, false;
    if tmp2 != null {
      tmp2.parent := parent;
    }
    RotateSetParents(root, parent, sibling, false);
  }

  method ShiftStepLeft(root: RbRoot, parent: RbNode, sibling: RbNode, tmp1: RbNode, tmp2: RbNode?,
                       ghost S: set<RbNode>, ghost m: View, ghost c: Ctx, ghost x: Tree, ghost y: Tree)
    requires Pending(m, S, sibling, tmp1, parent) && Ready(m, c, parent, parent, x, sibling)
    requires tmp2 == Root(x) == m[sibling].left && m[parent].parent == Owner(c) && Root(y) == tmp1
    requires tmp1 !in {parent, sibling} && tmp1 != tmp2 && tmp1 != Owner(c)
    modifies root`node, S`left, S`right, S`parent, S`red
    ensures Only(m, LinksOf(S), parent, sibling, null, tmp2, tmp1, Owner(c))
    ensures Redirected(m, LinksOf(S), old(root.node), root.node, c, sibling)
    ensures sibling in S && LinksOf(S)[sibling] == Links(parent, m[sibling].right, Owner(c), m[parent].red)
    ensures parent in S && LinksOf(S)[parent] == Links(m[parent].left, tmp2, sibling, false)
    ensures Hung(m, LinksOf(S), x, parent, IsRed(x)) && Hung(m, LinksOf(S), y, sibling, false)
  {
    ShiftLeft(root, parent, sibling, tmp1, tmp2, Owner(c));
  }

  method LinkCase4Left(root: RbRoot, parent: RbNode, sibling: RbNode, tmp1: RbNode, ghost S: set<RbNode>, ghost rk: Rank,
                       ghost m: View, ghost c: Ctx, ghost t: Tree, ghost pc: bool, ghost x: Tree, ghost sc: bool, ghost y: Tree)
    requires Pending(m, S, sibling, tmp1, parent) && Root(y) == tmp1
    requires Focus(rk, m, root.node, c, Node(t, parent, pc, Node(x, sibling, sc, y)))
    modifies root`node, S`left, S`right, S`parent, S`red
    ensures Focus(rk, LinksOf(S), root.node, c, Node(Node(t, parent, false, x), sibling, pc, Paint(y, false)))
    ensures {parent, sibling} <= S && Opt(parent.left) <= S && Opt(parent.right) <= S
    ensures parent.left == Root(t) && parent.right == Root(x)
    ensures parent != sibling && parent.left !in {parent, sibling} && parent.right !in {parent, sibling}
  {
    hide Focus, Match, Seg, Trio;
    ghost var top := root.node;
    TrioRight(rk, m, top, c, t, parent, x, sibling, y, pc, sc);
    TrioReady(rk, m, top, c, parent, t, parent, parent, x, sibling, sibling, y, sibling);
    ShiftStepLeft(root, parent, sibling, tmp1, sibling.left, S, m, c, x, y);
    RotateLeft(rk, m, LinksOf(S), top, root.node, c, t, parent, x, sibling, y, pc, sc, false, false, IsRed(x), pc);
  }

  /** Case 4 - left rotate at parent + color flips. */
  method Case4Left(root: RbRoot, parent: RbNode, sibling: RbNode, tmp1: RbNode, cb: Callbacks, ghost S: set<RbNode>, ghost rk: Rank,
                   ghost m: View, ghost c: Ctx, ghost t: Tree, ghost pc: bool, ghost x: Tree, ghost sc: bool, ghost y: Tree)
    requires Pending(m, S, sibling, tmp1, parent) && Root(y) == tmp1
    requires Focus(rk, m, root.node, c, Node(t, parent, pc, Node(x, sibling, sc, y)))
    requires Law(cb) && AugAll(cb, ValuesOf(S), c, Node(t, parent, pc, Node(x, sibling, sc, y)))
    modifies root`node, S`left, S`right, S`parent, S`red, S`aug
    ensures Focus(rk, LinksOf(S), root.node, c, Node(Node(t, parent, false, x), sibling, pc, Paint(y, false)))
    ensures AugAll(cb, ValuesOf(S), c, Node(Node(t, parent, false, x), sibling, pc, Paint(y, false)))
  {
    hide Focus, AugAll, Law, Rotated;
    ghost var v, top := ValuesOf(S), root.node;
    LinkCase4Left(root, parent, sibling, tmp1, S, rk, m, c, t, pc, x, sc, y);
    AugmentStep(cb, parent, sibling, S);
    AugRotateLeft(cb, rk, m, v, ValuesOf(S), top, c, t, parent, x, sibling, y, pc, sc, false, pc);
    AugPaintRight(cb, ValuesOf(S), c, Node(t, parent, false, x), sibling, pc, y, false);
  }

  // ---- the mirrored cases ---------------------------------------------------------

  method TwistRight(parent: RbNode, sibling: RbNode, tmp2: RbNode, tmp1: RbNode?)
    requires tmp1 == tmp2.left && sibling != tmp2 && parent !in {sibling, tmp2} && tmp1 !in {sibling, tmp2, parent}
    modifies sibling`right, tmp2`left, parent`left, Opt(tmp1)`parent, Opt(tmp1)`red
    ensures sibling.right == tmp1 && tmp2.left == sibling && parent.left == tmp2
    ensures tmp1 != null ==> tmp1.parent == sibling && !tmp1.red
  {
    sibling.right := tmp1;
    tmp2.left := sibling;
    parent.left := tmp2;
    if tmp1 != null {
      tmp1.parent, tmp1.red := sibling, false;
    }
  }

  method TwistStepRight(parent: RbNode, sibling: RbNode, tmp2: RbNode, tmp1: RbNode?, ghost S: set<RbNode>, ghost cs: Ctx, ghost b: Tree)
    returns (ghost m: View)
    requires cs.InL? && cs.node == parent && Ready(LinksOf(S), cs, sibling, sibling, b, tmp2)
    requires tmp1 == Root(b) == tmp2.left && !IsRed(b)
    modifies S`left, S`right, S`parent, S`red
    ensures Pending(m, S, tmp2, sibling, parent)
    ensures Only(old(LinksOf(S)), m, sibling, tmp2, null, tmp1, null, parent)
    ensures parent in S && m[parent] == old(LinksOf(S))[parent].(left := tmp2)
    ensures tmp2 in S && m[tmp2] == Links(sibling, old(tmp2.right), parent, old(tmp2.red))
    ensures sibling in S && m[sibling] == Links(old(sibling.left), tmp1, tmp2, old(sibling.red))
    ensures Hung(old(LinksOf(S)), m, b, sibling, false)
    ensures sibling.right == tmp1 && sibling.left == old(sibling.left) && tmp2.right == old(tmp2.right)
  {
    TwistRight(parent, sibling, tmp2, tmp1);
    ghost var m1 := LinksOf(S);
    m := m1[tmp2 := m1[tmp2].(parent := parent)][sibling := m1[sibling].(parent := tmp2)];
  }

  method LinkCase3Right(root: RbRoot, parent: RbNode, sibling: RbNode, tmp2: RbNode, ghost S: set<RbNode>, ghost rk: Rank,
                        ghost cs: Ctx, ghost l: Tree, ghost b: Tree, ghost a: Tree)
    returns (ghost m: View)
    requires cs.InL? && cs.node == parent
    requires Focus(rk, LinksOf(S), root.node, cs, Node(l, sibling, false, Node(b, tmp2, true, a))) && !IsRed(b)
    modifies S`left, S`right, S`parent, S`red
    ensures Pending(m, S, tmp2, sibling, parent)
    ensures Focus(rk, m, root.node, cs, Node(Node(l, sibling, false, b), tmp2, true, a))
    ensures {tmp2, sibling} <= S && Opt(sibling.left) <= S && Opt(sibling.right) <= S
    ensures sibling.left == Root(l) && sibling.right == Root(b) && tmp2.right == Root(a)
    ensures tmp2 != sibling && sibling.left !in {tmp2, sibling} && sibling.right !in {tmp2, sibling}
  {
    hide Focus, Match, Seg, Trio, Pending;
    ghost var m0, top := LinksOf(S), root.node;
    TrioRight(rk, m0, top, cs, l, sibling, b, tmp2, a, false, true);
    TrioReady(rk, m0, top, cs, sibling, l, sibling, sibling, b, tmp2, tmp2, a, tmp2);
    m := TwistStepRight(parent, sibling, tmp2, tmp2.left, S, cs, b);
    RotateLeft(rk, m0, m, top, top, cs, l, sibling, b, tmp2, a, false, true, IsRed(a), false, false, true);
  }

  /** Case 3 - left rotate at sibling. */
  method Case3Right(root: RbRoot, parent: RbNode, sibling: RbNode, tmp2: RbNode, cb: Callbacks, ghost S: set<RbNode>, ghost rk: Rank,
                    ghost cs: Ctx, ghost l: Tree, ghost b: Tree, ghost a: Tree)
    returns (ghost m: View)
    requires cs.InL? && cs.node == parent
    requires Focus(rk, LinksOf(S), root.node, cs, Node(l, sibling, false, Node(b, tmp2, true, a))) && !IsRed(b)
    requires Law(cb) && AugAll(cb, ValuesOf(S), cs, Node(l, sibling, false, Node(b, tmp2, true, a)))
    modifies S`left, S`right, S`parent, S`red, S`aug
    ensures Pending(m, S, tmp2, sibling, parent) && tmp2.right == Root(a)
    ensures Focus(rk, m, root.node, cs, Node(Node(l, sibling, false, b), tmp2, true, a))
    ensures AugAll(cb, ValuesOf(S), cs, Node(Node(l, sibling, false, b), tmp2, true, a))
  {
    hide Focus, AugAll, Law, Rotated;
    ghost var m0, v, top := LinksOf(S), ValuesOf(S), root.node;
    m := LinkCase3Right(root, parent, sibling, tmp2, S, rk, cs, l, b, a);
    AugmentStep(cb, sibling, tmp2, S);
    AugRotateLeft(cb, rk, m0, v, ValuesOf(S), top, cs, l, sibling, b, tmp2, a, false, true, false, true);
  }

  method ShiftRight(root: RbRoot, parent: RbNode, sibling: RbNode, tmp1: RbNode, tmp2: RbNode?, ghost ow: RbNode?)
    requires parent != sibling && tmp1 !in {parent, sibling} && tmp2 !in {parent, sibling} && ow !in {parent, sibling}
    requires tmp1 != tmp2 && tmp1 != ow && (tmp2 != null ==> tmp2 != ow) && ow == parent.parent
    modifies root`node, {parent, sibling}`left, {parent, sibling}`right, {parent, sibling}`parent, {parent, sibling}`red
    modifies tmp1`parent, tmp1`red, Opt(tmp2)`parent, Opt(ow)`left, Opt(ow)`right
    ensures parent.left == tmp2 && parent.right == old(parent.right) && parent.parent == sibling && !parent.red
    ensures sibling.right == parent && sibling.left == old(sibling.left) && sibling.parent == ow && sibling.red == old(parent.red)
    ensures tmp1.parent == sibling && !tmp1.red && (tmp2 != null ==> tmp2.parent == parent)
    ensures ow == null ==> root.node == sibling
    ensures ow != null ==> root.node == old(root.node)
    ensures ow != null ==> if old(ow.left) == parent then ow.left == sibling && ow.right == old(ow.right)
                                                     else ow.right == sibling && ow.left == old(ow.left)
  {
    parent.left := tmp2;
    sibling.right := parent;
    tmp1.parent, tmp1.red := sibling, false;
    if tmp2 != null {
      tmp2.parent := parent;
    }
    RotateSetParents(root, parent, sibling, false);
  }

  method ShiftStepRight(root: RbRoot, parent: RbNode, sibling: RbNode, tmp1: RbNode, tmp2: RbNode?,
                        ghost S: set<RbNode>, ghost m: View, ghost c: Ctx, ghost x: Tree, ghost y: Tree)
    requires Pending(m, S, sibling, tmp1, parent) && Ready(m, c, parent, sibling, x, parent)
    requires tmp2 == Root(x) == m[sibling].right && m[parent].parent == Owner(c) && Root(y) == tmp1
    requires tmp1 !in {parent, sibling} && tmp1 != tmp2 && tmp1 != Owner(c)
    modifies root`node, S`left, S`right, S`parent, S`red
    ensures Only(m, LinksOf(S), sibling, parent, tmp1, tmp2, null, Owner(c))
    ensures Redirected(m, LinksOf(S), old(root.node), root.node, c, sibling)
    ensures sibling in S && LinksOf(S)[sibling] == Links(m[sibling].left, parent, Owner(c), m[parent].red)
    ensures parent in S && LinksOf(S)[parent] == Links(tmp2, m[parent].right, sibling, false)
    ensures Hung(m, LinksOf(S), x, parent, IsRed(x)) && Hung(m, LinksOf(S), y, sibling, false)
  {
    ShiftRight(root, parent, sibling, tmp1, tmp2, Owner(c));
  }

  method LinkCase4Right(root: RbRoot, parent: RbNode, sibling: RbNode, tmp1: RbNode, ghost S: set<RbNode>, ghost rk: Rank,
                        ghost m: View, ghost c: Ctx, ghost y: Tree, ghost sc: bool, ghost x: Tree, ghost pc: bool, ghost t: Tree)
    requires Pending(m, S, sibling, tmp1, parent) && Root(y) == tmp1
    requires Focus(rk, m, root.node, c, Node(Node(y, sibling, sc, x), parent, pc, t))
    modifies root`node, S`left, S`right, S`parent, S`red
    ensures Focus(rk, LinksOf(S), root.node, c, Node(Paint(y, false), sibling, pc, Node(x, parent, false, t)))
    ensures {parent, sibling} <= S && Opt(parent.left) <= S && Opt(parent.right) <= S
    ensures parent.left == Root(x) && parent.right == Root(t)
    ensures parent != sibling && parent.left !in {parent, sibling} && parent.right !in {parent, sibling}
  {
    hide Focus, Match, Seg, Trio;
    ghost var top := root.node;
    TrioLeft(rk, m, top, c, y, sibling, x, parent, t, sc, pc);
    TrioReady(rk, m, top, c, parent, y, sibling, sibling, x, sibling, parent, t, parent);
    ShiftStepRight(root, parent, sibling, tmp1, sibling.right, S, m, c, x, y);
    RotateRight(rk, m, LinksOf(S), top, root.node, c, y, sibling, x, parent, t, sc, pc, false, pc, IsRed(x), false);
  }

  /** Case 4 - right rotate at parent + color flips. */
  method Case4Right(root: RbRoot, parent: RbNode, sibling: RbNode, tmp1: RbNode, cb: Callbacks, ghost S: set<RbNode>, ghost rk: Rank,
                    ghost m: View, ghost c: Ctx, ghost y: Tree, ghost sc: bool, ghost x: Tree, ghost pc: bool, ghost t: Tree)
    requires Pending(m, S, sibling, tmp1, parent) && Root(y) == tmp1
    requires Focus(rk, m, root.node, c, Node(Node(y, sibling, sc, x), parent, pc, t))
    requires Law(cb) && AugAll(cb, ValuesOf(S), c, Node(Node(y, sibling, sc, x), parent, pc, t))
    modifies root`node, S`left, S`right, S`parent, S`red, S`aug
    ensures Focus(rk, LinksOf(S), root.node, c, Node(Paint(y, false), sibling, pc, Node(x, parent, false, t)))
    ensures AugAll(cb, ValuesOf(S), c, Node(Paint(y, false), sibling, pc, Node(x, parent, false, t)))
  {
    hide Focus, AugAll, Law, Rotated;
    ghost var v, top := ValuesOf(S), root.node;
    LinkCase4Right(root, parent, sibling, tmp1, S, rk, m, c, y, sc, x, pc, t);
    AugmentStep(cb, parent, sibling, S);
    AugRotateRight(cb, rk, m, v, ValuesOf(S), top, c, y, sibling, x, parent, t, sc, pc, pc, false);
    AugPaintLeft(cb, ValuesOf(S), c, y, sibling, pc, Node(x, parent, false, t), false);
  }

  // ---- cases 1 and 2 ------------------------------------------------------------------

  /** Case 1 - left rotate at parent. */
  method SinkLeft(root: RbRoot, parent: RbNode, sibling: RbNode, cb: Callbacks, ghost S: set<RbNode>, ghost rk: Rank, ghost c: Ctx, ghost t: Tree)
    returns (tmp1: RbNode, ghost c': Ctx)
    requires Focus(rk, LinksOf(S), root.node, c, t) && Law(cb) && AugAll(cb, ValuesOf(S), c, t) && EraseShape(c, t)
    requires c.InL? && c.node == parent && Root(c.sib) == sibling && c.sib.red
    modifies root`node, S`left, S`right, S`parent, S`red, S`aug
    ensures Focus(rk, LinksOf(S), root.node, c', t) && AugAll(cb, ValuesOf(S), c', t) && EraseShape(c', t)
    ensures c'.InL? && c'.node == parent && c'.red && Root(c'.sib) == tmp1 && !c'.sib.red
    ensures Around(c', Inorder(t)) == Around(c, Inorder(t))
  {
    hide Focus, AugAll, Law, EraseShape;
    ghost var m, top, up, l, r, pc := LinksOf(S), root.node, c.up, c.sib.left, c.sib.right, c.red;
    ghost var cs := InR(up, parent, pc, t);
    SinkShapeLeft(up, parent, pc, l, sibling, r, t);
    FocusUp(rk, m, top, c, t);
    FocusUp(rk, m, top, cs, c.sib);
    AugUp(cb, ValuesOf(S), c, t);
    Surroundings(rk, m, top, cs, c.sib);
    tmp1 := sibling.left;
    RaiseLeft(root, sibling, parent, tmp1, cb, S, rk, m, up, t, l, r);
    c' := InL(InL(up, sibling, false, r), parent, true, l);
    FocusUp(rk, LinksOf(S), root.node, c', t);
    FocusUp(rk, LinksOf(S), root.node, c'.up, Close(c', t));
    AugUp(cb, ValuesOf(S), c', t);
    AugUp(cb, ValuesOf(S), c'.up, Close(c', t));
  }

  /** Case 1 - right rotate at parent. */
  method SinkRight(root: RbRoot, parent: RbNode, sibling: RbNode, cb: Callbacks, ghost S: set<RbNode>, ghost rk: Rank, ghost c: Ctx, ghost t: Tree)
    returns (tmp1: RbNode, ghost c': Ctx)
    requires Focus(rk, LinksOf(S), root.node, c, t) && Law(cb) && AugAll(cb, ValuesOf(S), c, t) && EraseShape(c, t)
    requires c.InR? && c.node == parent && Root(c.sib) == sibling && c.sib.red
    modifies root`node, S`left, S`right, S`parent, S`red, S`aug
    ensures Focus(rk, LinksOf(S), root.node, c', t) && AugAll(cb, ValuesOf(S), c', t) && EraseShape(c', t)
    ensures c'.InR? && c'.node == parent && c'.red && Root(c'.sib) == tmp1 && !c'.sib.red
    ensures Around(c', Inorder(t)) == Around(c, Inorder(t))
  {
    hide Focus, AugAll, Law, EraseShape;
    ghost var m, top, up, l, r, pc := LinksOf(S), root.node, c.up, c.sib.left, c.sib.right, c.red;
    ghost var cs := InL(up, parent, pc, t);
    SinkShapeRight(up, parent, pc, l, sibling, r, t);
    FocusUp(rk, m, top, c, t);
    FocusUp(rk, m, top, cs, c.sib);
    AugUp(cb, ValuesOf(S), c, t);
    Surroundings(rk, m, top, cs, c.sib);
    tmp1 := sibling.right;
    RaiseRight(root, sibling, parent, tmp1, cb, S, rk, m, up, l, r, t);
    c' := InR(InR(up, sibling, false, l), parent, true, r);
    FocusUp(rk, LinksOf(S), root.node, c', t);
    FocusUp(rk, LinksOf(S), root.node, c'.up, Close(c', t));
    AugUp(cb, ValuesOf(S), c', t);
    AugUp(cb, ValuesOf(S), c'.up, Close(c', t));
  }

  /** Case 2 - sibling color flip. */
  method FlipSibling(root: RbRoot, parent: RbNode, sibling: RbNode, ghost S: set<RbNode>, ghost rk: Rank, ghost c: Ctx, ghost t: Tree)
    returns (wasRed: bool)
    requires Focus(rk, LinksOf(S), root.node, c, t) && !c.Top? && c.node == parent && Root(c.sib) == sibling && !IsRed(t)
    modifies S`parent, S`red
    ensures Focus(rk, LinksOf(S), root.node, c.up, Flip(c, t)) && wasRed == c.red && parent.parent == Owner(c.up)
  {
    hide Focus, Seg, Match;
    ghost var m, top := LinksOf(S), root.node;
    ghost var l := if c.InL? then t else c.sib;
    ghost var r := if c.InL? then c.sib else t;
    FocusUp(rk, m, top, c, t);
    SoloFocus(rk, m, top, c.up, l, parent, r, c.red);
    SoloReady(rk, m, top, c.up, l, parent, r);
    sibling.parent, sibling.red := parent, true;
    wasRed := parent.red;
    if parent.red {
      parent.red := false;
    }
    Repaint(rk, m, LinksOf(S), top, c.up, l, parent, r, c.red, c.InR?, false, c.InL?);
  }

  lemma AugFlip(cb: Callbacks, a: Values, c: Ctx, t: Tree)
    requires !c.Top? && AugAll(cb, a, c, t)
    ensures AugAll(cb, a, c.up, Flip(c, t))
  {
    AugUp(cb, a, c, t);
    AugPaint(cb, a, c, c.sib, true);
  }

  // ---- the loop -----------------------------------------------------------------------

  /** Loop invariant: the tree is c around t, one black node short on the paths through t. */
  ghost predicate Deficient(rk: Rank, m: View, a: Values, top: RbNode?, cb: Callbacks, c: Ctx, t: Tree, order: seq<RbNode>) {
    && Focus(rk, m, top, c, t) && EraseShape(c, t)
    && Law(cb) && AugAll(cb, a, c, t) && Around(c, Inorder(t)) == order
  }

  /** What the loop reads off the heap around the hole. */
  lemma Around4(rk: Rank, m: View, top: RbNode?, c: Ctx, t: Tree)
    requires Focus(rk, m, top, c, t) && !c.Top? && c.sib.Node?
    ensures c.node in m && m[c.node].red == c.red && m[c.node].parent == Owner(c.up)
    ensures c.sib.node in m && m[c.sib.node] == Links(Root(c.sib.left), Root(c.sib.right), c.node, c.sib.red)
    ensures c.sib.left.Node? ==>
      c.sib.left.node in m && m[c.sib.left.node].red == c.sib.left.red && m[c.sib.left.node].parent == c.sib.node
      && c.sib.left.node != c.sib.node
    ensures c.sib.right.Node? ==>
      c.sib.right.node in m && m[c.sib.right.node].red == c.sib.right.red && m[c.sib.right.node].parent == c.sib.node
      && c.sib.right.node != c.sib.node
    ensures Root(t) != Root(c.sib)
    ensures c.InL? ==> m[c.node].right == Root(c.sib)
    ensures c.InR? ==> m[c.node].right == Root(t) && m[c.node].left == Root(c.sib)
  {
    hide Focus, Match, Seg, Solo;
    ghost var l := if c.InL? then t else c.sib;
    ghost var r := if c.InL? then c.sib else t;
    FocusUp(rk, m, top, c, t);
    SoloFocus(rk, m, top, c.up, l, c.node, r, c.red);
    SoloReady(rk, m, top, c.up, l, c.node, r);
    var cs := if c.InL? then InR(c.up, c.node, c.red, t) else InL(c.up, c.node, c.red, t);
    FocusUp(rk, m, top, cs, c.sib);
    SoloFocus(rk, m, top, cs, c.sib.left, c.sib.node, c.sib.right, c.sib.red);
    SoloReady(rk, m, top, cs, c.sib.left, c.sib.node, c.sib.right);
  }

  /** Case 2 and where it leaves the loop. */
  method CaseTwo(root: RbRoot, parent: RbNode, sibling: RbNode, cb: Callbacks,
                 ghost S: set<RbNode>, ghost rk: Rank, ghost c: Ctx, ghost t: Tree, ghost order: seq<RbNode>)
    returns (again: bool, above: RbNode?, ghost tr: Tree)
    requires Deficient(rk, LinksOf(S), ValuesOf(S), root.node, cb, c, t, order)
    requires c.node == parent && Root(c.sib) == sibling && BlackChildren(c.sib)
    modifies S`parent, S`red
    ensures again ==> !c.red && above != null && above == Owner(c.up)
    ensures again ==> Deficient(rk, LinksOf(S), ValuesOf(S), root.node, cb, c.up, Flip(c, t), order)
    ensures !again ==> Settled(rk, LinksOf(S), ValuesOf(S), root.node, cb, tr, order)
  {
    assert !c.Top? && !IsRed(t);
    hide Focus, AugAll, Law, EraseShape, Around, Settled, RedBlack;
    FlipShape(c, t);
    AugFlip(cb, ValuesOf(S), c, t);
    var wasRed := FlipSibling(root, parent, sibling, S, rk, c, t);
    above := parent.parent;
    again := !wasRed && above != null;
    tr := Plug(c.up, Flip(c, t));
    if !again {
      Settle(rk, LinksOf(S), ValuesOf(S), root.node, cb, c.up, Flip(c, t), order);
    }
  }

  /** Cases 3 and 4 for a node that is a left child. */
  method BalanceLeft(root: RbRoot, parent: RbNode, sibling0: RbNode, cb: Callbacks,
                     ghost S: set<RbNode>, ghost rk: Rank, ghost c: Ctx, ghost t: Tree) returns (ghost tr: Tree)
    requires Focus(rk, LinksOf(S), root.node, c, t) && EraseShape(c, t) && Law(cb) && AugAll(cb, ValuesOf(S), c, t)
    requires c.InL? && c.node == parent && Root(c.sib) == sibling0 && !c.sib.red && !BlackChildren(c.sib)
    modifies root`node, S`left, S`right, S`parent, S`red, S`aug
    ensures Focus(rk, LinksOf(S), root.node, c.up, tr) && AugAll(cb, ValuesOf(S), c.up, tr)
    ensures RedBlack(Plug(c.up, tr)) && Around(c.up, Inorder(tr)) == Around(c, Inorder(t))
  {
    hide Focus, AugAll, Law, EraseShape, RedBlack;
    ghost var m, top, up, pc := LinksOf(S), root.node, c.up, c.red;
    ghost var cs := InR(up, parent, pc, t);
    ghost var x, y, sc := c.sib.left, c.sib.right, false;
    Around4(rk, m, top, c, t);
    FocusUp(rk, m, top, c, t);
    FocusUp(rk, m, top, cs, c.sib);
    AugUp(cb, ValuesOf(S), c, t);
    AugUp(cb, ValuesOf(S), cs, c.sib);
    var sibling, tmp1 := sibling0, sibling0.right;
    if tmp1 == null || !tmp1.red {
      var tmp2 := sibling.left;
      ghost var n := c.sib.left;
      TwistShapeLeft(up, parent, pc, t, n.left, tmp2, n.right, sibling, c.sib.right);
      m := Case3Left(root, parent, sibling, tmp2, cb, S, rk, cs, n.left, n.right, c.sib.right);
      x, y, sc := n.left, Node(n.right, sibling, false, c.sib.right), true;
      tmp1 := sibling;
      sibling := tmp2;
      FocusUp(rk, m, root.node, cs, Node(x, sibling, sc, y));
      AugUp(cb, ValuesOf(S), cs, Node(x, sibling, sc, y));
    } else {
      RaiseShapeLeft(up, parent, pc, t, x, sibling, y);
    }
    Case4Left(root, parent, sibling, tmp1, cb, S, rk, m, up, t, pc, x, sc, y);
    tr := Node(Node(t, parent, false, x), sibling, pc, Paint(y, false));
  }

  /** Cases 3 and 4 for a node that is a right child. */
  method BalanceRight(root: RbRoot, parent: RbNode, sibling0: RbNode, cb: Callbacks,
                      ghost S: set<RbNode>, ghost rk: Rank, ghost c: Ctx, ghost t: Tree) returns (ghost tr: Tree)
    requires Focus(rk, LinksOf(S), root.node, c, t) && EraseShape(c, t) && Law(cb) && AugAll(cb, ValuesOf(S), c, t)
    requires c.InR? && c.node == parent && Root(c.sib) == sibling0 && !c.sib.red && !BlackChildren(c.sib)
    modifies root`node, S`left, S`right, S`parent, S`red, S`aug
    ensures Focus(rk, LinksOf(S), root.node, c.up, tr) && AugAll(cb, ValuesOf(S), c.up, tr)
    ensures RedBlack(Plug(c.up, tr)) && Around(c.up, Inorder(tr)) == Around(c, Inorder(t))
  {
    hide Focus, AugAll, Law, EraseShape, RedBlack;
    ghost var m, top, up, pc := LinksOf(S), root.node, c.up, c.red;
    ghost var cs := InL(up, parent, pc, t);
    ghost var y, x, sc := c.sib.left, c.sib.right, false;
    Around4(rk, m, top, c, t);
    FocusUp(rk, m, top, c, t);
    FocusUp(rk, m, top, cs, c.sib);
    AugUp(cb, ValuesOf(S), c, t);
    AugUp(cb, ValuesOf(S), cs, c.sib);
    var sibling, tmp1 := sibling0, sibling0.left;
    if tmp1 == null || !tmp1.red {
      var tmp2 := sibling.right;
      ghost var n := c.sib.right;
      TwistShapeRight(up, parent, pc, t, c.sib.left, sibling, n.left, tmp2, n.right);
      m := Case3Right(root, parent, sibling, tmp2, cb, S, rk, cs, c.sib.left, n.left, n.right);
      y, x, sc := Node(c.sib.left, sibling, false, n.left), n.right, true;
      tmp1 := sibling;
      sibling := tmp2;
      FocusUp(rk, m, root.node, cs, Node(y, sibling, sc, x));
      AugUp(cb, ValuesOf(S), cs, Node(y, sibling, sc, x));
    } else {
      RaiseShapeRight(up, parent, pc, t, y, sibling, x);
    }
    Case4Right(root, parent, sibling, tmp1, cb, S, rk, m, up, y, sc, x, pc, t);
    tr := Node(Paint(y, false), sibling, pc, Node(x, parent, false, t));
  }

  method FinishLeft(root: RbRoot, parent: RbNode, sibling: RbNode, cb: Callbacks,
                    ghost S: set<RbNode>, ghost rk: Rank, ghost c: Ctx, ghost t: Tree, ghost order: seq<RbNode>) returns (ghost tr: Tree)
    requires Deficient(rk, LinksOf(S), ValuesOf(S), root.node, cb, c, t, order)
    requires c.InL? && c.node == parent && Root(c.sib) == sibling && !c.sib.red && !BlackChildren(c.sib)
    modifies root`node, S`left, S`right, S`parent, S`red, S`aug
    ensures Settled(rk, LinksOf(S), ValuesOf(S), root.node, cb, tr, order)
  {
    hide Focus, AugAll, Law, EraseShape, RedBlack, Settled, Around;
    tr := BalanceLeft(root, parent, sibling, cb, S, rk, c, t);
    Settle(rk, LinksOf(S), ValuesOf(S), root.node, cb, c.up, tr, order);
    tr := Plug(c.up, tr);
  }

  /** Case 1, if it applies: afterwards the sibling is black. */
  method BlackSiblingLeft(root: RbRoot, parent: RbNode, sibling0: RbNode, cb: Callbacks,
                        ghost S: set<RbNode>, ghost rk: Rank, ghost c0: Ctx, ghost t: Tree, ghost order: seq<RbNode>)
    returns (sibling: RbNode, ghost c: Ctx)
    requires Deficient(rk, LinksOf(S), ValuesOf(S), root.node, cb, c0, t, order)
    requires c0.InL? && c0.node == parent && Root(c0.sib) == sibling0
    modifies root`node, S`left, S`right, S`parent, S`red, S`aug
    ensures Deficient(rk, LinksOf(S), ValuesOf(S), root.node, cb, c, t, order)
    ensures c.InL? && c.node == parent && Root(c.sib) == sibling && !c.sib.red && (c == c0 || c.red)
  {
    hide Focus, AugAll, Law, EraseShape, RedBlack, Around, Inorder;
    Around4(rk, LinksOf(S), root.node, c0, t);
    sibling, c := sibling0, c0;
    if sibling.red {
      sibling, c := SinkLeft(root, parent, sibling, cb, S, rk, c, t);
    }
  }

  /** One pass of the loop when node is a left child. */
  method SideLeft(root: RbRoot, parent: RbNode, sibling0: RbNode, cb: Callbacks,
                  ghost S: set<RbNode>, ghost rk: Rank, ghost c0: Ctx, ghost t: Tree, ghost order: seq<RbNode>)
    returns (again: bool, above: RbNode?, ghost tr: Tree)
    requires Deficient(rk, LinksOf(S), ValuesOf(S), root.node, cb, c0, t, order)
    requires c0.InL? && c0.node == parent && Root(c0.sib) == sibling0
    modifies root`node, S`left, S`right, S`parent, S`red, S`aug
    ensures again ==> above != null && above == Owner(c0.up)
    ensures again ==> Deficient(rk, LinksOf(S), ValuesOf(S), root.node, cb, c0.up, Flip(c0, t), order)
    ensures !again ==> Settled(rk, LinksOf(S), ValuesOf(S), root.node, cb, tr, order)
  {
    hide Focus, AugAll, Law, EraseShape, RedBlack, Settled, Around, Inorder, Flip;
    ghost var c;
    var sibling;
    sibling, c := BlackSiblingLeft(root, parent, sibling0, cb, S, rk, c0, t, order);
    Around4(rk, LinksOf(S), root.node, c, t);
    var tmp1 := sibling.right;
    var tmp2 := sibling.left;
    if (tmp1 == null || !tmp1.red) && (tmp2 == null || !tmp2.red) {
      again, above, tr := CaseTwo(root, parent, sibling, cb, S, rk, c, t, order);
    } else {
      again, above := false, null;
      tr := FinishLeft(root, parent, sibling, cb, S, rk, c, t, order);
    }
  }

  method FinishRight(root: RbRoot, parent: RbNode, sibling: RbNode, cb: Callbacks,
                    ghost S: set<RbNode>, ghost rk: Rank, ghost c: Ctx, ghost t: Tree, ghost order: seq<RbNode>) returns (ghost tr: Tree)
    requires Deficient(rk, LinksOf(S), ValuesOf(S), root.node, cb, c, t, order)
    requires c.InR? && c.node == parent && Root(c.sib) == sibling && !c.sib.red && !BlackChildren(c.sib)
    modifies root`node, S`left, S`right, S`parent, S`red, S`aug
    ensures Settled(rk, LinksOf(S), ValuesOf(S), root.node, cb, tr, order)
  {
    hide Focus, AugAll, Law, EraseShape, RedBlack, Settled, Around;
    tr := BalanceRight(root, parent, sibling, cb, S, rk, c, t);
    Settle(rk, LinksOf(S), ValuesOf(S), root.node, cb, c.up, tr, order);
    tr := Plug(c.up, tr);
  }

  /** Case 1, if it applies: afterwards the sibling is black. */
  method BlackSiblingRight(root: RbRoot, parent: RbNode, sibling0: RbNode, cb: Callbacks,
                        ghost S: set<RbNode>, ghost rk: Rank, ghost c0: Ctx, ghost t: Tree, ghost order: seq<RbNode>)
    returns (sibling: RbNode, ghost c: Ctx)
    requires Deficient(rk, LinksOf(S), ValuesOf(S), root.node, cb, c0, t, order)
    requires c0.InR? && c0.node == parent && Root(c0.sib) == sibling0
    modifies root`node, S`left, S`right, S`parent, S`red, S`aug
    ensures Deficient(rk, LinksOf(S), ValuesOf(S), root.node, cb, c, t, order)
    ensures c.InR? && c.node == parent && Root(c.sib) == sibling && !c.sib.red && (c == c0 || c.red)
  {
    hide Focus, AugAll, Law, EraseShape, RedBlack, Around, Inorder;
    Around4(rk, LinksOf(S), root.node, c0, t);
    sibling, c := sibling0, c0;
    if sibling.red {
      sibling, c := SinkRight(root, parent, sibling, cb, S, rk, c, t);
    }
  }

  /** One pass of the loop when node is a right child. */
  method SideRight(root: RbRoot, parent: RbNode, sibling0: RbNode, cb: Callbacks,
                   ghost S: set<RbNode>, ghost rk: Rank, ghost c0: Ctx, ghost t: Tree, ghost order: seq<RbNode>)
    returns (again: bool, above: RbNode?, ghost tr: Tree)
    requires Deficient(rk, LinksOf(S), ValuesOf(S), root.node, cb, c0, t, order)
    requires c0.InR? && c0.node == parent && Root(c0.sib) == sibling0
    modifies root`node, S`left, S`right, S`parent, S`red, S`aug
    ensures again ==> above != null && above == Owner(c0.up)
    ensures again ==> Deficient(rk, LinksOf(S), ValuesOf(S), root.node, cb, c0.up, Flip(c0, t), order)
    ensures !again ==> Settled(rk, LinksOf(S), ValuesOf(S), root.node, cb, tr, order)
  {
    hide Focus, AugAll, Law, EraseShape, RedBlack, Settled, Around, Inorder, Flip;
    ghost var c;
    var sibling;
    sibling, c := BlackSiblingRight(root, parent, sibling0, cb, S, rk, c0, t, order);
    Around4(rk, LinksOf(S), root.node, c, t);
    var tmp1 := sibling.left;
    var tmp2 := sibling.right;
    if (tmp1 == null || !tmp1.red) && (tmp2 == null || !tmp2.red) {
      again, above, tr := CaseTwo(root, parent, sibling, cb, S, rk, c, t, order);
    } else {
      again, above := false, null;
      tr := FinishRight(root, parent, sibling, cb, S, rk, c, t, order);
    }
  }

  lemma LookAround(rk: Rank, m: View, a: Values, top: RbNode?, cb: Callbacks, c: Ctx, t: Tree, order: seq<RbNode>)
    requires Deficient(rk, m, a, top, cb, c, t, order)
    ensures !c.Top? && c.node in m && c.sib.Node? && c.sib.node in m && Root(t) != Root(c.sib)
    ensures c.InL? ==> m[c.node].right == Root(c.sib)
    ensures c.InR? ==> m[c.node].right == Root(t) && m[c.node].left == Root(c.sib)
  {
    Around4(rk, m, top, c, t);
  }

  /** ____rb_erase_color, entered below parent with node NULL. */
  method EraseColor(root: RbRoot, parent0: RbNode, cb: Callbacks, ghost S: set<RbNode>, ghost rk: Rank, ghost c0: Ctx, ghost order: seq<RbNode>)
    returns (ghost tr: Tree)
    requires Deficient(rk, LinksOf(S), ValuesOf(S), root.node, cb, c0, Leaf, order) && Owner(c0) == parent0
    modifies root`node, S`left, S`right, S`parent, S`red, S`aug
    ensures Settled(rk, LinksOf(S), ValuesOf(S), root.node, cb, tr, order)
  {
    hide Deficient, Settled;
    ghost var c, t: Tree := c0, Leaf;
    var node: RbNode?, parent: RbNode := null, parent0;
    while true
      invariant Deficient(rk, LinksOf(S), ValuesOf(S), root.node, cb, c, t, order)
      invariant Root(t) == node && Owner(c) == parent
      decreases c
    {
      LookAround(rk, LinksOf(S), ValuesOf(S), root.node, cb, c, t, order);
      var again: bool, above: RbNode?;
      var sibling := parent.right;
      if node != sibling {
        again, above, tr := SideLeft(root, parent, sibling, cb, S, rk, c, t, order);
      } else {
        sibling := parent.left;
        again, above, tr := SideRight(root, parent, sibling, cb, S, rk, c, t, order);
      }
      if !again {
        break;
      }
      node := parent;
      parent := above;
      c, t := c.up, Flip(c, t);
    }
  }
}
