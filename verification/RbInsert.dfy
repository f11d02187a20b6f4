/** __rb_insert: recolouring and rotating until the linked red leaf fits. */
module RbInsert {
  import opened RbShape
  import opened RbHeap
  import opened RbRotate

  // ---- what the cases do to the shape -----------------------------------------

  /** Invariant of the loop in terms of shapes: only property 4 between t and its
      parent, or the black root, may be broken. */
  ghost predicate InsertShape(c: Ctx, t: Tree) {
    && IsRed(t) && Balanced(t) && ColourOk(t)
    && CtxBalanced(c, BlackHeight(t)) && CtxColourOk(c)
  }

  /** Loop invariant: the tree is c around t, its values are right, its order is order. */
  ghost predicate Working(rk: Rank, m: View, a: Values, top: RbNode?, cb: Callbacks, c: Ctx, t: Tree, order: seq<RbNode>) {
    && Focus(rk, m, top, c, t) && InsertShape(c, t)
    && Law(cb) && AugAll(cb, a, c, t) && Around(c, Inorder(t)) == order
  }

  /** Case 1: grandparent red, parent and uncle black. */
  function Flip(c: Ctx, t: Tree): Tree
    requires !c.Top? && !c.up.Top?
  {
    Close(c.up.(red := true, sib := Paint(c.up.sib, false)), Paint(Close(c, t), false))
  }

  lemma FlipShape(c: Ctx, t: Tree)
    requires InsertShape(c, t) && !c.Top? && c.red && IsRed(c.up.sib)
    ensures !c.up.Top? && !c.up.red && InsertShape(c.up.up, Flip(c, t))
    ensures Around(c.up.up, Inorder(Flip(c, t))) == Around(c, Inorder(t))
  {
    var h, g := BlackHeight(t), c.up;
    assert CtxColourOk(g) && CtxBalanced(g, h);
    assert CtxColourOk(g.up) && CtxBalanced(g.up, h + 1);
    var p, u := Paint(Close(c, t), false), Paint(g.sib, false);
    assert Balanced(p) && ColourOk(p) && BlackHeight(p) == h + 1;
    assert Balanced(u) && ColourOk(u) && BlackHeight(u) == h + 1;
  }

  /** Case 2 turns an inner grandchild into an outer one. */
  lemma PivotShapeLeft(c: Ctx, g: RbNode, u: Tree, s: Tree, p: RbNode, bl: Tree, n: RbNode, br: Tree)
    requires InsertShape(InR(InL(c, g, false, u), p, true, s), Node(bl, n, true, br))
    ensures !IsRed(bl) && InsertShape(InL(InL(c, g, false, u), n, true, br), Node(s, p, true, bl))
    ensures Inorder(Node(Node(s, p, true, bl), n, true, br)) == Inorder(Node(s, p, true, Node(bl, n, true, br)))
  {
    var cg := InL(c, g, false, u);
    assert CtxColourOk(cg) && CtxBalanced(cg, BlackHeight(s));
  }

  lemma PivotShapeRight(c: Ctx, g: RbNode, u: Tree, bl: Tree, n: RbNode, br: Tree, p: RbNode, s: Tree)
    requires InsertShape(InL(InR(c, g, false, u), p, true, s), Node(bl, n, true, br))
    ensures !IsRed(br) && InsertShape(InR(InR(c, g, false, u), n, true, bl), Node(br, p, true, s))
    ensures Inorder(Node(bl, n, true, Node(br, p, true, s))) == Inorder(Node(Node(bl, n, true, br), p, true, s))
  {
    var cg := InR(c, g, false, u);
    assert CtxColourOk(cg) && CtxBalanced(cg, BlackHeight(s));
  }

  /** Case 3 leaves nothing to repair. */
  lemma RotatedShapeRight(c: Ctx, x: Tree, p: RbNode, b: Tree, g: RbNode, u: Tree)
    requires InsertShape(InL(InL(c, g, false, u), p, true, b), x) && !IsRed(u)
    ensures !IsRed(b) && RedBlack(Plug(c, Node(x, p, false, Node(b, g, true, u))))
    ensures Inorder(Node(x, p, false, Node(b, g, true, u))) == Inorder(Node(Node(x, p, true, b), g, false, u))
  {
    var h, up := BlackHeight(x), InL(c, g, false, u);
    assert CtxColourOk(up) && CtxBalanced(up, h);
    assert CtxColourOk(c) && CtxBalanced(c, h + 1);
    var bg := Node(b, g, true, u);
    assert Balanced(bg) && ColourOk(bg) && BlackHeight(bg) == h;
    PlugRedBlack(c, Node(x, p, false, bg));
  }

  lemma RotatedShapeLeft(c: Ctx, x: Tree, p: RbNode, b: Tree, g: RbNode, u: Tree)
    requires InsertShape(InR(InR(c, p, false, x), g, true, b), u) && !IsRed(x)
    ensures !IsRed(b) && RedBlack(Plug(c, Node(Node(x, p, true, b), g, false, u)))
    ensures Inorder(Node(Node(x, p, true, b), g, false, u)) == Inorder(Node(x, p, false, Node(b, g, true, u)))
  {
    var h, up := BlackHeight(u), InR(c, p, false, x);
    assert CtxColourOk(up) && CtxBalanced(up, h);
    assert CtxColourOk(c) && CtxBalanced(c, h + 1);
    var xb := Node(x, p, true, b);
    assert Balanced(xb) && ColourOk(xb) && BlackHeight(xb) == h;
    PlugRedBlack(c, Node(xb, g, false, u));
  }

  // ---- what the cases do to the heap --------------------------------------------

  /** Case 2 - left rotate at parent; the links above it are set by case 3. */
  method TwistLeft(parent: RbNode, node: RbNode, tmp: RbNode?)
    requires parent != node && tmp !in {parent, node} && tmp == node.left
    modifies parent`right, parent`parent, parent`red, node`left, Opt(tmp)`parent, Opt(tmp)`red
    ensures parent.right == tmp && parent.parent == node && parent.red && node.left == parent
    ensures tmp != null ==> tmp.parent == parent && !tmp.red
  {
    parent.right := tmp;
    node.left := parent;
    if tmp != null {
      tmp.parent, tmp.red := parent, false;
    }
    parent.parent, parent.red := node, true;
  }

  /** TwistLeft on snapshots; m completes the links above. */
  method TwistStepLeft(parent: RbNode, node: RbNode, tmp: RbNode?, ghost g: RbNode, ghost S: set<RbNode>,
                       ghost cg: Ctx, ghost bl: Tree)
    returns (ghost m: View)
    requires cg.InL? && cg.node == g && Ready(LinksOf(S), cg, parent, parent, bl, node)
    requires tmp == Root(bl) == node.left && parent.parent == g && !IsRed(bl)
    modifies S`left, S`right, S`parent, S`red
    ensures PendingLeft(m, S, node, g)
    ensures Only(old(LinksOf(S)), m, parent, node, null, tmp, null, g)
    ensures g in S && m[g] == old(LinksOf(S))[g].(left := node)
    ensures node in S && m[node] == Links(parent, old(node.right), g, old(node.red))
    ensures parent in S && m[parent] == Links(old(parent.left), tmp, node, true)
    ensures Hung(old(LinksOf(S)), m, bl, parent, false)
    ensures node.left == parent && node.right == old(node.right)
  {
    TwistLeft(parent, node, tmp);
    ghost var m1 := LinksOf(S);
    m := m1[g := m1[g].(left := node)][node := m1[node].(parent := g)];
  }

  method LinkCase2Left(root: RbRoot, parent: RbNode, node: RbNode, ghost g: RbNode, ghost S: set<RbNode>, ghost rk: Rank,
                       ghost c: Ctx, ghost u: Tree, ghost s: Tree, ghost bl: Tree, ghost br: Tree)
    returns (ghost m: View)
    requires Focus(rk, LinksOf(S), root.node, InL(c, g, false, u), Node(s, parent, true, Node(bl, node, true, br)))
    requires !IsRed(bl)
    modifies S`left, S`right, S`parent, S`red
    ensures PendingLeft(m, S, node, g) && {parent, node} <= S && Opt(parent.left) <= S && Opt(parent.right) <= S
    ensures Focus(rk, m, root.node, InL(c, g, false, u), Node(Node(s, parent, true, bl), node, true, br))
    ensures node.left == parent && node.right == Root(br) && parent.left == Root(s) && parent.right == Root(bl)
    ensures parent != node && parent.left !in {parent, node} && parent.right !in {parent, node}
  {
    hide Focus, Match, Seg, Trio, PendingLeft;
    ghost var m0, top, cg := LinksOf(S), root.node, InL(c, g, false, u);
    TrioRight(rk, m0, top, cg, s, parent, bl, node, br, true, true);
    TrioReady(rk, m0, top, cg, parent, s, parent, parent, bl, node, node, br, node);
    m := TwistStepLeft(parent, node, node.left, g, S, cg, bl);
    RotateLeft(rk, m0, m, top, top, cg, s, parent, bl, node, br, true, true, IsRed(br), true, false, true);
  }

  method Case2Left(root: RbRoot, parent: RbNode, node: RbNode, cb: Callbacks, ghost g: RbNode, ghost S: set<RbNode>, ghost rk: Rank,
                   ghost c: Ctx, ghost u: Tree, ghost s: Tree, ghost bl: Tree, ghost br: Tree)
    returns (ghost m: View)
    requires Focus(rk, LinksOf(S), root.node, InL(c, g, false, u), Node(s, parent, true, Node(bl, node, true, br)))
    requires !IsRed(bl)
    requires Law(cb) && AugAll(cb, ValuesOf(S), InL(c, g, false, u), Node(s, parent, true, Node(bl, node, true, br)))
    modifies S`left, S`right, S`parent, S`red, S`aug
    ensures PendingLeft(m, S, node, g) && node.left == parent && node.right == Root(br)
    ensures Focus(rk, m, root.node, InL(c, g, false, u), Node(Node(s, parent, true, bl), node, true, br))
    ensures AugAll(cb, ValuesOf(S), InL(c, g, false, u), Node(Node(s, parent, true, bl), node, true, br))
  {
    hide Focus, AugAll, Law, Rotated;
    ghost var m0, a, top, cg := LinksOf(S), ValuesOf(S), root.node, InL(c, g, false, u);
    m := LinkCase2Left(root, parent, node, g, S, rk, c, u, s, bl, br);
    AugmentStep(cb, parent, node, S);
    AugRotateLeft(cb, rk, m0, a, ValuesOf(S), top, cg, s, parent, bl, node, br, true, true, true, true);
  }

  // ---- the mirrored cases -------------------------------------------------------

  /** Case 2 - right rotate at parent; the links above it are set by case 3. */
  method TwistRight(parent: RbNode, node: RbNode, tmp: RbNode?)
    requires parent != node && tmp !in {parent, node} && tmp == node.right
    modifies parent`left, parent`parent, parent`red, node`right, Opt(tmp)`parent, Opt(tmp)`red
    ensures parent.left == tmp && parent.parent == node && parent.red && node.right == parent
    ensures tmp != null ==> tmp.parent == parent && !tmp.red
  {
    parent.left := tmp;
    node.right := parent;
    if tmp != null {
      tmp.parent, tmp.red := parent, false;
    }
    parent.parent, parent.red := node, true;
  }

  method TwistStepRight(parent: RbNode, node: RbNode, tmp: RbNode?, ghost g: RbNode, ghost S: set<RbNode>,
                        ghost cg: Ctx, ghost br: Tree)
    returns (ghost m: View)
    requires cg.InR? && cg.node == g && Ready(LinksOf(S), cg, parent, node, br, parent)
    requires tmp == Root(br) == node.right && parent.parent == g && !IsRed(br)
    modifies S`left, S`right, S`parent, S`red
    ensures PendingRight(m, S, node, g)
    ensures Only(old(LinksOf(S)), m, node, parent, null, tmp, null, g)
    ensures g in S && m[g] == old(LinksOf(S))[g].(right := node)
    ensures node in S && m[node] == Links(old(node.left), parent, g, old(node.red))
    ensures parent in S && m[parent] == Links(tmp, old(parent.right), node, true)
    ensures Hung(old(LinksOf(S)), m, br, parent, false)
    ensures node.right == parent && node.left == old(node.left)
  {
    TwistRight(parent, node, tmp);
    ghost var m1 := LinksOf(S);
    m := m1[g := m1[g].(right := node)][node := m1[node].(parent := g)];
  }

  method LinkCase2Right(root: RbRoot, parent: RbNode, node: RbNode, ghost g: RbNode, ghost S: set<RbNode>, ghost rk: Rank,
                        ghost c: Ctx, ghost u: Tree, ghost bl: Tree, ghost br: Tree, ghost s: Tree)
    returns (ghost m: View)
    requires Focus(rk, LinksOf(S), root.node, InR(c, g, false, u), Node(Node(bl, node, true, br), parent, true, s))
    requires !IsRed(br)
    modifies S`left, S`right, S`parent, S`red
    ensures PendingRight(m, S, node, g) && {parent, node} <= S && Opt(parent.left) <= S && Opt(parent.right) <= S
    ensures Focus(rk, m, root.node, InR(c, g, false, u), Node(bl, node, true, Node(br, parent, true, s)))
    ensures node.right == parent && node.left == Root(bl) && parent.left == Root(br) && parent.right == Root(s)
    ensures parent != node && parent.left !in {parent, node} && parent.right !in {parent, node}
  {
    hide Focus, Match, Seg, Trio, PendingRight;
    ghost var m0, top, cg := LinksOf(S), root.node, InR(c, g, false, u);
    TrioLeft(rk, m0, top, cg, bl, node, br, parent, s, true, true);
    TrioReady(rk, m0, top, cg, parent, bl, node, node, br, node, parent, s, parent);
    m := TwistStepRight(parent, node, node.right, g, S, cg, br);
    RotateRight(rk, m0, m, top, top, cg, bl, node, br, parent, s, true, true, IsRed(bl), true, false, true);
  }

  method Case2Right(root: RbRoot, parent: RbNode, node: RbNode, cb: Callbacks, ghost g: RbNode, ghost S: set<RbNode>, ghost rk: Rank,
                    ghost c: Ctx, ghost u: Tree, ghost bl: Tree, ghost br: Tree, ghost s: Tree)
    returns (ghost m: View)
    requires Focus(rk, LinksOf(S), root.node, InR(c, g, false, u), Node(Node(bl, node, true, br), parent, true, s))
    requires !IsRed(br)
    requires Law(cb) && AugAll(cb, ValuesOf(S), InR(c, g, false, u), Node(Node(bl, node, true, br), parent, true, s))
    modifies S`left, S`right, S`parent, S`red, S`aug
    ensures PendingRight(m, S, node, g) && node.right == parent && node.left == Root(bl)
    ensures Focus(rk, m, root.node, InR(c, g, false, u), Node(bl, node, true, Node(br, parent, true, s)))
    ensures AugAll(cb, ValuesOf(S), InR(c, g, false, u), Node(bl, node, true, Node(br, parent, true, s)))
  {
    hide Focus, AugAll, Law, Rotated;
    ghost var m0, a, top, cg := LinksOf(S), ValuesOf(S), root.node, InR(c, g, false, u);
    m := LinkCase2Right(root, parent, node, g, S, rk, c, u, bl, br, s);
    AugmentStep(cb, parent, node, S);
    AugRotateRight(cb, rk, m0, a, ValuesOf(S), top, cg, bl, node, br, parent, s, true, true, true, true);
  }

  // ---- the loop -------------------------------------------------------------------

  /** Case 1: the statements both branches share. */
  method FlipColours(parent: RbNode, gparent: RbNode, uncle: RbNode) returns (above: RbNode?)
    requires parent != gparent && uncle != gparent && uncle != parent
    modifies {parent, gparent, uncle}`parent, {parent, gparent, uncle}`red
    ensures uncle.parent == gparent && !uncle.red && parent.parent == gparent && !parent.red
    ensures above == gparent.parent == old(gparent.parent) && gparent.red
  {
    uncle.parent, uncle.red := gparent, false;
    parent.parent, parent.red := gparent, false;
    above := gparent.parent;
    gparent.parent, gparent.red := above, true;
  }

  method Case1(root: RbRoot, parent: RbNode, gparent: RbNode, uncle: RbNode, ghost S: set<RbNode>, ghost rk: Rank,
               ghost c: Ctx, ghost l: Tree, ghost r: Tree) returns (above: RbNode?)
    requires Focus(rk, LinksOf(S), root.node, c, Node(l, gparent, false, r))
    requires (Root(l) == parent && Root(r) == uncle) || (Root(l) == uncle && Root(r) == parent)
    modifies S`parent, S`red
    ensures Focus(rk, LinksOf(S), root.node, c, Node(Paint(l, false), gparent, true, Paint(r, false)))
    ensures above == Owner(c)
  {
    hide Focus, Seg, Match;
    ghost var m, top := LinksOf(S), root.node;
    SoloFocus(rk, m, top, c, l, gparent, r, false);
    SoloReady(rk, m, top, c, l, gparent, r);
    above := FlipColours(parent, gparent, uncle);
    Repaint(rk, m, LinksOf(S), top, c, l, gparent, r, false, false, true, false);
  }

  /** Cases 2 and 3 when the parent is a left child. */
  method RotateLeftChild(root: RbRoot, node: RbNode, parent0: RbNode, gparent: RbNode, cb: Callbacks,
                         ghost S: set<RbNode>, ghost rk: Rank, ghost c: Ctx, ghost t: Tree) returns (ghost tr: Tree)
    requires Focus(rk, LinksOf(S), root.node, c, t) && Root(t) == node
    requires Law(cb) && AugAll(cb, ValuesOf(S), c, t) && InsertShape(c, t)
    requires !c.Top? && c.node == parent0 && c.red && c.up.InL? && !c.up.red && c.up.node == gparent && !IsRed(c.up.sib)
    modifies root`node, S`left, S`right, S`parent, S`red, S`aug
    ensures Focus(rk, LinksOf(S), root.node, c.up.up, tr) && AugAll(cb, ValuesOf(S), c.up.up, tr)
    ensures RedBlack(Plug(c.up.up, tr)) && Around(c.up.up, Inorder(tr)) == Around(c, Inorder(t))
  {
    assert t.red;
    hide Focus, AugAll, Law, InsertShape, RedBlack;
    ghost var m, top, g, u, s := LinksOf(S), root.node, c.up.up, c.up.sib, c.sib;
    ghost var cg, x, b := c.up, t, s;
    Surroundings(rk, m, top, c, t);
    FocusUp(rk, m, top, c, t);
    Surroundings(rk, m, top, cg, Close(c, t));
    AugUp(cb, ValuesOf(S), c, t);
    var parent := parent0;
    var tmp := parent.right;
    if node == tmp {
      PivotShapeLeft(g, gparent, u, s, parent, t.left, node, t.right);
      m := Case2Left(root, parent, node, cb, gparent, S, rk, g, u, s, t.left, t.right);
      x, b := Node(s, parent, true, t.left), t.right;
      parent := node;
      tmp := node.right;
    }
    RotatedShapeRight(g, x, parent, b, gparent, u);
    FocusUp(rk, m, top, cg, Node(x, parent, true, b));
    AugUp(cb, ValuesOf(S), cg, Node(x, parent, true, b));
    RaiseRight(root, parent, gparent, tmp, cb, S, rk, m, g, x, b, u);
    tr := Node(x, parent, false, Node(b, gparent, true, u));
  }

  /** Cases 2 and 3 when the parent is a right child. */
  method RotateRightChild(root: RbRoot, node: RbNode, parent0: RbNode, gparent: RbNode, cb: Callbacks,
                          ghost S: set<RbNode>, ghost rk: Rank, ghost c: Ctx, ghost t: Tree) returns (ghost tr: Tree)
    requires Focus(rk, LinksOf(S), root.node, c, t) && Root(t) == node
    requires Law(cb) && AugAll(cb, ValuesOf(S), c, t) && InsertShape(c, t)
    requires !c.Top? && c.node == parent0 && c.red && c.up.InR? && !c.up.red && c.up.node == gparent && !IsRed(c.up.sib)
    modifies root`node, S`left, S`right, S`parent, S`red, S`aug
    ensures Focus(rk, LinksOf(S), root.node, c.up.up, tr) && AugAll(cb, ValuesOf(S), c.up.up, tr)
    ensures RedBlack(Plug(c.up.up, tr)) && Around(c.up.up, Inorder(tr)) == Around(c, Inorder(t))
  {
    assert t.red;
    hide Focus, AugAll, Law, InsertShape, RedBlack;
    ghost var m, top, g, x, s := LinksOf(S), root.node, c.up.up, c.up.sib, c.sib;
    ghost var cg, u, b := c.up, t, s;
    FocusUp(rk, m, top, c, t);
    Surroundings(rk, m, top, c, t);
    Surroundings(rk, m, top, cg, Close(c, t));
    AugUp(cb, ValuesOf(S), c, t);
    var parent := parent0;
    var tmp := parent.left;
    if node == tmp {
      PivotShapeRight(g, gparent, x, t.left, node, t.right, parent, s);
      m := Case2Right(root, parent, node, cb, gparent, S, rk, g, x, t.left, t.right, s);
      u, b := Node(t.right, parent, true, s), t.left;
      parent := node;
      tmp := node.left;
    }
    RotatedShapeLeft(g, x, gparent, b, parent, u);
    FocusUp(rk, m, top, cg, Node(b, parent, true, u));
    AugUp(cb, ValuesOf(S), cg, Node(b, parent, true, u));
    RaiseLeft(root, parent, gparent, tmp, cb, S, rk, m, g, x, b, u);
    tr := Node(Node(x, gparent, true, b), parent, false, u);
  }

  lemma AugFlip(cb: Callbacks, a: Values, c: Ctx, t: Tree)
    requires !c.Top? && !c.up.Top? && AugAll(cb, a, c, t)
    ensures AugAll(cb, a, c.up.up, Flip(c, t))
  {
    AugUp(cb, a, c, t);
    AugUp(cb, a, c.up, Close(c, t));
    AugPaint(cb, a, c.up, Close(c, t), false);
    AugPaint(cb, a, c.up.up, c.up.sib, false);
  }

  /** A red root is painted black. */
  method PaintRoot(root: RbRoot, node: RbNode, ghost S: set<RbNode>, ghost rk: Rank, ghost t: Tree)
    requires Focus(rk, LinksOf(S), root.node, Top, t) && Root(t) == node
    modifies S`parent, S`red
    ensures Focus(rk, LinksOf(S), root.node, Top, Paint(t, false))
  {
    hide Focus, Seg, Match;
    ghost var m, top := LinksOf(S), root.node;
    SoloFocus(rk, m, top, Top, t.left, node, t.right, t.red);
    SoloReady(rk, m, top, Top, t.left, node, t.right);
    node.parent, node.red := null, false;
    Repaint(rk, m, LinksOf(S), top, Top, t.left, node, t.right, t.red, IsRed(t.left), false, IsRed(t.right));
  }

  method FinishAtRoot(root: RbRoot, node: RbNode, cb: Callbacks, ghost S: set<RbNode>, ghost rk: Rank, ghost t: Tree, ghost order: seq<RbNode>)
    returns (ghost tr: Tree)
    requires Working(rk, LinksOf(S), ValuesOf(S), root.node, cb, Top, t, order) && Root(t) == node
    modifies S`parent, S`red
    ensures Settled(rk, LinksOf(S), ValuesOf(S), root.node, cb, tr, order)
  {
    LoopShape(Top, t);
    assert Inorder(Paint(t, false)) == Inorder(t);
    hide Focus, AugAll, RedBlack, Settled;
    ghost var a := ValuesOf(S);
    PaintRoot(root, node, S, rk, t);
    AugPaint(cb, a, Top, t, false);
    tr := Paint(t, false);
    Settle(rk, LinksOf(S), a, root.node, cb, Top, tr, order);
  }

  /** What the loop may conclude from the colours it has tested. */
  lemma LoopShape(c: Ctx, t: Tree)
    requires InsertShape(c, t)
    ensures c.Top? ==> RedBlack(Plug(Top, Paint(t, false)))
    ensures !c.Top? && !c.red ==> RedBlack(Plug(c, t))
    ensures !c.Top? && c.red ==> !c.up.Top? && !c.up.red
  {
    PlugRedBlack(c, t);
  }

  /** What the loop reads off the heap two levels up. */
  lemma Look(rk: Rank, m: View, a: Values, top: RbNode?, cb: Callbacks, c: Ctx, t: Tree, order: seq<RbNode>)
    requires Working(rk, m, a, top, cb, c, t, order)
    ensures t.Node? && t.red && t.node in m && m[t.node].parent == Owner(c)
    ensures !c.Top? ==> c.node in m && m[c.node].red == c.red && m[c.node].parent == Owner(c.up)
    ensures !c.Top? && !c.red ==> RedBlack(Plug(c, t))
    ensures !c.Top? && c.red ==>
      && !c.up.Top? && !c.up.red && c.up.node in m && (m[c.up.node].right == c.node <==> c.up.InR?)
      && (c.up.InL? ==> m[c.up.node].right == Root(c.up.sib)) && (c.up.InR? ==> m[c.up.node].left == Root(c.up.sib))
      && (c.up.sib.Node? ==> c.up.sib.node in m && m[c.up.sib.node].red == c.up.sib.red)
  {
    LoopShape(c, t);
    assert t.red;
    hide Focus, AugAll, RedBlack, InsertShape;
    Surroundings(rk, m, top, c, t);
    if !c.Top? && c.red {
      FocusUp(rk, m, top, c, t);
      Surroundings(rk, m, top, c.up, Close(c, t));
    }
  }

  /** Case 1 - color flips; the loop goes on at the grandparent. */
  method FlipStep(root: RbRoot, parent: RbNode, gparent: RbNode, uncle: RbNode, cb: Callbacks,
                  ghost S: set<RbNode>, ghost rk: Rank, ghost c: Ctx, ghost t: Tree, ghost order: seq<RbNode>) returns (above: RbNode?)
    requires Working(rk, LinksOf(S), ValuesOf(S), root.node, cb, c, t, order)
    requires !c.Top? && c.red && c.node == parent && !c.up.Top? && !c.up.red && c.up.node == gparent
    requires Root(c.up.sib) == uncle && IsRed(c.up.sib)
    modifies S`parent, S`red
    ensures Working(rk, LinksOf(S), ValuesOf(S), root.node, cb, c.up.up, Flip(c, t), order)
    ensures above == Owner(c.up.up) && Root(Flip(c, t)) == gparent
  {
    hide Focus, AugAll, InsertShape, Law, Inorder, Around;
    ghost var m, a, top := LinksOf(S), ValuesOf(S), root.node;
    FocusUp(rk, m, top, c, t);
    FocusUp(rk, m, top, c.up, Close(c, t));
    FlipShape(c, t);
    AugFlip(cb, a, c, t);
    ghost var l := if c.up.InL? then Close(c, t) else c.up.sib;
    ghost var r := if c.up.InL? then c.up.sib else Close(c, t);
    above := Case1(root, parent, gparent, uncle, S, rk, c.up.up, l, r);
  }

  method FinishLeftChild(root: RbRoot, node: RbNode, parent: RbNode, gparent: RbNode, cb: Callbacks,
                          ghost S: set<RbNode>, ghost rk: Rank, ghost c: Ctx, ghost t: Tree, ghost order: seq<RbNode>) returns (ghost tr: Tree)
    requires Working(rk, LinksOf(S), ValuesOf(S), root.node, cb, c, t, order) && Root(t) == node
    requires !c.Top? && c.node == parent && c.red && c.up.InL? && !c.up.red && c.up.node == gparent && !IsRed(c.up.sib)
    modifies root`node, S`left, S`right, S`parent, S`red, S`aug
    ensures Settled(rk, LinksOf(S), ValuesOf(S), root.node, cb, tr, order)
  {
    hide Focus, AugAll, Law, InsertShape, RedBlack, Around, Settled;
    tr := RotateLeftChild(root, node, parent, gparent, cb, S, rk, c, t);
    Settle(rk, LinksOf(S), ValuesOf(S), root.node, cb, c.up.up, tr, order);
    tr := Plug(c.up.up, tr);
  }

  method FinishRightChild(root: RbRoot, node: RbNode, parent: RbNode, gparent: RbNode, cb: Callbacks,
                          ghost S: set<RbNode>, ghost rk: Rank, ghost c: Ctx, ghost t: Tree, ghost order: seq<RbNode>) returns (ghost tr: Tree)
    requires Working(rk, LinksOf(S), ValuesOf(S), root.node, cb, c, t, order) && Root(t) == node
    requires !c.Top? && c.node == parent && c.red && c.up.InR? && !c.up.red && c.up.node == gparent && !IsRed(c.up.sib)
    modifies root`node, S`left, S`right, S`parent, S`red, S`aug
    ensures Settled(rk, LinksOf(S), ValuesOf(S), root.node, cb, tr, order)
  {
    hide Focus, AugAll, Law, InsertShape, RedBlack, Around, Settled;
    tr := RotateRightChild(root, node, parent, gparent, cb, S, rk, c, t);
    Settle(rk, LinksOf(S), ValuesOf(S), root.node, cb, c.up.up, tr, order);
    tr := Plug(c.up.up, tr);
  }

  /** __rb_insert */
  method Insert(root: RbRoot, node0: RbNode, cb: Callbacks, ghost S: set<RbNode>, ghost rk: Rank, ghost c0: Ctx, ghost t0: Tree, ghost order: seq<RbNode>)
    returns (ghost tr: Tree)
    requires Working(rk, LinksOf(S), ValuesOf(S), root.node, cb, c0, t0, order) && Root(t0) == node0
    modifies root`node, S`left, S`right, S`parent, S`red, S`aug
    ensures Settled(rk, LinksOf(S), ValuesOf(S), root.node, cb, tr, order)
  {
    hide Working, Settled, RedBlack, Plug;
    ghost var c, t := c0, t0;
    Look(rk, LinksOf(S), ValuesOf(S), root.node, cb, c, t, order);
    var node: RbNode, parent: RbNode? := node0, node0.parent;
    while true
      invariant Working(rk, LinksOf(S), ValuesOf(S), root.node, cb, c, t, order)
      invariant Root(t) == node && parent == Owner(c)
      decreases c
    {
      ghost var m, a, top := LinksOf(S), ValuesOf(S), root.node;
      Look(rk, m, a, top, cb, c, t, order);
      if parent == null {
        tr := FinishAtRoot(root, node, cb, S, rk, t, order);
        break;
      } else if !parent.red {
        SettleBlackParent(rk, m, a, top, cb, c, t, order);
        tr := Plug(c, t);
        break;
      }
      var gparent := parent.parent;
      var tmp := gparent.right;
      if parent != tmp {
        if tmp != null && tmp.red {
          parent := FlipStep(root, parent, gparent, tmp, cb, S, rk, c, t, order);
          node := gparent;
          c, t := c.up.up, Flip(c, t);
          continue;
        }
        tr := FinishLeftChild(root, node, parent, gparent, cb, S, rk, c, t, order);
        break;
      } else {
        tmp := gparent.left;
        if tmp != null && tmp.red {
          parent := FlipStep(root, parent, gparent, tmp, cb, S, rk, c, t, order);
          node := gparent;
          c, t := c.up.up, Flip(c, t);
          continue;
        }
        tr := FinishRightChild(root, node, parent, gparent, cb, S, rk, c, t, order);
        break;
      }
    }
  }

  lemma SettleBlackParent(rk: Rank, m: View, a: Values, top: RbNode?, cb: Callbacks, c: Ctx, t: Tree, order: seq<RbNode>)
    requires Working(rk, m, a, top, cb, c, t, order) && !c.Top? && !c.red
    ensures Settled(rk, m, a, top, cb, Plug(c, t), order)
  {
    LoopShape(c, t);
    Settle(rk, m, a, top, cb, c, t, order);
  }
}
