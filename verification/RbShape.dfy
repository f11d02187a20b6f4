/** The tree shapes behind the red-black tree of rbtree.c: ghost trees over
    node references, one-hole contexts (the path from a node to the root), and
    the five red-black properties stated on both. Nothing here reads the heap. */
module RbShape {
  /** Payload of the structure a node is embedded in. */
  type Item(!new)
  /** Type of the augmented value kept in every node. */
  type Aug(==,!new)

  /** struct rb_node. The source packs colour and parent into one word. */
  class RbNode {
    const item: Item
    var left: RbNode?
    var right: RbNode?
    var parent: RbNode?
    var red: bool
    var aug: Aug

    constructor (item: Item, aug: Aug)
      ensures this.item == item && this.aug == aug
    {
      this.item := item;
      this.aug := aug;
      left, right, parent, red := null, null, null, false;
    }
  }

  datatype Tree =
    | Leaf
    | Node(left: Tree, node: RbNode, red: bool, right: Tree)

  /** The path from a hole up to the root. InL: the hole is the left child. */
  datatype Ctx =
    | Top
    | InL(up: Ctx, node: RbNode, red: bool, sib: Tree)
    | InR(up: Ctx, node: RbNode, red: bool, sib: Tree)

  function Owner(c: Ctx): RbNode? {
    if c.Top? then null else c.node
  }

  function Nodes(t: Tree): set<RbNode> {
    match t
    case Leaf => {}
    case Node(l, n, _, r) => Nodes(l) + {n} + Nodes(r)
  }

  function Root(t: Tree): RbNode? {
    if t.Leaf? then null else t.node
  }

  function Inorder(t: Tree): seq<RbNode> {
    match t
    case Leaf => []
    case Node(l, n, _, r) => Inorder(l) + [n] + Inorder(r)
  }

  /** In-order sequence of the whole tree when the hole contributes s. */
  function Around(c: Ctx, s: seq<RbNode>): seq<RbNode> {
    match c
    case Top => s
    case InL(up, n, _, sib) => Around(up, s + [n] + Inorder(sib))
    case InR(up, n, _, sib) => Around(up, Inorder(sib) + [n] + s)
  }

  function Plug(c: Ctx, t: Tree): Tree {
    match c
    case Top => t
    case InL(up, n, red, sib) => Plug(up, Node(t, n, red, sib))
    case InR(up, n, red, sib) => Plug(up, Node(sib, n, red, t))
  }

  // ---- colours and black heights ----------------------------------------

  predicate IsRed(t: Tree) {
    t.Node? && t.red
  }

  function Paint(t: Tree, red: bool): Tree {
    if t.Leaf? then Leaf else Node(t.left, t.node, red, t.right)
  }

  /** Black nodes on the left spine; by property 5, on every path. */
  function BlackHeight(t: Tree): nat {
    if t.Leaf? then 0 else BlackHeight(t.left) + if t.red then 0 else 1
  }

  /** Property 5. */
  ghost predicate Balanced(t: Tree) {
    t.Node? ==> Balanced(t.left) && Balanced(t.right) && BlackHeight(t.left) == BlackHeight(t.right)
  }

  /** Property 4. */
  ghost predicate ColourOk(t: Tree) {
    t.Node? ==>
      && ColourOk(t.left) && ColourOk(t.right)
      && (t.red ==> !IsRed(t.left) && !IsRed(t.right))
  }

  /** Properties 2, 4 and 5; 1 and 3 hold of the datatype. */
  ghost predicate RedBlack(t: Tree) {
    Balanced(t) && ColourOk(t) && !IsRed(t)
  }

  /** Property 5 holds of the whole tree when the hole has black height h. */
  ghost predicate CtxBalanced(c: Ctx, h: nat) {
    !c.Top? ==>
      && Balanced(c.sib) && BlackHeight(c.sib) == h
      && CtxBalanced(c.up, h + if c.red then 0 else 1)
  }

  /** Property 4 and a black root, for every node of the context. */
  ghost predicate CtxColourOk(c: Ctx) {
    !c.Top? ==>
      && ColourOk(c.sib) && CtxColourOk(c.up)
      && (c.red ==> !IsRed(c.sib) && !c.up.Top? && !c.up.red)
  }

  /** A red tree may stand in the hole. */
  predicate RedFits(c: Ctx) {
    !c.Top? && !c.red
  }

  // ---- moving the hole ----------------------------------------------------

  /** Fills the hole of the innermost frame. */
  function Close(c: Ctx, t: Tree): Tree
    requires !c.Top?
  {
    if c.InL? then Node(t, c.node, c.red, c.sib) else Node(c.sib, c.node, c.red, t)
  }

  /** Rotations and repainting keep the in-order sequence. */
  lemma RotationOrder(x: Tree, p: RbNode, b: Tree, g: RbNode, u: Tree, c0: bool, c1: bool, c2: bool, c3: bool)
    ensures Inorder(Node(Node(x, p, c0, b), g, c1, u)) == Inorder(Node(x, p, c2, Node(b, g, c3, u)))
  {
    assert Inorder(Node(Node(x, p, c0, b), g, c1, u)) == Inorder(x) + [p] + Inorder(b) + [g] + Inorder(u);
  }

  lemma PaintOrder(t: Tree, red: bool)
    ensures Inorder(Paint(t, red)) == Inorder(t)
  {
  }

  // ---- plugging ----------------------------------------------------------

  lemma {:induction false} PlugIsAround(c: Ctx, t: Tree)
    ensures Inorder(Plug(c, t)) == Around(c, Inorder(t))
    decreases c
  {
    match c
    case Top =>
    case InL(up, n, red, sib) => PlugIsAround(up, Node(t, n, red, sib));
    case InR(up, n, red, sib) => PlugIsAround(up, Node(sib, n, red, t));
  }

  lemma {:induction false} PlugRedBlack(c: Ctx, t: Tree)
    ensures RedBlack(Plug(c, t)) <==>
            && Balanced(t) && ColourOk(t) && CtxBalanced(c, BlackHeight(t)) && CtxColourOk(c)
            && (IsRed(t) ==> RedFits(c))
    decreases c
  {
    match c
    case Top =>
    case InL(up, n, red, sib) => PlugRedBlack(up, Node(t, n, red, sib));
    case InR(up, n, red, sib) => PlugRedBlack(up, Node(sib, n, red, t));
  }

}
