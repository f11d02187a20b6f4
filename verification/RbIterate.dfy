/** In-order and postorder iteration: rb_first, rb_last, rb_next, rb_prev,
    rb_first_postorder and rb_next_postorder. */
module RbIterate {
  import opened Common
  import opened RbShape
  import opened RbHeap
  import opened RbOrder

  ghost function Head(s: seq<RbNode>): RbNode? {
    if s == [] then null else s[0]
  }

  ghost function Final(s: seq<RbNode>): RbNode? {
    if s == [] then null else s[|s| - 1]
  }

  /** r follows n in s; null if n is the last one. */
  ghost predicate Follows(s: seq<RbNode>, n: RbNode, r: RbNode?) {
    exists k :: 0 <= k < |s| && s[k] == n && r == Head(s[k + 1..])
  }

  /** r precedes n in s; null if n is the first one. */
  ghost predicate Precedes(s: seq<RbNode>, n: RbNode, r: RbNode?) {
    exists k :: 0 <= k < |s| && s[k] == n && r == Final(s[..k])
  }

  /** RB_EMPTY_NODE: the node is its own parent. */
  predicate Empty(n: RbNode)
    reads n`parent, n`red
  {
    n.parent == n && n.red
  }

  lemma Split(a: seq<RbNode>, n: RbNode, b: seq<RbNode>)
    ensures Follows(a + [n] + b, n, Head(b)) && Precedes(a + [n] + b, n, Final(a))
  {
    var s, k := a + [n] + b, |a|;
    assert s[k] == n && s[..k] == a && s[k + 1..] == b;
  }

  lemma HeadOf(t: Tree, b: seq<RbNode>)
    requires t.Node?
    ensures Head(Inorder(t) + b) == Head(Inorder(t.left) + [t.node])
    ensures Final(b + Inorder(t)) == Final([t.node] + Inorder(t.right))
  {
    var l, r := Inorder(t.left), Inorder(t.right);
    assert Inorder(t) == l + [t.node] + r;
    hide Inorder;
    assert (l + [t.node] + r + b)[0] == (l + [t.node])[0];
    assert Final(b + (l + [t.node] + r)) == Final([t.node] + r);
  }

  lemma FocusRoot(rk: Rank, m: View, top: RbNode?, c: Ctx, t: Tree)
    requires Focus(rk, m, top, c, t)
    ensures t.Node? ==> t.node in m && m[t.node] == Links(Root(t.left), Root(t.right), Owner(c), t.red)
    ensures t.Node? ==> Focus(rk, m, top, InL(c, t.node, t.red, t.right), t.left)
    ensures t.Node? ==> Focus(rk, m, top, InR(c, t.node, t.red, t.left), t.right)
    ensures c.Top? ==> Root(t) == top
  {
    if t.Node? {
      FocusUp(rk, m, top, InL(c, t.node, t.red, t.right), t.left);
      FocusUp(rk, m, top, InR(c, t.node, t.red, t.left), t.right);
    }
  }

  /** The parent has the node of the hole on its own side only. */
  lemma FocusOwner(rk: Rank, m: View, top: RbNode?, c: Ctx, t: Tree)
    requires Focus(rk, m, top, c, t) && t.Node?
    ensures !c.Top? ==> c.node in m && Focus(rk, m, top, c.up, Close(c, t))
    ensures !c.Top? ==> (m[c.node].left == t.node <==> c.InL?) && (m[c.node].right == t.node <==> c.InR?)
    ensures !c.Top? ==> (m[c.node].right == null <==> c.InL? && c.sib.Leaf?)
  {
    if !c.Top? {
      FocusUp(rk, m, top, c, t);
      if c.InL? && c.sib.Node? {
        assert rk[c.node] < rk[c.sib.node];
      } else if c.InR? && c.sib.Node? {
        assert rk[c.sib.node] < rk[c.node];
      }
    }
  }

  /** Down the left links to the first node of a subtree. */
  method Leftmost(n0: RbNode, ghost S: set<RbNode>, ghost rk: Rank, ghost top: RbNode?, ghost c0: Ctx, ghost t0: Tree) returns (n: RbNode)
    requires Focus(rk, LinksOf(S), top, c0, t0) && t0.Node? && t0.node == n0
    ensures n == Head(Inorder(t0))
  {
    hide Focus;
    n := n0;
    ghost var c, t := c0, t0;
    FocusRoot(rk, LinksOf(S), top, c, t);
    HeadOf(t, []);
    while n.left != null
      invariant Focus(rk, LinksOf(S), top, c, t) && t.Node? && t.node == n && n in LinksOf(S) && n.left == Root(t.left)
      invariant Head(Inorder(t0)) == Head(Inorder(t.left) + [t.node])
      decreases t
    {
      FocusRoot(rk, LinksOf(S), top, c, t);
      n := n.left;
      HeadOf(t.left, [t.node]);
      c, t := InL(c, t.node, t.red, t.right), t.left;
      FocusRoot(rk, LinksOf(S), top, c, t);
    }
  }

  method Rightmost(n0: RbNode, ghost S: set<RbNode>, ghost rk: Rank, ghost top: RbNode?, ghost c0: Ctx, ghost t0: Tree) returns (n: RbNode)
    requires Focus(rk, LinksOf(S), top, c0, t0) && t0.Node? && t0.node == n0
    ensures n == Final(Inorder(t0))
  {
    hide Focus;
    n := n0;
    ghost var c, t := c0, t0;
    FocusRoot(rk, LinksOf(S), top, c, t);
    HeadOf(t, []);
    while n.right != null
      invariant Focus(rk, LinksOf(S), top, c, t) && t.Node? && t.node == n && n in LinksOf(S) && n.right == Root(t.right)
      invariant Final(Inorder(t0)) == Final([t.node] + Inorder(t.right))
      decreases t
    {
      FocusRoot(rk, LinksOf(S), top, c, t);
      n := n.right;
      HeadOf(t.right, [t.node]);
      c, t := InR(c, t.node, t.red, t.left), t.right;
      FocusRoot(rk, LinksOf(S), top, c, t);
    }
  }

  /** rb_first */
  method First(root: RbRoot, ghost S: set<RbNode>, ghost t: Tree) returns (r: RbNode?)
    requires Represents(LinksOf(S), root.node, t)
    ensures r == Head(Inorder(t))
  {
    PositionsExist(LinksOf(S), root.node, t);
    hide Focus;
    if root.node == null {
      return null;
    }
    r := Leftmost(root.node, S, RankOf(Inorder(t)), root.node, Top, t);
  }

  /** rb_last */
  method Last(root: RbRoot, ghost S: set<RbNode>, ghost t: Tree) returns (r: RbNode?)
    requires Represents(LinksOf(S), root.node, t)
    ensures r == Final(Inorder(t))
  {
    PositionsExist(LinksOf(S), root.node, t);
    hide Focus;
    if root.node == null {
      return null;
    }
    r := Rightmost(root.node, S, RankOf(Inorder(t)), root.node, Top, t);
  }

  /** The hole of c with a tree of root n in it, for a node n of t. */
  lemma Open(m: View, top: RbNode?, t: Tree, n: RbNode) returns (rk: Rank, c: Ctx, z: Tree)
    requires Represents(m, top, t) && n in Inorder(t)
    ensures Focus(rk, m, top, c, z) && z.Node? && z.node == n && Plug(c, z) == t
    ensures Inorder(t) == (Before(c) + Inorder(z.left)) + [n] + (Inorder(z.right) + After(c))
    ensures n in m && m[n] == Links(Root(z.left), Root(z.right), Owner(c), z.red)
  {
    rk := RankOf(Inorder(t));
    c, z := Locate(Top, t, n);
    assert Inorder(z) == Inorder(z.left) + [n] + Inorder(z.right);
    hide Focus, Inorder, Represents, Before, After, Around;
    PositionsExist(m, top, t);
    FocusPlug(rk, m, top, c, z);
    FocusRoot(rk, m, top, c, z);
    PlugIsAround(c, z);
    AroundParts(c, Inorder(z));
    Regroup(Before(c), Inorder(z.left), n, Inorder(z.right), After(c));
  }

  lemma Regroup(a: seq<RbNode>, l: seq<RbNode>, n: RbNode, r: seq<RbNode>, b: seq<RbNode>)
    ensures a + (l + [n] + r) + b == (a + l) + [n] + (r + b)
  {
  }

  /** rb_next */
  method Next(node: RbNode, ghost S: set<RbNode>, ghost top: RbNode?, ghost t: Tree) returns (r: RbNode?)
    requires Represents(LinksOf(S), top, t)
    requires Empty(node) || node in Inorder(t)
    ensures if Empty(node) then r == null else Follows(Inorder(t), node, r)
  {
    hide Focus, Linked, NoDup, Inorder, Follows;
    if node.parent == node && node.red {
      return null;
    }
    ghost var rk, c, z := Open(LinksOf(S), top, t, node);
    Split(Before(c) + Inorder(z.left), node, Inorder(z.right) + After(c));
    if node.right != null {
      FocusRoot(rk, LinksOf(S), top, c, z);
      r := Leftmost(node.right, S, rk, top, InR(c, node, z.red, z.left), z.right);
      HeadOf(z.right, After(c));
      HeadOf(z.right, []);
      assert Inorder(z.right) + [] == Inorder(z.right);
      return;
    }
    LeafOrder();
    assert [] + After(c) == After(c);
    r := ClimbRight(node, S, rk, top, c, z);
  }

  /** Up while the node is a right child. */
  method ClimbRight(node: RbNode, ghost S: set<RbNode>, ghost rk: Rank, ghost top: RbNode?, ghost c0: Ctx, ghost z0: Tree) returns (r: RbNode?)
    requires Focus(rk, LinksOf(S), top, c0, z0) && z0.Node? && z0.node == node
    ensures r == Head(After(c0))
  {
    hide Focus, Inorder;
    var n := node;
    ghost var c, z := c0, z0;
    FocusRoot(rk, LinksOf(S), top, c, z);
    FocusOwner(rk, LinksOf(S), top, c, z);
    r := n.parent;
    while r != null && n == r.right
      invariant Focus(rk, LinksOf(S), top, c, z) && z.Node? && z.node == n && After(c) == After(c0)
      invariant r == Owner(c) && (!c.Top? ==> c.node in LinksOf(S) && (c.node.right == n <==> c.InR?))
      decreases c
    {
      FocusOwner(rk, LinksOf(S), top, c, z);
      n := r;
      c, z := c.up, Close(c, z);
      FocusRoot(rk, LinksOf(S), top, c, z);
      FocusOwner(rk, LinksOf(S), top, c, z);
      r := n.parent;
    }
  }

  /** rb_prev */
  method Prev(node: RbNode, ghost S: set<RbNode>, ghost top: RbNode?, ghost t: Tree) returns (r: RbNode?)
    requires Represents(LinksOf(S), top, t)
    requires Empty(node) || node in Inorder(t)
    ensures if Empty(node) then r == null else Precedes(Inorder(t), node, r)
  {
    hide Focus, Linked, NoDup, Inorder, Precedes;
    if node.parent == node && node.red {
      return null;
    }
    ghost var rk, c, z := Open(LinksOf(S), top, t, node);
    Split(Before(c) + Inorder(z.left), node, Inorder(z.right) + After(c));
    if node.left != null {
      FocusRoot(rk, LinksOf(S), top, c, z);
      r := Rightmost(node.left, S, rk, top, InL(c, node, z.red, z.right), z.left);
      HeadOf(z.left, Before(c));
      HeadOf(z.left, []);
      assert [] + Inorder(z.left) == Inorder(z.left);
      return;
    }
    LeafOrder();
    assert Before(c) + [] == Before(c);
    r := ClimbLeft(node, S, rk, top, c, z);
  }

  /** Up while the node is a left child. */
  method ClimbLeft(node: RbNode, ghost S: set<RbNode>, ghost rk: Rank, ghost top: RbNode?, ghost c0: Ctx, ghost z0: Tree) returns (r: RbNode?)
    requires Focus(rk, LinksOf(S), top, c0, z0) && z0.Node? && z0.node == node
    ensures r == Final(Before(c0))
  {
    hide Focus, Inorder;
    var n := node;
    ghost var c, z := c0, z0;
    FocusRoot(rk, LinksOf(S), top, c, z);
    FocusOwner(rk, LinksOf(S), top, c, z);
    r := n.parent;
    while r != null && n == r.left
      invariant Focus(rk, LinksOf(S), top, c, z) && z.Node? && z.node == n && Before(c) == Before(c0)
      invariant r == Owner(c) && (!c.Top? ==> c.node in LinksOf(S) && (c.node.left == n <==> c.InL?))
      decreases c
    {
      FocusOwner(rk, LinksOf(S), top, c, z);
      n := r;
      c, z := c.up, Close(c, z);
      FocusRoot(rk, LinksOf(S), top, c, z);
      FocusOwner(rk, LinksOf(S), top, c, z);
      r := n.parent;
    }
  }

  // ---- postorder -------------------------------------------------------------------------

  /** Every node after its children. */
  ghost function Postorder(t: Tree): seq<RbNode> {
    if t.Leaf? then [] else Postorder(t.left) + Postorder(t.right) + [t.node]
  }

  /** What comes after the hole of c in postorder. */
  ghost function PostAfter(c: Ctx): seq<RbNode> {
    match c
    case Top => []
    case InL(up, n, _, sib) => Postorder(sib) + [n] + PostAfter(up)
    case InR(up, n, _, _) => [n] + PostAfter(up)
  }

  ghost function PostBefore(c: Ctx): seq<RbNode> {
    match c
    case Top => []
    case InL(up, _, _, _) => PostBefore(up)
    case InR(up, _, _, sib) => PostBefore(up) + Postorder(sib)
  }

  /** All of it, when t is in the hole. */
  ghost function PostAround(c: Ctx, t: Tree): seq<RbNode> {
    PostBefore(c) + Postorder(t) + PostAfter(c)
  }

  lemma {:induction false} PostParts(c: Ctx, t: Tree)
    ensures Postorder(Plug(c, t)) == PostAround(c, t)
    decreases c
  {
    if !c.Top? {
      hide PostAround;
      PostParts(c.up, Close(c, t));
    }
  }

  lemma PostHead(t: Tree)
    requires t.Node?
    ensures Head(Postorder(t)) ==
      if t.left.Node? then Head(Postorder(t.left)) else if t.right.Node? then Head(Postorder(t.right)) else t.node
  {
  }

  /** rb_left_deepest_node */
  method LeftDeepest(n0: RbNode, ghost S: set<RbNode>, ghost rk: Rank, ghost top: RbNode?, ghost c0: Ctx, ghost t0: Tree) returns (n: RbNode)
    requires Focus(rk, LinksOf(S), top, c0, t0) && t0.Node? && t0.node == n0
    ensures n == Head(Postorder(t0))
  {
    hide Focus, Postorder;
    n := n0;
    ghost var c, t := c0, t0;
    while true
      invariant Focus(rk, LinksOf(S), top, c, t) && t.Node? && t.node == n && Head(Postorder(t0)) == Head(Postorder(t))
      decreases t
    {
      FocusRoot(rk, LinksOf(S), top, c, t);
      PostHead(t);
      if n.left != null {
        n := n.left;
        c, t := InL(c, t.node, t.red, t.right), t.left;
      } else if n.right != null {
        n := n.right;
        c, t := InR(c, t.node, t.red, t.left), t.right;
      } else {
        return;
      }
    }
  }

  /** rb_next_postorder, with node in the hole of c. */
  method NextPostorderAt(node: RbNode, ghost S: set<RbNode>, ghost rk: Rank, ghost top: RbNode?, ghost c: Ctx, ghost z: Tree) returns (r: RbNode?)
    requires Focus(rk, LinksOf(S), top, c, z) && z.Node? && z.node == node
    ensures r == Head(PostAfter(c))
  {
    hide Focus;
    FocusRoot(rk, LinksOf(S), top, c, z);
    FocusOwner(rk, LinksOf(S), top, c, z);
    var parent := node.parent;
    if parent != null && node == parent.left && parent.right != null {
      FocusRoot(rk, LinksOf(S), top, c.up, Close(c, z));
      r := LeftDeepest(parent.right, S, rk, top, InR(c.up, c.node, c.red, z), c.sib);
    } else {
      r := parent;
    }
  }

  method NextPostorder(node: RbNode?, ghost S: set<RbNode>, ghost top: RbNode?, ghost t: Tree) returns (r: RbNode?)
    requires Represents(LinksOf(S), top, t)
    requires node == null || node in Inorder(t)
    ensures if node == null then r == null else Follows(Postorder(t), node, r)
  {
    hide Focus, Linked, NoDup, Inorder, Follows;
    if node == null {
      return null;
    }
    ghost var rk, c, z := Open(LinksOf(S), top, t, node);
    r := NextPostorderAt(node, S, rk, top, c, z);
    PostParts(c, z);
    ghost var p := PostBefore(c) + (Postorder(z.left) + Postorder(z.right));
    assert Postorder(t) == p + [node] + PostAfter(c);
    Split(p, node, PostAfter(c));
  }

  /** rb_first_postorder */
  method FirstPostorder(root: RbRoot, ghost S: set<RbNode>, ghost t: Tree) returns (r: RbNode?)
    requires Represents(LinksOf(S), root.node, t)
    ensures r == Head(Postorder(t))
  {
    PositionsExist(LinksOf(S), root.node, t);
    hide Focus;
    if root.node == null {
      return null;
    }
    r := LeftDeepest(root.node, S, RankOf(Inorder(t)), root.node, Top, t);
  }
}
