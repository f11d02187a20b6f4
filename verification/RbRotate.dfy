/** The pointer helpers of rbtree.h and rbtree.c, and the rotations that insertion
    and erasure share, each given by its effect on a snapshot of the links. */
module RbRotate {
  import opened Common
  import opened RbShape
  import opened RbHeap

  // ---- pointer helpers -------------------------------------------------------

  /** __rb_change_child */
  method ChangeChild(root: RbRoot, oldNode: RbNode, newNode: RbNode?, parent: RbNode?)
    modifies root`node
    modifies (if parent == null then {} else {parent})`left, (if parent == null then {} else {parent})`right
    ensures parent == null ==> root.node == newNode
    ensures parent != null && old(parent.left) == oldNode ==>
      parent.left == newNode && parent.right == old(parent.right) && root.node == old(root.node)
    ensures parent != null && old(parent.left) != oldNode ==>
      parent.right == newNode && parent.left == old(parent.left) && root.node == old(root.node)
  {
    if parent != null {
      if parent.left == oldNode {
        parent.left := newNode;
      } else {
        parent.right := newNode;
      }
    } else {
      root.node := newNode;
    }
  }

  function AugAt(n: RbNode?): Option<Aug>
    reads (if n == null then {} else {n})`aug
  {
    if n == null then None else Some(n.aug)
  }

  /** The rotate callback: newNode takes oldNode's value, oldNode is recomputed. */
  method AugmentRotate(cb: Callbacks, oldNode: RbNode, newNode: RbNode)
    requires oldNode != newNode && oldNode.left !in {oldNode, newNode} && oldNode.right !in {oldNode, newNode}
    modifies oldNode`aug, newNode`aug
    ensures cb.Dummy? ==> oldNode.aug == old(oldNode.aug) && newNode.aug == old(newNode.aug)
    ensures cb.Augmented? ==>
      && newNode.aug == old(oldNode.aug)
      && oldNode.aug == cb.compute(AugAt(oldNode.left), oldNode.item, AugAt(oldNode.right))
  {
    if cb.Augmented? {
      newNode.aug := oldNode.aug;
      oldNode.aug := cb.compute(AugAt(oldNode.left), oldNode.item, AugAt(oldNode.right));
    }
  }

  /** __rb_rotate_set_parents: newNode takes oldNode's parent and colour, oldNode goes below it. */
  method RotateSetParents(root: RbRoot, oldNode: RbNode, newNode: RbNode, red: bool)
    requires oldNode != newNode && oldNode.parent !in {oldNode, newNode}
    modifies root`node, {oldNode, newNode}`parent, {oldNode, newNode}`red
    modifies (if oldNode.parent == null then {} else {oldNode.parent})`left, (if oldNode.parent == null then {} else {oldNode.parent})`right
    ensures newNode.parent == old(oldNode.parent) && newNode.red == old(oldNode.red)
    ensures oldNode.parent == newNode && oldNode.red == red
    ensures newNode.parent == null ==> root.node == newNode
    ensures newNode.parent != null ==> root.node == old(root.node)
    ensures newNode.parent != null && old(oldNode.parent.left) == oldNode ==>
      newNode.parent.left == newNode && newNode.parent.right == old(oldNode.parent.right)
    ensures newNode.parent != null && old(oldNode.parent.left) != oldNode ==>
      newNode.parent.right == newNode && newNode.parent.left == old(oldNode.parent.left)
  {
    var parent := oldNode.parent;
    newNode.parent, newNode.red := oldNode.parent, oldNode.red;
    oldNode.parent, oldNode.red := newNode, red;
    ChangeChild(root, oldNode, newNode, parent);
  }

  ghost function Opt(n: RbNode?): set<RbNode> {
    if n == null then {} else {n}
  }

  /** The statements every rotation at a node with a parent repeats. Right: newNode is
      oldNode's left child, tmp its right one; ow is the node above. */
  method HangRight(root: RbRoot, oldNode: RbNode, newNode: RbNode, tmp: RbNode?, black: bool, red: bool, ghost ow: RbNode?)
    requires newNode != oldNode && tmp !in {newNode, oldNode} && ow !in {newNode, oldNode}
    requires ow == oldNode.parent && (tmp != null ==> tmp != ow)
    modifies root`node, {newNode, oldNode}`left, {newNode, oldNode}`right, {newNode, oldNode}`parent, {newNode, oldNode}`red
    modifies Opt(tmp)`parent, Opt(tmp)`red, Opt(ow)`left, Opt(ow)`right
    ensures oldNode.left == tmp && oldNode.right == old(oldNode.right) && oldNode.parent == newNode && oldNode.red == red
    ensures newNode.left == old(newNode.left) && newNode.right == oldNode && newNode.parent == ow && newNode.red == old(oldNode.red)
    ensures tmp != null ==> tmp.parent == oldNode && tmp.red == (!black && old(tmp.red))
    ensures ow == null ==> root.node == newNode
    ensures ow != null ==> root.node == old(root.node)
    ensures ow != null ==> if old(ow.left) == oldNode then ow.left == newNode && ow.right == old(ow.right)
                                                   else ow.right == newNode && ow.left == old(ow.left)
  {
    oldNode.left := tmp;
    newNode.right := oldNode;
    if tmp != null {
      tmp.parent, tmp.red := oldNode, !black && tmp.red;
    }
    RotateSetParents(root, oldNode, newNode, red);
  }

  method HangLeft(root: RbRoot, oldNode: RbNode, newNode: RbNode, tmp: RbNode?, black: bool, red: bool, ghost ow: RbNode?)
    requires newNode != oldNode && tmp !in {newNode, oldNode} && ow !in {newNode, oldNode}
    requires ow == oldNode.parent && (tmp != null ==> tmp != ow)
    modifies root`node, {newNode, oldNode}`left, {newNode, oldNode}`right, {newNode, oldNode}`parent, {newNode, oldNode}`red
    modifies Opt(tmp)`parent, Opt(tmp)`red, Opt(ow)`left, Opt(ow)`right
    ensures oldNode.right == tmp && oldNode.left == old(oldNode.left) && oldNode.parent == newNode && oldNode.red == red
    ensures newNode.right == old(newNode.right) && newNode.left == oldNode && newNode.parent == ow && newNode.red == old(oldNode.red)
    ensures tmp != null ==> tmp.parent == oldNode && tmp.red == (!black && old(tmp.red))
    ensures ow == null ==> root.node == newNode
    ensures ow != null ==> root.node == old(root.node)
    ensures ow != null ==> if old(ow.left) == oldNode then ow.left == newNode && ow.right == old(ow.right)
                                                   else ow.right == newNode && ow.left == old(ow.left)
  {
    oldNode.right := tmp;
    newNode.left := oldNode;
    if tmp != null {
      tmp.parent, tmp.red := oldNode, !black && tmp.red;
    }
    RotateSetParents(root, oldNode, newNode, red);
  }

  /** Snapshot m is the heap, except that the left child of g and the parent of p are
      still to be set: the source leaves them stale between two rotations. */
  ghost predicate PendingLeft(m: View, S: set<RbNode>, p: RbNode, g: RbNode)
    reads S`left, S`right, S`parent, S`red
  {
    && m.Keys == S && g in S && p in S && g != p
    && m[g] == Links(p, g.right, g.parent, g.red) && m[p] == Links(p.left, p.right, g, p.red)
    && forall n :: n in S && n != g && n != p ==> m[n] == Links(n.left, n.right, n.parent, n.red)
  }

  ghost predicate PendingRight(m: View, S: set<RbNode>, p: RbNode, g: RbNode)
    reads S`left, S`right, S`parent, S`red
  {
    && m.Keys == S && g in S && p in S && g != p
    && m[g] == Links(g.left, p, g.parent, g.red) && m[p] == Links(p.left, p.right, g, p.red)
    && forall n :: n in S && n != g && n != p ==> m[n] == Links(n.left, n.right, n.parent, n.red)
  }

  /** HangRight on snapshots. */
  method StepRight(root: RbRoot, g: RbNode, p: RbNode, tmp: RbNode?, black: bool, red: bool,
                   ghost S: set<RbNode>, ghost m: View, ghost c: Ctx, ghost b: Tree)
    requires PendingLeft(m, S, p, g) && Ready(m, c, g, p, b, g)
    requires tmp == Root(b) == m[p].right && m[g].parent == Owner(c)
    modifies root`node, S`left, S`right, S`parent, S`red
    ensures Only(m, LinksOf(S), p, g, null, tmp, null, Owner(c))
    ensures Redirected(m, LinksOf(S), old(root.node), root.node, c, p)
    ensures p in S && LinksOf(S)[p] == Links(m[p].left, g, Owner(c), m[g].red)
    ensures g in S && LinksOf(S)[g] == Links(tmp, m[g].right, p, red)
    ensures Hung(m, LinksOf(S), b, g, !black && IsRed(b))
  {
    HangRight(root, g, p, tmp, black, red, Owner(c));
  }

  /** HangLeft on snapshots. */
  method StepLeft(root: RbRoot, p: RbNode, g: RbNode, tmp: RbNode?, black: bool, red: bool,
                  ghost S: set<RbNode>, ghost m: View, ghost c: Ctx, ghost b: Tree)
    requires PendingRight(m, S, g, p) && Ready(m, c, p, p, b, g)
    requires tmp == Root(b) == m[g].left && m[p].parent == Owner(c)
    modifies root`node, S`left, S`right, S`parent, S`red
    ensures Only(m, LinksOf(S), p, g, null, tmp, null, Owner(c))
    ensures Redirected(m, LinksOf(S), old(root.node), root.node, c, g)
    ensures g in S && LinksOf(S)[g] == Links(p, m[g].right, Owner(c), m[p].red)
    ensures p in S && LinksOf(S)[p] == Links(m[p].left, tmp, g, red)
    ensures Hung(m, LinksOf(S), b, p, !black && IsRed(b))
  {
    HangLeft(root, p, g, tmp, black, red, Owner(c));
  }

  /** AugmentRotate on snapshots. */
  method AugmentStep(cb: Callbacks, oldNode: RbNode, newNode: RbNode, ghost S: set<RbNode>)
    requires oldNode != newNode && oldNode.left !in {oldNode, newNode} && oldNode.right !in {oldNode, newNode}
    requires oldNode in S && newNode in S && Opt(oldNode.left) <= S && Opt(oldNode.right) <= S
    modifies S`aug
    ensures Rotated(cb, old(ValuesOf(S)), ValuesOf(S), oldNode, newNode, oldNode.left, oldNode.right)
    ensures cb.Dummy? ==> ValuesOf(S) == old(ValuesOf(S))
  {
    AugmentRotate(cb, oldNode, newNode);
  }

  // ---- rotations at a node whose parent link is rewritten ----------------------

  /** What the loop reads off the heap around the node in focus. */
  lemma Surroundings(rk: Rank, m: View, top: RbNode?, c: Ctx, t: Tree)
    requires Focus(rk, m, top, c, t) && t.Node?
    ensures t.node in m && m[t.node] == Links(Root(t.left), Root(t.right), Owner(c), t.red)
    ensures !c.Top? ==>
      && c.node in m && m[c.node].parent == Owner(c.up) && m[c.node].red == c.red
      && (c.InL? ==> m[c.node].left == t.node && m[c.node].right == Root(c.sib) && Root(c.sib) != t.node)
      && (c.InR? ==> m[c.node].right == t.node && m[c.node].left == Root(c.sib) && Root(c.sib) != t.node)
      && (c.sib.Node? ==> c.sib.node in m && m[c.sib.node].red == c.sib.red)
  {
    if c.InL? {
      MatchRoot(rk, m, c.sib, c.node, rk[c.node], Hi(rk, c.up));
    } else if c.InR? {
      MatchRoot(rk, m, c.sib, c.node, Lo(rk, c.up), rk[c.node]);
    }
  }

  method LinkRaiseRight(root: RbRoot, newNode: RbNode, oldNode: RbNode, tmp: RbNode?, ghost S: set<RbNode>, ghost rk: Rank,
                        ghost m: View, ghost c: Ctx, ghost x: Tree, ghost b: Tree, ghost u: Tree)
    requires PendingLeft(m, S, newNode, oldNode)
    requires Focus(rk, m, root.node, c, Node(Node(x, newNode, true, b), oldNode, false, u))
    requires tmp == Root(b) && !IsRed(b)
    modifies root`node, S`left, S`right, S`parent, S`red
    ensures Focus(rk, LinksOf(S), root.node, c, Node(x, newNode, false, Node(b, oldNode, true, u)))
    ensures {newNode, oldNode} <= S && Opt(oldNode.left) <= S && Opt(oldNode.right) <= S
    ensures oldNode.left == tmp && oldNode.right == Root(u)
    ensures newNode != oldNode && oldNode.left !in {newNode, oldNode} && oldNode.right !in {newNode, oldNode}
  {
    hide Focus, Match, Seg, Trio;
    ghost var top := root.node;
    TrioLeft(rk, m, top, c, x, newNode, b, oldNode, u, true, false);
    TrioReady(rk, m, top, c, oldNode, x, newNode, newNode, b, newNode, oldNode, u, oldNode);
    StepRight(root, oldNode, newNode, tmp, true, true, S, m, c, b);
    RotateRight(rk, m, LinksOf(S), top, root.node, c, x, newNode, b, oldNode, u, true, false, IsRed(x), false, false, true);
  }

  /** A right rotation at oldNode: newNode takes its place and its colour, oldNode becomes red.
      This is case 3 of an insertion and the mirrored case 1 of an erasure. */
  method RaiseRight(root: RbRoot, newNode: RbNode, oldNode: RbNode, tmp: RbNode?, cb: Callbacks, ghost S: set<RbNode>, ghost rk: Rank,
                    ghost m: View, ghost c: Ctx, ghost x: Tree, ghost b: Tree, ghost u: Tree)
    requires PendingLeft(m, S, newNode, oldNode)
    requires Focus(rk, m, root.node, c, Node(Node(x, newNode, true, b), oldNode, false, u))
    requires tmp == Root(b) && !IsRed(b)
    requires Law(cb) && AugAll(cb, ValuesOf(S), c, Node(Node(x, newNode, true, b), oldNode, false, u))
    modifies root`node, S`left, S`right, S`parent, S`red, S`aug
    ensures Focus(rk, LinksOf(S), root.node, c, Node(x, newNode, false, Node(b, oldNode, true, u)))
    ensures AugAll(cb, ValuesOf(S), c, Node(x, newNode, false, Node(b, oldNode, true, u)))
  {
    hide Focus, AugAll, Law, Rotated;
    ghost var a, top := ValuesOf(S), root.node;
    LinkRaiseRight(root, newNode, oldNode, tmp, S, rk, m, c, x, b, u);
    AugmentStep(cb, oldNode, newNode, S);
    AugRotateRight(cb, rk, m, a, ValuesOf(S), top, c, x, newNode, b, oldNode, u, true, false, false, true);
  }

  method LinkRaiseLeft(root: RbRoot, newNode: RbNode, oldNode: RbNode, tmp: RbNode?, ghost S: set<RbNode>, ghost rk: Rank,
                       ghost m: View, ghost c: Ctx, ghost x: Tree, ghost b: Tree, ghost u: Tree)
    requires PendingRight(m, S, newNode, oldNode)
    requires Focus(rk, m, root.node, c, Node(x, oldNode, false, Node(b, newNode, true, u)))
    requires tmp == Root(b) && !IsRed(b)
    modifies root`node, S`left, S`right, S`parent, S`red
    ensures Focus(rk, LinksOf(S), root.node, c, Node(Node(x, oldNode, true, b), newNode, false, u))
    ensures {newNode, oldNode} <= S && Opt(oldNode.left) <= S && Opt(oldNode.right) <= S
    ensures oldNode.left == Root(x) && oldNode.right == tmp
    ensures newNode != oldNode && oldNode.left !in {newNode, oldNode} && oldNode.right !in {newNode, oldNode}
  {
    hide Focus, Match, Seg, Trio;
    ghost var top := root.node;
    TrioRight(rk, m, top, c, x, oldNode, b, newNode, u, false, true);
    TrioReady(rk, m, top, c, oldNode, x, oldNode, oldNode, b, newNode, newNode, u, newNode);
    StepLeft(root, oldNode, newNode, tmp, true, true, S, m, c, b);
    RotateLeft(rk, m, LinksOf(S), top, root.node, c, x, oldNode, b, newNode, u, false, true, IsRed(u), true, false, false);
  }

  /** A left rotation at oldNode: the mirrored case 3 of an insertion, case 1 of an erasure. */
  method RaiseLeft(root: RbRoot, newNode: RbNode, oldNode: RbNode, tmp: RbNode?, cb: Callbacks, ghost S: set<RbNode>, ghost rk: Rank,
                   ghost m: View, ghost c: Ctx, ghost x: Tree, ghost b: Tree, ghost u: Tree)
    requires PendingRight(m, S, newNode, oldNode)
    requires Focus(rk, m, root.node, c, Node(x, oldNode, false, Node(b, newNode, true, u)))
    requires tmp == Root(b) && !IsRed(b)
    requires Law(cb) && AugAll(cb, ValuesOf(S), c, Node(x, oldNode, false, Node(b, newNode, true, u)))
    modifies root`node, S`left, S`right, S`parent, S`red, S`aug
    ensures Focus(rk, LinksOf(S), root.node, c, Node(Node(x, oldNode, true, b), newNode, false, u))
    ensures AugAll(cb, ValuesOf(S), c, Node(Node(x, oldNode, true, b), newNode, false, u))
  {
    hide Focus, AugAll, Law, Rotated;
    ghost var a, top := ValuesOf(S), root.node;
    LinkRaiseLeft(root, newNode, oldNode, tmp, S, rk, m, c, x, b, u);
    AugmentStep(cb, oldNode, newNode, S);
    AugRotateLeft(cb, rk, m, a, ValuesOf(S), top, c, x, oldNode, b, newNode, u, false, true, true, false);
  }
}
