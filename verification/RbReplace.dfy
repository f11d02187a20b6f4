/** rb_replace_node: a new node takes the place of a linked one. */
module RbReplace {
  import opened Common
  import opened RbShape
  import opened RbHeap
  import opened RbRotate
  import opened RbOrder
  import opened RbErase
  import RbIterate

  /** Positions with fresh standing where victim stood. */
  ghost function Renamed(rk: Rank, victim: RbNode, newNode: RbNode): (r: Rank)
    requires victim in rk && newNode !in rk
    ensures |r| == |rk|
    ensures newNode in r && r[newNode] == rk[victim] && forall n :: n in rk && n != victim ==> n in r && r[n] == rk[n]
  {
    var rest := rk - {victim};
    assert rk == rest[victim := rk[victim]];
    rest[newNode := rk[victim]]
  }

  ghost predicate Same(rk: Rank, rk': Rank, victim: RbNode) {
    forall n :: n in rk && n != victim ==> n in rk' && rk'[n] == rk[n]
  }

  lemma {:induction false} MatchRenamed(rk: Rank, rk': Rank, m: View, t: Tree, p: RbNode?, lo: int, hi: int, victim: RbNode)
    requires Match(rk, m, t, p, lo, hi) && Same(rk, rk', victim) && Off(rk, victim, lo, hi, null)
    ensures Match(rk', m, t, p, lo, hi)
  {
    if t.Node? {
      MatchRenamed(rk, rk', m, t.left, t.node, lo, rk[t.node], victim);
      MatchRenamed(rk, rk', m, t.right, t.node, rk[t.node], hi, victim);
    }
  }

  lemma {:induction false} SegRenamed(rk: Rank, rk': Rank, m: View, c: Ctx, child: RbNode?, top: RbNode?, victim: RbNode)
    requires Seg(rk, m, c, child, top) && Same(rk, rk', victim) && |rk'| == |rk|
    requires victim in rk && Lo(rk, c) < rk[victim] < Hi(rk, c)
    ensures Seg(rk', m, c, child, top) && Lo(rk', c) == Lo(rk, c) && Hi(rk', c) == Hi(rk, c)
  {
    if !c.Top? {
      SegRenamed(rk, rk', m, c.up, c.node, top, victim);
      MatchRenamed(rk, rk', m, c.sib, c.node,
        if c.InL? then rk[c.node] else Lo(rk, c.up), if c.InL? then Hi(rk, c.up) else rk[c.node], victim);
    }
  }

  /** The writes of rb_replace_node: the links of victim are those of newNode afterwards. */
  method ReplaceWrites(victim: RbNode, newNode: RbNode, root: RbRoot)
    requires newNode != victim && victim.parent !in {victim, newNode} && victim.left !in {victim, newNode} && victim.right !in {victim, newNode}
    requires victim.left == null || (victim.left != victim.right && victim.left != victim.parent)
    requires victim.right == null || victim.right != victim.parent
    modifies root`node, newNode`left, newNode`right, newNode`parent, newNode`red
    modifies Opt(victim.parent)`left, Opt(victim.parent)`right, Opt(victim.left)`parent, Opt(victim.right)`parent
    ensures newNode.left == victim.left && newNode.right == victim.right && newNode.parent == victim.parent && newNode.red == victim.red
    ensures victim.left != null ==> victim.left.parent == newNode
    ensures victim.right != null ==> victim.right.parent == newNode
    ensures victim.parent == null ==> root.node == newNode
    ensures victim.parent != null ==> root.node == old(root.node)
    ensures victim.parent != null ==>
      if old(victim.parent.left) == victim then victim.parent.left == newNode && victim.parent.right == old(victim.parent.right)
                                           else victim.parent.right == newNode && victim.parent.left == old(victim.parent.left)
  {
    var parent := victim.parent;
    ChangeChild(root, victim, newNode, parent);
    if victim.left != null {
      victim.left.parent := newNode;
    }
    if victim.right != null {
      victim.right.parent := newNode;
    }
    newNode.parent, newNode.red := victim.parent, victim.red;
    newNode.right, newNode.left := victim.right, victim.left;
  }

  /** The snapshot before the writes allows them. */
  ghost predicate Replaceable(m: View, c: Ctx, l: Tree, v: RbNode, nc: bool, r: Tree, newNode: RbNode) {
    && v in m && newNode in m && v != newNode && m[v] == Links(Root(l), Root(r), Owner(c), nc)
    && (l.Node? ==> l.node in m && l.node !in {v, newNode} && l.node != Root(r) && l.node != Owner(c) && m[l.node].red == IsRed(l))
    && (r.Node? ==> r.node in m && r.node !in {v, newNode} && r.node != Owner(c) && m[r.node].red == IsRed(r))
    && (!c.Top? ==>
         && c.node in m && c.node !in {v, newNode}
         && (m[c.node].left == v <==> c.InL?) && (c.InR? ==> m[c.node].right == v))
  }

  method ReplaceStep(victim: RbNode, newNode: RbNode, root: RbRoot, ghost S: set<RbNode>,
                     ghost c: Ctx, ghost l: Tree, ghost nc: bool, ghost r: Tree)
    requires Replaceable(LinksOf(S), c, l, victim, nc, r, newNode)
    modifies root`node, S`left, S`right, S`parent, S`red
    ensures Only(old(LinksOf(S)), LinksOf(S), newNode, Root(l), Root(r), null, null, Owner(c))
    ensures Redirected(old(LinksOf(S)), LinksOf(S), old(root.node), root.node, c, newNode)
    ensures LinksOf(S)[newNode] == Links(Root(l), Root(r), Owner(c), nc)
    ensures Hung(old(LinksOf(S)), LinksOf(S), l, newNode, IsRed(l)) && Hung(old(LinksOf(S)), LinksOf(S), r, newNode, IsRed(r))
  {
    ReplaceWrites(victim, newNode, root);
  }

  lemma ReplaceReady(rk: Rank, m: View, top: RbNode?, c: Ctx, l: Tree, v: RbNode, nc: bool, r: Tree, newNode: RbNode)
    requires Focus(rk, m, top, c, Node(l, v, nc, r)) && newNode in m && newNode !in rk
    ensures Replaceable(m, c, l, v, nc, r, newNode) && v in rk
  {
    hide Focus, Match, Seg, Solo;
    SoloFocus(rk, m, top, c, l, v, r, nc);
    SoloReady(rk, m, top, c, l, v, r);
    SoloOwner(rk, m, top, c, l, v, r);
  }

  lemma SoloOwner(rk: Rank, m: View, top: RbNode?, c: Ctx, l: Tree, v: RbNode, r: Tree)
    requires Solo(rk, m, top, c, v, l, v, r)
    ensures v in rk && v in m && (l.Node? ==> l.node in rk) && (r.Node? ==> r.node in rk)
    ensures !c.Top? ==> c.node in rk && (m[c.node].left == v <==> c.InL?) && (c.InR? ==> m[c.node].right == v)
  {
    hide Seg;
    OwnerReady(rk, m, c, v, top);
  }

  lemma PaintSame(t: Tree)
    ensures Paint(t, IsRed(t)) == t
  {
  }

  lemma Replaced(rk: Rank, m: View, m': View, top: RbNode?, top': RbNode?, c: Ctx, l: Tree, v: RbNode, nc: bool, r: Tree, newNode: RbNode)
    requires Focus(rk, m, top, c, Node(l, v, nc, r)) && v in rk && newNode !in rk
    requires Only(m, m', newNode, Root(l), Root(r), null, null, Owner(c)) && Redirected(m, m', top, top', c, newNode)
    requires newNode in m' && m'[newNode] == Links(Root(l), Root(r), Owner(c), nc)
    requires Hung(m, m', l, newNode, IsRed(l)) && Hung(m, m', r, newNode, IsRed(r))
    ensures Focus(Renamed(rk, v, newNode), m', top', c, Node(l, newNode, nc, r))
  {
    var rk', rl, rr, ow := Renamed(rk, v, newNode), Root(l), Root(r), Owner(c);
    var k, lo, hi := rk[v], Lo(rk, c), Hi(rk, c);
    assert Match(rk, m, l, v, lo, k) && Match(rk, m, r, v, k, hi) && Seg(rk, m, c, v, top) && lo < k < hi;
    assert Same(rk, rk', v);
    hide Focus, Match, Seg, Hung, Only, Redirected, Renamed, Same, Lo, Hi;
    MatchRenamed(rk, rk', m, l, v, lo, k, v);
    MatchRenamed(rk, rk', m, r, v, k, hi, v);
    SegRenamed(rk, rk', m, c, v, top, v);
    MatchRoot(rk', m, l, v, lo, k);
    MatchRoot(rk', m, r, v, k, hi);
    OwnerOff(rk', m, c, v, top);
    PaintSame(l);
    PaintSame(r);
    Piece(rk', m, m', l, v, newNode, IsRed(l), lo, k, newNode, rl, rr, null, null, ow);
    Piece(rk', m, m', r, v, newNode, IsRed(r), k, hi, newNode, rl, rr, null, null, ow);
    Surround(rk', m, m', c, v, newNode, top, top', newNode, rl, rr, null, null, ow);
    SoloFocus(rk', m', top', c, l, newNode, r, nc);
  }

  /** Colours and shape do not depend on which node stands in a place. */
  lemma ReplacedShape(c: Ctx, l: Tree, v: RbNode, nc: bool, r: Tree, newNode: RbNode)
    ensures RedBlack(Plug(c, Node(l, v, nc, r))) <==> RedBlack(Plug(c, Node(l, newNode, nc, r)))
  {
    PlugRedBlack(c, Node(l, v, nc, r));
    PlugRedBlack(c, Node(l, newNode, nc, r));
  }

  /** s' is s with one occurrence of v made n. */
  ghost predicate Exchanged(s: seq<RbNode>, v: RbNode, n: RbNode, s': seq<RbNode>) {
    exists k :: 0 <= k < |s| && s[k] == v && s' == s[k := n]
  }

  lemma ExchangeMiddle(a: seq<RbNode>, v: RbNode, n: RbNode, b: seq<RbNode>)
    ensures Exchanged(a + [v] + b, v, n, a + [n] + b)
  {
    var s := a + [v] + b;
    assert s[|a|] == v && s[|a| := n] == a + [n] + b;
  }

  lemma ReplacedOrder(c: Ctx, l: Tree, v: RbNode, nc: bool, r: Tree, newNode: RbNode)
    ensures Exchanged(Inorder(Plug(c, Node(l, v, nc, r))), v, newNode, Inorder(Plug(c, Node(l, newNode, nc, r))))
  {
    var t, t' := Node(l, v, nc, r), Node(l, newNode, nc, r);
    assert Inorder(t) == Inorder(l) + [v] + Inorder(r) && Inorder(t') == Inorder(l) + [newNode] + Inorder(r);
    hide Inorder, Plug, Around, Before, After, Exchanged;
    PlugIsAround(c, t);
    PlugIsAround(c, t');
    AroundParts(c, Inorder(t));
    AroundParts(c, Inorder(t'));
    RbIterate.Regroup(Before(c), Inorder(l), v, Inorder(r), After(c));
    RbIterate.Regroup(Before(c), Inorder(l), newNode, Inorder(r), After(c));
    ExchangeMiddle(Before(c) + Inorder(l), v, newNode, Inorder(r) + After(c));
  }

  /** rb_replace_node: newNode stands where victim stood, in the same colour. */
  method ReplaceNode(victim: RbNode, newNode: RbNode, root: RbRoot, ghost S: set<RbNode>, ghost t: Tree) returns (ghost t': Tree)
    requires Represents(LinksOf(S), root.node, t) && victim in Inorder(t) && newNode in S && newNode !in Inorder(t)
    modifies root`node, S`left, S`right, S`parent, S`red
    ensures Represents(LinksOf(S), root.node, t') && (RedBlack(t) <==> RedBlack(t'))
    ensures Exchanged(Inorder(t), victim, newNode, Inorder(t'))
  {
    hide Focus, Linked, NoDup, Represents, Replaceable, Only, Redirected, Hung, Exchanged, RedBlack, Inorder, RankOf;
    ghost var rk := RankOf(Inorder(t));
    ghost var c, z := Locate(Top, t, victim);
    ghost var l, nc, r := z.left, z.red, z.right;
    ghost var m, top := LinksOf(S), root.node;
    PositionsExist(m, top, t);
    FocusPlug(rk, m, top, c, z);
    RankKeys(Inorder(t), newNode);
    ReplaceReady(rk, m, top, c, l, victim, nc, r, newNode);
    ReplaceStep(victim, newNode, root, S, c, l, nc, r);
    Replaced(rk, m, LinksOf(S), top, root.node, c, l, victim, nc, r, newNode);
    t' := Plug(c, Node(l, newNode, nc, r));
    FocusPlug(Renamed(rk, victim, newNode), LinksOf(S), root.node, c, Node(l, newNode, nc, r));
    PositionsDistinct(Renamed(rk, victim, newNode), LinksOf(S), root.node, t');
    ReplacedShape(c, l, victim, nc, r, newNode);
    ReplacedOrder(c, l, victim, nc, r, newNode);
  }

  lemma RankKeys(s: seq<RbNode>, n: RbNode)
    ensures n in RankOf(s) <==> n in s
  {
  }
}
