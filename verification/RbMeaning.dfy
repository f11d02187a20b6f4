/** What the red-black shape and the stored values are for: the height bound, and
    every stored value being the fold of its subtree's items in order. */
module RbMeaning {
  import opened Common
  import opened RbShape
  import opened RbHeap

  // ---- height -----------------------------------------------------------------------------

  function Max(a: nat, b: nat): nat {
    if a < b then b else a
  }

  /** Nodes on the longest path down. */
  function Height(t: Tree): nat {
    if t.Leaf? then 0 else 1 + Max(Height(t.left), Height(t.right))
  }

  function Pow2(n: nat): nat {
    if n == 0 then 1 else 2 * Pow2(n - 1)
  }

  lemma {:induction false} PowAdd(a: nat, b: nat)
    ensures Pow2(a + b) == Pow2(a) * Pow2(b)
  {
    if a > 0 {
      PowAdd(a - 1, b);
      Doubled(Pow2(a - 1), Pow2(b));
    }
  }

  lemma Doubled(x: nat, y: nat)
    ensures 2 * (x * y) == 2 * x * y
  {
  }

  lemma {:induction false} PowMono(a: nat, b: nat)
    requires a <= b
    ensures Pow2(a) <= Pow2(b)
  {
    if a < b {
      PowMono(a, b - 1);
    }
  }

  lemma {:induction false} BlackHeightBounds(t: Tree)
    requires Balanced(t) && ColourOk(t)
    ensures Pow2(BlackHeight(t)) <= |Inorder(t)| + 1
    ensures Height(t) <= 2 * BlackHeight(t) + if IsRed(t) then 1 else 0
  {
    if t.Node? {
      BlackHeightBounds(t.left);
      BlackHeightBounds(t.right);
    }
  }

  /** A red-black tree of n nodes has height at most 2 log2(n + 1). */
  lemma HeightBound(t: Tree)
    requires RedBlack(t)
    ensures Pow2(Height(t)) <= (|Inorder(t)| + 1) * (|Inorder(t)| + 1)
  {
    var h, n := BlackHeight(t), |Inorder(t)| + 1;
    BlackHeightBounds(t);
    PowMono(Height(t), h + h);
    PowAdd(h, h);
    hide *;
    Square(Pow2(h), n);
  }

  lemma Square(a: nat, n: nat)
    requires a <= n
    ensures a * a <= n * n
  {
    assert a * a <= a * n <= n * n;
  }

  // ---- augmented values -------------------------------------------------------------------

  function Items(s: seq<RbNode>): seq<Item> {
    seq(|s|, i requires 0 <= i < |s| => s[i].item)
  }

  /** The callback's value of a sequence of items, taken from the right. */
  function Fold(compute: (Option<Aug>, Item, Option<Aug>) -> Aug, s: seq<Item>): Option<Aug> {
    if s == [] then None else Some(compute(None, s[0], Fold(compute, s[1..])))
  }

  /** Under the law the callback gives the same value however the sequence is split. */
  lemma {:induction false} FoldSplit(compute: (Option<Aug>, Item, Option<Aug>) -> Aug, l: seq<Item>, x: Item, r: seq<Item>)
    requires Law(Augmented(compute))
    ensures Fold(compute, l + [x] + r) == Some(compute(Fold(compute, l), x, Fold(compute, r)))
  {
    var s := l + [x] + r;
    if l == [] {
      assert s[0] == x && s[1..] == r;
    } else {
      assert s[0] == l[0] && s[1..] == l[1..] + [x] + r;
      FoldSplit(compute, l[1..], x, r);
    }
  }

  /** Stored values that agree with recomputation are folds of the items below, in order. */
  lemma {:induction false} StoredIsFold(cb: Callbacks, a: Values, t: Tree)
    requires cb.Augmented? && Law(cb) && AugOk(cb, a, t)
    ensures At(a, Root(t)) == Fold(cb.compute, Items(Inorder(t)))
  {
    if t.Node? {
      StoredIsFold(cb, a, t.left);
      StoredIsFold(cb, a, t.right);
      var l, r := Inorder(t.left), Inorder(t.right);
      assert Items(l + [t.node] + r) == Items(l) + [t.node.item] + Items(r);
      FoldSplit(cb.compute, Items(l), t.node.item, Items(r));
    }
  }

  /** Every callback built from an associative operation with a unit obeys the law ... */
  ghost predicate Monoid(op: (Aug, Aug) -> Aug, e: Aug) {
    && (forall x :: op(e, x) == x && op(x, e) == x)
    && (forall x, y, z :: op(op(x, y), z) == op(x, op(y, z)))
  }

  function OrUnit(v: Option<Aug>, e: Aug): Aug {
    if v.Some? then v.value else e
  }

  function Combining(op: (Aug, Aug) -> Aug, e: Aug, val: Item -> Aug): (Option<Aug>, Item, Option<Aug>) -> Aug {
    (a, x, b) => op(op(OrUnit(a, e), val(x)), OrUnit(b, e))
  }

  lemma CombiningAt(op: (Aug, Aug) -> Aug, e: Aug, val: Item -> Aug, a: Option<Aug>, x: Item, b: Option<Aug>)
    ensures Combining(op, e, val)(a, x, b) == op(op(OrUnit(a, e), val(x)), OrUnit(b, e))
  {
  }

  lemma MonoidLaw(op: (Aug, Aug) -> Aug, e: Aug, val: Item -> Aug)
    requires Monoid(op, e)
    ensures Law(Augmented(Combining(op, e, val)))
  {
    var f := Combining(op, e, val);
    forall a, x, b, y, c ensures f(Some(f(a, x, b)), y, c) == f(a, x, Some(f(b, y, c))) {
      var u, b', q, c' := op(OrUnit(a, e), val(x)), OrUnit(b, e), val(y), OrUnit(c, e);
      CombiningAt(op, e, val, a, x, b);
      CombiningAt(op, e, val, b, y, c);
      CombiningAt(op, e, val, Some(f(a, x, b)), y, c);
      CombiningAt(op, e, val, a, x, Some(f(b, y, c)));
      assert op(op(u, b'), q) == op(u, op(b', q));
      assert op(op(u, op(b', q)), c') == op(u, op(op(b', q), c'));
    }
  }

  /** ... and its fold is the product of the values of the items. */
  function Product(op: (Aug, Aug) -> Aug, e: Aug, val: Item -> Aug, s: seq<Item>): Aug {
    if s == [] then e else op(val(s[0]), Product(op, e, val, s[1..]))
  }

  lemma {:induction false} FoldIsProduct(op: (Aug, Aug) -> Aug, e: Aug, val: Item -> Aug, s: seq<Item>)
    requires Monoid(op, e)
    ensures OrUnit(Fold(Combining(op, e, val), s), e) == Product(op, e, val, s)
  {
    if s != [] {
      FoldIsProduct(op, e, val, s[1..]);
      var f := Combining(op, e, val);
      CombiningAt(op, e, val, None, s[0], Fold(f, s[1..]));
    }
  }

  /** So under such a callback the root of a correct tree stores the product of all its items. */
  lemma StoredIsProduct(op: (Aug, Aug) -> Aug, e: Aug, val: Item -> Aug, a: Values, t: Tree)
    requires Monoid(op, e) && AugOk(Augmented(Combining(op, e, val)), a, t) && t.Node?
    ensures t.node in a && a[t.node] == Product(op, e, val, Items(Inorder(t)))
  {
    MonoidLaw(op, e, val);
    StoredIsFold(Augmented(Combining(op, e, val)), a, t);
    FoldIsProduct(op, e, val, Items(Inorder(t)));
  }
}
