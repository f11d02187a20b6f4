/** The interval excluder of interval.rs: the parts of some ranges that lie in no excluded range,
    found by sweeping over the sorted end points. */
module Intervals {
  import opened Common

  /** A position and what the running sum changes by there. */
  type Event = (nat, int)

  /** u16::MAX */
  const INF: int := 0xFFFF

  datatype Interval = Interval(left: nat, right: nat)

  // ---- sums of events -----------------------------------------------------------------------

  /** The running sum after all events up to x. */
  function Delta(es: seq<Event>, x: nat): int {
    if es == [] then 0
    else Delta(es[..|es| - 1], x) + if es[|es| - 1].0 <= x then es[|es| - 1].1 else 0
  }

  function Total(es: seq<Event>): int {
    if es == [] then 0 else Total(es[..|es| - 1]) + es[|es| - 1].1
  }

  lemma {:induction false} DeltaAppend(a: seq<Event>, b: seq<Event>, x: nat)
    ensures Delta(a + b, x) == Delta(a, x) + Delta(b, x)
  {
    if b == [] {
      assert a + b == a;
    } else {
      assert (a + b)[..|a + b| - 1] == a + b[..|b| - 1];
      DeltaAppend(a, b[..|b| - 1], x);
    }
  }

  lemma {:induction false} TotalAppend(a: seq<Event>, b: seq<Event>)
    ensures Total(a + b) == Total(a) + Total(b)
  {
    if b == [] {
      assert a + b == a;
    } else {
      assert (a + b)[..|a + b| - 1] == a + b[..|b| - 1];
      TotalAppend(a, b[..|b| - 1]);
    }
  }

  // ---- sort and group -------------------------------------------------------------------------

  /** The order of pairs. */
  predicate AtMost(a: Event, b: Event) {
    a.0 < b.0 || (a.0 == b.0 && a.1 <= b.1)
  }

  ghost predicate Sorted(es: seq<Event>) {
    forall i, j :: 0 <= i < j < |es| ==> AtMost(es[i], es[j])
  }

  ghost predicate Increasing(es: seq<Event>) {
    forall i, j :: 0 <= i < j < |es| ==> es[i].0 < es[j].0
  }

  function Insert(e: Event, es: seq<Event>): seq<Event> {
    if es == [] || AtMost(es[|es| - 1], e) then es + [e] else Insert(e, es[..|es| - 1]) + [es[|es| - 1]]
  }

  /** sort_unstable */
  function Sort(es: seq<Event>): seq<Event> {
    if es == [] then [] else Insert(es[|es| - 1], Sort(es[..|es| - 1]))
  }

  /** An event joins the last group if it has its position, else starts a new one. */
  function Join(g: seq<Event>, e: Event): seq<Event> {
    if g != [] && g[|g| - 1].0 == e.0 then g[..|g| - 1] + [(e.0, g[|g| - 1].1 + e.1)] else g + [e]
  }

  /** group_by equal positions, each group made one event. */
  function Group(es: seq<Event>): seq<Event> {
    if es == [] then [] else Join(Group(es[..|es| - 1]), es[|es| - 1])
  }

  lemma SumLast(es: seq<Event>, e: Event)
    ensures Total(es + [e]) == Total(es) + e.1
    ensures forall x: nat :: Delta(es + [e], x) == Delta(es, x) + if e.0 <= x then e.1 else 0
  {
    assert (es + [e])[..|es|] == es;
  }

  /** Another order of the events, or another grouping, says the same. */
  ghost predicate SameSums(es: seq<Event>, es': seq<Event>) {
    Total(es') == Total(es) && forall x: nat :: Delta(es', x) == Delta(es, x)
  }

  lemma SumsOn(es: seq<Event>, es': seq<Event>, es'': seq<Event>)
    requires SameSums(es, es') && SameSums(es', es'')
    ensures SameSums(es, es'')
  {
  }

  lemma SumsSnoc(es: seq<Event>, es': seq<Event>, e: Event)
    requires SameSums(es, es')
    ensures SameSums(es + [e], es' + [e])
  {
    hide Total, Delta;
    SumLast(es, e);
    SumLast(es', e);
  }

  lemma SumsSwap(es: seq<Event>, d: Event, e: Event)
    ensures SameSums(es + [d] + [e], es + [e] + [d])
  {
    hide Total, Delta;
    SumLast(es + [d], e);
    SumLast(es, d);
    SumLast(es + [e], d);
    SumLast(es, e);
  }

  lemma {:induction false} InsertSums(e: Event, es: seq<Event>)
    ensures SameSums(es + [e], Insert(e, es)) && multiset(Insert(e, es)) == multiset(es + [e])
  {
    hide Insert, SameSums;
    if es == [] || AtMost(es[|es| - 1], e) {
      InsertLast(e, es);
    } else {
      var r, last := es[..|es| - 1], es[|es| - 1];
      Snoc(es);
      InsertStep(e, es);
      InsertSums(e, r);
      SumsSwap(r, last, e);
      SumsSnoc(r + [e], Insert(e, r), last);
      SumsOn(es + [e], r + [e] + [last], Insert(e, es));
    }
  }

  lemma InsertLast(e: Event, es: seq<Event>)
    requires es == [] || AtMost(es[|es| - 1], e)
    ensures Insert(e, es) == es + [e] && SameSums(es + [e], Insert(e, es))
  {
  }

  lemma {:induction false} InsertSorted(e: Event, es: seq<Event>)
    requires Sorted(es)
    ensures Sorted(Insert(e, es))
  {
    if es != [] && !AtMost(es[|es| - 1], e) {
      hide Insert, SameSums;
      var r, last := es[..|es| - 1], es[|es| - 1];
      InsertSorted(e, r);
      InsertSums(e, r);
      InsertStep(e, es);
      SameElements(Insert(e, r), r + [e]);
      SortedSnoc(Insert(e, r), last);
    }
  }

  lemma InsertStep(e: Event, es: seq<Event>)
    requires es != [] && !AtMost(es[|es| - 1], e)
    ensures Insert(e, es) == Insert(e, es[..|es| - 1]) + [es[|es| - 1]]
  {
  }

  lemma SameElements(s: seq<Event>, s': seq<Event>)
    requires multiset(s) == multiset(s')
    ensures forall x :: x in s ==> x in s'
  {
    forall x | x in s ensures x in s' {
      assert x in multiset(s);
    }
  }

  lemma SortedSnoc(s: seq<Event>, last: Event)
    requires Sorted(s) && forall x :: x in s ==> AtMost(x, last)
    ensures Sorted(s + [last])
  {
  }

  lemma SortStep(r: seq<Event>, e: Event)
    ensures Sort([]) == [] && Sort(r + [e]) == Insert(e, Sort(r))
  {
    assert (r + [e])[..|r|] == r;
  }

  lemma Snoc(es: seq<Event>)
    requires es != []
    ensures es == es[..|es| - 1] + [es[|es| - 1]]
  {
  }

  lemma {:induction false} SortSorted(es: seq<Event>)
    ensures Sorted(Sort(es)) && SameSums(es, Sort(es)) && multiset(Sort(es)) == multiset(es)
  {
    hide Sort, Insert, Total, Delta;
    if es == [] {
      SortStep([], (0, 0));
    } else {
      hide Sorted, SameSums;
      var r, e := es[..|es| - 1], es[|es| - 1];
      Snoc(es);
      SortStep(r, e);
      SortSorted(r);
      InsertSorted(e, Sort(r));
      InsertSums(e, Sort(r));
      SumsSnoc(r, Sort(r), e);
      SumsOn(es, Sort(r) + [e], Sort(es));
    }
  }

  lemma {:induction false} GroupSums(es: seq<Event>)
    ensures SameSums(es, Group(es))
  {
    if es != [] {
      hide SameSums, Join;
      var r, e := es[..|es| - 1], es[|es| - 1];
      GroupSums(r);
      Snoc(es);
      SumsSnoc(r, Group(r), e);
      JoinSums(Group(r), e);
      SumsOn(es, Group(r) + [e], Group(es));
    }
  }

  /** Joining an event to the last group adds it up. */
  lemma JoinSums(g: seq<Event>, e: Event)
    ensures SameSums(g + [e], Join(g, e))
  {
    hide Total, Delta;
    if g != [] && g[|g| - 1].0 == e.0 {
      var r, last := g[..|g| - 1], g[|g| - 1];
      Snoc(g);
      SumLast(g, e);
      SumLast(r, last);
      SumLast(r, (e.0, last.1 + e.1));
    }
  }

  lemma JoinIncreasing(g: seq<Event>, e: Event)
    requires Increasing(g) && (g != [] ==> g[|g| - 1].0 <= e.0)
    ensures var g' := Join(g, e); Increasing(g') && g' != [] && g'[|g'| - 1].0 == e.0
  {
  }

  lemma {:induction false} GroupIncreasing(es: seq<Event>)
    requires Sorted(es)
    ensures var g := Group(es); Increasing(g) && (g == [] <==> es == []) && (es != [] ==> g[|g| - 1].0 == es[|es| - 1].0)
  {
    if es != [] {
      hide Join, Increasing;
      var r, e := es[..|es| - 1], es[|es| - 1];
      GroupIncreasing(r);
      if r != [] {
        assert r[|r| - 1] == es[|es| - 2] && AtMost(es[|es| - 2], e);
      }
      JoinIncreasing(Group(r), e);
    }
  }

  // ---- the ranges -----------------------------------------------------------------------------

  predicate Within(x: nat, r: (nat, nat)) {
    r.0 <= x < r.1
  }

  /** What a range counts for at x: one whose ends are swapped counts against. */
  function Weight(x: nat, r: (nat, nat)): int {
    if Within(x, r) then 1 else if Within(x, (r.1, r.0)) then -1 else 0
  }

  ghost function Net(rs: seq<(nat, nat)>, x: nat): int {
    if rs == [] then 0 else Net(rs[..|rs| - 1], x) + Weight(x, rs[|rs| - 1])
  }

  ghost predicate Forward(rs: seq<(nat, nat)>) {
    forall i :: 0 <= i < |rs| ==> rs[i].0 <= rs[i].1
  }

  lemma {:induction false} NetBounds(rs: seq<(nat, nat)>, x: nat)
    ensures -|rs| <= Net(rs, x) <= |rs|
    ensures Forward(rs) ==> Net(rs, x) >= 0 && (Net(rs, x) > 0 <==> exists i :: 0 <= i < |rs| && Within(x, rs[i]))
  {
    if rs != [] {
      NetBounds(rs[..|rs| - 1], x);
      if i :| 0 <= i < |rs| && Within(x, rs[i]) {
        assert i < |rs| - 1 ==> rs[..|rs| - 1][i] == rs[i];
      }
    }
  }

  /** x is in an added range and in no excluded one. */
  ghost predicate Kept(adds: seq<(nat, nat)>, excluded: seq<(nat, nat)>, x: nat) {
    && (exists i :: 0 <= i < |adds| && Within(x, adds[i]))
    && !(exists i :: 0 <= i < |excluded| && Within(x, excluded[i]))
  }

  /** The same with swapped ends allowed: x is excluded more often the wrong way round than the right
      way, or as often and added more often the right way. */
  ghost predicate Yielded(adds: seq<(nat, nat)>, excluded: seq<(nat, nat)>, x: nat) {
    Net(excluded, x) < 0 || (Net(excluded, x) == 0 && Net(adds, x) > 0)
  }

  lemma ForwardKept(adds: seq<(nat, nat)>, excluded: seq<(nat, nat)>, x: nat)
    requires Forward(adds) && Forward(excluded)
    ensures Yielded(adds, excluded, x) <==> Kept(adds, excluded, x)
  {
    NetBounds(adds, x);
    NetBounds(excluded, x);
  }

  /** Excluding a range with swapped ends adds its points, if no range excludes them. */
  lemma SwappedAdds(adds: seq<(nat, nat)>, excluded: seq<(nat, nat)>, left: nat, right: nat, x: nat)
    requires right <= x < left && Net(excluded, x) <= 0
    ensures Yielded(adds, excluded + [(left, right)], x)
  {
    assert (excluded + [(left, right)])[..|excluded|] == excluded;
  }

  /** The events say how many ranges x is in. */
  ghost predicate Says(es: seq<Event>, adds: seq<(nat, nat)>, excluded: seq<(nat, nat)>) {
    && 2 * |adds| <= INF && Total(es) == 0
    && forall x: nat :: Delta(es, x) == Net(adds, x) - INF * Net(excluded, x)
  }

  /** With fewer added ranges than INF no number of them outweighs one excluded range. */
  lemma PositiveIsYielded(es: seq<Event>, adds: seq<(nat, nat)>, excluded: seq<(nat, nat)>, x: nat)
    requires Says(es, adds, excluded)
    ensures Delta(es, x) > 0 <==> Yielded(adds, excluded, x)
  {
    NetBounds(adds, x);
    NetBounds(excluded, x);
  }

  class IntervalExcluder {
    var inner: seq<Event>
    ghost var adds: seq<(nat, nat)>
    ghost var excluded: seq<(nat, nat)>

    constructor ()
      ensures Valid() && adds == [] && excluded == []
    {
      inner, adds, excluded := [], [], [];
    }

    ghost predicate Valid()
      reads this
    {
      Says(inner, adds, excluded) && |inner| == 2 * (|adds| + |excluded|)
    }

    /** add_range; false where the source panics. */
    method AddRange(left: nat, right: nat) returns (ok: bool)
      requires Valid()
      modifies this
      ensures ok <==> |old(inner)| + 2 <= 0xFFFF
      ensures ok ==> Valid() && adds == old(adds) + [(left, right)] && excluded == old(excluded)
    {
      ghost var was := inner;
      inner := inner + [(left, 1)];
      inner := inner + [(right, -1)];
      if |inner| > INF {
        return false;
      }
      Pushed(was, left, right, 1);
      adds := adds + [(left, right)];
      assert adds[..|adds| - 1] == old(adds);
      return true;
    }

    /** add_len */
    method AddLen(start: nat, length: nat) returns (ok: bool)
      requires Valid()
      modifies this
      ensures ok <==> |old(inner)| + 2 <= INF
      ensures ok ==> Valid() && adds == old(adds) + [(start, start + length)] && excluded == old(excluded)
    {
      ok := AddRange(start, start + length);
    }

    /** exclude_range */
    method ExcludeRange(left: nat, right: nat)
      requires Valid()
      modifies this
      ensures Valid() && adds == old(adds) && excluded == old(excluded) + [(left, right)]
    {
      ghost var was := inner;
      inner := inner + [(left, -INF)];
      inner := inner + [(right, INF)];
      Pushed(was, left, right, -INF);
      excluded := excluded + [(left, right)];
      assert excluded[..|excluded| - 1] == old(excluded);
    }

    /** exclude_len */
    method ExcludeLen(start: nat, length: nat)
      requires Valid()
      modifies this
      ensures Valid() && adds == old(adds) && excluded == old(excluded) + [(start, start + length)]
    {
      ExcludeRange(start, start + length);
    }

    /** into_iter: sort, group, sum. */
    method IntoIter() returns (it: IntervalIter)
      requires Valid()
      ensures fresh(it) && it.Valid() && it.taken == 0 && Says(it.inner, adds, excluded)
    {
      SortSorted(inner);
      GroupIncreasing(Sort(inner));
      GroupSums(Sort(inner));
      it := new IntervalIter(Group(Sort(inner)));
    }
  }

  lemma Pushed(es: seq<Event>, left: nat, right: nat, d: int)
    ensures var es' := es + [(left, d)] + [(right, -d)];
      Total(es') == Total(es) && forall x: nat :: Delta(es', x) == Delta(es, x) + d * Weight(x, (left, right))
  {
    var e1 := es + [(left, d)];
    var e2 := e1 + [(right, -d)];
    assert e1[..|es|] == es && e2[..|e1|] == e1;
  }

  // ---- the sweep --------------------------------------------------------------------------------

  /** Left and right are the positions where the sum becomes positive and stops being so. */
  ghost predicate Spans(es: seq<Event>, from: nat, a: nat, b: nat)
    requires b < |es|
  {
    && from <= a < b
    && (forall j :: from < j <= a ==> Total(es[..j]) <= 0)
    && (forall j :: a < j <= b ==> Total(es[..j]) > 0)
    && Total(es[..b + 1]) <= 0
  }

  class IntervalIter {
    const inner: seq<Event>
    /** How many events the iterator has given out. */
    var taken: nat
    var sum: int

    constructor (inner: seq<Event>)
      requires Increasing(inner) && Total(inner) == 0
      ensures Valid() && taken == 0 && this.inner == inner
    {
      this.inner, taken, sum := inner, 0, 0;
    }

    /** Between two calls the sum is not positive. */
    ghost predicate Valid()
      reads this
    {
      Increasing(inner) && Total(inner) == 0 && taken <= |inner| && sum == Total(inner[..taken]) && sum <= 0
    }

    /** next: last is always written before it is read. */
    method Next() returns (r: Option<Interval>, ghost a: nat, ghost b: nat)
      requires Valid()
      modifies this
      ensures Valid()
      ensures r.Some? ==>
        && b < |inner| && Spans(inner, old(taken), a, b) && taken == b + 1
        && r.value == Interval(inner[a].0, inner[b].0)
      ensures r.None? ==> taken == |inner| && forall j :: old(taken) < j <= |inner| ==> Total(inner[..j]) <= 0
    {
      hide Total, Increasing;
      var last: Option<nat> := None;
      a, b := 0, 0;
      while taken < |inner|
        invariant taken <= |inner| && sum == Total(inner[..taken]) && old(taken) <= taken
        invariant last.Some? <==> sum > 0
        invariant last.None? ==> forall j :: old(taken) < j <= taken ==> Total(inner[..j]) <= 0
        invariant last.Some? ==>
          && old(taken) <= a < taken && last.value == inner[a].0
          && (forall j :: old(taken) < j <= a ==> Total(inner[..j]) <= 0) && (forall j :: a < j <= taken ==> Total(inner[..j]) > 0)
      {
        var pos, delta := inner[taken].0, inner[taken].1;
        TotalStep(inner, taken);
        taken := taken + 1;
        var was := sum;
        sum := sum + delta;
        if was <= 0 && sum > 0 {
          last := Some(pos);
          a := taken - 1;
        } else if was > 0 && sum <= 0 {
          b := taken - 1;
          return Some(Interval(last.value, pos)), a, b;
        }
      }
      assert inner[..taken] == inner;
      return None, a, b;
    }
  }

  lemma TotalStep(es: seq<Event>, k: nat)
    requires k < |es|
    ensures Total(es[..k + 1]) == Total(es[..k]) + es[k].1
  {
    assert es[..k + 1][..k] == es[..k];
  }

  /** The sum at a point is the sum of the events before the next one. */
  lemma {:induction false} SumAt(es: seq<Event>, j: nat, x: nat)
    requires Increasing(es) && j <= |es| && (j > 0 ==> es[j - 1].0 <= x) && (j < |es| ==> x < es[j].0)
    ensures Delta(es, x) == Total(es[..j])
  {
    var n := |es|;
    if n > 0 {
      if j == n {
        assert es[..n] == es;
        DeltaAll(es, x);
      } else {
        assert es[..n - 1][..j] == es[..j];
        assert j < n - 1 ==> es[j].0 < es[n - 1].0;
        SumAt(es[..n - 1], j, x);
      }
    }
  }

  lemma {:induction false} DeltaAll(es: seq<Event>, x: nat)
    requires forall i :: 0 <= i < |es| ==> es[i].0 <= x
    ensures Delta(es, x) == Total(es)
  {
    if es != [] {
      DeltaAll(es[..|es| - 1], x);
    }
  }

  /** The number of events up to x. */
  ghost function Reached(es: seq<Event>, x: nat): (j: nat)
    requires Increasing(es)
    ensures j <= |es| && (j > 0 ==> es[j - 1].0 <= x) && (j < |es| ==> x < es[j].0)
  {
    if es == [] then 0 else if es[|es| - 1].0 <= x then |es| else Reached(es[..|es| - 1], x)
  }

  /** out lists, in order and strictly apart, the intervals where the sum is positive, as far as the
      first k events tell. */
  ghost predicate Found(es: seq<Event>, out: seq<Interval>, k: nat)
    requires k <= |es|
  {
    && (forall i :: 0 <= i < |out| ==> out[i].left < out[i].right)
    && (forall i, j :: 0 <= i < j < |out| ==> out[i].right < out[j].left)
    && (forall i :: 0 <= i < |out| ==> k > 0 && out[i].right <= es[k - 1].0)
    && (forall x: nat :: (k == |es| || x < es[k].0) ==> (Delta(es, x) > 0 <==> exists i :: 0 <= i < |out| && Covers(out[i], x)))
  }

  predicate Covers(v: Interval, x: nat) {
    v.left <= x < v.right
  }

  lemma FoundNone(es: seq<Event>)
    requires Increasing(es)
    ensures Found(es, [], 0)
  {
    forall x: nat | |es| == 0 || x < es[0].0 ensures Delta(es, x) <= 0 {
      SumAt(es, 0, x);
    }
  }

  lemma FoundMore(es: seq<Event>, out: seq<Interval>, k: nat, a: nat, b: nat)
    requires Increasing(es) && k <= b < |es| && Found(es, out, k) && Spans(es, k, a, b)
    requires Total(es[..k]) <= 0
    ensures Found(es, out + [Interval(es[a].0, es[b].0)], b + 1)
  {
    var v := Interval(es[a].0, es[b].0);
    var out' := out + [v];
    forall x: nat | b + 1 == |es| || x < es[b + 1].0
      ensures Delta(es, x) > 0 <==> exists i :: 0 <= i < |out'| && Covers(out'[i], x)
    {
      FoundAt(es, out, k, a, b, x);
    }
    assert forall i :: 0 <= i < |out| ==> out[i].right <= es[k - 1].0 < es[a].0;
  }

  lemma FoundAt(es: seq<Event>, out: seq<Interval>, k: nat, a: nat, b: nat, x: nat)
    requires Increasing(es) && k <= b < |es| && Found(es, out, k) && Spans(es, k, a, b)
    requires Total(es[..k]) <= 0 && (b + 1 == |es| || x < es[b + 1].0)
    ensures var out' := out + [Interval(es[a].0, es[b].0)];
      Delta(es, x) > 0 <==> exists i :: 0 <= i < |out'| && Covers(out'[i], x)
  {
    var v := Interval(es[a].0, es[b].0);
    var out' := out + [v];
    assert out'[|out|] == v && forall i :: 0 <= i < |out| ==> out'[i] == out[i];
    var j := Reached(es, x);
    SumAt(es, j, x);
    ReachedBy(es, j, x);
    if j <= k {
      assert !Covers(v, x);
    } else {
      assert forall i :: 0 <= i < |out| ==> !Covers(out[i], x);
      assert Delta(es, x) > 0 <==> Covers(v, x);
    }
  }

  /** Exactly the first j events are up to x. */
  lemma ReachedBy(es: seq<Event>, j: nat, x: nat)
    requires Increasing(es) && j <= |es| && (j > 0 ==> es[j - 1].0 <= x) && (j < |es| ==> x < es[j].0)
    ensures forall i :: 0 <= i < |es| ==> (es[i].0 <= x <==> i < j)
  {
  }

  lemma FoundAll(es: seq<Event>, out: seq<Interval>, k: nat)
    requires Increasing(es) && k <= |es| && Found(es, out, k) && forall j :: k <= j <= |es| ==> Total(es[..j]) <= 0
    ensures Found(es, out, |es|)
  {
    forall x: nat ensures Delta(es, x) > 0 <==> exists i :: 0 <= i < |out| && Covers(out[i], x) {
      var j := Reached(es, x);
      SumAt(es, j, x);
      ReachedBy(es, j, x);
      if j > k {
        assert forall i :: 0 <= i < |out| ==> !Covers(out[i], x);
      }
    }
    if k < |es| && k > 0 {
      assert es[k - 1].0 < es[|es| - 1].0;
    }
  }

  /** All the intervals an excluder yields: not empty, ordered, strictly apart, and together exactly
      the points of added ranges that no excluded range contains, if no range has its ends swapped. */
  method Collect(e: IntervalExcluder) returns (out: seq<Interval>)
    requires e.Valid()
    ensures forall i :: 0 <= i < |out| ==> out[i].left < out[i].right
    ensures forall i, j :: 0 <= i < j < |out| ==> out[i].right < out[j].left
    ensures forall x: nat :: Yielded(e.adds, e.excluded, x) <==> exists i :: 0 <= i < |out| && Covers(out[i], x)
    ensures Forward(e.adds) && Forward(e.excluded) ==>
      forall x: nat :: Kept(e.adds, e.excluded, x) <==> exists i :: 0 <= i < |out| && Covers(out[i], x)
  {
    hide Found, Increasing, Spans, Delta;
    var it := e.IntoIter();
    ghost var es := it.inner;
    out := [];
    FoundStart(it);
    while true
      invariant it.Valid() && fresh(it) && it.inner == es && Found(es, out, it.taken)
      decreases |es| - it.taken
    {
      ghost var k: nat := it.taken;
      ghost var a, b;
      var r;
      r, a, b := it.Next();
      match r {
        case None =>
          FoundAll(es, out, k);
          break;
        case Some(v) =>
          SpansAfter(es, k, a, b);
          FoundMore(es, out, k, a, b);
          out := out + [v];
      }
    }
    Finished(es, out, e.adds, e.excluded);
  }

  lemma FoundStart(it: IntervalIter)
    requires it.Valid() && it.taken == 0
    ensures Found(it.inner, [], 0)
  {
    FoundNone(it.inner);
  }

  lemma SpansAfter(es: seq<Event>, k: nat, a: nat, b: nat)
    requires b < |es| && Spans(es, k, a, b)
    ensures k <= b
  {
  }

  lemma Finished(es: seq<Event>, out: seq<Interval>, adds: seq<(nat, nat)>, excluded: seq<(nat, nat)>)
    requires Found(es, out, |es|) && Says(es, adds, excluded)
    ensures forall i :: 0 <= i < |out| ==> out[i].left < out[i].right
    ensures forall i, j :: 0 <= i < j < |out| ==> out[i].right < out[j].left
    ensures forall x: nat :: Yielded(adds, excluded, x) <==> exists i :: 0 <= i < |out| && Covers(out[i], x)
    ensures Forward(adds) && Forward(excluded) ==>
      forall x: nat :: Kept(adds, excluded, x) <==> exists i :: 0 <= i < |out| && Covers(out[i], x)
  {
    hide Yielded, Kept, Delta;
    forall x: nat ensures Yielded(adds, excluded, x) <==> exists i :: 0 <= i < |out| && Covers(out[i], x) {
      PositiveIsYielded(es, adds, excluded, x);
    }
    if Forward(adds) && Forward(excluded) {
      forall x: nat ensures Kept(adds, excluded, x) <==> exists i :: 0 <= i < |out| && Covers(out[i], x) {
        ForwardKept(adds, excluded, x);
      }
    }
  }
}
