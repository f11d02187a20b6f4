/** The allocator of VM memory in mem.rs: a vector of regions in no order, split on allocation
    and merged with free neighbours when freed. */
module MemRegions {

  const PAGE_SIZE: nat := 4096

  /** A contiguous piece of memory; free counts its free pages, all of them or none. */
  datatype MemRegion = MemRegion(base: nat, size: nat, free: nat, last: nat)

  function End(r: MemRegion): nat {
    r.base + r.size * PAGE_SIZE
  }

  predicate Inside(a: nat, r: MemRegion) {
    r.base <= a < End(r)
  }

  predicate Apart(r: MemRegion, s: MemRegion) {
    End(r) <= s.base || End(s) <= r.base
  }

  predicate Adjacent(r: MemRegion, s: MemRegion) {
    End(r) == s.base || End(s) == r.base
  }

  /** A region of at least one page, wholly free or wholly taken; address 0 stands for failure. */
  predicate Proper(r: MemRegion) {
    r.base > 0 && r.size > 0 && (r.free == 0 || r.free == r.size)
  }

  ghost predicate Inv(rs: seq<MemRegion>) {
    && (forall i :: 0 <= i < |rs| ==> Proper(rs[i]))
    && (forall i, j :: 0 <= i < j < |rs| ==> Apart(rs[i], rs[j]))
  }

  /** Address a is memory of some region. */
  ghost predicate Covered(rs: seq<MemRegion>, a: nat) {
    exists i :: 0 <= i < |rs| && Inside(a, rs[i])
  }

  ghost predicate SameCover(rs: seq<MemRegion>, rs': seq<MemRegion>) {
    forall a: nat :: Covered(rs, a) <==> Covered(rs', a)
  }

  /** What is allocated: base and pages of every taken region. */
  ghost function Live(rs: seq<MemRegion>): set<(nat, nat)> {
    set i | 0 <= i < |rs| && rs[i].free == 0 :: (rs[i].base, rs[i].size)
  }

  function FreePages(rs: seq<MemRegion>): nat {
    if rs == [] then 0 else FreePages(rs[..|rs| - 1]) + rs[|rs| - 1].free
  }

  function Pages(rs: seq<MemRegion>): nat {
    if rs == [] then 0 else Pages(rs[..|rs| - 1]) + rs[|rs| - 1].size
  }

  /** No two free regions touch. */
  ghost predicate Coalesced(rs: seq<MemRegion>) {
    forall i, j :: 0 <= i < |rs| && 0 <= j < |rs| && i != j && rs[i].free != 0 && rs[j].free != 0 ==> !Adjacent(rs[i], rs[j])
  }

  /** Region i touches no free region. */
  ghost predicate Alone(rs: seq<MemRegion>, i: nat)
    requires i < |rs|
  {
    forall j :: 0 <= j < |rs| && j != i && rs[j].free != 0 ==> !Adjacent(rs[i], rs[j])
  }

  // ---- sums ----------------------------------------------------------------------------------

  lemma SumSnoc(rs: seq<MemRegion>, r: MemRegion)
    ensures Pages(rs + [r]) == Pages(rs) + r.size && FreePages(rs + [r]) == FreePages(rs) + r.free
  {
    assert (rs + [r])[..|rs|] == rs;
  }

  lemma {:induction false} SumUpdate(rs: seq<MemRegion>, i: nat, r: MemRegion)
    requires i < |rs|
    ensures Pages(rs[i := r]) == Pages(rs) - rs[i].size + r.size && FreePages(rs[i := r]) == FreePages(rs) - rs[i].free + r.free
  {
    hide Pages, FreePages;
    var k: nat := |rs| - 1;
    assert rs == rs[..k] + [rs[k]];
    SumSnoc(rs[..k], rs[k]);
    if i < k {
      assert rs[i := r] == rs[..k][i := r] + [rs[k]];
      SumSnoc(rs[..k][i := r], rs[k]);
      SumUpdate(rs[..k], i, r);
    } else {
      assert rs[i := r] == rs[..k] + [r];
      SumSnoc(rs[..k], r);
    }
  }

  lemma {:induction false} SumRemove(rs: seq<MemRegion>, i: nat)
    requires i < |rs|
    ensures var rs' := rs[..i] + rs[i + 1..]; Pages(rs') == Pages(rs) - rs[i].size && FreePages(rs') == FreePages(rs) - rs[i].free
  {
    hide Pages, FreePages;
    var k: nat := |rs| - 1;
    assert rs == rs[..k] + [rs[k]];
    SumSnoc(rs[..k], rs[k]);
    if i < k {
      var left := rs[..k][..i] + rs[..k][i + 1..];
      assert rs[..i] + rs[i + 1..] == left + [rs[k]];
      SumSnoc(left, rs[k]);
      SumRemove(rs[..k], i);
    } else {
      assert rs[..i] + rs[i + 1..] == rs[..k];
    }
  }

  // ---- splitting -------------------------------------------------------------------------------

  /** The free region i gives its first n pages away. */
  function Split(rs: seq<MemRegion>, i: nat, n: nat): seq<MemRegion>
    requires i < |rs| && 0 < n <= rs[i].size
  {
    var r := rs[i];
    if r.size > n then
      rs[i := r.(size := n, free := 0)] + [MemRegion(r.base + n * PAGE_SIZE, r.size - n, r.size - n, 0)]
    else rs[i := r.(free := 0)]
  }

  lemma SplitSums(rs: seq<MemRegion>, i: nat, n: nat)
    requires i < |rs| && 0 < n <= rs[i].size && rs[i].free == rs[i].size
    ensures Pages(Split(rs, i, n)) == Pages(rs) && FreePages(Split(rs, i, n)) == FreePages(rs) - n
  {
    hide Pages, FreePages;
    var r := rs[i];
    if r.size > n {
      var s := rs[i := r.(size := n, free := 0)];
      SumUpdate(rs, i, r.(size := n, free := 0));
      SumSnoc(s, MemRegion(r.base + n * PAGE_SIZE, r.size - n, r.size - n, 0));
    } else {
      SumUpdate(rs, i, r.(free := 0));
    }
  }

  lemma SplitAt(rs: seq<MemRegion>, i: nat, n: nat)
    requires i < |rs| && 0 < n <= rs[i].size
    ensures var rs', m := Split(rs, i, n), |rs|;
      && (forall j :: 0 <= j < m && j != i ==> rs'[j] == rs[j])
      && rs'[i] == rs[i].(size := n, free := 0)
      && |rs'| == (if rs[i].size > n then m + 1 else m)
      && (rs[i].size > n ==> rs'[m].base == End(rs'[i]) && End(rs'[m]) == End(rs[i]) && rs'[m].size == rs'[m].free)
      && (rs[i].size == n ==> End(rs'[i]) == End(rs[i]))
  {
  }

  lemma SplitInv(rs: seq<MemRegion>, i: nat, n: nat)
    requires Inv(rs) && i < |rs| && 0 < n <= rs[i].size && rs[i].free == rs[i].size
    ensures Inv(Split(rs, i, n))
  {
    hide Split;
    SplitAt(rs, i, n);
  }

  lemma SplitCoalesced(rs: seq<MemRegion>, i: nat, n: nat)
    requires Inv(rs) && i < |rs| && 0 < n <= rs[i].size && rs[i].free == rs[i].size && Coalesced(rs)
    ensures Coalesced(Split(rs, i, n))
  {
    ProperAt(rs, i);
    hide Split, Inv;
    SplitAt(rs, i, n);
    SplitInv(rs, i, n);
    var rs' := Split(rs, i, n);
    forall j, k | 0 <= j < |rs'| && 0 <= k < |rs'| && j != k && rs'[j].free != 0 && rs'[k].free != 0
      ensures !Adjacent(rs'[j], rs'[k])
    {
      var j', k' := if j < |rs| then j else i, if k < |rs| then k else i;
      assert !Adjacent(rs[j'], rs[k']);
      if j == |rs| {
        ProperAt(rs', k);
        StartApart(rs, i, k);
      } else if k == |rs| {
        ProperAt(rs', j);
        StartApart(rs, i, j);
      }
    }
  }

  /** No other region ends within region i. */
  lemma StartApart(rs: seq<MemRegion>, i: nat, k: nat)
    requires Inv(rs) && i < |rs| && k < |rs| && i != k
    ensures End(rs[k]) <= rs[i].base || End(rs[i]) <= rs[k].base
  {
    assert Apart(rs[i], rs[k]) || Apart(rs[k], rs[i]);
  }

  lemma SplitLive(rs: seq<MemRegion>, i: nat, n: nat)
    requires Inv(rs) && i < |rs| && 0 < n <= rs[i].size && rs[i].free == rs[i].size
    ensures Live(Split(rs, i, n)) == Live(rs) + {(rs[i].base, n)} && (rs[i].base, n) !in Live(rs)
  {
    var rs', m := Split(rs, i, n), |rs|;
    assert forall j :: 0 <= j < m && j != i ==> rs'[j] == rs[j];
    assert rs'[i].base == rs[i].base && rs'[i].size == n && rs'[i].free == 0;
    forall x | x in Live(rs) ensures x in Live(rs') && x != (rs[i].base, n) {
      var j :| 0 <= j < m && rs[j].free == 0 && x == (rs[j].base, rs[j].size);
      assert rs'[j] == rs[j] && Apart(rs[i], rs[j]);
    }
  }

  lemma SplitCover(rs: seq<MemRegion>, i: nat, n: nat)
    requires i < |rs| && 0 < n <= rs[i].size
    ensures SameCover(rs, Split(rs, i, n))
  {
    var rs', m := Split(rs, i, n), |rs|;
    assert forall j :: 0 <= j < m && j != i ==> rs'[j] == rs[j];
    forall a: nat ensures Covered(rs, a) <==> Covered(rs', a) {
      if j :| 0 <= j < m && Inside(a, rs[j]) {
        assert Inside(a, rs'[j]) || (j == i && Inside(a, rs'[m]));
      }
      if j :| 0 <= j < |rs'| && Inside(a, rs'[j]) {
        assert Inside(a, rs[if j < m then j else i]);
      }
    }
  }

  // ---- merging -----------------------------------------------------------------------------------

  function Remove(rs: seq<MemRegion>, j: nat): seq<MemRegion>
    requires j < |rs|
  {
    rs[..j] + rs[j + 1..]
  }

  /** The free region j, which follows the free region i in memory, is merged into it. */
  function Merge(rs: seq<MemRegion>, i: nat, j: nat): seq<MemRegion>
    requires i < |rs| && j < |rs| && i != j
  {
    Remove(rs[i := rs[i].(size := rs[i].size + rs[j].size, free := rs[i].free + rs[j].size)], j)
  }

  /** Where region i is once region j has been removed. */
  function Shifted(i: nat, j: nat): nat
    requires i != j
  {
    if i < j then i else i - 1
  }

  lemma MergeAt(rs: seq<MemRegion>, i: nat, j: nat)
    requires i < |rs| && j < |rs| && i != j
    ensures var rs' := Merge(rs, i, j);
      && |rs'| == |rs| - 1
      && rs'[Shifted(i, j)] == rs[i].(size := rs[i].size + rs[j].size, free := rs[i].free + rs[j].size)
      && forall k :: 0 <= k < |rs| && k != i && k != j ==> rs'[Shifted(k, j)] == rs[k]
  {
  }

  /** Every region of the merged vector is one of the old ones, or the merged one. */
  lemma MergeFrom(rs: seq<MemRegion>, i: nat, j: nat, k': nat)
    requires i < |rs| && j < |rs| && i != j && k' < |rs| - 1
    ensures var k := if k' < j then k' else k' + 1;
      k != j && Shifted(k, j) == k' && (k != i ==> Merge(rs, i, j)[k'] == rs[k])
  {
  }

  lemma MergeSums(rs: seq<MemRegion>, i: nat, j: nat)
    requires i < |rs| && j < |rs| && i != j && rs[j].free == rs[j].size
    ensures Pages(Merge(rs, i, j)) == Pages(rs) && FreePages(Merge(rs, i, j)) == FreePages(rs)
  {
    hide Pages, FreePages, Remove;
    var r := rs[i].(size := rs[i].size + rs[j].size, free := rs[i].free + rs[j].size);
    SumUpdate(rs, i, r);
    RemovedSums(rs[i := r], j);
  }

  lemma RemovedSums(rs: seq<MemRegion>, j: nat)
    requires j < |rs|
    ensures Pages(Remove(rs, j)) == Pages(rs) - rs[j].size && FreePages(Remove(rs, j)) == FreePages(rs) - rs[j].free
  {
    hide Pages, FreePages;
    SumRemove(rs, j);
  }

  lemma MergeInv(rs: seq<MemRegion>, i: nat, j: nat)
    requires Inv(rs) && i < |rs| && j < |rs| && i != j && End(rs[i]) == rs[j].base && rs[i].free == rs[i].size && rs[j].free == rs[j].size
    ensures Inv(Merge(rs, i, j))
  {
    hide Merge;
    var rs' := Merge(rs, i, j);
    MergeAt(rs, i, j);
    forall k' | 0 <= k' < |rs'| ensures Proper(rs'[k']) {
      MergeFrom(rs, i, j, k');
    }
    forall k', l' | 0 <= k' < l' < |rs'| ensures Apart(rs'[k'], rs'[l']) {
      MergeFrom(rs, i, j, k');
      MergeFrom(rs, i, j, l');
    }
  }

  lemma MergeLive(rs: seq<MemRegion>, i: nat, j: nat)
    requires Inv(rs) && i < |rs| && j < |rs| && i != j && rs[i].free != 0 && rs[j].free != 0
    ensures Live(Merge(rs, i, j)) == Live(rs)
  {
    hide Merge, Inv;
    var rs' := Merge(rs, i, j);
    MergeAt(rs, i, j);
    forall x | x in Live(rs) ensures x in Live(rs') {
      var k :| 0 <= k < |rs| && rs[k].free == 0 && x == (rs[k].base, rs[k].size);
      assert rs'[Shifted(k, j)] == rs[k];
    }
    forall x | x in Live(rs') ensures x in Live(rs) {
      var k' :| 0 <= k' < |rs'| && rs'[k'].free == 0 && x == (rs'[k'].base, rs'[k'].size);
      MergeFrom(rs, i, j, k');
    }
  }

  lemma MergeCover(rs: seq<MemRegion>, i: nat, j: nat)
    requires i < |rs| && j < |rs| && i != j && End(rs[i]) == rs[j].base
    ensures SameCover(rs, Merge(rs, i, j))
  {
    hide Merge;
    var rs' := Merge(rs, i, j);
    MergeAt(rs, i, j);
    forall a: nat ensures Covered(rs, a) <==> Covered(rs', a) {
      if k :| 0 <= k < |rs| && Inside(a, rs[k]) {
        assert Inside(a, rs'[Shifted(if k == j then i else k, j)]);
      }
      if k' :| 0 <= k' < |rs'| && Inside(a, rs'[k']) {
        MergeFrom(rs, i, j, k');
        assert Inside(a, rs[if k' < j then k' else k' + 1]) || Inside(a, rs[j]);
      }
    }
  }

  /** If only region i could touch free regions, only the merged one can afterwards. */
  lemma MergeCoalesced(rs: seq<MemRegion>, i: nat, j: nat, x: nat)
    requires Inv(rs) && i < |rs| && j < |rs| && i != j && x in {i, j} && End(rs[i]) == rs[j].base
    requires CoalescedBut(rs, x) && rs[i].free != 0 && rs[j].free != 0
    ensures CoalescedBut(Merge(rs, i, j), Shifted(i, j))
  {
    hide Merge, Inv;
    var rs' := Merge(rs, i, j);
    MergeAt(rs, i, j);
    forall k', l' | 0 <= k' < |rs'| && 0 <= l' < |rs'| && k' != l' && k' != Shifted(i, j) && l' != Shifted(i, j) && rs'[k'].free != 0 && rs'[l'].free != 0
      ensures !Adjacent(rs'[k'], rs'[l'])
    {
      MergeFrom(rs, i, j, k');
      MergeFrom(rs, i, j, l');
    }
  }

  /** No two free regions touch, unless one of them is region x. */
  ghost predicate CoalescedBut(rs: seq<MemRegion>, x: nat) {
    forall i, j :: 0 <= i < |rs| && 0 <= j < |rs| && i != j && i != x && j != x && rs[i].free != 0 && rs[j].free != 0 ==>
      !Adjacent(rs[i], rs[j])
  }

  // ---- the allocator -------------------------------------------------------------------------

  /** What one region of the platform, or one allocation, must look like for the allocator. */
  predicate PlatformOk(plat: seq<(nat, nat)>) {
    && (forall i :: 0 <= i < |plat| ==> plat[i].0 > 0 && plat[i].1 > 0 && plat[i].1 % 4096 == 0)
    && (forall i, j :: 0 <= i < j < |plat| ==> plat[i].0 + plat[i].1 <= plat[j].0 || plat[j].0 + plat[j].1 <= plat[i].0)
  }

  /** Live allocations lie apart and within the memory of the regions. */
  lemma LiveApart(rs: seq<MemRegion>, x: (nat, nat), y: (nat, nat))
    requires Inv(rs) && x in Live(rs) && y in Live(rs)
    ensures x == y || x.0 + x.1 * 4096 <= y.0 || y.0 + y.1 * 4096 <= x.0
    ensures forall a: nat :: x.0 <= a < x.0 + x.1 * 4096 ==> Covered(rs, a)
  {
    var i :| 0 <= i < |rs| && rs[i].free == 0 && x == (rs[i].base, rs[i].size);
    var j :| 0 <= j < |rs| && rs[j].free == 0 && y == (rs[j].base, rs[j].size);
    assert i == j || Apart(rs[i], rs[j]) || Apart(rs[j], rs[i]);
    forall a: nat | x.0 <= a < x.0 + x.1 * PAGE_SIZE ensures Covered(rs, a) {
      assert Inside(a, rs[i]);
    }
  }

  /** Different regions start at different addresses. */
  lemma BasesDiffer(rs: seq<MemRegion>, i: nat, j: nat)
    requires Inv(rs) && i < |rs| && j < |rs| && i != j
    ensures rs[i].base != rs[j].base
  {
    assert Proper(rs[i]) && Proper(rs[j]) && (Apart(rs[i], rs[j]) || Apart(rs[j], rs[i]));
  }

  lemma ProperAt(rs: seq<MemRegion>, i: nat)
    requires Inv(rs) && i < |rs|
    ensures Proper(rs[i])
  {
  }

  /** Region i is given back. */
  lemma FreedShape(rs: seq<MemRegion>, i: nat)
    requires Inv(rs) && i < |rs| && rs[i].free == 0
    ensures var rs' := rs[i := rs[i].(free := rs[i].size)];
      && Inv(rs') && SameCover(rs, rs') && Pages(rs') == Pages(rs) && FreePages(rs') == FreePages(rs) + rs[i].size
      && (Coalesced(rs) ==> CoalescedBut(rs', i))
  {
    var rs' := rs[i := rs[i].(free := rs[i].size)];
    SumUpdate(rs, i, rs[i].(free := rs[i].size));
    forall a: nat ensures Covered(rs, a) <==> Covered(rs', a) {
      if j :| 0 <= j < |rs| && Inside(a, rs[j]) {
        assert Inside(a, rs'[j]);
      }
      if j :| 0 <= j < |rs'| && Inside(a, rs'[j]) {
        assert Inside(a, rs[j]);
      }
    }
  }

  lemma FreedLive(rs: seq<MemRegion>, i: nat)
    requires Inv(rs) && i < |rs| && rs[i].free == 0
    ensures Live(rs[i := rs[i].(free := rs[i].size)]) == Live(rs) - {(rs[i].base, rs[i].size)}
  {
    var rs' := rs[i := rs[i].(free := rs[i].size)];
    assert Proper(rs[i]);
    forall x | x in Live(rs) && x != (rs[i].base, rs[i].size) ensures x in Live(rs') {
      var j :| 0 <= j < |rs| && rs[j].free == 0 && x == (rs[j].base, rs[j].size);
      assert rs'[j] == rs[j];
    }
    forall x | x in Live(rs') ensures x in Live(rs) && x != (rs[i].base, rs[i].size) {
      var j :| 0 <= j < |rs'| && rs'[j].free == 0 && x == (rs'[j].base, rs'[j].size);
      assert rs[j] == rs'[j];
      BasesDiffer(rs, i, j);
    }
  }

  /** What merging keeps: everything about the memory but how it is cut up. */
  ghost predicate Recut(rs: seq<MemRegion>, rs': seq<MemRegion>) {
    Live(rs') == Live(rs) && Pages(rs') == Pages(rs) && FreePages(rs') == FreePages(rs) && SameCover(rs, rs')
  }

  lemma RecutOn(r0: seq<MemRegion>, r1: seq<MemRegion>, r2: seq<MemRegion>)
    requires Recut(r0, r1) && Recut(r1, r2)
    ensures Recut(r0, r2)
  {
    hide Live, Covered;
    forall a: nat ensures Covered(r0, a) <==> Covered(r2, a) {
      assert Covered(r0, a) <==> Covered(r1, a);
    }
  }

  lemma MergeStep(rs: seq<MemRegion>, i: nat, j: nat, x: nat, a: nat)
    requires Inv(rs) && i < |rs| && j < |rs| && i != j && End(rs[i]) == rs[j].base && rs[i].free != 0 && rs[j].free != 0
    requires x in {i, j} && Inside(a, rs[x])
    ensures var rs' := Merge(rs, i, j);
      Inv(rs') && Recut(rs, rs') && rs'[Shifted(i, j)].free != 0 && Inside(a, rs'[Shifted(i, j)])
    ensures CoalescedBut(rs, x) ==> CoalescedBut(Merge(rs, i, j), Shifted(i, j))
  {
    assert Proper(rs[i]) && Proper(rs[j]);
    hide Inv, Merge, Live, SameCover, Coalesced, CoalescedBut;
    MergeAt(rs, i, j);
    MergeSums(rs, i, j);
    MergeInv(rs, i, j);
    MergeLive(rs, i, j);
    MergeCover(rs, i, j);
    if CoalescedBut(rs, x) {
      MergeCoalesced(rs, i, j, x);
    }
  }

  /** Region j of the new vector is at place f[j] of the old one, the same but for the one around a,
      which keeps its start. */
  ghost predicate KeptBy(rs: seq<MemRegion>, rs': seq<MemRegion>, a: nat, f: seq<nat>) {
    && |f| == |rs'|
    && (forall j :: 0 <= j < |f| ==> f[j] < |rs| && rs[f[j]].base == rs'[j].base && (Inside(a, rs'[j]) || rs'[j] == rs[f[j]]))
    && (forall i, j :: 0 <= i < j < |f| ==> f[i] < f[j])
  }

  /** No region changes but the one around address a, and the vector keeps its order: a region that has
      taken in others stands where the one with its start stood. */
  ghost predicate OthersKept(rs: seq<MemRegion>, rs': seq<MemRegion>, a: nat) {
    exists f: seq<nat> :: KeptBy(rs, rs', a, f)
  }

  lemma OthersSelf(rs: seq<MemRegion>, a: nat)
    ensures OthersKept(rs, rs, a)
  {
    assert KeptBy(rs, rs, a, seq(|rs|, i => i));
  }

  lemma OthersOn(r0: seq<MemRegion>, r1: seq<MemRegion>, r2: seq<MemRegion>, a: nat)
    requires OthersKept(r0, r1, a) && OthersKept(r1, r2, a)
    ensures OthersKept(r0, r2, a)
  {
    hide Inside;
    var f: seq<nat> :| KeptBy(r0, r1, a, f);
    var g: seq<nat> :| KeptBy(r1, r2, a, g);
    var h := seq(|g|, j requires 0 <= j < |g| && g[j] < |f| => f[g[j]]);
    assert KeptBy(r0, r2, a, h);
  }

  lemma FreedKept(rs: seq<MemRegion>, i: nat)
    requires Inv(rs) && i < |rs|
    ensures OthersKept(rs, rs[i := rs[i].(free := rs[i].size)], rs[i].base)
  {
    assert Proper(rs[i]);
    assert KeptBy(rs, rs[i := rs[i].(free := rs[i].size)], rs[i].base, seq(|rs|, j => j));
  }

  lemma MergeKept(rs: seq<MemRegion>, i: nat, j: nat, x: nat, a: nat)
    requires i < |rs| && j < |rs| && i != j && End(rs[i]) == rs[j].base && x in {i, j} && Inside(a, rs[x])
    ensures OthersKept(rs, Merge(rs, i, j), a)
  {
    hide Merge, Inside, End;
    var rs' := Merge(rs, i, j);
    var f: seq<nat> := seq(|rs| - 1, k => if k < j then k else k + 1);
    MergeLength(rs, i, j);
    forall k' | 0 <= k' < |rs'| ensures rs[f[k']].base == rs'[k'].base && (Inside(a, rs'[k']) || rs'[k'] == rs[f[k']]) {
      MergedAt(rs, i, j, x, a, k');
    }
    assert KeptBy(rs, rs', a, f);
  }

  lemma MergeLength(rs: seq<MemRegion>, i: nat, j: nat)
    requires i < |rs| && j < |rs| && i != j
    ensures |Merge(rs, i, j)| == |rs| - 1
  {
  }

  lemma MergedAt(rs: seq<MemRegion>, i: nat, j: nat, x: nat, a: nat, k': nat)
    requires i < |rs| && j < |rs| && i != j && End(rs[i]) == rs[j].base && x in {i, j} && Inside(a, rs[x]) && k' < |rs| - 1
    ensures |Merge(rs, i, j)| == |rs| - 1
    ensures var k, r := if k' < j then k' else k' + 1, Merge(rs, i, j)[k'];
      r.base == rs[k].base && (Inside(a, r) || r == rs[k])
  {
    var k := if k' < j then k' else k' + 1;
    assert Merge(rs, i, j)[k'] == rs[i := rs[i].(size := rs[i].size + rs[j].size, free := rs[i].free + rs[j].size)][k];
    hide Merge, Inside, End;
    if k == i {
      MergedInside(rs, i, j, x, a);
    }
  }

  lemma MergedInside(rs: seq<MemRegion>, i: nat, j: nat, x: nat, a: nat)
    requires i < |rs| && j < |rs| && i != j && End(rs[i]) == rs[j].base && x in {i, j} && Inside(a, rs[x])
    ensures Inside(a, rs[i].(size := rs[i].size + rs[j].size, free := rs[i].free + rs[j].size))
  {
  }

  class VmRegion {
    var region: seq<MemRegion>

    /** mem_vm_region_init: every region of the platform but the first becomes a free region. */
    constructor (plat: seq<(nat, nat)>)
      requires |plat| > 1 && PlatformOk(plat)
      ensures Inv(region) && Live(region) == {} && |region| == |plat| - 1
      ensures forall i :: 0 <= i < |region| ==> var n := plat[i + 1].1 / 4096; region[i] == MemRegion(plat[i + 1].0, n, n, 0)
    {
      region := [];
      new;
      for i := 0 to |plat| - 1
        invariant |region| == i
        invariant forall k :: 0 <= k < i ==> var n := plat[k + 1].1 / PAGE_SIZE; region[k] == MemRegion(plat[k + 1].0, n, n, 0)
      {
        region := region + [MemRegion(plat[i + 1].0, plat[i + 1].1 / PAGE_SIZE, plat[i + 1].1 / PAGE_SIZE, 0)];
      }
      assert forall i :: 0 <= i < |region| ==> End(region[i]) == plat[i + 1].0 + plat[i + 1].1 && Proper(region[i]);
      forall i, j | 0 <= i < j < |region| ensures Apart(region[i], region[j]) {
        assert plat[i + 1].0 + plat[i + 1].1 <= plat[j + 1].0 || plat[j + 1].0 + plat[j + 1].1 <= plat[i + 1].0;
      }
    }

    /** mem_vm_region_alloc: the first region with enough free pages; 0 if there is none. */
    method Alloc(size: nat) returns (start: nat)
      requires Inv(region) && size > 0 && size % 4096 == 0
      modifies this
      ensures Inv(region) && Pages(region) == Pages(old(region)) && SameCover(old(region), region)
      ensures Coalesced(old(region)) ==> Coalesced(region)
      ensures start == 0 <==> forall i :: 0 <= i < |old(region)| ==> old(region)[i].free < size / PAGE_SIZE
      ensures start == 0 ==> region == old(region)
      ensures start != 0 ==>
        && Live(region) == Live(old(region)) + {(start, size / 4096)} && (start, size / 4096) !in Live(old(region))
        && FreePages(region) == FreePages(old(region)) - size / 4096
        && exists i :: 0 <= i < |old(region)| && old(region)[i].base == start && old(region)[i].free >= size / 4096
             && (forall j :: 0 <= j < i ==> old(region)[j].free < size / 4096)
             && TakenFrom(old(region), region, i, size)
    {
      hide Live, SameCover, Coalesced, Pages, FreePages, Split, TakenFrom;
      SameCoverSelf(region);
      for i := 0 to |region|
        invariant region == old(region) && forall j :: 0 <= j < i ==> region[j].free < size / PAGE_SIZE
      {
        if region[i].free >= size / PAGE_SIZE {
          assert Proper(region[i]);
          WholePages(size);
          SplitAll(region, i, size / PAGE_SIZE);
          SplitTaken(region, i, size);
          start := region[i].base;
          Take(i, size);
          return;
        }
      }
      return 0;
    }

    /** The found region becomes the allocation, and what it has beyond that a free region at the end. */
    method Take(i: nat, size: nat)
      requires i < |region| && 0 < size / PAGE_SIZE <= region[i].size && size == size / PAGE_SIZE * PAGE_SIZE
      modifies this
      ensures region == Split(old(region), i, size / PAGE_SIZE)
    {
      var startAddr, regionSize := region[i].base, region[i].size;
      if region[i].size > size / PAGE_SIZE {
        region := region + [MemRegion(startAddr + size, regionSize - size / PAGE_SIZE, regionSize - size / PAGE_SIZE, 0)];
        region := region[i := region[i].(size := size / PAGE_SIZE)];
      }
      region := region[i := region[i].(free := 0)];
    }

    /** mem_vm_region_free: the allocation that starts at start is given back and merged with every
        free region it comes to touch. Nothing happens if there is no such allocation. */
    method Free(start: nat, size: nat)
      requires Inv(region)
      requires forall n :: (start, n) in Live(region) ==> n == size / 4096
      modifies this
      ensures Inv(region) && Pages(region) == Pages(old(region)) && SameCover(old(region), region)
      ensures Coalesced(old(region)) ==> Coalesced(region)
      ensures Live(region) == Live(old(region)) - {(start, size / 4096)} && OthersKept(old(region), region, start)
      ensures (start, size / 4096) !in Live(old(region)) ==> region == old(region)
      ensures (start, size / 4096) in Live(old(region)) ==>
        && FreePages(region) == FreePages(old(region)) + size / 4096
        && exists i :: 0 <= i < |region| && region[i].free != 0 && Inside(start, region[i]) && Alone(region, i)
    {
      hide Live, SameCover, Coalesced, CoalescedBut, Recut, OthersKept;
      ghost var r0 := region;
      var freeIdx := Find(start);
      if freeIdx == |region| {
        OthersSelf(region, start);
        SameCoverSelf(region);
        NotLive(region, start, size / PAGE_SIZE);
        return;
      }
      LiveAt(region, freeIdx);
      assert Proper(region[freeIdx]);
      FreedShape(region, freeIdx);
      FreedLive(region, freeIdx);
      FreedKept(region, freeIdx);
      region := region[freeIdx := region[freeIdx].(free := region[freeIdx].free + size / PAGE_SIZE)];
      ghost var r1 := region;
      ghost var i := MergeAll(freeIdx, start);
      FreedRecut(r0, r1, region);
      OthersOn(r0, r1, region, start);
    }

    /** The search of mem_vm_region_free. */
    method Find(start: nat) returns (idx: nat)
      ensures idx <= |region| && forall j :: 0 <= j < idx ==> !(start == region[j].base && region[j].free == 0)
      ensures idx < |region| ==> start == region[idx].base && region[idx].free == 0
    {
      idx := 0;
      while idx < |region|
        invariant idx <= |region| && forall j :: 0 <= j < idx ==> !(start == region[j].base && region[j].free == 0)
      {
        if start == region[idx].base && region[idx].free == 0 {
          return;
        }
        idx := idx + 1;
      }
    }

    /** The merge loop: every round removes a region. */
    method MergeAll(first: nat, ghost a: nat) returns (ghost last: nat)
      requires Inv(region) && first < |region| && region[first].free != 0 && Inside(a, region[first])
      modifies this
      ensures Inv(region) && Recut(old(region), region) && last < |region| && region[last].free != 0 && Inside(a, region[last]) && Alone(region, last)
      ensures OthersKept(old(region), region, a)
      ensures CoalescedBut(old(region), first) ==> Coalesced(region)
    {
      hide Live, SameCover, Coalesced, CoalescedBut, Recut, Inv, OthersKept;
      var mergeIdx: nat, more: bool := first, true;
      RecutSelf(region);
      OthersSelf(region, a);
      while more
        invariant Inv(region) && Recut(old(region), region) && mergeIdx < |region| && region[mergeIdx].free != 0 && Inside(a, region[mergeIdx])
        invariant CoalescedBut(old(region), first) ==> CoalescedBut(region, mergeIdx)
        invariant OthersKept(old(region), region, a)
        invariant !more ==> Alone(region, mergeIdx)
        decreases |region|, more
      {
        ghost var rs := region;
        mergeIdx, more := MergeOnce(mergeIdx, a);
        RecutOn(old(region), rs, region);
        OthersOn(old(region), rs, region, a);
      }
      if CoalescedBut(old(region), first) {
        AloneCoalesced(region, mergeIdx);
      }
      last := mergeIdx;
    }

    /** One round: the first free region that touches region mergeIdx is merged with it. */
    method MergeOnce(mergeIdx: nat, ghost a: nat) returns (idx': nat, more: bool)
      requires Inv(region) && mergeIdx < |region| && region[mergeIdx].free != 0 && Inside(a, region[mergeIdx])
      modifies this
      ensures Inv(region) && Recut(old(region), region) && idx' < |region| && region[idx'].free != 0 && Inside(a, region[idx'])
      ensures CoalescedBut(old(region), mergeIdx) ==> CoalescedBut(region, idx')
      ensures if more then |region| < |old(region)| else region == old(region) && Alone(region, idx')
      ensures OthersKept(old(region), region, a)
    {
      hide Live, SameCover, Coalesced, CoalescedBut, Recut, Inv, Inside, OthersKept;
      var base, size := region[mergeIdx].base, region[mergeIdx].size;
      var idx := 0;
      while idx < |region|
        invariant idx <= |region| && region == old(region)
        invariant forall j :: 0 <= j < idx && j != mergeIdx && region[j].free != 0 ==> !Adjacent(region[mergeIdx], region[j])
      {
        var r := region[idx];
        ProperAt(region, idx);
        ProperAt(region, mergeIdx);
        if r.free != 0 && base == r.base + r.size * PAGE_SIZE {
          MergeStep(region, idx, mergeIdx, mergeIdx, a);
          MergeKept(region, idx, mergeIdx, mergeIdx, a);
          region := region[idx := r.(size := r.size + size, free := r.free + size)];
          region := region[..mergeIdx] + region[mergeIdx + 1..];
          return (if idx < mergeIdx then idx else idx - 1), true;
        } else if r.free != 0 && base + size * PAGE_SIZE == r.base {
          MergeStep(region, mergeIdx, idx, mergeIdx, a);
          MergeKept(region, mergeIdx, idx, mergeIdx, a);
          region := region[mergeIdx := region[mergeIdx].(size := region[mergeIdx].size + r.size, free := region[mergeIdx].free + r.size)];
          region := region[..idx] + region[idx + 1..];
          return (if mergeIdx < idx then mergeIdx else mergeIdx - 1), true;
        }
        idx := idx + 1;
      }
      RecutSelf(region);
      OthersSelf(region, a);
      return mergeIdx, false;
    }
  }

  lemma RecutSelf(rs: seq<MemRegion>)
    ensures Recut(rs, rs)
  {
  }

  lemma SameCoverSelf(rs: seq<MemRegion>)
    ensures SameCover(rs, rs)
  {
  }

  lemma WholePages(size: nat)
    requires size > 0 && size % PAGE_SIZE == 0
    ensures size / PAGE_SIZE > 0 && size == size / PAGE_SIZE * PAGE_SIZE
  {
  }

  /** Region i is taken, all regions keep their places, and what is too much follows it in memory as a
      free region at the end of the vector. */
  ghost predicate TakenFrom(rs: seq<MemRegion>, rs': seq<MemRegion>, i: nat, size: nat)
    requires i < |rs|
  {
    && (forall j :: 0 <= j < |rs| && j != i ==> j < |rs'| && rs'[j] == rs[j])
    && i < |rs'| && rs'[i] == rs[i].(size := size / 4096, free := 0)
    && (if rs[i].size <= size / 4096 then |rs'| == |rs|
        else |rs'| == |rs| + 1 && var rest := rs[i].size - size / 4096; rs'[|rs|] == MemRegion(rs[i].base + size, rest, rest, 0))
  }

  lemma SplitTaken(rs: seq<MemRegion>, i: nat, size: nat)
    requires i < |rs| && size % 4096 == 0 && 0 < size / 4096 <= rs[i].size
    ensures TakenFrom(rs, Split(rs, i, size / 4096), i, size)
  {
  }

  lemma SplitAll(rs: seq<MemRegion>, i: nat, n: nat)
    requires Inv(rs) && i < |rs| && 0 < n <= rs[i].size && rs[i].free == rs[i].size
    ensures var rs' := Split(rs, i, n);
      && Inv(rs') && Pages(rs') == Pages(rs) && SameCover(rs, rs') && (Coalesced(rs) ==> Coalesced(rs'))
      && Live(rs') == Live(rs) + {(rs[i].base, n)} && (rs[i].base, n) !in Live(rs) && FreePages(rs') == FreePages(rs) - n
  {
    SplitSums(rs, i, n);
    SplitInv(rs, i, n);
    if Coalesced(rs) {
      SplitCoalesced(rs, i, n);
    }
    SplitLive(rs, i, n);
    SplitCover(rs, i, n);
  }

  lemma NotLive(rs: seq<MemRegion>, start: nat, n: nat)
    requires forall j :: 0 <= j < |rs| ==> !(start == rs[j].base && rs[j].free == 0)
    ensures (start, n) !in Live(rs)
  {
  }

  lemma LiveAt(rs: seq<MemRegion>, i: nat)
    requires i < |rs| && rs[i].free == 0
    ensures (rs[i].base, rs[i].size) in Live(rs)
  {
  }

  lemma AloneCoalesced(rs: seq<MemRegion>, i: nat)
    requires i < |rs| && CoalescedBut(rs, i) && Alone(rs, i)
    ensures Coalesced(rs)
  {
  }

  lemma FreedRecut(r0: seq<MemRegion>, r1: seq<MemRegion>, r2: seq<MemRegion>)
    requires SameCover(r0, r1) && Recut(r1, r2)
    ensures SameCover(r0, r2) && Live(r2) == Live(r1) && Pages(r2) == Pages(r1) && FreePages(r2) == FreePages(r1)
  {
    hide Live, Covered;
    forall a: nat ensures Covered(r0, a) <==> Covered(r2, a) {
      assert Covered(r0, a) <==> Covered(r1, a);
    }
  }
}
