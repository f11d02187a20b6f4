/** The stage-2 page table of one VM: 4 KB pages and 2 MB blocks mapped and unmapped in
    place, tables allocated on demand and given back when empty. */
module PageTables {
  import opened Common
  import opened PtTables

  const SIZE_1GB: nat := 0x4000_0000
  const SIZE_512GB: nat := 0x80_0000_0000

  function PtLvl0Idx(va: nat): (i: nat)
    ensures i < 512
  {
    va / SIZE_512GB % 512
  }

  function PtLvl1Idx(va: nat): (i: nat)
    ensures i < 512
  {
    va / SIZE_1GB % 512
  }

  function PtLvl2Idx(va: nat): (i: nat)
    ensures i < 512
  {
    va / SIZE_2MB % 512
  }

  function PtLvl3Idx(va: nat): (i: nat)
    ensures i < 512
  {
    va / PAGE_SIZE % 512
  }

  lemma Nested(a: nat, d: nat, e: nat)
    requires d > 0 && e > 0
    ensures d * e > 0 && a / (d * e) == a / d / e
  {
    NestedParts(a, d, e, a / d, a % d, a / d / e, a / d % e);
  }

  lemma NestedParts(a: nat, d: nat, e: nat, b: nat, r: nat, c: nat, q: nat)
    requires a == b * d + r && b == c * e + q && q < e && r < d
    ensures d * e > 0 && a / (d * e) == c
  {
    var p := d * e;
    Regroup(c, e, q, d, r);
    Below(q, e, d, r);
    Quotient(a, p, c, q * d + r);
  }

  lemma Regroup(c: nat, e: nat, q: nat, d: nat, r: nat)
    ensures (c * e + q) * d + r == c * (d * e) + (q * d + r)
  {
    assert (c * e + q) * d == c * e * d + q * d;
    assert c * e * d == c * (e * d);
    assert e * d == d * e;
  }

  lemma Below(q: nat, e: nat, d: nat, r: nat)
    requires q < e && r < d
    ensures q * d + r < d * e
  {
    assert (q + 1) * d <= e * d;
  }

  /** The index a level uses for an address is the address's piece of that height, modulo 512. */
  lemma Indices(ipa: nat)
    ensures var v := ipa / PAGE_SIZE;
      && PtLvl3Idx(ipa) == Pos(Piece(v, 0)) && PtLvl2Idx(ipa) == Pos(Piece(v, 1))
      && PtLvl1Idx(ipa) == Pos(Piece(v, 2)) && PtLvl0Idx(ipa) == Pos(Piece(v, 3))
    ensures var v := ipa / PAGE_SIZE;
      && (ipa < SIZE_512GB ==> Piece(v, 3) == 0) && (ipa < SIZE_512GB * 512 ==> Piece(v, 4) == 0)
  {
    var v := ipa / PAGE_SIZE;
    Nested(ipa, PAGE_SIZE, 512);
    Nested(ipa, SIZE_2MB, 512);
    Nested(ipa, SIZE_1GB, 512);
    Nested(ipa, SIZE_512GB, 512);
    assert Piece(v, 1) == v / 512 == ipa / SIZE_2MB;
    assert Piece(v, 2) == ipa / SIZE_1GB;
    assert Piece(v, 3) == ipa / SIZE_512GB;
    assert Piece(v, 4) == ipa / (SIZE_512GB * 512);
  }

  // ---- which frames the table owns ----------------------------------------------------------

  /** pages.retain(|pf| pf.pa != pa) */
  function Retain(pages: seq<nat>, pa: nat): seq<nat> {
    if pages == [] then []
    else if pages[0] == pa then Retain(pages[1..], pa) else [pages[0]] + Retain(pages[1..], pa)
  }

  lemma {:induction false} Retained(pages: seq<nat>, pa: nat)
    requires NoDup(pages)
    ensures NoDup(Retain(pages, pa)) && forall f :: f in Retain(pages, pa) <==> f in pages && f != pa
  {
    if pages != [] {
      var rest := Retain(pages[1..], pa);
      Retained(pages[1..], pa);
      assert pages == [pages[0]] + pages[1..];
      assert forall j :: 0 <= j < |rest| ==> rest[j] in pages[1..];
    }
  }

  /** f is the frame of a table below the root. */
  ghost predicate Reachable(at: map<Key, nat>, depth: nat, f: nat) {
    exists k :: k in at && k.h < depth && at[k] == f
  }

  /** pages lists exactly the table frames below the root; with the free ones they make up the pool. */
  ghost predicate Owned(at: map<Key, nat>, depth: nat, pages: seq<nat>, free: seq<nat>, pool: set<nat>) {
    && NoDup(pages) && NoDup(free)
    && (forall f :: f in pages <==> Reachable(at, depth, f))
    && (forall f :: f in free ==> IsFrame(f) && forall k :: k in at ==> at[k] != f)
    && (forall f :: f in pool <==> f in pages || f in free)
  }

  lemma OwnedGrow(at: map<Key, nat>, depth: nat, pages: seq<nat>, free: seq<nat>, pool: set<nat>, k: Key)
    requires Owned(at, depth, pages, free, pool) && free != [] && k !in at && k.h < depth
    ensures Owned(at[k := free[0]], depth, pages + [free[0]], free[1..], pool)
  {
    var f0, at' := free[0], at[k := free[0]];
    assert free == [f0] + free[1..];
    assert f0 in free;
    assert f0 !in pages by {
      assert !Reachable(at, depth, f0);
    }
    assert NoDup(free[1..]) && NoDup(pages + [f0]);
    assert f0 !in free[1..] by {
      assert forall i :: 0 < i < |free| ==> free[0] != free[i];
    }
    forall f | f in free[1..] ensures IsFrame(f) && forall j :: j in at' ==> at'[j] != f {
      assert f in free;
    }
    forall f ensures Reachable(at', depth, f) <==> Reachable(at, depth, f) || f == f0 {
      if Reachable(at, depth, f) {
        var j :| j in at && j.h < depth && at[j] == f;
        assert j in at' && at'[j] == f;
      }
      assert k in at' && at'[k] == f0;
    }
  }

  lemma OwnedDrop(at: map<Key, nat>, depth: nat, pages: seq<nat>, free: seq<nat>, pool: set<nat>, k: Key)
    requires Owned(at, depth, pages, free, pool) && k in at && k.h < depth && IsFrame(at[k])
    requires forall i, j :: i in at && j in at && at[i] == at[j] ==> i == j
    ensures Owned(at - {k}, depth, Retain(pages, at[k]), free + [at[k]], pool)
  {
    var f0, at' := at[k], at - {k};
    Retained(pages, f0);
    assert Reachable(at, depth, f0);
    forall f ensures Reachable(at', depth, f) <==> Reachable(at, depth, f) && f != f0 {
      if Reachable(at, depth, f) && f != f0 {
        var j :| j in at && j.h < depth && at[j] == f;
        assert j in at' && at'[j] == f;
      }
    }
  }

  // ---- what the operations promise --------------------------------------------------------------

  /** The tables of height h and more on the way to page v, below the root. */
  ghost function Path(depth: nat, v: nat, h: nat): (p: set<Key>)
    ensures forall k :: k in p ==> h <= k.h < depth
    decreases depth - h
  {
    if h >= depth then {} else Path(depth, v, h + 1) + {Key(h, Piece(v, h))}
  }

  /** How many of them do not exist yet. */
  ghost function Missing(t: Tables, v: nat, h: nat): nat {
    |Path(t.depth, v, h) - t.at.Keys|
  }

  /** Tables of the first exist in the second, in the same frames. */
  ghost predicate Within(at: map<Key, nat>, at': map<Key, nat>) {
    forall k :: k in at ==> k in at' && at'[k] == at[k]
  }

  /** What an operation on page v does with the free frames when it needs the tables of height h and
      more on the way: it allocates those missing, from the top, as far as the frames go. */
  ghost predicate Spent(t: Tables, t': Tables, v: nat, h: nat, free: nat, free': nat) {
    && Within(t.at, t'.at) && t'.depth == t.depth && t'.root == t.root
    && (if free < Missing(t, v, h) then free' == 0 && forall k :: k in t'.at ==> k in t.at || k.h > h
        else free' == free - Missing(t, v, h) && t'.at.Keys == t.at.Keys + Path(t.depth, v, h))
  }

  /** Page v is mapped where it was not; nothing else changes. */
  ghost predicate Mapped(t: Tables, t': Tables, v: nat, pa: nat, pte: nat) {
    forall u: nat :: Lookup(t', u) == if u == v && Lookup(t, u).None? then Some(Hit(pa, pte, false)) else Lookup(t, u)
  }

  /** The 512 pages of a 2 MB piece s are mapped where they were not; nothing else changes. */
  ghost predicate BlockMapped(t: Tables, t': Tables, s: nat, pa: nat, pte: nat) {
    forall u: nat :: Lookup(t', u) ==
      if Up(u) == s && Key(1, s) !in t.at && Lookup(t, u).None? then Some(Hit(pa + Pos(u) * PAGE_SIZE, pte, true)) else Lookup(t, u)
  }

  /** The pages of piece s of height h are not mapped any more; nothing else changes. */
  ghost predicate Unmapped(t: Tables, t': Tables, h: nat, s: nat) {
    forall u: nat :: Lookup(t', u) == if Piece(u, h) == s then None else Lookup(t, u)
  }

  /** Page v lies in a 2 MB block. */
  ghost predicate Blocked(t: Tables, v: nat) {
    Word(t, 1, Up(v)) % 4 == PTE_BLOCK
  }

  // ---- one step of an operation, on values ----------------------------------------------------------

  /** What reading the word for piece s of height h tells. */
  lemma Descend(t: Tables, h: nat, s: nat)
    requires Inv(t) && Key(h + 1, Up(s)) in t.at
    ensures KeyOk(t, Key(h + 1, Up(s))) && Word(t, h, s) == t.mem[t.at[Key(h + 1, Up(s))]][Pos(s)]
    ensures IsValid(Word(t, h, s)) <==> Word(t, h, s) != 0
    ensures h == 0 ==> Key(h, s) !in t.at
    ensures h == 1 && Word(t, h, s) % 4 == PTE_BLOCK ==> Key(h, s) !in t.at
    ensures 1 <= h < t.depth && Key(h, s) in t.at ==> Word(t, h, s) != 0
    ensures h >= 1 && Word(t, h, s) != 0 && !(h == 1 && Word(t, h, s) % 4 == PTE_BLOCK) ==>
      h < t.depth && Key(h, s) in t.at && ToPa(Word(t, h, s)) == t.at[Key(h, s)]
  {
    KeyOf(t, Key(h + 1, Up(s)));
    assert WordOk(t, h, s);
    hide WordsOk, NoSharing;
    if Key(h, s) in t.at {
      KeyOf(t, Key(h, s));
      assert Hangs(t, Key(h, s));
      ZeroAttr();
      Descriptor(t.at[Key(h, s)], 0, PTE_TABLE);
    }
  }

  lemma ZeroAttr()
    ensures IsAttr(0)
  {
  }

  /** A table was added on the way to a page. */
  lemma NextStep(t: Tables, t': Tables, h: nat, s: nat, f: nat)
    requires Inv(t) && Grown(t, t', h, s, f) && Fresh(t, f)
    ensures Inv(t') && SameLookup(t, t') && Within(t.at, t'.at)
    ensures NoEmptyBut(t, Key(h + 1, Up(s))) ==> NoEmptyBut(t', Key(h, s))
  {
    GrownInv(t, t', h, s, f);
    GrownLookup(t, t', h, s, f);
    hide Inv, KeysOk, NoEmptyBut, Rewritten;
    if NoEmptyBut(t, Key(h + 1, Up(s))) {
      FilledNoEmpty(t, t', h, s, f + PTE_TABLE, Key(h, s));
    }
  }

  /** A table on the way was there already: it fills the one above. */
  lemma StayStep(t: Tables, h: nat, s: nat)
    requires NoEmptyBut(t, Key(h + 1, Up(s))) && Word(t, h, s) != 0
    ensures NoEmpty(t) && forall x :: NoEmptyBut(t, x)
  {
    hide Word;
    assert NonEmpty(t, h, Up(s));
  }

  /** What reaching for the table of piece s of height h does. */
  ghost predicate NextPost(t: Tables, t': Tables, h: nat, s: nat, next: Option<nat>, free: nat, free': nat) {
    && SameLookup(t, t') && Within(t.at, t'.at) && t'.depth == t.depth && t'.root == t.root
    && (next.None? ==> free == 0 && free' == 0 && Key(h, s) !in t.at && t' == t)
    && (next.Some? ==>
         && Key(h, s) in t'.at && t'.at[Key(h, s)] == next.value && t'.at.Keys == t.at.Keys + {Key(h, s)}
         && free == free' + (if Key(h, s) in t.at then 0 else 1)
         && Rewritten(t, t', h, s, Word(t', h, s))
         && (NoEmptyBut(t, Key(h + 1, Up(s))) ==> NoEmptyBut(t', Key(h, s))))
  }

  lemma NextThere(t: Tables, h: nat, s: nat, free: nat)
    requires Key(h, s) in t.at && Word(t, h, s) != 0
    ensures NextPost(t, t, h, s, Some(t.at[Key(h, s)]), free, free)
  {
    hide Word;
    if NoEmptyBut(t, Key(h + 1, Up(s))) {
      StayStep(t, h, s);
    }
  }

  lemma NextFailed(t: Tables, h: nat, s: nat)
    requires Key(h, s) !in t.at
    ensures NextPost(t, t, h, s, None, 0, 0)
  {
  }

  lemma GrowStep(t: Tables, pages: seq<nat>, free: seq<nat>, pool: set<nat>, h: nat, s: nat)
    requires Inv(t) && Owned(t.at, t.depth, pages, free, pool) && free != [] && Fresh(t, free[0])
    requires h >= 1 && Key(h + 1, Up(s)) in t.at && Key(h, s) !in t.at && Word(t, h, s) == 0
    ensures KeyOk(t, Key(h + 1, Up(s)))
    ensures var t' := Grow(t, h, s, free[0]);
      && Inv(t') && Owned(t'.at, t'.depth, pages + [free[0]], free[1..], pool)
      && NextPost(t, t', h, s, Some(free[0]), |free|, |free| - 1)
  {
    hide Inv, Owned, Grow, Word, KeysOk, SameLookup, NoEmptyBut, Up, Pos, KeyOk, Fresh;
    var f := free[0];
    GrowShape(t, h, s, f);
    var t' := Grow(t, h, s, f);
    NextStep(t, t', h, s, f);
    OwnedGrow(t.at, t.depth, pages, free, pool, Key(h, s));
    assert Word(t', h, s) == f + PTE_TABLE;
  }

  class PageTable {
    const lvl4: bool
    const directory: nat
    /** Memory of table frames and free frames. */
    var mem: map<nat, seq<nat>>
    var pages: seq<nat>
    /** Frames mem_page_alloc can still hand out. */
    var free: seq<nat>
    ghost var at: map<Key, nat>
    ghost const pool: set<nat>

    ghost function T(): Tables
      reads this
    {
      Tables(mem, at, if lvl4 then 4 else 3, directory)
    }

    ghost predicate Valid()
      reads this
    {
      Inv(T()) && Owned(at, T().depth, pages, free, pool)
    }

    /** Addresses beyond this have more bits than the root table looks at. */
    function Span(): nat {
      if lvl4 then SIZE_512GB * 512 else SIZE_512GB
    }

    // mem_page_alloc gives a zeroed frame, or an error when there is none.
    method MemPageAlloc() returns (r: Option<nat>)
      modifies this`mem, this`free
      ensures old(free) == [] ==> r == None && free == old(free) && mem == old(mem)
      ensures old(free) != [] ==>
        r == Some(old(free[0])) && free == old(free[1..]) && mem == old(mem)[old(free[0]) := Zeros()]
    {
      if free == [] {
        return None;
      }
      r, mem := Some(free[0]), mem[free[0] := Zeros()];
      free := free[1..];
    }

    function Entry(frame: nat, index: nat): nat
      requires frame in mem && index < |mem[frame]|
      reads this
    {
      mem[frame][index]
    }

    method SetEntry(frame: nat, index: nat, w: nat)
      requires frame in mem && index < |mem[frame]|
      modifies this`mem
      ensures var words: seq<nat> := old(mem[frame])[index := w]; mem == old(mem)[frame := words]
    {
      var words: seq<nat> := mem[frame][index := w];
      mem := mem[frame := words];
    }

    /** Allocates a table and hangs it at entry index of the table in frame. */
    method HangTable(frame: nat, index: nat, ghost h: nat, ghost s: nat) returns (next: Option<nat>)
      requires Key(h + 1, Up(s)) in at && at[Key(h + 1, Up(s))] == frame && index == Pos(s)
      requires KeyOk(T(), Key(h + 1, Up(s))) && (free != [] ==> Fresh(T(), free[0]))
      modifies this
      ensures next.None? ==> free == old(free) == [] && T() == old(T()) && pages == old(pages)
      ensures next.Some? ==>
        && old(free) != [] && next.value == old(free[0]) && T() == Grow(old(T()), h, s, next.value)
        && pages == old(pages) + [next.value] && free == old(free[1..])
    {
      next := MemPageAlloc();
      if next.Some? {
        pages := pages + [next.value];
        SetEntry(frame, index, next.value + PTE_TABLE);
        at := at[Key(h, s) := next.value];
      }
    }

    /** The table that entry index of the table in frame leads to, allocated if the entry is
        invalid: the step map and map_2mb take at every level above the last. */
    method NextTable(frame: nat, index: nat, ghost h: nat, ghost s: nat) returns (next: Option<nat>)
      requires Valid() && 1 <= h < T().depth && Key(h + 1, Up(s)) in at && at[Key(h + 1, Up(s))] == frame && index == Pos(s)
      requires h == 1 ==> Word(T(), 1, s) % 4 != PTE_BLOCK
      modifies this
      ensures Valid() && NextPost(old(T()), T(), h, s, next, |old(free)|, |free|)
    {
      hide Inv, Owned, SameLookup, NoEmptyBut, NoEmpty, Grow, Word, NextPost, Fresh, Up, Pos;
      Descend(T(), h, s);
      var e := Entry(frame, index);
      if IsValid(e) {
        NextThere(T(), h, s, |free|);
        next := Some(ToPa(e));
      } else {
        ghost var t := T();
        FreeFresh(at, t.depth, pages, free, pool, t);
        next := HangTable(frame, index, h, s);
        if next.Some? {
          GrowStep(t, old(pages), old(free), pool, h, s);
        } else {
          NextFailed(t, h, s);
        }
      }
    }

    /** The common part of map and map_2mb: down to the table of 2 MB pieces. */
    method ReachBlocks(ipa: nat) returns (l1: Option<nat>)
      requires Valid() && ipa < Span()
      modifies this
      ensures Valid() && PathPost(old(T()), T(), ipa / PAGE_SIZE, 2, l1, |old(free)|, |free|)
    {
      hide Inv, Owned, NextPost, PathPost, Piece, PtLvl0Idx, PtLvl1Idx, PtLvl2Idx, PtLvl3Idx, Up, Pos, Word, Missing;
      ghost var v: nat, t, n: nat := ipa / PAGE_SIZE, T(), |free|;
      Indices(ipa);
      Pieces(v);
      PathStart(t, v, n);
      RootKey(t);
      var l0 := directory;
      ghost var n1: nat := n;
      if lvl4 {
        l1 := NextTable(directory, PtLvl0Idx(ipa), 3, Piece(v, 3));
        n1 := |free|;
        PathStep(t, t, T(), v, 3, directory, l1, n, n, n1);
        if l1.None? {
          PathNone(t, T(), v, 3, n, n1);
          PathFail(t, T(), v, 2, n);
          return;
        }
        l0 := l1.value;
      }
      ghost var t1 := T();
      PathTable(t, t1, v, 3, l0, n, n1);
      l1 := NextTable(l0, PtLvl1Idx(ipa), 2, Piece(v, 2));
      PathStep(t, t1, T(), v, 2, l0, l1, n, n1, |free|);
    }

    /** map: one 4 KB page. */
    method Map(ipa: nat, pa: nat, pte: nat)
      requires Valid() && ipa < Span() && IsFrame(pa) && IsAttr(pte) && !Blocked(T(), ipa / PAGE_SIZE)
      modifies this
      ensures Valid() && MapPost(old(T()), T(), ipa / PAGE_SIZE, pa, pte, |old(free)|, |free|)
    {
      hide Inv, Owned, NextPost, PathPost, MapPost, Piece, PtLvl0Idx, PtLvl1Idx, PtLvl2Idx, PtLvl3Idx, Up, Pos, Word, Missing, Spent, Blocked, IsFrame, IsAttr, Put, KeyOk;
      ghost var v: nat, t, n: nat := ipa / PAGE_SIZE, T(), |free|;
      Indices(ipa);
      Pieces(v);
      RootKey(t);
      var l1 := ReachBlocks(ipa);
      ghost var t1, n1: nat := T(), |free|;
      if l1.None? {
        PathNone(t, t1, v, 2, n, n1);
        PathFail(t, t1, v, 1, n);
        MapFailed(t, t1, v, pa, pte, n, n1);
        return;
      }
      PathTable(t, t1, v, 2, l1.value, n, n1);
      StillUnblocked(t, t1, v, l1.value, n, n1);
      var l2 := NextTable(l1.value, PtLvl2Idx(ipa), 1, Piece(v, 1));
      ghost var t2, n2: nat := T(), |free|;
      PathStep(t, t1, t2, v, 1, l1.value, l2, n, n1, n2);
      if l2.None? {
        MapFailed(t, t2, v, pa, pte, n, n2);
        return;
      }
      PathTable(t, t2, v, 1, l2.value, n, n2);
      MapPage(l2.value, ipa, pa, pte, t, n);
    }

    /** The last step of map. */
    method MapPage(l2: nat, ipa: nat, pa: nat, pte: nat, ghost t: Tables, ghost n: nat)
      requires Valid() && IsFrame(pa) && IsAttr(pte) && PathPost(t, T(), ipa / PAGE_SIZE, 1, Some(l2), n, |free|)
      modifies this`mem
      ensures Valid() && MapPost(t, T(), ipa / PAGE_SIZE, pa, pte, n, |free|)
    {
      hide Inv, Owned, PathPost, MapPost, Piece, PtLvl0Idx, PtLvl1Idx, PtLvl2Idx, PtLvl3Idx, Up, Pos, Word, IsFrame, IsAttr;
      ghost var v: nat, t2 := ipa / PAGE_SIZE, T();
      Indices(ipa);
      Pieces(v);
      PathTable(t, t2, v, 1, l2, n, |free|);
      Descend(t2, 0, v);
      var l3e := Entry(l2, PtLvl3Idx(ipa));
      if IsValid(l3e) {
        MapThere(t, t2, v, pa, pte, l2, n, |free|);
      } else {
        SetEntry(l2, PtLvl3Idx(ipa), pa + PTE_TABLE + pte);
        assert T() == Put(t2, 0, v, pa + PTE_TABLE + pte);
        MapLeaf(t, t2, T(), v, pa, pte, l2, n, |free|);
      }
    }

    /** map_2mb: one 2 MB block. */
    method Map2mb(ipa: nat, pa: nat, pte: nat)
      requires Valid() && ipa < Span() && IsFrame(pa) && IsAttr(pte)
      modifies this
      ensures Valid() && BlockPost(old(T()), T(), ipa / PAGE_SIZE, pa, pte, |old(free)|, |free|)
    {
      hide Inv, Owned, PathPost, BlockPost, Piece, PtLvl0Idx, PtLvl1Idx, PtLvl2Idx, PtLvl3Idx, Up, Pos, Word, IsFrame, IsAttr;
      ghost var v: nat, t, n: nat := ipa / PAGE_SIZE, T(), |free|;
      Indices(ipa);
      Pieces(v);
      var l1 := ReachBlocks(ipa);
      ghost var t1, n1: nat := T(), |free|;
      if l1.None? {
        BlockFailed(t, t1, v, pa, pte, n, n1);
        return;
      }
      PathTable(t, t1, v, 2, l1.value, n, n1);
      Descend(t1, 1, Up(v));
      var l2e := Entry(l1.value, PtLvl2Idx(ipa));
      if IsValid(l2e) {
        MapBlockThere(t, t1, v, pa, pte, l1.value, n, n1);
      } else {
        SetEntry(l1.value, PtLvl2Idx(ipa), pa + PTE_BLOCK + pte);
        assert T() == Put(t1, 1, Up(v), pa + PTE_BLOCK + pte);
        MapBlock(t, t1, T(), v, pa, pte, l1.value, n, n1);
      }
    }

    /** empty_page */
    method EmptyPage(frame: nat) returns (empty: bool)
      requires frame in mem && |mem[frame]| == 512
      ensures empty <==> Zero(mem[frame])
    {
      for i := 0 to 512
        invariant forall j :: 0 <= j < i ==> mem[frame][j] == 0
      {
        if mem[frame][i] != 0 {
          return false;
        }
      }
      return true;
    }

    /** An empty table is taken out of the entry it hung in and its frame is given back. */
    method DropTable(parent: nat, index: nat, frame: nat, ghost h: nat, ghost s: nat, ghost t: Tables, ghost h0: nat, ghost s0: nat)
      requires Valid() && Backed(t, T(), h0, s0, Key(h, s)) && 1 <= h <= 2 && Barren(T(), h - 1, s)
      requires Key(h, s) in at && at[Key(h, s)] == frame
      requires Key(h + 1, Up(s)) in at && at[Key(h + 1, Up(s))] == parent && index == Pos(s)
      modifies this
      ensures Valid() && at == old(at) - {Key(h, s)} && Backed(t, T(), h0, s0, Key(h + 1, Up(s)))
    {
      hide Inv, Owned, Backed, Barren, Up, Pos, KeyOk, Dropped;
      ghost var t1 := T();
      RootKey(t1);
      DropShape(t1, h, s);
      KeyFrame(t1, Key(h, s));
      KeyFrame(t1, Key(h + 1, Up(s)));
      OwnedDrop(at, t1.depth, pages, free, pool, Key(h, s));
      SetEntry(parent, index, 0);
      pages := Retain(pages, frame);
      free := free + [frame];
      at := at - {Key(h, s)};
      assert T() == Drop(t1, h, s);
      BackedDrop(t, t1, T(), h0, s0, h, s);
    }

    /** unmap: one 4 KB page; tables left empty are given back. */
    method Unmap(ipa: nat)
      requires Valid() && ipa < Span() && !Blocked(T(), ipa / PAGE_SIZE)
      modifies this
      ensures Valid() && UnmapPost(old(T()), T(), 0, ipa / PAGE_SIZE)
    {
      hide Inv, Owned, UnmapPost, Piece, PtLvl0Idx, PtLvl1Idx, PtLvl2Idx, PtLvl3Idx, Up, Pos, Word, Put, Backed, Barren, NonEmpty, Zero, ToPa, IsFrame;
      ghost var v: nat, t := ipa / PAGE_SIZE, T();
      Indices(ipa);
      Pieces(v);
      RootKey(t);
      var l0 := directory;
      if lvl4 {
        Descend(t, 3, Piece(v, 3));
        var l0e := Entry(directory, PtLvl0Idx(ipa));
        if !IsValid(l0e) {
          AbsentPage(t, v, 3);
          return;
        }
        l0 := ToPa(l0e);
      }
      Descend(t, 2, Piece(v, 2));
      var l1e := Entry(l0, PtLvl1Idx(ipa));
      if IsValid(l1e) {
        Descend(t, 1, Piece(v, 1));
        var l2e := Entry(ToPa(l1e), PtLvl2Idx(ipa));
        if IsValid(l2e) {
          Descend(t, 0, v);
          var l3e := Entry(ToPa(l2e), PtLvl3Idx(ipa));
          if IsValid(l3e) {
            UnmapThere(ipa, l0, ToPa(l1e), ToPa(l2e));
          } else {
            AbsentPage(t, v, 0);
          }
        } else {
          AbsentPage(t, v, 1);
        }
      } else {
        AbsentPage(t, v, 2);
      }
    }

    /** The entry is cleared, and the tables above it that become empty are taken out. */
    method UnmapThere(ipa: nat, l0: nat, l1: nat, l2: nat)
      requires Valid() && ipa < Span()
      requires var v := ipa / PAGE_SIZE;
        && Key(1, Piece(v, 1)) in at && at[Key(1, Piece(v, 1))] == l2
        && Key(2, Piece(v, 2)) in at && at[Key(2, Piece(v, 2))] == l1
        && Key(3, Piece(v, 3)) in at && at[Key(3, Piece(v, 3))] == l0
      modifies this
      ensures Valid() && UnmapPost(old(T()), T(), 0, ipa / PAGE_SIZE)
    {
      hide Inv, Owned, UnmapPost, Piece, PtLvl0Idx, PtLvl1Idx, PtLvl2Idx, PtLvl3Idx, Up, Pos, Word, Put, KeyOk, Backed, Barren, NonEmpty, Zero;
      ghost var v: nat, t := ipa / PAGE_SIZE, T();
      Indices(ipa);
      Pieces(v);
      Descend(t, 0, v);
      KeyFrame(t, Key(1, Piece(v, 1)));
      SetEntry(l2, PtLvl3Idx(ipa), 0);
      PutIs(t, 0, v, 0, mem);
      ClearLeaf(t, T(), 0, v);
      KeyFrame(T(), Key(1, Piece(v, 1)));
      TableWords(T(), 0, Piece(v, 1));
      var empty := EmptyPage(l2);
      if empty {
        DropTable(l1, PtLvl2Idx(ipa), l2, 1, Piece(v, 1), t, 0, v);
        KeyFrame(T(), Key(2, Piece(v, 2)));
        TableWords(T(), 1, Piece(v, 2));
        empty := EmptyPage(l1);
        if empty {
          DropTable(l0, PtLvl1Idx(ipa), l1, 2, Piece(v, 2), t, 0, v);
          BackedKeep(t, T(), 0, v, Key(3, Piece(v, 3)));
        } else {
          BackedKeep(t, T(), 0, v, Key(2, Piece(v, 2)));
        }
      } else {
        BackedKeep(t, T(), 0, v, Key(1, Piece(v, 1)));
      }
    }

    /** unmap_2mb: one 2 MB block. */
    method Unmap2mb(ipa: nat)
      requires Valid() && ipa < Span() && Key(1, Up(ipa / PAGE_SIZE)) !in at
      modifies this
      ensures Valid() && UnmapPost(old(T()), T(), 1, Up(ipa / PAGE_SIZE))
    {
      hide Inv, Owned, UnmapPost, Piece, PtLvl0Idx, PtLvl1Idx, PtLvl2Idx, PtLvl3Idx, Up, Pos, Word, Put, Backed, Barren, NonEmpty, Zero, ToPa, IsFrame;
      ghost var v: nat, t := ipa / PAGE_SIZE, T();
      Indices(ipa);
      Pieces(v);
      RootKey(t);
      var l0 := directory;
      if lvl4 {
        Descend(t, 3, Piece(v, 3));
        var l0e := Entry(directory, PtLvl0Idx(ipa));
        if !IsValid(l0e) {
          AbsentBlock(t, v, 3);
          return;
        }
        l0 := ToPa(l0e);
      }
      Descend(t, 2, Piece(v, 2));
      var l1e := Entry(l0, PtLvl1Idx(ipa));
      if IsValid(l1e) {
        Descend(t, 1, Piece(v, 1));
        var l2e := Entry(ToPa(l1e), PtLvl2Idx(ipa));
        if IsValid(l2e) {
          UnmapBlockThere(ipa, l0, ToPa(l1e));
        } else {
          AbsentBlock(t, v, 1);
        }
      } else {
        AbsentBlock(t, v, 2);
      }
    }

    method UnmapBlockThere(ipa: nat, l0: nat, l1: nat)
      requires Valid() && ipa < Span()
      requires var v := ipa / PAGE_SIZE;
        && Key(1, Up(v)) !in at
        && Key(2, Piece(v, 2)) in at && at[Key(2, Piece(v, 2))] == l1
        && Key(3, Piece(v, 3)) in at && at[Key(3, Piece(v, 3))] == l0
      modifies this
      ensures Valid() && UnmapPost(old(T()), T(), 1, Up(ipa / PAGE_SIZE))
    {
      hide Inv, Owned, UnmapPost, Piece, PtLvl0Idx, PtLvl1Idx, PtLvl2Idx, PtLvl3Idx, Up, Pos, Word, Put, KeyOk, Backed, Barren, NonEmpty, Zero;
      ghost var v: nat, t := ipa / PAGE_SIZE, T();
      Indices(ipa);
      Pieces(v);
      Descend(t, 1, Up(v));
      KeyFrame(t, Key(2, Piece(v, 2)));
      SetEntry(l1, PtLvl2Idx(ipa), 0);
      PutIs(t, 1, Up(v), 0, mem);
      ClearLeaf(t, T(), 1, Up(v));
      KeyFrame(T(), Key(2, Piece(v, 2)));
      TableWords(T(), 1, Piece(v, 2));
      var empty := EmptyPage(l1);
      if empty {
        DropTable(l0, PtLvl1Idx(ipa), l1, 2, Piece(v, 2), t, 1, Up(v));
        BackedKeep(t, T(), 1, Up(v), Key(3, Piece(v, 3)));
      } else {
        BackedKeep(t, T(), 1, Up(v), Key(2, Piece(v, 2)));
      }
    }

    /** map_range */
    method MapRange(ipa: nat, len: nat, pa: nat, pte: nat)
      requires Valid() && ipa % PAGE_SIZE == 0 && ipa + RoundUp(len, PAGE_SIZE) <= Span()
      requires IsFrame(pa) && pa + RoundUp(len, PAGE_SIZE) <= ADDRESS_TOP && IsAttr(pte)
      requires forall u: nat :: ipa / PAGE_SIZE <= u < ipa / PAGE_SIZE + RoundUp(len, PAGE_SIZE) / PAGE_SIZE ==> !Blocked(T(), u)
      modifies this
      ensures Valid()
      ensures var n := RoundUp(len, PAGE_SIZE) / PAGE_SIZE;
        MapRangePost(old(T()), T(), ipa / PAGE_SIZE, n, pa, pte, |old(free)|, |free|)
    {
      hide Inv, Owned, MapPost, MapRangePost, Blocked, IsAttr;
      var pageNum: nat := RoundUp(len, PAGE_SIZE) / PAGE_SIZE;
      ghost var t, v: nat, free0: nat := T(), ipa / PAGE_SIZE, |free|;
      RoundUpMultiple(len, PAGE_SIZE);
      RootKey(t);
      MapRangeStart(t, v, 0, pa, pte, free0);
      for i := 0 to pageNum
        invariant Valid() && MapRangePost(t, T(), v, i, pa, pte, free0, |free|)
      {
        ghost var t1, free1: nat := T(), |free|;
        PageOf(ipa, i);
        PageOf(pa, i);
        MapRangeUnblocked(t, t1, v, i, pa, pte, free0, free1, v + i);
        Map(ipa + i * PAGE_SIZE, pa + i * PAGE_SIZE, pte);
        MapRangeStep(t, t1, T(), v, i, pa, pte, free0, free1, |free|);
      }
    }

    /** map_range_2mb */
    method MapRange2mb(ipa: nat, len: nat, pa: nat, pte: nat)
      requires Valid() && ipa % SIZE_2MB == 0 && ipa + RoundUp(len, SIZE_2MB) <= Span()
      requires IsFrame(pa) && pa + RoundUp(len, SIZE_2MB) <= ADDRESS_TOP && IsAttr(pte)
      modifies this
      ensures Valid()
      ensures var n := RoundUp(len, SIZE_2MB) / SIZE_2MB;
        BlockRangePost(old(T()), T(), ipa / SIZE_2MB, n, pa, pte, |old(free)|, |free|)
    {
      hide Inv, Owned, BlockPost, BlockRangePost, IsAttr, Up;
      var pageNum: nat := RoundUp(len, SIZE_2MB) / SIZE_2MB;
      ghost var t, s: nat, free0: nat := T(), ipa / SIZE_2MB, |free|;
      RoundUpMultiple(len, SIZE_2MB);
      RootKey(t);
      MapRangeStart(t, 0, s, pa, pte, free0);
      for i := 0 to pageNum
        invariant Valid() && BlockRangePost(t, T(), s, i, pa, pte, free0, |free|)
      {
        ghost var t1, free1: nat := T(), |free|;
        BlockOf(ipa, i);
        PageOf(pa, i * 512);
        Map2mb(ipa + i * SIZE_2MB, pa + i * SIZE_2MB, pte);
        BlockRangeStep(t, t1, T(), s, i, pa, pte, free0, free1, |free|);
      }
    }

    /** unmap_range */
    method UnmapRange(ipa: nat, len: nat)
      requires Valid() && ipa % PAGE_SIZE == 0 && ipa + RoundUp(len, PAGE_SIZE) <= Span()
      requires forall u: nat :: ipa / PAGE_SIZE <= u < ipa / PAGE_SIZE + RoundUp(len, PAGE_SIZE) / PAGE_SIZE ==> !Blocked(T(), u)
      modifies this
      ensures Valid() && UnmapRangePost(old(T()), T(), 0, ipa / PAGE_SIZE, RoundUp(len, PAGE_SIZE) / PAGE_SIZE)
    {
      hide Inv, Owned, UnmapPost, UnmapRangePost, Blocked;
      var pageNum: nat := RoundUp(len, PAGE_SIZE) / PAGE_SIZE;
      ghost var t, v: nat := T(), ipa / PAGE_SIZE;
      RoundUpMultiple(len, PAGE_SIZE);
      UnmapRangeStart(t, 0, v);
      for i := 0 to pageNum
        invariant Valid() && UnmapRangePost(t, T(), 0, v, i)
      {
        ghost var t1 := T();
        PageOf(ipa, i);
        UnmapRangeUnblocked(t, t1, 0, v, i, v + i);
        Unmap(ipa + i * PAGE_SIZE);
        UnmapRangeStep(t, t1, T(), 0, v, i);
      }
    }

    /** unmap_range_2mb */
    method UnmapRange2mb(ipa: nat, len: nat)
      requires Valid() && ipa % SIZE_2MB == 0 && ipa + RoundUp(len, SIZE_2MB) <= Span()
      requires forall s: nat :: ipa / SIZE_2MB <= s < ipa / SIZE_2MB + RoundUp(len, SIZE_2MB) / SIZE_2MB ==> Key(1, s) !in at
      modifies this
      ensures Valid() && UnmapRangePost(old(T()), T(), 1, ipa / SIZE_2MB, RoundUp(len, SIZE_2MB) / SIZE_2MB)
    {
      hide Inv, Owned, UnmapPost, UnmapRangePost, Up;
      var pageNum: nat := RoundUp(len, SIZE_2MB) / SIZE_2MB;
      ghost var t, s: nat := T(), ipa / SIZE_2MB;
      RoundUpMultiple(len, SIZE_2MB);
      UnmapRangeStart(t, 1, s);
      for i := 0 to pageNum
        invariant Valid() && UnmapRangePost(t, T(), 1, s, i)
      {
        ghost var t1 := T();
        BlockOf(ipa, i);
        UnmapRangeKeys(t, t1, 1, s, i, Key(1, s + i));
        Unmap2mb(ipa + i * SIZE_2MB);
        UnmapRangeStep(t, t1, T(), 1, s, i);
      }
    }

    /** The walk show_pt makes and the hardware repeats: it computes the translation. */
    method Walk(ipa: nat) returns (r: Option<(nat, nat)>)
      requires Valid() && ipa < Span()
      ensures var o := Lookup(T(), ipa / PAGE_SIZE);
        r == if o.None? then None else Some((o.value.pa + ipa % PAGE_SIZE, o.value.attr))
    {
      hide Inv, Owned, Piece, PtLvl0Idx, PtLvl1Idx, PtLvl2Idx, PtLvl3Idx, Up, Pos, Word, ToPa, Attr, IsFrame;
      ghost var v: nat, t := ipa / PAGE_SIZE, T();
      Indices(ipa);
      Pieces(v);
      RootKey(t);
      var l0 := directory;
      if lvl4 {
        Descend(t, 3, Piece(v, 3));
        var l0e := Entry(directory, PtLvl0Idx(ipa));
        if !IsValid(l0e) {
          Absent(t, v, 3);
          return None;
        }
        l0 := ToPa(l0e);
      }
      Descend(t, 2, Piece(v, 2));
      var l1e := Entry(l0, PtLvl1Idx(ipa));
      if !IsValid(l1e) {
        Absent(t, v, 2);
        return None;
      }
      Descend(t, 1, Piece(v, 1));
      var l2e := Entry(ToPa(l1e), PtLvl2Idx(ipa));
      if !IsValid(l2e) {
        return None;
      }
      if l2e % 4 == PTE_BLOCK {
        BlockOffset(ipa);
        return Some((ToPa(l2e) + ipa % SIZE_2MB, Attr(l2e)));
      }
      Descend(t, 0, v);
      var l3e := Entry(ToPa(l2e), PtLvl3Idx(ipa));
      if !IsValid(l3e) {
        return None;
      }
      return Some((ToPa(l3e) + ipa % PAGE_SIZE, Attr(l3e)));
    }

    /** PageTable::new with a zeroed directory. */
    constructor (lvl4: bool, directory: nat, mem: map<nat, seq<nat>>, free: seq<nat>)
      requires IsFrame(directory) && directory in mem && Zero(mem[directory])
      requires NoDup(free) && directory !in free && forall f :: f in free ==> IsFrame(f)
      ensures Valid() && NoEmpty(T()) && pages == [] && this.free == free && this.lvl4 == lvl4
      ensures forall u: nat :: Lookup(T(), u) == None
    {
      this.lvl4, this.directory, this.mem, this.free := lvl4, directory, mem, free;
      pages := [];
      at := map[Key(if lvl4 then 4 else 3, 0) := directory];
      pool := set f | f in free;
      new;
    }

    /** pt_map_range */
    method PtMapRange(ipa: nat, len: nat, pa: nat, pte: nat, mapBlock: bool)
      requires Valid() && IsAttr(pte) && IsFrame(pa)
      requires var blocks := ipa % SIZE_2MB == 0 && len % SIZE_2MB == 0 && pa % SIZE_2MB == 0 && mapBlock;
        !blocks ==>
          && ipa % PAGE_SIZE == 0
          && forall u: nat :: ipa / PAGE_SIZE <= u < ipa / PAGE_SIZE + RoundUp(len, PAGE_SIZE) / PAGE_SIZE ==> !Blocked(T(), u)
      requires ipa + RoundUp(len, PAGE_SIZE) <= Span() && pa + RoundUp(len, PAGE_SIZE) <= ADDRESS_TOP
      modifies this
      ensures Valid()
      ensures var n := RoundUp(len, PAGE_SIZE) / PAGE_SIZE;
        RangePost(old(T()), T(), ipa / PAGE_SIZE, n, pa, pte, |old(free)|, |free|,
                  ipa % SIZE_2MB == 0 && len % SIZE_2MB == 0 && pa % SIZE_2MB == 0 && mapBlock)
    {
      hide Inv, Owned, RangePost, MapRangePost, BlockRangePost, Blocked, IsAttr;
      ghost var t, n: nat, free0: nat := T(), RoundUp(len, PAGE_SIZE) / PAGE_SIZE, |free|;
      if ipa % SIZE_2MB == 0 && len % SIZE_2MB == 0 && pa % SIZE_2MB == 0 && mapBlock {
        AlignedLen(ipa, len);
        MapRange2mb(ipa, len, pa, pte);
        BlocksAsRange(t, T(), ipa / SIZE_2MB, len / SIZE_2MB, pa, pte, free0, |free|);
      } else {
        MapRange(ipa, len, pa, pte);
        PagesAsRange(t, T(), ipa / PAGE_SIZE, n, pa, pte, free0, |free|);
      }
    }

    /** pt_unmap_range */
    method PtUnmapRange(ipa: nat, len: nat, mapBlock: bool)
      requires Valid() && ipa % PAGE_SIZE == 0 && ipa + RoundUp(len, PAGE_SIZE) <= Span()
      requires if ipa % SIZE_2MB == 0 && len % SIZE_2MB == 0 && mapBlock
        then forall s: nat :: ipa / SIZE_2MB <= s < ipa / SIZE_2MB + len / SIZE_2MB ==> Key(1, s) !in at
        else forall u: nat :: ipa / PAGE_SIZE <= u < ipa / PAGE_SIZE + RoundUp(len, PAGE_SIZE) / PAGE_SIZE ==> !Blocked(T(), u)
      modifies this
      ensures Valid() && UnmapRangePost(old(T()), T(), 0, ipa / PAGE_SIZE, RoundUp(len, PAGE_SIZE) / PAGE_SIZE)
    {
      hide Inv, Owned, UnmapRangePost, Blocked;
      ghost var t := T();
      if ipa % SIZE_2MB == 0 && len % SIZE_2MB == 0 && mapBlock {
        AlignedLen(ipa, len);
        UnmapRange2mb(ipa, len);
        BlocksUnmapped(t, T(), ipa / SIZE_2MB, len / SIZE_2MB);
      } else {
        UnmapRange(ipa, len);
      }
    }
  }

  // ---- mapping ---------------------------------------------------------------------------------

  /** What the way down to the table of height h for page v does, when free frames were left. */
  ghost predicate PathPost(t: Tables, t': Tables, v: nat, h: nat, next: Option<nat>, free: nat, free': nat) {
    && SameLookup(t, t') && Spent(t, t', v, h, free, free') && (next.None? <==> free < Missing(t, v, h))
    && (forall k :: k in t'.at ==> k in t.at || k.h >= h)
    && LowWords(t, t', h)
    && (next.Some? ==>
         && Key(h, Piece(v, h)) in t'.at && t'.at[Key(h, Piece(v, h))] == next.value
         && (NoEmpty(t) ==> NoEmptyBut(t', Key(h, Piece(v, h)))))
  }

  ghost predicate LowWords(t: Tables, t': Tables, h: nat) {
    forall h': nat, s: nat :: h' < h ==> Word(t', h', s) == Word(t, h', s)
  }

  lemma PathStart(t: Tables, v: nat, free: nat)
    requires Inv(t) && Piece(v, t.depth) == 0
    ensures PathPost(t, t, v, t.depth, Some(t.root), free, free)
  {
    hide KeysOk, NoSharing, AllHang, WordsOk, Word;
  }

  lemma PathStep(t: Tables, t1: Tables, t2: Tables, v: nat, h: nat, f: nat, next: Option<nat>, free: nat, free1: nat, free2: nat)
    requires PathPost(t, t1, v, h + 1, Some(f), free, free1) && 1 <= h < t.depth
    requires NextPost(t1, t2, h, Piece(v, h), next, free1, free2)
    ensures PathPost(t, t2, v, h, next, free, free2)
  {
    hide Word, Lookup, NoEmptyBut, NoEmpty, Spent, Missing;
    assert Up(Piece(v, h)) == Piece(v, h + 1);
    assert SameLookup(t, t2);
    SpentStep(t, t1, t2, v, h, next.Some?, free, free1, free2);
  }

  lemma SpentStep(t: Tables, t1: Tables, t2: Tables, v: nat, h: nat, ok: bool, free: nat, free1: nat, free2: nat)
    requires Spent(t, t1, v, h + 1, free, free1) && free >= Missing(t, v, h + 1) && h < t.depth
    requires Within(t1.at, t2.at) && t2.depth == t1.depth && t2.root == t1.root
    requires var k := Key(h, Piece(v, h));
      if ok then t2.at.Keys == t1.at.Keys + {k} && free1 == free2 + (if k in t1.at then 0 else 1)
      else free1 == 0 && free2 == 0 && k !in t1.at && t2 == t1
    ensures Spent(t, t2, v, h, free, free2) && (ok <==> free >= Missing(t, v, h))
  {
    hide Missing, Path, Piece, Within;
    PathIs(t.depth, v, h);
    MissingStep(t, v, h);
    WithinOn(t.at, t1.at, t2.at);
    if ok {
      assert t2.at.Keys == t.at.Keys + Path(t.depth, v, h);
    }
  }

  lemma PathIs(depth: nat, v: nat, h: nat)
    requires h < depth
    ensures Path(depth, v, h) == Path(depth, v, h + 1) + {Key(h, Piece(v, h))} && Key(h, Piece(v, h)) !in Path(depth, v, h + 1)
  {
    hide Piece;
  }

  lemma WithinOn(at: map<Key, nat>, at1: map<Key, nat>, at2: map<Key, nat>)
    requires Within(at, at1) && Within(at1, at2)
    ensures Within(at, at2)
  {
  }

  lemma PathFail(t: Tables, t': Tables, v: nat, h: nat, free: nat)
    requires PathPost(t, t', v, h + 1, None, free, 0) && h < t.depth
    ensures PathPost(t, t', v, h, None, free, 0)
  {
    hide Word, SameLookup, NoEmpty;
    MissingStep(t, v, h);
  }

  lemma OneMore(p: set<Key>, k: Key, keys: set<Key>)
    requires k !in p
    ensures |p + {k} - keys| == |p - keys| + if k in keys then 0 else 1
  {
    if k in keys {
      assert p + {k} - keys == p - keys;
    } else {
      assert p + {k} - keys == p - keys + {k};
    }
  }

  lemma MissingStep(t: Tables, v: nat, h: nat)
    requires h < t.depth
    ensures Missing(t, v, h) == Missing(t, v, h + 1) + if Key(h, Piece(v, h)) in t.at then 0 else 1
  {
    OneMore(Path(t.depth, v, h + 1), Key(h, Piece(v, h)), t.at.Keys);
  }

  /** What map does, when free frames were left. */
  ghost predicate MapPost(t: Tables, t': Tables, v: nat, pa: nat, pte: nat, free: nat, free': nat) {
    && Spent(t, t', v, 1, free, free')
    && (if free < Missing(t, v, 1) then SameLookup(t, t') else Mapped(t, t', v, pa, pte) && (NoEmpty(t) ==> NoEmpty(t')))
  }

  lemma LeafNoEmpty(t: Tables, t': Tables, h: nat, s: nat, w: nat)
    requires Rewritten(t, t', h, s, w) && w != 0 && t'.at == t.at && h <= 1
    ensures NoEmptyBut(t, Key(h + 1, Up(s))) ==> NoEmpty(t')
  {
    hide Word, Rewritten;
    if NoEmptyBut(t, Key(h + 1, Up(s))) {
      FilledNoEmpty(t, t', h, s, w, Key(0, 0));
    }
  }

  lemma LeafMapped(t: Tables, t1: Tables, t2: Tables, v: nat, pa: nat, pte: nat)
    requires SameLookup(t, t1) && Key(1, Up(v)) in t1.at && Word(t1, 0, v) == 0 && t2.at == t1.at
    requires IsFrame(pa) && IsAttr(pte) && Rewritten(t1, t2, 0, v, pa + PTE_TABLE + pte)
    ensures Mapped(t, t2, v, pa, pte)
  {
    var w: nat := pa + PTE_TABLE + pte;
    Descriptor(pa, pte, PTE_PAGE);
    hide Word, Rewritten, IsFrame, IsAttr, ToPa, Attr;
    forall u: nat ensures Lookup(t2, u) == if u == v && Lookup(t, u).None? then Some(Hit(pa, pte, false)) else Lookup(t, u) {
      assert Lookup(t1, u) == Lookup(t, u);
      assert Piece(u, 0) == u;
      LeafLookup(t1, t2, 0, v, w, u);
    }
  }

  /** The page descriptor is written where there was none. */
  lemma MapLeaf(t: Tables, t1: Tables, t2: Tables, v: nat, pa: nat, pte: nat, f: nat, free: nat, free1: nat)
    requires Key(1, Up(v)) in t1.at && KeyOk(t1, Key(1, Up(v))) && t2 == Put(t1, 0, v, pa + PTE_TABLE + pte)
    requires Inv(t1) && PathPost(t, t1, v, 1, Some(f), free, free1) && Word(t1, 0, v) == 0
    requires IsFrame(pa) && IsAttr(pte)
    ensures Inv(t2) && t2.at == t1.at && MapPost(t, t2, v, pa, pte, free, free1)
  {
    hide Inv, Word, Put, NoEmptyBut, NoEmpty, Missing, KeyOk, SameLookup, Mapped, Rewritten, LowWords, Piece, Up, ToPa, Attr, IsFrame, IsAttr;
    var w: nat := pa + PTE_TABLE + pte;
    Pieces(v);
    Descend(t1, 0, v);
    Descriptor(pa, pte, PTE_PAGE);
    PutShape(t1, 0, v, w);
    PutLeaf(t1, 0, v, w);
    LeafNoEmpty(t1, t2, 0, v, w);
    LeafMapped(t, t1, t2, v, pa, pte);
  }

  /** The page was mapped: nothing is written. */
  lemma MapThere(t: Tables, t1: Tables, v: nat, pa: nat, pte: nat, f: nat, free: nat, free1: nat)
    requires PathPost(t, t1, v, 1, Some(f), free, free1) && Word(t1, 0, v) != 0
    ensures MapPost(t, t1, v, pa, pte, free, free1)
  {
    assert Piece(v, 1) == Up(v);
    hide Word, Missing, NoEmpty, NoEmptyBut, Mapped, SameLookup, LowWords;
    if NoEmpty(t) {
      StayStep(t1, 0, v);
    }
  }

  lemma Pieces(v: nat)
    ensures Piece(v, 4) == Up(Piece(v, 3)) && Piece(v, 3) == Up(Piece(v, 2)) && Piece(v, 2) == Up(Piece(v, 1))
    ensures Up(0) == 0
    ensures Piece(v, 1) == Up(v) && Piece(v, 0) == v
  {
  }

  /** What map_2mb does. */
  ghost predicate BlockPost(t: Tables, t': Tables, v: nat, pa: nat, pte: nat, free: nat, free': nat) {
    && (forall k :: k in t'.at ==> k in t.at || k.h >= 2)
    && Spent(t, t', v, 2, free, free')
    && (if free < Missing(t, v, 2) then SameLookup(t, t') else BlockMapped(t, t', Up(v), pa, pte) && (NoEmpty(t) ==> NoEmpty(t')))
  }

  lemma LeafBlockMapped(t: Tables, t1: Tables, t2: Tables, s: nat, pa: nat, pte: nat)
    requires SameLookup(t, t1) && Key(1, s) !in t1.at && Within(t.at, t1.at) && Word(t1, 1, s) == 0 && t2.at == t1.at
    requires IsFrame(pa) && IsAttr(pte) && Rewritten(t1, t2, 1, s, pa + PTE_BLOCK + pte)
    ensures BlockMapped(t, t2, s, pa, pte)
  {
    var w: nat := pa + PTE_BLOCK + pte;
    Descriptor(pa, pte, PTE_BLOCK);
    hide Word, Rewritten, IsFrame, IsAttr, ToPa, Attr, Up, Pos;
    forall u: nat ensures Lookup(t2, u) ==
      if Up(u) == s && Key(1, s) !in t.at && Lookup(t, u).None? then Some(Hit(pa + Pos(u) * PAGE_SIZE, pte, true)) else Lookup(t, u)
    {
      assert Lookup(t1, u) == Lookup(t, u);
      Pieces(u);
      LeafLookup(t1, t2, 1, s, w, u);
    }
  }

  lemma MapBlock(t: Tables, t1: Tables, t2: Tables, v: nat, pa: nat, pte: nat, f: nat, free: nat, free1: nat)
    requires Key(2, Up(Up(v))) in t1.at && KeyOk(t1, Key(2, Up(Up(v)))) && t2 == Put(t1, 1, Up(v), pa + PTE_BLOCK + pte)
    requires Inv(t1) && PathPost(t, t1, v, 2, Some(f), free, free1) && Word(t1, 1, Up(v)) == 0
    requires IsFrame(pa) && IsAttr(pte)
    ensures Inv(t2) && t2.at == t1.at && BlockPost(t, t2, v, pa, pte, free, free1)
  {
    hide Inv, Word, Put, NoEmptyBut, NoEmpty, Missing, KeyOk, SameLookup, BlockMapped, Rewritten, LowWords, Piece, Up, ToPa, Attr, IsFrame, IsAttr;
    var w: nat := pa + PTE_BLOCK + pte;
    Pieces(v);
    Descend(t1, 1, Up(v));
    Descriptor(pa, pte, PTE_BLOCK);
    PutShape(t1, 1, Up(v), w);
    RootKey(t1);
    PutLeaf(t1, 1, Up(v), w);
    LeafNoEmpty(t1, t2, 1, Up(v), w);
    LeafBlockMapped(t, t1, t2, Up(v), pa, pte);
  }

  lemma MapBlockThere(t: Tables, t1: Tables, v: nat, pa: nat, pte: nat, f: nat, free: nat, free1: nat)
    requires PathPost(t, t1, v, 2, Some(f), free, free1) && Word(t1, 1, Up(v)) != 0 && Inv(t1)
    ensures BlockPost(t, t1, v, pa, pte, free, free1)
  {
    hide Word, Missing, NoEmpty, NoEmptyBut, BlockMapped, SameLookup, LowWords, Up, Inv;
    Pieces(v);
    if NoEmpty(t) {
      StayStep(t1, 1, Up(v));
    }
    BlockThere(t, t1, Up(v), pa, pte);
  }

  lemma BlockThere(t: Tables, t1: Tables, s: nat, pa: nat, pte: nat)
    requires SameLookup(t, t1) && Word(t1, 1, s) != 0
    requires forall k :: k in t1.at && k.h == 1 ==> k in t.at
    ensures BlockMapped(t, t1, s, pa, pte)
  {
    hide Word, Up, Pos, ToPa, Attr;
    forall u: nat ensures Lookup(t1, u) ==
      if Up(u) == s && Key(1, s) !in t.at && Lookup(t, u).None? then Some(Hit(pa + Pos(u) * PAGE_SIZE, pte, true)) else Lookup(t, u)
    {
      assert Lookup(t1, u) == Lookup(t, u);
    }
  }

  lemma BlockFailed(t: Tables, t1: Tables, v: nat, pa: nat, pte: nat, free: nat, free1: nat)
    requires PathPost(t, t1, v, 2, None, free, free1)
    ensures BlockPost(t, t1, v, pa, pte, free, free1)
  {
    hide SameLookup, NoEmpty, LowWords, BlockMapped, Missing;
  }

  lemma MapFailed(t: Tables, t1: Tables, v: nat, pa: nat, pte: nat, free: nat, free1: nat)
    requires PathPost(t, t1, v, 1, None, free, free1)
    ensures MapPost(t, t1, v, pa, pte, free, free1)
  {
    hide SameLookup, NoEmpty, LowWords, Mapped, Missing;
  }

  lemma StillUnblocked(t: Tables, t1: Tables, v: nat, f: nat, free: nat, free1: nat)
    requires PathPost(t, t1, v, 2, Some(f), free, free1) && !Blocked(t, v)
    ensures Word(t1, 1, Piece(v, 1)) % 4 != PTE_BLOCK
  {
    hide Word, SameLookup, NoEmpty, NoEmptyBut, Within, Missing, Up;
    Pieces(v);
  }

  lemma RootKey(t: Tables)
    requires Inv(t)
    ensures 3 <= t.depth <= 4
    ensures Key(t.depth, 0) in t.at && t.at[Key(t.depth, 0)] == t.root
  {
  }

  lemma PathNone(t: Tables, t': Tables, v: nat, h: nat, free: nat, free': nat)
    requires PathPost(t, t', v, h, None, free, free')
    ensures free' == 0
  {
  }

  lemma PathTable(t: Tables, t': Tables, v: nat, h: nat, f: nat, free: nat, free': nat)
    requires PathPost(t, t', v, h, Some(f), free, free')
    ensures Key(h, Piece(v, h)) in t'.at && t'.at[Key(h, Piece(v, h))] == f && t'.depth == t.depth
  {
  }

  lemma PutIs(t: Tables, h: nat, s: nat, w: nat, mem: map<nat, seq<nat>>)
    requires Key(h + 1, Up(s)) in t.at && KeyOk(t, Key(h + 1, Up(s)))
    requires var f := t.at[Key(h + 1, Up(s))]; var words: seq<nat> := t.mem[f][Pos(s) := w]; mem == t.mem[f := words]
    ensures t.(mem := mem) == Put(t, h, s, w)
  {
  }

  lemma KeyFrame(t: Tables, k: Key)
    requires Inv(t) && k in t.at
    ensures IsFrame(t.at[k]) && t.at[k] in t.mem && |t.mem[t.at[k]]| == 512 && 1 <= k.h <= t.depth
    ensures forall i, j :: i in t.at && j in t.at && t.at[i] == t.at[j] ==> i == j
  {
    hide AllHang, WordsOk;
    KeyOf(t, k);
  }

  lemma FreeFresh(at: map<Key, nat>, depth: nat, pages: seq<nat>, free: seq<nat>, pool: set<nat>, t: Tables)
    requires Owned(at, depth, pages, free, pool) && t.at == at
    ensures free != [] ==> Fresh(t, free[0])
  {
  }

  // ---- unmapping -------------------------------------------------------------------------------

  /** The state of unmapping piece s of height h when table x may have become empty. */
  ghost predicate Backed(t: Tables, t': Tables, h: nat, s: nat, x: Key) {
    && Unmapped(t, t', h, s) && Within(t'.at, t.at) && t'.depth == t.depth && t'.root == t.root
    && (forall k :: k in t.at && k.h >= 3 ==> k in t'.at)
    && (NoEmpty(t) ==> NoEmptyBut(t', x))
  }

  /** What unmapping piece s of height h does: tables are only removed, none of height 3,
      and if no table was empty none is. */
  ghost predicate UnmapPost(t: Tables, t': Tables, h: nat, s: nat) {
    && Unmapped(t, t', h, s) && Within(t'.at, t.at) && t'.depth == t.depth && t'.root == t.root
    && (forall k :: k in t.at && k.h >= 3 ==> k in t'.at)
    && (NoEmpty(t) ==> NoEmpty(t'))
  }

  lemma ClearLeaf(t: Tables, t1: Tables, h: nat, s: nat)
    requires Key(h + 1, Up(s)) in t.at && KeyOk(t, Key(h + 1, Up(s))) && t1 == Put(t, h, s, 0)
    requires Inv(t) && h <= 1 && Key(h, s) !in t.at
    ensures Inv(t1) && t1.at == t.at && Backed(t, t1, h, s, Key(h + 1, Up(s)))
  {
    hide Inv, Put, Word, KeyOk, NoEmptyBut, NoEmpty, Up, Rewritten, Unmapped;
    PutShape(t, h, s, 0);
    PutLeaf(t, h, s, 0);
    if NoEmpty(t) {
      NoEmptyAny(t, Key(0, 0));
      NoKeyZero(t);
      ClearedNoEmpty(t, t1, h, s, Key(0, 0));
    }
    ClearedLookup(t, t1, h, s);
  }

  lemma NoEmptyAny(t: Tables, x: Key)
    requires NoEmpty(t)
    ensures NoEmptyBut(t, x)
  {
  }

  lemma NoKeyZero(t: Tables)
    requires Inv(t)
    ensures forall k :: k in t.at ==> k != Key(0, 0)
  {
    hide AllHang, NoSharing, WordsOk, Word;
    if Key(0, 0) in t.at {
      KeyOf(t, Key(0, 0));
    }
  }

  lemma ClearedLookup(t: Tables, t1: Tables, h: nat, s: nat)
    requires Rewritten(t, t1, h, s, 0) && t1.at == t.at && h <= 1 && Key(h, s) !in t.at
    requires Inv(t) && Key(h + 1, Up(s)) in t.at
    ensures Unmapped(t, t1, h, s)
  {
    hide Rewritten, Lookup, Inv, Up, Word;
    NoKeyZero(t);
    forall u: nat ensures Lookup(t1, u) == if Piece(u, h) == s then None else Lookup(t, u) {
      LeafLookup(t, t1, h, s, 0, u);
    }
  }

  lemma BackedKeep(t: Tables, t1: Tables, h: nat, s: nat, x: Key)
    requires Backed(t, t1, h, s, x) && x.h >= 1 && (x.h == 3 || NonEmpty(t1, x.h - 1, x.n))
    ensures UnmapPost(t, t1, h, s)
  {
    hide Unmapped, NonEmpty;
  }

  lemma BackedDrop(t: Tables, t1: Tables, t2: Tables, h: nat, s: nat, h1: nat, s1: nat)
    requires Backed(t, t1, h, s, Key(h1, s1)) && Dropped(t1, t2, h1, s1) && h1 <= 2 && Inv(t1)
    ensures Inv(t2) && Backed(t, t2, h, s, Key(h1 + 1, Up(s1)))
  {
    hide Inv, KeysOk, Rewritten, Unmapped, NoEmptyBut, NoEmpty, Word, Up;
    DroppedInv(t1, t2, h1, s1);
    DroppedLookup(t1, t2, h1, s1);
    if NoEmpty(t) {
      ClearedNoEmpty(t1, t2, h1, s1, Key(h1, s1));
    }
    UnmappedOn(t, t1, t2, h, s);
  }

  lemma UnmappedOn(t: Tables, t1: Tables, t2: Tables, h: nat, s: nat)
    requires Unmapped(t, t1, h, s) && SameLookup(t1, t2)
    ensures Unmapped(t, t2, h, s)
  {
    hide Lookup;
    forall u: nat ensures Lookup(t2, u) == if Piece(u, h) == s then None else Lookup(t, u) {
      assert Lookup(t2, u) == Lookup(t1, u);
    }
  }

  /** Where a table on the way is missing, and with it the word below, the page is not mapped. */
  lemma {:induction false} Absent(t: Tables, v: nat, h: nat)
    requires Inv(t) && 1 <= h < t.depth && Key(h, Piece(v, h)) !in t.at && Word(t, h, Piece(v, h)) == 0
    ensures Lookup(t, v) == None && (forall i: nat :: 1 <= i <= h ==> Key(i, Piece(v, i)) !in t.at)
    ensures Word(t, 1, Up(v)) == 0
    decreases h
  {
    hide Inv, Word, Up, KeyOk;
    Pieces(v);
    if h > 1 {
      assert Piece(v, h) == Up(Piece(v, h - 1));
      if Key(h - 1, Piece(v, h - 1)) in t.at {
        HangsAt(t, Key(h - 1, Piece(v, h - 1)));
        assert false;
      }
      MissingWord(t, h - 1, Piece(v, h - 1));
      Absent(t, v, h - 1);
    }
  }

  lemma MissingWord(t: Tables, h: nat, s: nat)
    requires Key(h + 1, Up(s)) !in t.at
    ensures Word(t, h, s) == 0
  {
  }

  /** Nothing to unmap: the piece is not translated. */
  lemma AbsentPost(t: Tables, h: nat, s: nat)
    requires forall u: nat :: Piece(u, h) == s ==> Lookup(t, u) == None
    ensures UnmapPost(t, t, h, s)
  {
    hide Lookup;
  }

  lemma AbsentPage(t: Tables, v: nat, h: nat)
    requires Inv(t) && h < t.depth && Word(t, h, Piece(v, h)) == 0
    requires if h == 0 then Key(1, Up(v)) in t.at else Key(h, Piece(v, h)) !in t.at
    ensures UnmapPost(t, t, 0, v)
  {
    hide Inv, Word, UnmapPost;
    Pieces(v);
    if h > 0 {
      Absent(t, v, h);
    } else {
      assert Lookup(t, v) == None;
    }
    assert forall u: nat :: Piece(u, 0) == u;
    AbsentPost(t, 0, v);
  }

  lemma AbsentBlock(t: Tables, v: nat, h: nat)
    requires Inv(t) && 1 <= h < t.depth && Word(t, h, Piece(v, h)) == 0 && Key(h, Piece(v, h)) !in t.at
    ensures UnmapPost(t, t, 1, Up(v))
  {
    hide Inv, Word, UnmapPost, Up;
    Pieces(v);
    Absent(t, v, h);
    forall u: nat | Piece(u, 1) == Up(v) ensures Lookup(t, u) == None {
      Pieces(u);
    }
    AbsentPost(t, 1, Up(v));
  }

  predicate Zero(words: seq<nat>) {
    |words| == 512 && forall i :: 0 <= i < 512 ==> words[i] == 0
  }

  /** Which words a table in a frame holds. */
  lemma TableWords(t: Tables, h: nat, n: nat)
    requires Inv(t) && Key(h + 1, n) in t.at
    ensures KeyOk(t, Key(h + 1, n))
    ensures if Zero(t.mem[t.at[Key(h + 1, n)]]) then Barren(t, h, n) else NonEmpty(t, h, n)
  {
    KeyOf(t, Key(h + 1, n));
    hide Inv;
    var words := t.mem[t.at[Key(h + 1, n)]];
    if !Zero(words) {
      var i :| 0 <= i < 512 && words[i] != 0;
      assert Word(t, h, n * 512 + i) != 0;
    }
  }

  // ---- ranges ------------------------------------------------------------------------------------

  /** A page is in a block exactly when a block translates it. */
  lemma BlockedIsHit(t: Tables, u: nat)
    requires Inv(t)
    ensures Blocked(t, u) <==> Lookup(t, u).Some? && Lookup(t, u).value.block
  {
    hide KeysOk, NoSharing, Word, ToPa, Attr;
    assert WordOk(t, 1, Up(u));
    if Key(1, Up(u)) in t.at {
      HangsAt(t, Key(1, Up(u)));
      Descend(t, 1, Up(u));
    }
  }

  /** The i-th page number of a range in steps of k. */
  function Nth(v: nat, k: nat, i: nat): nat {
    v + i * k
  }

  /** The tables of height h and more on the way to the first n of them. */
  ghost function Paths(depth: nat, v: nat, k: nat, n: nat, h: nat): set<Key> {
    if n == 0 then {} else Paths(depth, v, k, n - 1, h) + Path(depth, Nth(v, k, n - 1), h)
  }

  /** How many of these tables do not exist yet. */
  ghost function Need(t: Tables, v: nat, k: nat, n: nat, h: nat): nat {
    |Paths(t.depth, v, k, n, h) - t.at.Keys|
  }

  /** The table of the i-th exists, or there are frames for all that is missing up to there. */
  ghost predicate Fits(t: Tables, v: nat, k: nat, i: nat, h: nat, free: nat) {
    Key(h, Piece(Nth(v, k, i), h)) in t.at || Need(t, v, k, i + 1, h) <= free
  }

  /** x is the table of one of the first n, made while there were frames for it. */
  ghost predicate Made(t: Tables, v: nat, k: nat, n: nat, h: nat, free: nat, x: Key) {
    exists i: nat :: i < n && Key(h, Piece(Nth(v, k, i), h)) == x && Need(t, v, k, i + 1, h) <= free
  }

  /** What an operation on the first n of a range does with the free frames. */
  ghost predicate Supplied(t: Tables, t': Tables, v: nat, k: nat, n: nat, h: nat, free: nat, free': nat) {
    && Within(t.at, t'.at) && t'.depth == t.depth && t'.root == t.root
    && (if Need(t, v, k, n, h) <= free
        then free' == free - Need(t, v, k, n, h) && t'.at.Keys == t.at.Keys + Paths(t.depth, v, k, n, h)
        else free' == 0)
    && (forall x :: x in t'.at && x.h <= h ==> x in t.at || (x.h == h && Made(t, v, k, n, h, free, x)))
  }

  /** The n pages from v on are mapped, in order, where they were not and their tables fit. */
  ghost predicate RangeMapped(t: Tables, t': Tables, v: nat, n: nat, pa: nat, pte: nat, free: nat) {
    forall u: nat :: Lookup(t', u) ==
      if v <= u < v + n && Lookup(t, u).None? && Fits(t, v, 1, u - v, 1, free)
      then Some(Hit(pa + (u - v) * PAGE_SIZE, pte, false)) else Lookup(t, u)
  }

  /** The n pieces of 2 MB from s on are mapped, in order, where they were not and their tables fit. */
  ghost predicate RangeBlocks(t: Tables, t': Tables, s: nat, n: nat, pa: nat, pte: nat, free: nat) {
    forall u: nat :: Lookup(t', u) ==
      if s <= Up(u) < s + n && Key(1, Up(u)) !in t.at && Lookup(t, u).None? && Fits(t, s * 512, 512, Up(u) - s, 2, free)
      then Some(Hit(pa + (Up(u) - s) * SIZE_2MB + Pos(u) * PAGE_SIZE, pte, true)) else Lookup(t, u)
  }

  /** The n pieces of height h from s on are not mapped any more. */
  ghost predicate RangeUnmapped(t: Tables, t': Tables, h: nat, s: nat, n: nat) {
    forall u: nat :: Lookup(t', u) == if s <= Piece(u, h) < s + n then None else Lookup(t, u)
  }

  lemma RangeMappedStep(t: Tables, t1: Tables, t2: Tables, v: nat, i: nat, pa: nat, pte: nat, free: nat)
    requires RangeMapped(t, t1, v, i, pa, pte, free)
    requires if Fits(t, v, 1, i, 1, free) then Mapped(t1, t2, v + i, pa + i * PAGE_SIZE, pte) else SameLookup(t1, t2)
    ensures RangeMapped(t, t2, v, i + 1, pa, pte, free)
  {
    hide Lookup, Fits;
    forall u: nat ensures Lookup(t2, u) ==
      if v <= u < v + (i + 1) && Lookup(t, u).None? && Fits(t, v, 1, u - v, 1, free)
      then Some(Hit(pa + (u - v) * PAGE_SIZE, pte, false)) else Lookup(t, u)
    {
      assert Lookup(t1, u) == Lookup(t1, u);
    }
  }

  lemma RangeBlocksStep(t: Tables, t1: Tables, t2: Tables, s: nat, i: nat, pa: nat, pte: nat, free: nat)
    requires RangeBlocks(t, t1, s, i, pa, pte, free)
    requires if Fits(t, s * 512, 512, i, 2, free) then BlockMapped(t1, t2, s + i, pa + i * SIZE_2MB, pte) else SameLookup(t1, t2)
    requires Key(1, s + i) in t1.at <==> Key(1, s + i) in t.at
    ensures RangeBlocks(t, t2, s, i + 1, pa, pte, free)
  {
    hide Lookup, Up, Pos, Fits;
    forall u: nat ensures Lookup(t2, u) ==
      if s <= Up(u) < s + (i + 1) && Key(1, Up(u)) !in t.at && Lookup(t, u).None? && Fits(t, s * 512, 512, Up(u) - s, 2, free)
      then Some(Hit(pa + (Up(u) - s) * SIZE_2MB + Pos(u) * PAGE_SIZE, pte, true)) else Lookup(t, u)
    {
      assert Lookup(t1, u) == Lookup(t1, u);
    }
  }

  lemma RangeUnmappedStep(t: Tables, t1: Tables, t2: Tables, h: nat, s: nat, i: nat)
    requires RangeUnmapped(t, t1, h, s, i) && Unmapped(t1, t2, h, s + i)
    ensures RangeUnmapped(t, t2, h, s, i + 1)
  {
    hide Lookup, Piece;
    forall u: nat ensures Lookup(t2, u) == if s <= Piece(u, h) < s + (i + 1) then None else Lookup(t, u) {
      assert Lookup(t1, u) == Lookup(t1, u);
    }
  }

  /** What mapping a range does, when free frames were left. */
  ghost predicate MapRangePost(t: Tables, t': Tables, v: nat, n: nat, pa: nat, pte: nat, free: nat, free': nat) {
    && Supplied(t, t', v, 1, n, 1, free, free') && RangeMapped(t, t', v, n, pa, pte, free)
    && (NoEmpty(t) && Need(t, v, 1, n, 1) <= free ==> NoEmpty(t'))
  }

  ghost predicate BlockRangePost(t: Tables, t': Tables, s: nat, n: nat, pa: nat, pte: nat, free: nat, free': nat) {
    && Supplied(t, t', s * 512, 512, n, 2, free, free') && RangeBlocks(t, t', s, n, pa, pte, free)
    && (NoEmpty(t) && Need(t, s * 512, 512, n, 2) <= free ==> NoEmpty(t'))
  }

  ghost predicate UnmapRangePost(t: Tables, t': Tables, h: nat, s: nat, n: nat) {
    && RangeUnmapped(t, t', h, s, n) && Within(t'.at, t.at) && t'.depth == t.depth && t'.root == t.root
    && (forall k :: k in t.at && k.h >= 3 ==> k in t'.at)
    && (NoEmpty(t) ==> NoEmpty(t'))
  }

  lemma MapRangeStart(t: Tables, v: nat, s: nat, pa: nat, pte: nat, free: nat)
    ensures MapRangePost(t, t, v, 0, pa, pte, free, free) && BlockRangePost(t, t, s, 0, pa, pte, free, free)
  {
    hide Lookup, Up;
  }

  lemma UnmapRangeStart(t: Tables, h: nat, s: nat)
    ensures UnmapRangePost(t, t, h, s, 0)
  {
    hide Lookup, Piece;
  }

  lemma MapRangeStep(t: Tables, t1: Tables, t2: Tables, v: nat, i: nat, pa: nat, pte: nat, free: nat, free1: nat, free2: nat)
    requires Inv(t) && Inv(t1)
    requires MapRangePost(t, t1, v, i, pa, pte, free, free1) && MapPost(t1, t2, v + i, pa + i * PAGE_SIZE, pte, free1, free2)
    ensures MapRangePost(t, t2, v, i + 1, pa, pte, free, free2)
  {
    hide Inv, Lookup, RangeMapped, Mapped, SameLookup, NoEmpty, Missing, Piece, Need, Fits, Supplied, Spent;
    RootKey(t);
    assert Nth(v, 1, i) == v + i;
    SuppliedStep(t, t1, t2, v, 1, i, 1, free, free1, free2);
    RangeMappedStep(t, t1, t2, v, i, pa, pte, free);
  }

  lemma MapRangeUnblocked(t: Tables, t1: Tables, v: nat, i: nat, pa: nat, pte: nat, free: nat, free1: nat, u: nat)
    requires MapRangePost(t, t1, v, i, pa, pte, free, free1) && !Blocked(t, u) && Inv(t) && Inv(t1)
    ensures !Blocked(t1, u)
  {
    hide Lookup, Blocked, Inv, NoEmpty, Supplied, Fits, Need;
    BlockedIsHit(t, u);
    BlockedIsHit(t1, u);
    assert Lookup(t1, u) == Lookup(t1, u);
  }

  lemma BlockRangeStep(t: Tables, t1: Tables, t2: Tables, s: nat, i: nat, pa: nat, pte: nat, free: nat, free1: nat, free2: nat)
    requires Inv(t) && Inv(t1) && BlockRangePost(t, t1, s, i, pa, pte, free, free1)
    requires BlockPost(t1, t2, Nth(s * 512, 512, i), pa + i * SIZE_2MB, pte, free1, free2)
    ensures BlockRangePost(t, t2, s, i + 1, pa, pte, free, free2)
  {
    hide Inv, Lookup, RangeBlocks, BlockMapped, SameLookup, NoEmpty, Missing, Piece, Need, Fits, Supplied, Spent, Up;
    RootKey(t);
    NthUp(s, i);
    SuppliedLow(t, t1, s * 512, 512, i, 2, free, free1, Key(1, s + i));
    SuppliedStep(t, t1, t2, s * 512, 512, i, 2, free, free1, free2);
    RangeBlocksStep(t, t1, t2, s, i, pa, pte, free);
  }

  lemma NthUp(s: nat, i: nat)
    ensures Up(Nth(s * 512, 512, i)) == s + i
  {
    Quotient(Nth(s * 512, 512, i), 512, s + i, 0);
  }

  lemma SuppliedLow(t: Tables, t': Tables, v: nat, k: nat, n: nat, h: nat, free: nat, free': nat, x: Key)
    requires Supplied(t, t', v, k, n, h, free, free') && x.h < h
    ensures x in t'.at <==> x in t.at
  {
    hide Need, Made, Paths;
  }

  /** One more of the range: it finds its tables exactly if it fits. */
  lemma SuppliedStep(t: Tables, t1: Tables, t2: Tables, v: nat, k: nat, i: nat, h: nat, free: nat, free1: nat, free2: nat)
    requires Inv(t) && Inv(t1) && 1 <= h < t.depth
    requires Supplied(t, t1, v, k, i, h, free, free1) && Spent(t1, t2, Nth(v, k, i), h, free1, free2)
    ensures Supplied(t, t2, v, k, i + 1, h, free, free2)
    ensures free1 >= Missing(t1, Nth(v, k, i), h) <==> Fits(t, v, k, i, h, free)
    ensures Need(t, v, k, i, h) <= Need(t, v, k, i + 1, h) && (Need(t, v, k, i + 1, h) <= free ==> Fits(t, v, k, i, h, free))
  {
    hide Inv, Missing, Need, Paths, Path, Piece, Within, Made;
    WithinOn(t.at, t1.at, t2.at);
    NeedGrows(t, v, k, i, h);
    if Need(t, v, k, i, h) <= free {
      SuppliedMore(t, t1, t2, v, k, i, h, free, free1, free2);
    } else {
      SuppliedOut(t, t1, t2, v, k, i, h, free, free1, free2);
    }
  }

  /** While the frames suffice. */
  lemma SuppliedMore(t: Tables, t1: Tables, t2: Tables, v: nat, k: nat, i: nat, h: nat, free: nat, free1: nat, free2: nat)
    requires Inv(t) && 1 <= h < t.depth && Need(t, v, k, i, h) <= free && Within(t.at, t2.at)
    requires Supplied(t, t1, v, k, i, h, free, free1) && Spent(t1, t2, Nth(v, k, i), h, free1, free2)
    ensures Supplied(t, t2, v, k, i + 1, h, free, free2)
    ensures free1 >= Missing(t1, Nth(v, k, i), h) <==> Fits(t, v, k, i, h, free)
  {
    hide Inv, Missing, Need, Paths, Path, Piece, Within, Made;
    var u := Nth(v, k, i);
    NeedStep(t, t1, v, k, i, h);
    if Key(h, Piece(u, h)) in t.at {
      Present(t, u, h);
      NothingNew(t, t1, u, h);
    }
    PathsStep(t.depth, v, k, i, h);
    forall x | x in t2.at && x.h <= h ensures x in t.at || (x.h == h && Made(t, v, k, i + 1, h, free, x)) {
      if x !in t1.at {
        PathTop(t.depth, u, h, x);
        MadeLast(t, v, k, i, h, free);
      } else if x !in t.at {
        MadeOn(t, v, k, i, h, free, x);
      }
    }
  }

  /** Once they have run out, only what has its table already finds it. */
  lemma SuppliedOut(t: Tables, t1: Tables, t2: Tables, v: nat, k: nat, i: nat, h: nat, free: nat, free1: nat, free2: nat)
    requires Inv(t1) && 1 <= h < t.depth && free < Need(t, v, k, i, h) <= Need(t, v, k, i + 1, h) && Within(t.at, t2.at)
    requires Supplied(t, t1, v, k, i, h, free, free1) && Spent(t1, t2, Nth(v, k, i), h, free1, free2)
    ensures Supplied(t, t2, v, k, i + 1, h, free, free2)
    ensures free1 >= Missing(t1, Nth(v, k, i), h) <==> Fits(t, v, k, i, h, free)
  {
    hide Inv, Missing, Need, Paths, Path, Piece, Made, Within;
    var u := Nth(v, k, i);
    var x := Key(h, Piece(u, h));
    Present(t1, u, h);
    if x in t1.at && x !in t.at {
      NotMade(t, v, k, i, h, free, x);
    }
    WithinHas(t.at, t1.at, x);
    forall x | x in t2.at && x.h <= h ensures x in t.at || (x.h == h && Made(t, v, k, i + 1, h, free, x)) {
      if x !in t.at {
        MadeOn(t, v, k, i, h, free, x);
      }
    }
  }

  lemma WithinHas(at: map<Key, nat>, at': map<Key, nat>, x: Key)
    requires Within(at, at')
    ensures x in at ==> x in at'
  {
  }

  lemma MadeOn(t: Tables, v: nat, k: nat, n: nat, h: nat, free: nat, x: Key)
    requires Made(t, v, k, n, h, free, x)
    ensures Made(t, v, k, n + 1, h, free, x)
  {
    hide Need, Piece;
  }

  lemma MadeLast(t: Tables, v: nat, k: nat, i: nat, h: nat, free: nat)
    requires Need(t, v, k, i + 1, h) <= free
    ensures Made(t, v, k, i + 1, h, free, Key(h, Piece(Nth(v, k, i), h)))
  {
    hide Need, Piece;
  }

  /** The table of the i-th was made for an earlier one only if the frames sufficed up to the i-th. */
  lemma NotMade(t: Tables, v: nat, k: nat, i: nat, h: nat, free: nat, x: Key)
    requires x == Key(h, Piece(Nth(v, k, i), h)) && Made(t, v, k, i, h, free, x)
    ensures Need(t, v, k, i + 1, h) <= free
  {
    hide Need, Piece;
    var j: nat :| j < i && Key(h, Piece(Nth(v, k, j), h)) == x && Need(t, v, k, j + 1, h) <= free;
    SameNeed(t, v, k, j, i, h);
  }

  /** Between two of the range that share their table all need the same tables. */
  lemma {:induction false} SameNeed(t: Tables, v: nat, k: nat, j: nat, i: nat, h: nat)
    requires j <= i && Piece(Nth(v, k, j), h) == Piece(Nth(v, k, i), h)
    ensures Need(t, v, k, i + 1, h) == Need(t, v, k, j + 1, h)
  {
    hide Paths, Piece;
    SamePaths(t.depth, v, k, j, i, h);
  }

  lemma {:induction false} SamePaths(depth: nat, v: nat, k: nat, j: nat, i: nat, h: nat)
    requires j <= i && Piece(Nth(v, k, j), h) == Piece(Nth(v, k, i), h)
    ensures Paths(depth, v, k, i + 1, h) == Paths(depth, v, k, j + 1, h)
  {
    hide Piece, Path, Paths, Nth;
    if j < i {
      NthGrows(v, k, j, i - 1);
      NthGrows(v, k, i - 1, i);
      PieceGrows(Nth(v, k, j), Nth(v, k, i - 1), h);
      PieceGrows(Nth(v, k, i - 1), Nth(v, k, i), h);
      SamePaths(depth, v, k, j, i - 1, h);
      SamePath(depth, Nth(v, k, j), Nth(v, k, i), h);
      PathsStep(depth, v, k, i, h);
      PathsStep(depth, v, k, j, h);
    }
  }

  lemma NthGrows(v: nat, k: nat, i: nat, j: nat)
    requires i <= j
    ensures Nth(v, k, i) <= Nth(v, k, j)
  {
    assert (j - i) * k >= 0;
    assert j * k == i * k + (j - i) * k;
  }

  lemma {:induction false} PieceGrows(a: nat, b: nat, h: nat)
    requires a <= b
    ensures Piece(a, h) <= Piece(b, h)
  {
    if h > 0 {
      PieceGrows(a, b, h - 1);
    }
  }

  lemma {:induction false} SamePath(depth: nat, a: nat, b: nat, h: nat)
    requires Piece(a, h) == Piece(b, h)
    ensures Path(depth, a, h) == Path(depth, b, h)
    decreases depth - h
  {
    if h < depth {
      SamePath(depth, a, b, h + 1);
    }
  }

  lemma {:induction false} PathTop(depth: nat, v: nat, h: nat, x: Key)
    requires x in Path(depth, v, h) && x.h <= h
    ensures x == Key(h, Piece(v, h))
  {
    hide Piece;
  }

  lemma PathsStep(depth: nat, v: nat, k: nat, i: nat, h: nat)
    ensures Paths(depth, v, k, i + 1, h) == Paths(depth, v, k, i, h) + Path(depth, Nth(v, k, i), h)
  {
  }

  lemma NeedStep(t: Tables, t1: Tables, v: nat, k: nat, i: nat, h: nat)
    requires t1.depth == t.depth && t1.at.Keys == t.at.Keys + Paths(t.depth, v, k, i, h)
    ensures Need(t, v, k, i + 1, h) == Need(t, v, k, i, h) + Missing(t1, Nth(v, k, i), h)
  {
    hide Path, Paths;
    PathsStep(t.depth, v, k, i, h);
    NewKeys(Paths(t.depth, v, k, i, h), Path(t.depth, Nth(v, k, i), h), t.at.Keys);
  }

  lemma NewKeys(q: set<Key>, p: set<Key>, a: set<Key>)
    ensures |q + p - a| == |q - a| + |p - (a + q)|
  {
    assert q + p - a == (q - a) + (p - (a + q));
  }

  lemma NeedGrows(t: Tables, v: nat, k: nat, i: nat, h: nat)
    ensures Need(t, v, k, i, h) <= Need(t, v, k, i + 1, h)
  {
    hide Path, Paths;
    PathsStep(t.depth, v, k, i, h);
    SubsetSize(Paths(t.depth, v, k, i, h) - t.at.Keys, Paths(t.depth, v, k, i + 1, h) - t.at.Keys);
  }

  /** A table exists exactly if nothing is missing on the way to it. */
  lemma Present(t: Tables, v: nat, h: nat)
    requires Inv(t) && 1 <= h < t.depth
    ensures Key(h, Piece(v, h)) in t.at ==> Path(t.depth, v, h) <= t.at.Keys
    ensures Missing(t, v, h) == 0 <==> Key(h, Piece(v, h)) in t.at
  {
    hide Inv, Path, Piece;
    PathIs(t.depth, v, h);
    if Key(h, Piece(v, h)) in t.at {
      Ancestors(t, v, h);
      assert Path(t.depth, v, h) - t.at.Keys == {};
    } else {
      assert Key(h, Piece(v, h)) in Path(t.depth, v, h) - t.at.Keys;
    }
  }

  lemma {:induction false} Ancestors(t: Tables, v: nat, h: nat)
    requires Inv(t) && 1 <= h < t.depth && Key(h, Piece(v, h)) in t.at
    ensures Path(t.depth, v, h) <= t.at.Keys
    decreases t.depth - h
  {
    hide Inv, Word;
    HangsAt(t, Key(h, Piece(v, h)));
    assert Up(Piece(v, h)) == Piece(v, h + 1);
    if h + 1 < t.depth {
      Ancestors(t, v, h + 1);
    }
  }

  lemma NothingNew(t: Tables, t1: Tables, v: nat, h: nat)
    requires Path(t.depth, v, h) <= t.at.Keys && Within(t.at, t1.at) && t1.depth == t.depth
    ensures Missing(t1, v, h) == 0
  {
    hide Path;
    assert Path(t1.depth, v, h) - t1.at.Keys == {};
  }

  /** Everything in the range fits exactly if there are as many free frames as tables missing. */
  lemma {:induction false} AllFit(t: Tables, v: nat, k: nat, n: nat, h: nat, free: nat)
    requires Inv(t) && 1 <= h < t.depth
    ensures Need(t, v, k, n, h) <= free <==> forall i: nat :: i < n ==> Fits(t, v, k, i, h, free)
  {
    hide Inv, Need, Path, Piece, Fits;
    if n == 0 {
      NeedNothing(t, v, k, h);
    } else {
      AllFit(t, v, k, n - 1, h, free);
      NeedGrows(t, v, k, n - 1, h);
      if Need(t, v, k, n - 1, h) <= free {
        FitsLast(t, v, k, n - 1, h, free);
      }
    }
  }

  lemma NeedNothing(t: Tables, v: nat, k: nat, h: nat)
    ensures Need(t, v, k, 0, h) == 0
  {
  }

  lemma FitsLast(t: Tables, v: nat, k: nat, i: nat, h: nat, free: nat)
    requires Inv(t) && 1 <= h < t.depth && Need(t, v, k, i, h) <= free
    ensures Fits(t, v, k, i, h, free) <==> Need(t, v, k, i + 1, h) <= free
  {
    hide Inv, Path, Paths, Piece;
    if Key(h, Piece(Nth(v, k, i), h)) in t.at {
      Present(t, Nth(v, k, i), h);
      PathsStep(t.depth, v, k, i, h);
      assert Paths(t.depth, v, k, i + 1, h) - t.at.Keys == Paths(t.depth, v, k, i, h) - t.at.Keys;
    }
  }

  lemma UnmapRangeStep(t: Tables, t1: Tables, t2: Tables, h: nat, s: nat, i: nat)
    requires UnmapRangePost(t, t1, h, s, i) && UnmapPost(t1, t2, h, s + i)
    ensures UnmapRangePost(t, t2, h, s, i + 1)
  {
    hide RangeUnmapped, Unmapped, NoEmpty;
    RangeUnmappedStep(t, t1, t2, h, s, i);
  }

  lemma UnmapRangeUnblocked(t: Tables, t1: Tables, h: nat, s: nat, i: nat, u: nat)
    requires UnmapRangePost(t, t1, h, s, i) && !Blocked(t, u) && Inv(t) && Inv(t1)
    ensures !Blocked(t1, u)
  {
    hide Lookup, Blocked, Inv, NoEmpty, Within, Piece;
    BlockedIsHit(t, u);
    BlockedIsHit(t1, u);
  }

  lemma UnmapRangeKeys(t: Tables, t1: Tables, h: nat, s: nat, i: nat, k: Key)
    requires UnmapRangePost(t, t1, h, s, i) && k !in t.at
    ensures k !in t1.at
  {
    hide RangeUnmapped, NoEmpty;
  }

  /** The i-th page, or 2 MB piece, of an aligned range. */
  lemma PageOf(ipa: nat, i: nat)
    requires ipa % PAGE_SIZE == 0
    ensures (ipa + i * PAGE_SIZE) / PAGE_SIZE == ipa / PAGE_SIZE + i && (ipa + i * PAGE_SIZE) % PAGE_SIZE == 0
  {
    Quotient(ipa + i * PAGE_SIZE, PAGE_SIZE, ipa / PAGE_SIZE + i, 0);
  }

  lemma BlockOf(ipa: nat, i: nat)
    requires ipa % SIZE_2MB == 0
    ensures (ipa + i * SIZE_2MB) / PAGE_SIZE == Nth(ipa / SIZE_2MB * 512, 512, i) && Up((ipa + i * SIZE_2MB) / PAGE_SIZE) == ipa / SIZE_2MB + i
  {
    var a: nat := ipa / SIZE_2MB + i;
    Quotient(ipa + i * SIZE_2MB, PAGE_SIZE, a * 512, 0);
    Quotient(a * 512, 512, a, 0);
  }

  function RoundUp(value: nat, to: nat): nat
    requires to > 0
  {
    (value + to - 1) / to * to
  }

  /** round_up gives the least multiple that is not below the value. */
  lemma RoundUpLeast(value: nat, to: nat)
    requires to > 0
    ensures value <= RoundUp(value, to) < value + to && RoundUp(value, to) % to == 0
  {
    var q: nat, r: nat := (value + to - 1) / to, (value + to - 1) % to;
    assert value + to - 1 == q * to + r;
    Quotient(q * to, to, q, 0);
  }

  lemma RoundUpMultiple(value: nat, to: nat)
    requires to > 0
    ensures RoundUp(value, to) / to == (value + to - 1) / to
  {
    var q: nat := (value + to - 1) / to;
    Quotient(q * to, to, q, 0);
  }

  lemma BlockOffset(ipa: nat)
    ensures ipa % SIZE_2MB == Pos(ipa / PAGE_SIZE) * PAGE_SIZE + ipa % PAGE_SIZE
  {
    var v: nat, r: nat := ipa / PAGE_SIZE, ipa % PAGE_SIZE;
    Quotient(ipa, SIZE_2MB, v / 512, v % 512 * PAGE_SIZE + r);
  }

  /** RangeBlocks, counted in pages. */
  ghost predicate PagesInBlocks(t: Tables, t': Tables, v: nat, n: nat, pa: nat, pte: nat, free: nat) {
    forall u: nat :: PageInBlock(t, t', v, n, pa, pte, free, u)
  }

  ghost predicate PageInBlock(t: Tables, t': Tables, v: nat, n: nat, pa: nat, pte: nat, free: nat, u: nat) {
    Lookup(t', u) ==
      if v <= u < v + n && Key(1, Up(u)) !in t.at && Lookup(t, u).None? && Fits(t, v, 512, Up(u - v), 2, free)
      then Some(Hit(pa + (u - v) * PAGE_SIZE, pte, true)) else Lookup(t, u)
  }

  lemma BlockInPages(t: Tables, t': Tables, s: nat, n: nat, pa: nat, pte: nat, free: nat, u: nat)
    requires RangeBlocks(t, t', s, n, pa, pte, free)
    ensures PageInBlock(t, t', s * 512, n * 512, pa, pte, free, u)
  {
    hide Lookup, Up, Pos, Fits;
    PageParts(u, s, n);
    if s * 512 <= u {
      UpOffset(u, s);
    }
  }

  lemma BlocksInPages(t: Tables, t': Tables, s: nat, n: nat, pa: nat, pte: nat, free: nat)
    requires RangeBlocks(t, t', s, n, pa, pte, free)
    ensures PagesInBlocks(t, t', s * 512, n * 512, pa, pte, free)
  {
    hide RangeBlocks, PageInBlock;
    forall u: nat ensures PageInBlock(t, t', s * 512, n * 512, pa, pte, free, u) {
      BlockInPages(t, t', s, n, pa, pte, free, u);
    }
  }

  /** What mapping a range does, whether by pages or by blocks. */
  ghost predicate RangePost(t: Tables, t': Tables, v: nat, n: nat, pa: nat, pte: nat, free: nat, free': nat, blocks: bool) {
    if blocks then
      && v % 512 == 0 && n % 512 == 0 && Supplied(t, t', v, 512, n / 512, 2, free, free')
      && (NoEmpty(t) && Need(t, v, 512, n / 512, 2) <= free ==> NoEmpty(t'))
      && PagesInBlocks(t, t', v, n, pa, pte, free)
    else MapRangePost(t, t', v, n, pa, pte, free, free')
  }

  lemma PagesAsRange(t: Tables, t': Tables, v: nat, n: nat, pa: nat, pte: nat, free: nat, free': nat)
    requires MapRangePost(t, t', v, n, pa, pte, free, free')
    ensures RangePost(t, t', v, n, pa, pte, free, free', false)
  {
    hide MapRangePost;
  }

  lemma BlocksAsRange(t: Tables, t': Tables, s: nat, n: nat, pa: nat, pte: nat, free: nat, free': nat)
    requires BlockRangePost(t, t', s, n, pa, pte, free, free')
    ensures RangePost(t, t', s * 512, n * 512, pa, pte, free, free', true)
  {
    hide RangeBlocks, PagesInBlocks, NoEmpty, Need, Supplied;
    BlocksInPages(t, t', s, n, pa, pte, free);
    assert s * 512 % 512 == 0 && n * 512 % 512 == 0 && n * 512 / 512 == n;
  }

  lemma UpOffset(u: nat, s: nat)
    requires s * 512 <= u
    ensures Up(u - s * 512) == Up(u) - s
  {
    Quotient(u - s * 512, 512, Up(u) - s, u % 512);
  }

  lemma BlocksUnmapped(t: Tables, t': Tables, s: nat, n: nat)
    requires UnmapRangePost(t, t', 1, s, n)
    ensures UnmapRangePost(t, t', 0, s * 512, n * 512)
  {
    hide Lookup, Up, NoEmpty;
    forall u: nat ensures Lookup(t', u) == if s * 512 <= Piece(u, 0) < s * 512 + n * 512 then None else Lookup(t, u) {
      Pieces(u);
      PageParts(u, s, n);
    }
  }

  /** A range of whole 2 MB pieces, seen as pages. */
  lemma AlignedLen(ipa: nat, len: nat)
    requires ipa % SIZE_2MB == 0 && len % SIZE_2MB == 0
    ensures RoundUp(len, SIZE_2MB) == len && RoundUp(len, PAGE_SIZE) == len
    ensures RoundUp(len, SIZE_2MB) / SIZE_2MB == len / SIZE_2MB && RoundUp(len, PAGE_SIZE) / PAGE_SIZE == len / SIZE_2MB * 512
    ensures ipa / PAGE_SIZE == ipa / SIZE_2MB * 512
  {
    var a: nat, b: nat := ipa / SIZE_2MB, len / SIZE_2MB;
    Quotient(ipa, PAGE_SIZE, a * 512, 0);
    Quotient(len, PAGE_SIZE, b * 512, 0);
    Quotient(len + SIZE_2MB - 1, SIZE_2MB, b, SIZE_2MB - 1);
    Quotient(len + PAGE_SIZE - 1, PAGE_SIZE, b * 512, PAGE_SIZE - 1);
    RoundUpMultiple(len, SIZE_2MB);
    RoundUpMultiple(len, PAGE_SIZE);
  }

  // ---- main results ---------------------------------------------------------------------------------

  /** map_range maps its whole range exactly if there are as many free frames as tables missing. */
  lemma AllMapped(t: Tables, t': Tables, v: nat, n: nat, pa: nat, pte: nat, free: nat, free': nat)
    requires Inv(t) && MapRangePost(t, t', v, n, pa, pte, free, free') && forall u: nat :: v <= u < v + n ==> !Blocked(t, u)
    ensures (forall u: nat :: v <= u < v + n ==> Lookup(t', u).Some?) <==> Need(t, v, 1, n, 1) <= free
  {
    hide Inv, Lookup, Need, Fits, Supplied, Blocked, NoEmpty;
    RootKey(t);
    AllFit(t, v, 1, n, 1, free);
    forall i: nat | i < n && !Fits(t, v, 1, i, 1, free) ensures Lookup(t', v + i).None? {
      PageUnfit(t, v, i, free);
    }
  }

  lemma PageUnfit(t: Tables, v: nat, i: nat, free: nat)
    requires Inv(t) && !Fits(t, v, 1, i, 1, free) && !Blocked(t, v + i)
    ensures Lookup(t, v + i).None?
  {
    hide Inv, Need, Word, Up, Blocked;
    Pieces(v + i);
    BlockedIsHit(t, v + i);
  }

  /** map_range_2mb leaves nothing of its range unmapped but below page tables exactly if there are. */
  lemma AllBlocksMapped(t: Tables, t': Tables, s: nat, n: nat, pa: nat, pte: nat, free: nat, free': nat)
    requires Inv(t) && BlockRangePost(t, t', s, n, pa, pte, free, free')
    ensures (forall u: nat :: s <= Up(u) < s + n && Key(1, Up(u)) !in t.at ==> Lookup(t', u).Some?) <==>
            Need(t, s * 512, 512, n, 2) <= free
  {
    hide Inv, Lookup, Need, Fits, Supplied, Up, Pos, NoEmpty;
    RootKey(t);
    AllFit(t, s * 512, 512, n, 2, free);
    forall i: nat | i < n && !Fits(t, s * 512, 512, i, 2, free)
      ensures var u := Nth(s * 512, 512, i); Up(u) == s + i && Key(1, Up(u)) !in t.at && Lookup(t', u).None?
    {
      NthUp(s, i);
      BlockUnfit(t, s, i, free);
    }
  }

  lemma BlockUnfit(t: Tables, s: nat, i: nat, free: nat)
    requires Inv(t) && !Fits(t, s * 512, 512, i, 2, free)
    ensures var u := Nth(s * 512, 512, i); Key(1, Up(u)) !in t.at && Lookup(t, u).None?
  {
    hide Inv, Need, Word, Up;
    var u := Nth(s * 512, 512, i);
    Pieces(u);
    RootKey(t);
    if Key(1, Up(u)) in t.at {
      HangsAt(t, Key(1, Up(u)));
      assert false;
    }
    MissingWord(t, 1, Up(u));
  }

  /** Where a page goes and with what attributes, however it is mapped. */
  ghost function Output(o: Option<Hit>): Option<(nat, nat)> {
    if o.None? then None else Some((o.value.pa, o.value.attr))
  }

  /** On a range of n times 2 MB where nothing is mapped, mapping blocks and mapping pages
      give every page the same output address and attributes. */
  lemma BlocksAndPagesAgree(t: Tables, tb: Tables, tp: Tables, s: nat, n: nat, pa: nat, pte: nat, free: nat)
    requires Inv(t) && NoEmpty(t) && Need(t, s * 512, 512, n, 2) <= free && Need(t, s * 512, 1, n * 512, 1) <= free
    requires forall u: nat :: s <= Up(u) < s + n ==> Lookup(t, u).None?
    requires RangeBlocks(t, tb, s, n, pa, pte, free) && RangeMapped(t, tp, s * 512, n * 512, pa, pte, free)
    ensures forall u: nat :: Output(Lookup(tb, u)) == Output(Lookup(tp, u))
    ensures forall u: nat :: s <= Up(u) < s + n ==> Output(Lookup(tb, u)) == Some((pa + (u - s * 512) * PAGE_SIZE, pte))
  {
    hide Inv, NoEmpty, Lookup, Up, Pos, Need, Fits;
    RootKey(t);
    AllFit(t, s * 512, 512, n, 2, free);
    AllFit(t, s * 512, 1, n * 512, 1, free);
    forall u: nat
      ensures Output(Lookup(tb, u)) == Output(Lookup(tp, u))
      ensures s <= Up(u) < s + n ==> Output(Lookup(tb, u)) == Some((pa + (u - s * 512) * PAGE_SIZE, pte))
    {
      PageParts(u, s, n);
      if s <= Up(u) < s + n {
        NoPageTable(t, Up(u));
      }
    }
  }

  lemma PageParts(u: nat, s: nat, n: nat)
    ensures u == Up(u) * 512 + Pos(u)
    ensures s <= Up(u) < s + n <==> s * 512 <= u < s * 512 + n * 512
    ensures s <= Up(u) ==> (Up(u) - s) * SIZE_2MB + Pos(u) * PAGE_SIZE == (u - s * 512) * PAGE_SIZE
  {
  }

  lemma NoPageTable(t: Tables, s: nat)
    requires Inv(t) && NoEmpty(t) && forall u: nat :: Up(u) == s ==> Lookup(t, u).None?
    ensures Key(1, s) !in t.at
  {
    hide Inv, NoEmpty, Lookup, Up;
    PageTableNeeded(t, s);
  }

  /** Unmapping the pages just mapped on a range where nothing was mapped restores the translation;
      in the three-level form also the table frames, and with them pages as a set. */
  lemma MapUnmapRestores(t0: Tables, t1: Tables, t2: Tables, v: nat, n: nat, pa: nat, pte: nat, free: nat, free': nat)
    requires Inv(t0) && NoEmpty(t0) && Inv(t2)
    requires forall u: nat :: v <= u < v + n ==> Lookup(t0, u).None?
    requires MapRangePost(t0, t1, v, n, pa, pte, free, free') && UnmapRangePost(t1, t2, 0, v, n) && Need(t0, v, 1, n, 1) <= free
    ensures SameLookup(t0, t2)
    ensures forall k: Key :: k.h != 3 ==> (k in t0.at <==> k in t2.at)
    ensures Within(t0.at, t2.at) && (t0.depth == 3 ==> t2.at == t0.at)
  {
    hide Inv, NoEmpty, Lookup, Need, Fits, Paths, Made;
    forall u: nat ensures Lookup(t2, u) == Lookup(t0, u) {
      assert Piece(u, 0) == u;
    }
    SameTables(t0, t1, t2);
  }

  /** The same for 2 MB blocks. */
  lemma MapUnmapBlocksRestores(t0: Tables, t1: Tables, t2: Tables, s: nat, n: nat, pa: nat, pte: nat, free: nat, free': nat)
    requires Inv(t0) && NoEmpty(t0) && Inv(t2)
    requires forall u: nat :: s <= Up(u) < s + n ==> Lookup(t0, u).None?
    requires BlockRangePost(t0, t1, s, n, pa, pte, free, free') && UnmapRangePost(t1, t2, 1, s, n) && Need(t0, s * 512, 512, n, 2) <= free
    ensures SameLookup(t0, t2)
    ensures forall k: Key :: k.h != 3 ==> (k in t0.at <==> k in t2.at)
    ensures Within(t0.at, t2.at) && (t0.depth == 3 ==> t2.at == t0.at)
  {
    hide Inv, NoEmpty, Lookup, Up, Pos, Need, Fits, Paths, Made;
    forall u: nat ensures Lookup(t2, u) == Lookup(t0, u) {
      Pieces(u);
      assert Lookup(t1, u) == Lookup(t1, u);
    }
    SameTables(t0, t1, t2);
  }

  /** The same tables in the same frames: the same list of pages, and the same free frames, as sets. */
  lemma SamePages(at: map<Key, nat>, depth: nat, pages: seq<nat>, free: seq<nat>, pages': seq<nat>, free': seq<nat>, pool: set<nat>)
    requires Owned(at, depth, pages, free, pool) && Owned(at, depth, pages', free', pool)
    ensures forall f :: (f in pages <==> f in pages') && (f in free <==> f in free')
  {
    forall f ensures (f in pages <==> f in pages') && (f in free <==> f in free') {
      assert f in pages <==> Reachable(at, depth, f);
      if f in free {
        FreeOff(at, depth, f);
      }
      if f in free' {
        FreeOff(at, depth, f);
      }
    }
  }

  lemma FreeOff(at: map<Key, nat>, depth: nat, f: nat)
    requires forall k :: k in at ==> at[k] != f
    ensures !Reachable(at, depth, f)
  {
  }
}
