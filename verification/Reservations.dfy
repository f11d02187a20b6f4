/** Inserting memory reservations into a flattened device tree, as memrsv.rs does it in the bytes
    of the blob: the strings and structure blocks move up, the new entries follow the old ones. */
module Reservations {
  import opened Common

  type Byte = x: int | 0 <= x < 256
  type Blob = seq<Byte>

  const BIT32: int := 0x1_0000_0000
  const BIT64: int := 0x1_0000_0000_0000_0000

  const OFF_DT_STRUCT: nat := 0x8
  const OFF_DT_STRINGS: nat := 0xc
  const OFF_MEM_RSVS: nat := 0x10
  const SIZE_DT_STRINGS: nat := 0x20
  const SIZE_DT_STRUCT: nat := 0x24
  const HEADER: nat := 0x28

  // ---- big-endian words ----------------------------------------------------------------------

  function Be32(b: Blob, o: nat): (v: nat)
    requires o + 4 <= |b|
    ensures v < BIT32
  {
    var b0: int, b1: int, b2: int, b3: int := b[o], b[o + 1], b[o + 2], b[o + 3];
    ((b0 * 256 + b1) * 256 + b2) * 256 + b3
  }

  function Be64(b: Blob, o: nat): (v: nat)
    requires o + 8 <= |b|
    ensures v < BIT64
  {
    Be32(b, o) * BIT32 + Be32(b, o + 4)
  }

  function Bytes32(v: nat): (b: Blob)
    requires v < BIT32
    ensures |b| == 4
  {
    [v / 0x100_0000, v / 0x1_0000 % 256, v / 256 % 256, v % 256]
  }

  lemma Bytes32Back(v: nat, b: Blob, o: nat)
    requires v < BIT32 && o + 4 <= |b| && b[o..o + 4] == Bytes32(v)
    ensures Be32(b, o) == v
  {
    assert b[o..o + 4][0] == b[o] && b[o..o + 4][1] == b[o + 1] && b[o..o + 4][2] == b[o + 2] && b[o..o + 4][3] == b[o + 3];
    var x, y, z := v / 256, v / 0x1_0000, v / 0x100_0000;
    assert v == x * 256 + v % 256 && x == y * 256 + x % 256 && y == z * 256 + y % 256;
  }

  /** The blob with bytes s at offset o. */
  function Splice(b: Blob, o: nat, s: Blob): (r: Blob)
    requires o + |s| <= |b|
    ensures |r| == |b|
    ensures forall i :: 0 <= i < |b| ==> r[i] == if o <= i < o + |s| then s[i - o] else b[i]
  {
    b[..o] + s + b[o + |s|..]
  }

  /** Words outside the written bytes stay. */
  lemma SpliceBe32(b: Blob, o: nat, s: Blob, w: nat)
    requires o + |s| <= |b| && w + 4 <= |b| && (w + 4 <= o || o + |s| <= w)
    ensures Be32(Splice(b, o, s), w) == Be32(b, w)
  {
    hide Splice;
    var r := Splice(b, o, s);
    assert r[w] == b[w] && r[w + 1] == b[w + 1] && r[w + 2] == b[w + 2] && r[w + 3] == b[w + 3];
  }

  lemma SpliceSet32(b: Blob, o: nat, v: nat)
    requires o + 4 <= |b| && v < BIT32
    ensures Be32(Splice(b, o, Bytes32(v)), o) == v
  {
    hide Splice, Bytes32;
    var r := Splice(b, o, Bytes32(v));
    assert r[o..o + 4] == Bytes32(v);
    Bytes32Back(v, r, o);
  }

  /** Err where the source returns it because the offset is out of range. */
  datatype Result = Ok | Err

  method SetBytes(dts: array<Byte>, o: nat, s: Blob)
    requires o + |s| <= dts.Length
    modifies dts
    ensures dts[..] == Splice(old(dts[..]), o, s)
  {
    forall i | 0 <= i < |s| {
      dts[o + i] := s[i];
    }
    assert forall i :: 0 <= i < dts.Length ==> dts[i] == if o <= i < o + |s| then s[i - o] else old(dts[i]);
  }

  /** set_be32 */
  method SetBe32(dts: array<Byte>, o: nat, v: nat) returns (r: Result)
    requires v < BIT32
    modifies dts
    ensures r.Ok? <==> o + 4 <= dts.Length
    ensures dts[..] == if o + 4 <= dts.Length then Splice(old(dts[..]), o, Bytes32(v)) else old(dts[..])
  {
    if o + 4 > dts.Length {
      return Err;
    }
    SetBytes(dts, o, Bytes32(v));
    return Ok;
  }

  /** copy_within: source and destination may overlap. */
  method CopyWithin(dts: array<Byte>, src: nat, srcEnd: nat, dst: nat)
    requires src <= srcEnd <= dts.Length && dst + (srcEnd - src) <= dts.Length
    modifies dts
    ensures dts[..] == Splice(old(dts[..]), dst, old(dts[src..srcEnd]))
  {
    ghost var was := dts[..];
    forall i | 0 <= i < srcEnd - src {
      dts[dst + i] := dts[src + i];
    }
    assert forall i :: 0 <= i < dts.Length ==> dts[i] == if dst <= i < dst + (srcEnd - src) then was[src..srcEnd][i - dst] else was[i];
  }

  // ---- moving a section ------------------------------------------------------------------------

  /** Whether Section::shift by a positive amount accepts a section at src with this size. */
  predicate CanShift(length: nat, src: nat, size: nat, shift: nat) {
    src + size <= length && src + shift + size <= length && src + shift + size < BIT32
  }

  /** The blob after a section has been moved: first its offset, then its bytes. */
  ghost function Shifted(b: Blob, offOffset: nat, src: nat, size: nat, shift: nat): Blob
    requires offOffset + 4 <= |b| && CanShift(|b|, src, size, shift)
  {
    var b1 := Splice(b, offOffset, Bytes32(src + shift));
    Splice(b1, src + shift, b1[src..src + size])
  }

  /** Section::shift for the section whose offset and size are at these places of the header. */
  method Shift(dts: array<Byte>, offOffset: nat, sizeOffset: nat, shift: nat) returns (r: Result)
    modifies dts
    ensures r.Ok? <==> offOffset + 4 <= dts.Length && sizeOffset + 4 <= dts.Length
                       && CanShift(dts.Length, Be32(old(dts[..]), offOffset), Be32(old(dts[..]), sizeOffset), shift)
    ensures r.Err? ==> dts[..] == old(dts[..])
    ensures r.Ok? ==>
      dts[..] == Shifted(old(dts[..]), offOffset, Be32(old(dts[..]), offOffset), Be32(old(dts[..]), sizeOffset), shift)
  {
    hide Be32, Splice, Shifted;
    var total := dts.Length;
    if sizeOffset + 4 > total {
      return Err;
    }
    var size := Be32(dts[..], sizeOffset);
    if offOffset + 4 > total {
      return Err;
    }
    var src := Be32(dts[..], offOffset);
    var dst := src + shift;
    if dst >= BIT32 {
      return Err;
    }
    if src + size >= BIT32 || dst + size >= BIT32 {
      return Err;
    }
    var srcEnd, dstEnd := src + size, dst + size;
    if srcEnd > total || dstEnd > total {
      return Err;
    }
    Move(dts, offOffset, src, size, shift);
    return Ok;
  }

  /** Once everything has been found to fit: the new offset, then the bytes. */
  method Move(dts: array<Byte>, offOffset: nat, src: nat, size: nat, shift: nat)
    requires offOffset + 4 <= dts.Length && CanShift(dts.Length, src, size, shift)
    modifies dts
    ensures dts[..] == Shifted(old(dts[..]), offOffset, src, size, shift)
  {
    hide Be32, Splice, Bytes32;
    var done := SetBe32(dts, offOffset, src + shift);
    assert dts[..][src..src + size] == dts[src..src + size];
    CopyWithin(dts, src, src + size, src + shift);
  }

  // ---- the reservation block ---------------------------------------------------------------------

  type Entry = (nat, nat)

  function EntryAt(b: Blob, o: nat): Entry
    requires o + 16 <= |b|
  {
    (Be64(b, o), Be64(b, o + 8))
  }

  /** The reservation block at offset o as a reader sees it: entries up to the first (0, 0), or
      nothing if the blob ends before that. */
  ghost function Entries(b: Blob, o: nat): Option<seq<Entry>>
    decreases |b| - o
  {
    if o + 16 > |b| then None
    else if EntryAt(b, o) == (0, 0) then Some([])
    else
      var rest := Entries(b, o + 16);
      if rest.None? then None else Some([EntryAt(b, o)] + rest.value)
  }

  /** The entries of the block at o are es, with the terminator after them. */
  ghost predicate Lists(b: Blob, o: nat, es: seq<Entry>) {
    && o + 16 * (|es| + 1) <= |b| && EntryAt(b, o + 16 * |es|) == (0, 0)
    && forall k :: 0 <= k < |es| ==> es[k] != (0, 0) && EntryAt(b, o + 16 * k) == es[k]
  }

  lemma {:induction false} ListsEntries(b: Blob, o: nat, es: seq<Entry>)
    requires Lists(b, o, es)
    ensures Entries(b, o) == Some(es)
    decreases |es|
  {
    hide EntryAt;
    if es != [] {
      assert EntryAt(b, o + 16 * 0) == es[0];
      assert EntryAt(b, o + 16 + 16 * |es[1..]|) == (0, 0);
      forall k | 0 <= k < |es[1..]| ensures es[1..][k] != (0, 0) && EntryAt(b, o + 16 + 16 * k) == es[1..][k] {
        assert EntryAt(b, o + 16 * (k + 1)) == es[k + 1];
      }
      ListsEntries(b, o + 16, es[1..]);
      assert es == [es[0]] + es[1..];
    } else {
      assert EntryAt(b, o + 16 * 0) == (0, 0);
    }
  }

  lemma {:induction false} EntriesLists(b: Blob, o: nat)
    requires Entries(b, o).Some?
    ensures Lists(b, o, Entries(b, o).value)
    decreases |b| - o
  {
    hide EntryAt;
    if EntryAt(b, o) != (0, 0) {
      EntriesLists(b, o + 16);
      var es, r := Entries(b, o).value, Entries(b, o + 16).value;
      assert es[1..] == r;
      assert EntryAt(b, o + 16 * |es|) == EntryAt(b, o + 16 + 16 * |r|);
      forall k | 0 <= k < |es| ensures es[k] != (0, 0) && EntryAt(b, o + 16 * k) == es[k] {
        if k > 0 {
          assert EntryAt(b, o + 16 + 16 * (k - 1)) == r[k - 1];
        }
      }
    }
  }

  /** The ranges a reader gets to see: those before the first (0, 0). */
  function BeforeZero(rs: seq<Entry>): seq<Entry> {
    if rs == [] || rs[0] == (0, 0) then [] else [rs[0]] + BeforeZero(rs[1..])
  }

  lemma {:induction false} BeforeZeroIs(rs: seq<Entry>)
    ensures var p := |BeforeZero(rs)|;
      p <= |rs| && BeforeZero(rs) == rs[..p] && (p < |rs| ==> rs[p] == (0, 0)) && forall k :: 0 <= k < p ==> rs[k] != (0, 0)
    ensures (0, 0) !in rs ==> BeforeZero(rs) == rs
  {
    if rs != [] && rs[0] != (0, 0) {
      BeforeZeroIs(rs[1..]);
    }
  }

  // ---- what a blob holds ---------------------------------------------------------------------------

  function StructAt(b: Blob): nat requires HEADER <= |b| { Be32(b, OFF_DT_STRUCT) }
  function StringsAt(b: Blob): nat requires HEADER <= |b| { Be32(b, OFF_DT_STRINGS) }
  function ReservedAt(b: Blob): nat requires HEADER <= |b| { Be32(b, OFF_MEM_RSVS) }
  function StructSize(b: Blob): nat requires HEADER <= |b| { Be32(b, SIZE_DT_STRUCT) }
  function StringsSize(b: Blob): nat requires HEADER <= |b| { Be32(b, SIZE_DT_STRINGS) }

  /** After the header: the reservation block with entries es, the structure block, the strings block. */
  ghost predicate Layout(b: Blob, es: seq<Entry>) {
    && HEADER <= |b| && HEADER <= ReservedAt(b) && Lists(b, ReservedAt(b), es)
    && ReservedAt(b) + 16 * (|es| + 1) <= StructAt(b)
    && StructAt(b) + StructSize(b) <= StringsAt(b) && StringsAt(b) + StringsSize(b) <= |b|
  }

  /** There is room for n more entries. */
  predicate Room(b: Blob, n: nat)
    requires HEADER <= |b|
  {
    n == 0 || (StringsAt(b) + StringsSize(b) + 16 * n <= |b| && StringsAt(b) + StringsSize(b) + 16 * n < BIT32)
  }

  /** Structure and strings have moved up by d with their bytes; the header otherwise and the bytes
      between the header and the old structure block are the same. */
  ghost predicate MovedUp(b: Blob, b': Blob, d: nat) {
    && |b'| == |b| && HEADER <= |b|
    && StructAt(b') == StructAt(b) + d && StringsAt(b') == StringsAt(b) + d
    && ReservedAt(b') == ReservedAt(b) && StructSize(b') == StructSize(b) && StringsSize(b') == StringsSize(b)
    && StructAt(b) + d + StructSize(b) <= |b| && StringsAt(b) + d + StringsSize(b) <= |b|
    && b'[StructAt(b')..StructAt(b') + StructSize(b)] == b[StructAt(b)..StructAt(b) + StructSize(b)]
    && b'[StringsAt(b')..StringsAt(b') + StringsSize(b)] == b[StringsAt(b)..StringsAt(b) + StringsSize(b)]
    && (forall i :: 0 <= i < OFF_DT_STRUCT || OFF_MEM_RSVS <= i < HEADER ==> b'[i] == b[i])
  }

  ghost predicate GapKept(b: Blob, b': Blob)
    requires HEADER <= |b|
  {
    |b'| == |b| && forall i :: HEADER <= i < StructAt(b) && i < |b| ==> b'[i] == b[i]
  }

  /** One section has moved: its offset at off, its bytes, and nothing else. */
  ghost predicate SectionMoved(b: Blob, r: Blob, off: nat, src: nat, size: nat, shift: nat) {
    && |r| == |b| && HEADER <= |b| && off + 4 <= HEADER && src + shift + size <= |b| && Be32(r, off) == src + shift
    && (forall w: nat :: w + 4 <= HEADER && (w + 4 <= off || off + 4 <= w) ==> Be32(r, w) == Be32(b, w))
    && r[src + shift..src + shift + size] == b[src..src + size]
    && (forall i :: 0 <= i < |b| && !(off <= i < off + 4) && !(src + shift <= i < src + shift + size) ==> r[i] == b[i])
  }

  lemma ShiftedOnce(b: Blob, off: nat, src: nat, size: nat, shift: nat)
    requires HEADER <= |b| && off + 4 <= HEADER <= src && CanShift(|b|, src, size, shift)
    ensures SectionMoved(b, Shifted(b, off, src, size, shift), off, src, size, shift)
  {
    hide Splice, Be32, Bytes32;
    var b1 := Splice(b, off, Bytes32(src + shift));
    var part := b1[src..src + size];
    var r := Splice(b1, src + shift, part);
    SpliceSet32(b, off, src + shift);
    SpliceBe32(b1, src + shift, part, off);
    forall w: nat | w + 4 <= HEADER && (w + 4 <= off || off + 4 <= w) ensures Be32(r, w) == Be32(b, w) {
      SpliceBe32(b, off, Bytes32(src + shift), w);
      SpliceBe32(b1, src + shift, part, w);
    }
  }

  lemma BothMoved(b: Blob, es: seq<Entry>, n: nat)
    requires Layout(b, es) && n > 0 && Room(b, n)
    ensures CanShift(|b|, StringsAt(b), StringsSize(b), 16 * n)
    ensures var b1 := Shifted(b, OFF_DT_STRINGS, StringsAt(b), StringsSize(b), 16 * n);
      && |b1| == |b| && StructAt(b1) == StructAt(b) && StructSize(b1) == StructSize(b)
      && CanShift(|b1|, StructAt(b), StructSize(b), 16 * n)
      && var b2 := Shifted(b1, OFF_DT_STRUCT, StructAt(b), StructSize(b), 16 * n);
        MovedUp(b, b2, 16 * n) && GapKept(b, b2)
  {
    hide Lists, Be32, Shifted, MovedUp, GapKept, SectionMoved;
    var d := 16 * n;
    ShiftedOnce(b, OFF_DT_STRINGS, StringsAt(b), StringsSize(b), d);
    var b1 := Shifted(b, OFF_DT_STRINGS, StringsAt(b), StringsSize(b), d);
    StringsMoved(b, b1, d);
    ShiftedOnce(b1, OFF_DT_STRUCT, StructAt(b), StructSize(b), d);
    TwoMoves(b, b1, Shifted(b1, OFF_DT_STRUCT, StructAt(b), StructSize(b), d), d);
  }

  lemma StringsMoved(b: Blob, b1: Blob, d: nat)
    requires HEADER <= |b| && SectionMoved(b, b1, OFF_DT_STRINGS, StringsAt(b), StringsSize(b), d)
    ensures |b1| == |b| && StructAt(b1) == StructAt(b) && StructSize(b1) == StructSize(b)
    ensures StringsAt(b1) == StringsAt(b) + d && StringsSize(b1) == StringsSize(b) && ReservedAt(b1) == ReservedAt(b)
  {
    hide Be32;
  }

  /** Strings, then structure: the second move leaves the moved strings alone. */
  lemma TwoMoves(b: Blob, b1: Blob, b2: Blob, d: nat)
    requires HEADER <= |b| && HEADER <= StructAt(b) && StructAt(b) + StructSize(b) <= StringsAt(b)
    requires SectionMoved(b, b1, OFF_DT_STRINGS, StringsAt(b), StringsSize(b), d)
    requires SectionMoved(b1, b2, OFF_DT_STRUCT, StructAt(b), StructSize(b), d)
    ensures MovedUp(b, b2, d) && GapKept(b, b2)
  {
    hide Be32;
    StringsMoved(b, b1, d);
    var s, m, t, n := StructAt(b), StructSize(b), StringsAt(b), StringsSize(b);
    assert b1[s..s + m] == b[s..s + m];
    assert b2[t + d..t + d + n] == b1[t + d..t + d + n];
  }

  /** Without room the first move is refused. */
  lemma NoRoom(b: Blob, es: seq<Entry>, n: nat)
    requires Layout(b, es) && !Room(b, n)
    ensures n > 0 && !CanShift(|b|, StringsAt(b), StringsSize(b), 16 * n)
  {
    hide Lists, Be32;
  }

  /** mem_rsvmap_resize by n > 0 entries, or none. */
  method Resize(dts: array<Byte>, n: nat, ghost es: seq<Entry>) returns (r: Result)
    requires Layout(dts[..], es)
    modifies dts
    ensures r.Ok? <==> Room(old(dts[..]), n)
    ensures r.Err? ==> dts[..] == old(dts[..])
    ensures r.Ok? ==> MovedUp(old(dts[..]), dts[..], 16 * n) && GapKept(old(dts[..]), dts[..])
  {
    hide Lists, Be32, Shifted, MovedUp, GapKept, CanShift;
    ghost var b := dts[..];
    var byteadj := n * 2 * 8;
    if byteadj > 0 {
      if Room(b, n) {
        BothMoved(b, es, n);
      } else {
        NoRoom(b, es, n);
      }
      r := Shift(dts, OFF_DT_STRINGS, SIZE_DT_STRINGS, byteadj);
      if r.Err? {
        return;
      }
      r := Shift(dts, OFF_DT_STRUCT, SIZE_DT_STRUCT, byteadj);
    } else {
      NotMoved(b);
      r := Ok;
    }
  }

  lemma NotMoved(b: Blob)
    requires HEADER <= |b| && StructAt(b) + StructSize(b) <= |b| && StringsAt(b) + StringsSize(b) <= |b|
    ensures MovedUp(b, b, 0) && GapKept(b, b)
  {
    hide Be32;
  }

  // ---- writing entries ---------------------------------------------------------------------------

  function Bytes64(v: nat): (b: Blob)
    requires v < BIT64
    ensures |b| == 8
  {
    Bytes32(v / BIT32) + Bytes32(v % BIT32)
  }

  lemma Bytes64Back(v: nat, b: Blob, o: nat)
    requires v < BIT64 && o + 8 <= |b| && b[o..o + 8] == Bytes64(v)
    ensures Be64(b, o) == v
  {
    hide Bytes32, Be32;
    assert b[o..o + 4] == b[o..o + 8][..4] == Bytes32(v / BIT32);
    assert b[o + 4..o + 8] == b[o..o + 8][4..] == Bytes32(v % BIT32);
    Bytes32Back(v / BIT32, b, o);
    Bytes32Back(v % BIT32, b, o + 4);
  }

  /** Entries whose bytes are the same are the same. */
  lemma SameEntry(b: Blob, b': Blob, o: nat)
    requires o + 16 <= |b| == |b'| && forall i :: o <= i < o + 16 ==> b'[i] == b[i]
    ensures EntryAt(b', o) == EntryAt(b, o)
  {
    hide Be32;
    SameWord(b, b', o);
    SameWord(b, b', o + 4);
    SameWord(b, b', o + 8);
    SameWord(b, b', o + 12);
  }

  lemma SameWord(b: Blob, b': Blob, o: nat)
    requires o + 4 <= |b| == |b'| && forall i :: o <= i < o + 4 ==> b'[i] == b[i]
    ensures Be32(b', o) == Be32(b, o)
  {
  }

  /** The bytes outside lo..hi are the same. */
  ghost predicate Outside(b: Blob, b': Blob, lo: nat, hi: nat) {
    |b'| == |b| && forall i :: 0 <= i < |b| && !(lo <= i < hi) ==> b'[i] == b[i]
  }

  /** set_be64 of base and size in one chunk of 16 bytes. */
  method SetEntry(dts: array<Byte>, pos: nat, e: Entry)
    requires pos + 16 <= dts.Length && e.0 < BIT64 && e.1 < BIT64
    modifies dts
    ensures EntryAt(dts[..], pos) == e && Outside(old(dts[..]), dts[..], pos, pos + 16)
  {
    hide Bytes64, Be64, Splice;
    SetBytes(dts, pos, Bytes64(e.0));
    SetBytes(dts, pos + 8, Bytes64(e.1));
    assert dts[..][pos..pos + 8] == Bytes64(e.0);
    assert dts[..][pos + 8..pos + 16] == Bytes64(e.1);
    Bytes64Back(e.0, dts[..], pos);
    Bytes64Back(e.1, dts[..], pos + 8);
  }

  /** skip_while: the chunks of the block up to its terminator are passed over. */
  method SkipEntries(dts: array<Byte>, offset: nat, ghost es: seq<Entry>) returns (pos: nat)
    requires Lists(dts[..], offset, es)
    ensures pos == offset + 16 * |es|
  {
    hide EntryAt;
    pos := offset;
    ghost var k := 0;
    while pos + 16 <= dts.Length && EntryAt(dts[..], pos) != (0, 0)
      invariant 0 <= k <= |es| && pos == offset + 16 * k
      decreases dts.Length - pos
    {
      pos := pos + 16;
      k := k + 1;
    }
    assert k < |es| ==> es[k] != (0, 0) && EntryAt(dts[..], offset + 16 * k) == es[k];
  }

  /** The chunks from pos on hold rs. */
  ghost predicate Holds(b: Blob, pos: nat, rs: seq<Entry>) {
    pos + 16 * |rs| <= |b| && forall k :: 0 <= k < |rs| ==> EntryAt(b, pos + 16 * k) == rs[k]
  }

  lemma HoldsMore(b: Blob, b': Blob, pos: nat, rs: seq<Entry>, e: Entry)
    requires Holds(b, pos, rs) && pos + 16 * (|rs| + 1) <= |b|
    requires Outside(b, b', pos + 16 * |rs|, pos + 16 * |rs| + 16) && EntryAt(b', pos + 16 * |rs|) == e
    ensures Holds(b', pos, rs + [e])
  {
    hide EntryAt;
    forall k | 0 <= k < |rs + [e]| ensures EntryAt(b', pos + 16 * k) == (rs + [e])[k] {
      if k < |rs| {
        SameEntry(b, b', pos + 16 * k);
      }
    }
  }

  lemma OutsideOn(b: Blob, b1: Blob, b2: Blob, lo: nat, mid: nat, hi: nat)
    requires Outside(b, b1, lo, mid) && Outside(b1, b2, mid, hi) && lo <= mid <= hi
    ensures Outside(b, b2, lo, hi)
  {
  }

  /** The loop over the ranges and the terminator after them. */
  method WriteEntries(dts: array<Byte>, start: nat, ranges: seq<Entry>)
    requires start + 16 * (|ranges| + 1) <= dts.Length && forall k :: 0 <= k < |ranges| ==> ranges[k].0 < BIT64 && ranges[k].1 < BIT64
    modifies dts
    ensures Holds(dts[..], start, ranges + [(0, 0)]) && Outside(old(dts[..]), dts[..], start, start + 16 * (|ranges| + 1))
  {
    hide EntryAt, Holds, Outside;
    ghost var b := dts[..];
    var pos := start;
    HoldsNone(b, start);
    for i := 0 to |ranges|
      invariant pos == start + 16 * i && Holds(dts[..], start, ranges[..i]) && Outside(b, dts[..], start, pos)
    {
      ghost var b1 := dts[..];
      SetEntry(dts, pos, ranges[i]);
      HoldsMore(b1, dts[..], start, ranges[..i], ranges[i]);
      OutsideOn(b, b1, dts[..], start, pos, pos + 16);
      assert ranges[..i + 1] == ranges[..i] + [ranges[i]];
      pos := pos + 16;
    }
    ghost var b1 := dts[..];
    assert ranges[..|ranges|] == ranges;
    SetEntry(dts, pos, (0, 0));
    HoldsMore(b1, dts[..], start, ranges, (0, 0));
    OutsideOn(b, b1, dts[..], start, pos, pos + 16);
  }

  lemma HoldsNone(b: Blob, start: nat)
    requires start <= |b|
    ensures Holds(b, start, []) && Outside(b, b, start, start)
  {
  }

  lemma OldEntries(b: Blob, b': Blob, o: nat, es: seq<Entry>, hi: nat)
    requires Lists(b, o, es) && Outside(b, b', o + 16 * |es|, hi)
    ensures forall k :: 0 <= k < |es| ==> es[k] != (0, 0) && EntryAt(b', o + 16 * k) == es[k]
  {
    hide EntryAt;
    forall k | 0 <= k < |es| ensures es[k] != (0, 0) && EntryAt(b', o + 16 * k) == es[k] {
      SameEntry(b, b', o + 16 * k);
    }
  }

  lemma PrefixLists(b': Blob, start: nat, all: seq<Entry>, p: nat)
    requires Holds(b', start, all) && p < |all| && all[p] == (0, 0) && forall k :: 0 <= k < p ==> all[k] != (0, 0)
    ensures Lists(b', start, all[..p])
  {
    hide EntryAt;
    assert EntryAt(b', start + 16 * p) == all[p];
  }

  lemma NewEntries(b': Blob, start: nat, rs: seq<Entry>)
    requires Holds(b', start, rs + [(0, 0)])
    ensures Lists(b', start, BeforeZero(rs))
  {
    hide EntryAt, BeforeZero, Holds, Lists;
    BeforeZeroIs(rs);
    var p, all := |BeforeZero(rs)|, rs + [(0, 0)];
    assert all[..p] == BeforeZero(rs);
    PrefixLists(b', start, all, p);
  }

  lemma ListsJoin(b': Blob, o: nat, es: seq<Entry>, fs: seq<Entry>)
    requires Lists(b', o + 16 * |es|, fs) && |b'| >= o + 16 * |es|
    requires forall k :: 0 <= k < |es| ==> es[k] != (0, 0) && EntryAt(b', o + 16 * k) == es[k]
    ensures Lists(b', o, es + fs)
  {
    hide EntryAt;
    var all, start := es + fs, o + 16 * |es|;
    assert EntryAt(b', o + 16 * |all|) == EntryAt(b', start + 16 * |fs|);
    forall k | 0 <= k < |all| ensures all[k] != (0, 0) && EntryAt(b', o + 16 * k) == all[k] {
      if k >= |es| {
        assert EntryAt(b', start + 16 * (k - |es|)) == fs[k - |es|];
      }
    }
  }

  /** Old entries, then what was written, as a reader sees them. */
  lemma ListsMore(b: Blob, b': Blob, o: nat, es: seq<Entry>, rs: seq<Entry>)
    requires Lists(b, o, es) && Outside(b, b', o + 16 * |es|, o + 16 * |es| + 16 * (|rs| + 1))
    requires Holds(b', o + 16 * |es|, rs + [(0, 0)])
    ensures Lists(b', o, es + BeforeZero(rs))
  {
    hide EntryAt, BeforeZero, Holds;
    OldEntries(b, b', o, es, o + 16 * |es| + 16 * (|rs| + 1));
    NewEntries(b', o + 16 * |es|, rs);
    ListsJoin(b', o, es, BeforeZero(rs));
  }

  /** What a successful mem_reserve does. */
  ghost predicate Reserved(b: Blob, b': Blob, es: seq<Entry>, ranges: seq<Entry>) {
    && MovedUp(b, b', 16 * |ranges|)
    && Lists(b', ReservedAt(b'), es + BeforeZero(ranges)) && ReservedAt(b') + 16 * (|es| + |ranges| + 1) <= StructAt(b')
    && Holds(b', ReservedAt(b) + 16 * |es|, ranges + [(0, 0)])
    && forall i :: HEADER <= i < ReservedAt(b) + 16 * |es| && i < |b| ==> b'[i] == b[i]
  }

  lemma ReservedBy(b: Blob, b1: Blob, b2: Blob, es: seq<Entry>, ranges: seq<Entry>)
    requires Layout(b, es) && MovedUp(b, b1, 16 * |ranges|) && GapKept(b, b1)
    requires ReservedAt(b) + 16 * |es| + 16 * (|ranges| + 1) <= |b1|
    requires Outside(b1, b2, ReservedAt(b) + 16 * |es|, ReservedAt(b) + 16 * |es| + 16 * (|ranges| + 1))
    requires Holds(b2, ReservedAt(b) + 16 * |es|, ranges + [(0, 0)])
    ensures Reserved(b, b2, es, ranges)
  {
    hide Lists, Be32, Holds, BeforeZero, EntryAt, GapKept;
    StillLists(b, b1, es);
    ListsMore(b1, b2, ReservedAt(b), es, ranges);
    SameWord(b1, b2, OFF_DT_STRUCT);
    SameWord(b1, b2, OFF_DT_STRINGS);
    SameWord(b1, b2, OFF_MEM_RSVS);
    SameWord(b1, b2, SIZE_DT_STRUCT);
    SameWord(b1, b2, SIZE_DT_STRINGS);
    FrontKept(b, b1, b2, ReservedAt(b) + 16 * |es|, ReservedAt(b) + 16 * |es| + 16 * (|ranges| + 1));
  }

  lemma FrontKept(b: Blob, b1: Blob, b2: Blob, lo: nat, hi: nat)
    requires HEADER <= |b| && GapKept(b, b1) && Outside(b1, b2, lo, hi) && lo <= StructAt(b)
    ensures forall i :: HEADER <= i < lo && i < |b| ==> b2[i] == b[i]
  {
    hide Be32;
  }

  lemma StillLists(b: Blob, b1: Blob, es: seq<Entry>)
    requires Layout(b, es) && GapKept(b, b1)
    ensures Lists(b1, ReservedAt(b), es)
  {
    hide Be32, EntryAt;
    var o := ReservedAt(b);
    SameEntry(b, b1, o + 16 * |es|);
    forall k | 0 <= k < |es| ensures es[k] != (0, 0) && EntryAt(b1, o + 16 * k) == es[k] {
      SameEntry(b, b1, o + 16 * k);
    }
  }

  /** mem_reserve: it succeeds exactly if there is room, and otherwise changes nothing. */
  method MemReserve(dts: array<Byte>, ranges: seq<Entry>, ghost es: seq<Entry>) returns (r: Result)
    requires Layout(dts[..], es) && forall k :: 0 <= k < |ranges| ==> ranges[k].0 < BIT64 && ranges[k].1 < BIT64
    modifies dts
    ensures r.Ok? <==> Room(old(dts[..]), |ranges|)
    ensures r.Err? ==> dts[..] == old(dts[..])
    ensures r.Ok? ==> Reserved(old(dts[..]), dts[..], es, ranges) && InBytes(old(dts[..]), dts[..], |es|, ranges)
  {
    hide Lists, Be32, GapKept, Holds, Outside, Reserved, MovedUp, InBytes;
    ghost var b := dts[..];
    r := Resize(dts, |ranges|, es);
    if r.Err? {
      return;
    }
    ghost var b1 := dts[..];
    AfterMove(b, b1, es, |ranges|);
    var offset := Be32(dts[..], OFF_MEM_RSVS);
    StillLists(b, b1, es);
    var pos := SkipEntries(dts, offset, es);
    WriteEntries(dts, pos, ranges);
    ReservedBy(b, b1, dts[..], es, ranges);
    ReservedInBytes(b, dts[..], es, ranges);
  }

  lemma AfterMove(b: Blob, b1: Blob, es: seq<Entry>, n: nat)
    requires Layout(b, es) && MovedUp(b, b1, 16 * n)
    ensures |b1| == |b| && ReservedAt(b1) == ReservedAt(b) && ReservedAt(b) + 16 * |es| + 16 * (n + 1) <= |b1|
  {
    hide Lists, Be32;
  }

  /** With no (0, 0) among the ranges the block then reads as the old entries and the ranges after them. */
  lemma ReservedReads(b: Blob, b': Blob, es: seq<Entry>, ranges: seq<Entry>)
    requires Layout(b, es) && Reserved(b, b', es, ranges)
    ensures Entries(b', ReservedAt(b')) == Some(es + BeforeZero(ranges))
    ensures (0, 0) !in ranges ==> Entries(b', ReservedAt(b')) == Some(es + ranges) && Layout(b', es + ranges)
  {
    hide Be32, EntryAt, Entries, Holds;
    ListsEntries(b', ReservedAt(b'), es + BeforeZero(ranges));
    BeforeZeroIs(ranges);
  }

  // ---- the same in bytes ---------------------------------------------------------------------------

  /** The number in n bytes at offset o, the most significant first. */
  ghost function Number(b: Blob, o: nat, n: nat): nat
    requires o + n <= |b|
  {
    if n == 0 then 0 else Number(b, o, n - 1) * 256 + b[o + n - 1]
  }

  /** 256 to the power of j: what a byte with j bytes after it counts. */
  ghost function Weight(j: nat): (w: nat)
    ensures w > 0
  {
    if j == 0 then 1 else 256 * Weight(j - 1)
  }

  lemma {:induction false} NumberByte(b: Blob, o: nat, n: nat, j: nat)
    requires o + n <= |b| && j < n
    ensures b[o + j] == Number(b, o, n) / Weight(n - 1 - j) % 256
  {
    hide Number, Weight;
    NumberLast(b, o, n);
    var v: nat, last: nat := Number(b, o, n - 1), b[o + n - 1];
    if j == n - 1 {
      WeightOf(0);
      Quotient(v * 256 + last, 256, v, last);
    } else {
      NumberByte(b, o, n - 1, j);
      WeightOf(n - 1 - j);
      ShiftDown(v, last, Weight(n - 2 - j));
    }
  }

  lemma NumberLast(b: Blob, o: nat, n: nat)
    requires o + n <= |b| && n > 0
    ensures Number(b, o, n) == Number(b, o, n - 1) * 256 + b[o + n - 1]
  {
  }

  lemma WeightOf(j: nat)
    ensures Weight(0) == 1 && (j > 0 ==> Weight(j) == 256 * Weight(j - 1))
  {
  }

  lemma ShiftDown(v: nat, last: nat, w: nat)
    requires w > 0 && last < 256
    ensures (v * 256 + last) / (256 * w) == v / w
  {
    var q: nat, r: nat := v / w, v % w;
    assert v == q * w + r;
    assert v * 256 + last == q * (256 * w) + (r * 256 + last);
    Quotient(v * 256 + last, 256 * w, q, r * 256 + last);
  }

  /** get_be32 and get_be64 read big-endian numbers. */
  lemma Be32Number(b: Blob, o: nat)
    requires o + 4 <= |b|
    ensures Be32(b, o) == Number(b, o, 4)
  {
    assert Number(b, o, 1) == b[o];
    assert Number(b, o, 2) == Number(b, o, 1) * 256 + b[o + 1];
    assert Number(b, o, 3) == Number(b, o, 2) * 256 + b[o + 2];
  }

  lemma Be64Number(b: Blob, o: nat)
    requires o + 8 <= |b|
    ensures Be64(b, o) == Number(b, o, 8)
  {
    hide Be32;
    Be32Number(b, o);
    Be32Number(b, o + 4);
    assert Number(b, o, 5) == Number(b, o, 4) * 256 + b[o + 4];
    assert Number(b, o, 6) == Number(b, o, 5) * 256 + b[o + 5];
    assert Number(b, o, 7) == Number(b, o, 6) * 256 + b[o + 6];
    assert Number(b, o + 4, 1) == b[o + 4];
    assert Number(b, o + 4, 2) == Number(b, o + 4, 1) * 256 + b[o + 5];
    assert Number(b, o + 4, 3) == Number(b, o + 4, 2) * 256 + b[o + 6];
    assert Number(b, o + 4, 4) == Number(b, o + 4, 3) * 256 + b[o + 7];
  }

  /** Byte by byte: get_be32 finds the most significant byte first. */
  lemma Be32Bytes(b: Blob, o: nat)
    requires o + 4 <= |b|
    ensures forall i :: o <= i < o + 4 ==> b[i] == Be32(b, o) / Weight(o + 3 - i) % 256
  {
    hide Be32, Number, Weight;
    Be32Number(b, o);
    forall i | o <= i < o + 4 ensures b[i] == Be32(b, o) / Weight(o + 3 - i) % 256 {
      NumberByte(b, o, 4, i - o);
    }
  }

  /** An entry is the number in 8 bytes for the address and the one in the next 8 for the size. */
  lemma EntryNumbers(b: Blob, o: nat)
    requires o + 16 <= |b|
    ensures EntryAt(b, o) == (Number(b, o, 8), Number(b, o + 8, 8))
  {
    hide Be64;
    Be64Number(b, o);
    Be64Number(b, o + 8);
  }

  ghost predicate ZeroBytes(b: Blob, o: nat) {
    o + 16 <= |b| && forall i :: o <= i < o + 16 ==> b[i] == 0
  }

  lemma {:induction false} NumberZero(b: Blob, o: nat, n: nat)
    requires o + n <= |b|
    ensures Number(b, o, n) == 0 <==> forall i :: o <= i < o + n ==> b[i] == 0
  {
    if n > 0 {
      NumberZero(b, o, n - 1);
    }
  }

  /** The terminator is 16 zero bytes. */
  lemma EntryZero(b: Blob, o: nat)
    requires o + 16 <= |b|
    ensures EntryAt(b, o) == (0, 0) <==> ZeroBytes(b, o)
  {
    hide EntryAt, Number;
    EntryNumbers(b, o);
    NumberZero(b, o, 8);
    NumberZero(b, o + 8, 8);
  }

  /** The block at o has n entries before its first 16 zero bytes. */
  ghost predicate EndsAfter(b: Blob, o: nat, n: nat) {
    ZeroBytes(b, o + 16 * n) && forall k :: 0 <= k < n ==> !ZeroBytes(b, o + 16 * k)
  }

  lemma ListsBytes(b: Blob, o: nat, es: seq<Entry>)
    requires Lists(b, o, es)
    ensures EndsAfter(b, o, |es|)
  {
    hide EntryAt, ZeroBytes;
    EntryZero(b, o + 16 * |es|);
    forall k | 0 <= k < |es| ensures !ZeroBytes(b, o + 16 * k) {
      assert EntryAt(b, o + 16 * k) == es[k];
      EntryZero(b, o + 16 * k);
    }
  }

  /** The chunk at o: the bytes of base, most significant first, then those of size. */
  ghost predicate Chunk(b: Blob, o: nat, base: nat, size: nat) {
    && o + 16 <= |b|
    && (forall i :: o <= i < o + 8 ==> b[i] == base / Weight(o + 7 - i) % 256)
    && (forall i :: o + 8 <= i < o + 16 ==> b[i] == size / Weight(o + 15 - i) % 256)
  }

  lemma EntryChunk(b: Blob, o: nat)
    requires o + 16 <= |b|
    ensures Chunk(b, o, EntryAt(b, o).0, EntryAt(b, o).1)
  {
    hide EntryAt, Number, Weight;
    EntryNumbers(b, o);
    forall i | o <= i < o + 8 ensures b[i] == Number(b, o, 8) / Weight(o + 7 - i) % 256 {
      NumberByte(b, o, 8, i - o);
    }
    forall i | o + 8 <= i < o + 16 ensures b[i] == Number(b, o + 8, 8) / Weight(o + 15 - i) % 256 {
      NumberByte(b, o + 8, 8, i - o - 8);
    }
  }

  /** What mem_reserve does to the bytes of a blob, by the offsets of the Devicetree Specification (section
      5.2: structure at 8, strings at 12, reservations at 16, size of strings at 32, of structure at 36)
      when the reservation block has n entries. */
  ghost predicate InBytes(b: Blob, b': Blob, n: nat, ranges: seq<Entry>) {
    && |b'| == |b| >= 40
    && var d := 16 * |ranges|;
      var pos := Number(b, 16, 4) + 16 * n;
      && Number(b', 8, 4) == Number(b, 8, 4) + d && Number(b', 12, 4) == Number(b, 12, 4) + d
      && (forall i :: 0 <= i < 8 || 16 <= i < 40 ==> b'[i] == b[i])
      && Number(b, 8, 4) + d + Number(b, 36, 4) <= |b|
      && b'[Number(b, 8, 4) + d..Number(b, 8, 4) + d + Number(b, 36, 4)] == b[Number(b, 8, 4)..Number(b, 8, 4) + Number(b, 36, 4)]
      && Number(b, 12, 4) + d + Number(b, 32, 4) <= |b|
      && b'[Number(b, 12, 4) + d..Number(b, 12, 4) + d + Number(b, 32, 4)] == b[Number(b, 12, 4)..Number(b, 12, 4) + Number(b, 32, 4)]
      && (forall i :: 40 <= i < pos && i < |b| ==> b'[i] == b[i])
      && (forall k :: 0 <= k < |ranges| ==> Chunk(b', pos + 16 * k, ranges[k].0, ranges[k].1))
      && ZeroBytes(b', pos + 16 * |ranges|)
  }

  lemma HeaderNumbers(b: Blob)
    requires HEADER <= |b|
    ensures HEADER == 40 && StructAt(b) == Number(b, 8, 4) && StringsAt(b) == Number(b, 12, 4) && ReservedAt(b) == Number(b, 16, 4)
    ensures StringsSize(b) == Number(b, 32, 4) && StructSize(b) == Number(b, 36, 4)
  {
    hide Be32, Number;
    Be32Number(b, 8);
    Be32Number(b, 12);
    Be32Number(b, 16);
    Be32Number(b, 32);
    Be32Number(b, 36);
  }

  lemma HeldChunks(b: Blob, pos: nat, rs: seq<Entry>)
    requires Holds(b, pos, rs + [(0, 0)])
    ensures forall k :: 0 <= k < |rs| ==> Chunk(b, pos + 16 * k, rs[k].0, rs[k].1)
    ensures ZeroBytes(b, pos + 16 * |rs|)
  {
    hide EntryAt, Chunk, ZeroBytes;
    var all := rs + [(0, 0)];
    assert EntryAt(b, pos + 16 * |rs|) == all[|rs|];
    EntryZero(b, pos + 16 * |rs|);
    forall k | 0 <= k < |rs| ensures Chunk(b, pos + 16 * k, rs[k].0, rs[k].1) {
      assert EntryAt(b, pos + 16 * k) == all[k];
      EntryChunk(b, pos + 16 * k);
    }
  }

  /** A successful mem_reserve, in bytes. */
  lemma ReservedInBytes(b: Blob, b': Blob, es: seq<Entry>, ranges: seq<Entry>)
    requires Layout(b, es) && Reserved(b, b', es, ranges)
    ensures EndsAfter(b, Number(b, 16, 4), |es|) && InBytes(b, b', |es|, ranges)
  {
    hide Be32, Lists, Holds, Number, EndsAfter, Chunk, ZeroBytes, StructAt, StringsAt, ReservedAt, StructSize, StringsSize, BeforeZero;
    HeaderNumbers(b);
    HeaderNumbers(b');
    ListsBytes(b, ReservedAt(b), es);
    HeldChunks(b', ReservedAt(b) + 16 * |es|, ranges);
  }
}
