/** What the processor makes of the tables: the stage-2 walk of the Arm architecture (DDI 0487,
    section D8.3, 4 KB granule), written with the architecture's own bit positions alone. */
module PtHardware {
  import opened Common
  import opened PtTables
  import opened PageTables

  /** Output address, and the attributes above bit 47 and in bits 11 to 2. */
  datatype Out = Out(address: nat, upper: nat, lower: nat)

  /** The bytes that one descriptor of a lookup level covers. */
  function Reach(level: nat): (n: nat)
    requires level <= 3
    ensures n > 0
  {
    if level == 0 then 0x80_0000_0000 else if level == 1 then 0x4000_0000 else if level == 2 then 0x20_0000 else 0x1000
  }

  /** Bits 47 down to that of n, n a power of 2 below 2^48. */
  function AddressBits(w: nat, n: nat): nat
    requires n > 0
  {
    w % 0x1_0000_0000_0000 / n * n
  }

  function Final(w: nat, level: nat, ipa: nat): Out
    requires level <= 3
  {
    Out(AddressBits(w, Reach(level)) + ipa % Reach(level), w / 0x1_0000_0000_0000, w % 0x1000 / 4)
  }

  /** From the table in a frame at a level. Bit 0: valid. Bit 1: a table above level 3, a page at level 3;
      without it a block at levels 1 and 2, and reserved, which faults, at levels 0 and 3. */
  function HardwareWalk(mem: map<nat, seq<nat>>, table: nat, level: nat, ipa: nat): Option<Out>
    requires level <= 3
    decreases 3 - level
  {
    if table !in mem || |mem[table]| != 512 then None
    else
      var w := mem[table][ipa / Reach(level) % 512];
      if w % 2 == 0 then None
      else if w / 2 % 2 == 1 then
        if level == 3 then Some(Final(w, level, ipa)) else HardwareWalk(mem, AddressBits(w, 0x1000), level + 1, ipa)
      else if level == 1 || level == 2 then Some(Final(w, level, ipa))
      else None
  }

  /** The block that translates a page, if one does, was mapped from its own alignment. */
  predicate Aligned(o: Option<Hit>, u: nat) {
    o.Some? && o.value.block ==> o.value.pa % 0x20_0000 == u * 0x1000 % 0x20_0000
  }

  /** The hardware finds a translation exactly where there is one, with its attributes, and with its output
      address exactly if a block is aligned. */
  ghost predicate Agrees(h: Option<Out>, o: Option<Hit>, ipa: nat) {
    && (h.Some? <==> o.Some?)
    && (o.Some? ==>
         && h.value.upper == o.value.attr / 0x1_0000_0000_0000 && h.value.lower == o.value.attr % 0x1000 / 4
         && (h.value.address == o.value.pa + ipa % 0x1000 <==> Aligned(o, ipa / 0x1000)))
  }

  lemma TypeBits(w: nat)
    ensures w % 4 == 1 ==> w % 2 == 1 && w / 2 % 2 == 0
    ensures w % 4 == 3 ==> w % 2 == 1 && w / 2 % 2 == 1
  {
    var q: nat, k: nat := w / 4, w % 4;
    if k == 1 {
      Quotient(w, 2, 2 * q, 1);
      Quotient(2 * q, 2, q, 0);
    } else if k == 3 {
      Quotient(w, 2, 2 * q + 1, 1);
      Quotient(2 * q + 1, 2, q, 1);
    }
  }

  lemma AddressIs(w: nat)
    ensures AddressBits(w, 0x1000) == ToPa(w)
  {
    var hi, low := w / 0x1_0000_0000_0000, w % 0x1_0000_0000_0000;
    var p, r := low / 0x1000, low % 0x1000;
    Fields(hi, p, r);
    assert w == (hi * 0x10_0000_0000 + p) * 0x1000 + r;
  }

  lemma AttrIs(w: nat)
    ensures Attr(w) / 0x1_0000_0000_0000 == w / 0x1_0000_0000_0000 && Attr(w) % 0x1000 / 4 == w % 0x1000 / 4
  {
    var hi: nat, low: nat := w / 0x1_0000_0000_0000, w % 0x1000 / 4 * 4;
    Quotient(Attr(w), 0x1_0000_0000_0000, hi, low);
    Quotient(Attr(w), 0x1000, hi * 0x10_0000_0000, low);
  }

  /** A page descriptor. */
  lemma PageOut(w: nat, ipa: nat)
    requires w != 0
    ensures Agrees(Some(Final(w, 3, ipa)), HitOf(w, ipa / 0x1000, false), ipa)
  {
    AddressIs(w);
    AttrIs(w);
    hide Attr, ToPa, AddressBits;
  }

  /** A block descriptor of 2 MB. */
  lemma BlockOut(w: nat, ipa: nat)
    requires w != 0
    ensures Agrees(Some(Final(w, 2, ipa)), HitOf(w, ipa / 0x1000, true), ipa)
  {
    AddressIs(w);
    AttrIs(w);
    BlockAddress(w % 0x1_0000_0000_0000, ipa);
    hide Attr, ToPa;
  }

  lemma BlockAddress(x: nat, ipa: nat)
    ensures var pa := x / 0x1000 * 0x1000 + Pos(ipa / 0x1000) * 0x1000;
      x / 0x20_0000 * 0x20_0000 + ipa % 0x20_0000 == pa + ipa % 0x1000 <==> pa % 0x20_0000 == ipa / 0x1000 * 0x1000 % 0x20_0000
  {
    var v: nat, o: nat := ipa / 0x1000, ipa % 0x1000;
    var q: nat, i: nat := v / 512, v % 512;
    Quotient(ipa, 0x20_0000, q, i * 0x1000 + o);
    Quotient(v * 0x1000, 0x20_0000, q, i * 0x1000);
    var p: nat := x / 0x1000;
    var a: nat, b: nat := p / 512, p % 512;
    Quotient(x, 0x20_0000, a, b * 0x1000 + x % 0x1000);
    if b + i < 512 {
      Quotient((p + i) * 0x1000, 0x20_0000, a, (b + i) * 0x1000);
    } else {
      Quotient((p + i) * 0x1000, 0x20_0000, a + 1, (b + i - 512) * 0x1000);
    }
  }

  /** The position a level looks at is that of the page's piece. */
  lemma IndexAt(ipa: nat, level: nat)
    requires level <= 3
    ensures ipa / Reach(level) % 512 == Pos(Piece(ipa / 0x1000, 3 - level))
  {
    Indices(ipa);
  }

  lemma NoneThere(t: Tables, v: nat, h: nat)
    requires Inv(t) && h < t.depth && Key(h + 1, Piece(v, h + 1)) in t.at && Word(t, h, Piece(v, h)) == 0
    ensures Lookup(t, v).None?
  {
    hide Inv, Word, Up;
    Pieces(v);
    assert Up(Piece(v, h)) == Piece(v, h + 1);
    if h > 0 {
      Descend(t, h, Piece(v, h));
      Absent(t, v, h);
    }
  }

  lemma PageThere(t: Tables, v: nat)
    requires Inv(t) && Key(1, Up(v)) in t.at && Word(t, 0, v) != 0
    ensures Word(t, 0, v) % 4 == 3 && Lookup(t, v) == HitOf(Word(t, 0, v), v, false)
  {
    hide Word, HitOf;
    assert WordOk(t, 0, v);
  }

  lemma BlockThere(t: Tables, v: nat)
    requires Inv(t) && Key(2, Up(Up(v))) in t.at && Word(t, 1, Up(v)) % 4 == PTE_BLOCK
    ensures Word(t, 1, Up(v)) % 4 == 1 && Word(t, 1, Up(v)) != 0 && Lookup(t, v) == HitOf(Word(t, 1, Up(v)), v, true)
  {
    hide Word, HitOf, Up, Inv;
    Descend(t, 1, Up(v));
  }

  lemma TableThere(t: Tables, h: nat, s: nat)
    requires Inv(t) && h >= 1 && Key(h + 1, Up(s)) in t.at && Word(t, h, s) != 0 && !(h == 1 && Word(t, h, s) % 4 == PTE_BLOCK)
    ensures h < t.depth && Key(h, s) in t.at && Word(t, h, s) % 4 == 3 && AddressBits(Word(t, h, s), 0x1000) == t.at[Key(h, s)]
  {
    hide Word, Inv, Up, IsFrame, ToPa, AddressBits;
    Descend(t, h, s);
    AddressIs(Word(t, h, s));
    HangsAt(t, Key(h, s));
    KeyFrame(t, Key(h, s));
    TableType(t.at[Key(h, s)]);
  }

  lemma TableType(pa: nat)
    requires IsFrame(pa)
    ensures (pa + PTE_TABLE) % 4 == 3
  {
    Quotient(pa + 3, 4, pa / 0x1000 * 0x400, 3);
  }

  lemma Nothing(ipa: nat)
    ensures Agrees(None, None, ipa)
  {
  }

  lemma {:induction false} WalkFrom(t: Tables, ipa: nat, level: nat)
    requires Inv(t) && 4 - t.depth <= level <= 3
    requires Key(4 - level, Piece(ipa / 0x1000, 4 - level)) in t.at
    ensures Agrees(HardwareWalk(t.mem, t.at[Key(4 - level, Piece(ipa / 0x1000, 4 - level))], level, ipa), Lookup(t, ipa / 0x1000), ipa)
    decreases 3 - level
  {
    hide Inv, Word, Agrees, Up, Pos, Final, AddressBits, Reach;
    var v: nat, h: nat := ipa / 0x1000, 3 - level;
    var s := Piece(v, h);
    assert Up(s) == Piece(v, h + 1);
    IndexAt(ipa, level);
    Descend(t, h, s);
    var w := Word(t, h, s);
    TypeBits(w);
    if w == 0 {
      NoneThere(t, v, h);
      Nothing(ipa);
    } else if h == 0 {
      PageThere(t, v);
      PageOut(w, ipa);
    } else if h == 1 && w % 4 == PTE_BLOCK {
      Pieces(v);
      BlockThere(t, v);
      BlockOut(w, ipa);
    } else {
      TableThere(t, h, s);
      WalkFrom(t, ipa, level + 1);
    }
  }

  /** In every state the operations can reach, the hardware's walk from the directory, at level 1 or with
      four levels at level 0, is the translation. */
  lemma HardwareTranslates(t: Tables, ipa: nat)
    requires Inv(t) && ipa < (if t.depth == 4 then 0x1_0000_0000_0000 else 0x80_0000_0000)
    ensures Agrees(HardwareWalk(t.mem, t.root, 4 - t.depth, ipa), Lookup(t, ipa / 0x1000), ipa)
  {
    hide Inv, Lookup, Agrees, HardwareWalk;
    RootKey(t);
    Indices(ipa);
    assert Piece(ipa / 0x1000, t.depth) == 0;
    WalkFrom(t, ipa, 4 - t.depth);
  }

  lemma PageTableTranslates(p: PageTable, ipa: nat)
    requires p.Valid() && ipa < p.Span()
    ensures Agrees(HardwareWalk(p.mem, p.directory, if p.lvl4 then 0 else 1, ipa), Lookup(p.T(), ipa / 0x1000), ipa)
  {
    hide Inv, Owned, Lookup, Agrees, HardwareWalk;
    HardwareTranslates(p.T(), ipa);
  }

  // ---- blocks stay aligned ------------------------------------------------------------------------------

  /** Every block was mapped from an aligned address. */
  ghost predicate AllAligned(t: Tables) {
    forall u: nat :: Aligned(Lookup(t, u), u)
  }

  /** Mapping 2 MB to an aligned address keeps that; what a walk finds is then the translation itself. */
  lemma BlockStaysAligned(t: Tables, t': Tables, s: nat, pa: nat, pte: nat)
    requires AllAligned(t) && BlockMapped(t, t', s, pa, pte) && pa % 0x20_0000 == 0
    ensures AllAligned(t')
  {
    hide Lookup;
    forall u: nat ensures Aligned(Lookup(t', u), u) {
      assert Aligned(Lookup(t, u), u);
      Quotient(u * 0x1000, 0x20_0000, u / 512, u % 512 * 0x1000);
      Quotient(pa + u % 512 * 0x1000, 0x20_0000, pa / 0x20_0000, u % 512 * 0x1000);
    }
  }

  /** So do pages, and unmapping anything. */
  lemma OthersStayAligned(t: Tables, t': Tables, v: nat, pa: nat, pte: nat, h: nat, s: nat)
    requires AllAligned(t) && (Mapped(t, t', v, pa, pte) || Unmapped(t, t', h, s) || SameLookup(t, t'))
    ensures AllAligned(t')
  {
    hide Lookup, Piece;
    forall u: nat ensures Aligned(Lookup(t', u), u) {
      assert Aligned(Lookup(t, u), u);
    }
  }
}
