/** Stage-2 translation tables as values: descriptor words, the tree of table frames a
    memory holds, and the translation it stands for. */
module PtTables {
  import opened Common

  // ---- descriptors -------------------------------------------------------------------------

  const PAGE_SIZE: nat := 0x1000
  const SIZE_2MB: nat := 0x20_0000
  const PTE_TABLE: nat := 3
  const PTE_PAGE: nat := 3
  const PTE_BLOCK: nat := 1
  const ADDRESS_TOP: nat := 0x1_0000_0000_0000

  /** A word with the bits outside 47..12 cleared. */
  function ToPa(w: nat): nat {
    w / PAGE_SIZE % 0x10_0000_0000 * PAGE_SIZE
  }

  predicate IsValid(w: nat) {
    w % 4 != 0
  }

  /** The attribute bits of a word: all but the address and type bits. */
  function Attr(w: nat): nat {
    w / ADDRESS_TOP * ADDRESS_TOP + w % PAGE_SIZE / 4 * 4
  }

  predicate IsFrame(pa: nat) {
    pa % PAGE_SIZE == 0 && pa < ADDRESS_TOP
  }

  /** Attributes leave the type and address bits to others, so the or of the three is their sum. */
  predicate IsAttr(pte: nat) {
    pte % 4 == 0 && ToPa(pte) == 0
  }

  /** A descriptor gives back what it was made of. */
  lemma Descriptor(pa: nat, pte: nat, kind: nat)
    requires IsFrame(pa) && IsAttr(pte) && (kind == PTE_BLOCK || kind == PTE_PAGE)
    ensures var w := pa + pte + kind; w % 4 == kind && ToPa(w) == pa && Attr(w) == pte
  {
    var q, lo, p := pte / ADDRESS_TOP, pte % ADDRESS_TOP, pa / PAGE_SIZE;
    AttrParts(pte);
    assert pa == p * PAGE_SIZE;
    Fields(q, p, lo + kind);
    assert (lo + kind) / 4 * 4 == lo && (lo + kind) % 4 == kind;
    assert pa + pte + kind == (q * 0x10_0000_0000 + p) * PAGE_SIZE + (lo + kind);
  }

  lemma AttrParts(pte: nat)
    requires IsAttr(pte)
    ensures pte % ADDRESS_TOP < PAGE_SIZE && pte % ADDRESS_TOP % 4 == 0
  {
    var q, p, low := pte / ADDRESS_TOP, pte % ADDRESS_TOP / PAGE_SIZE, pte % PAGE_SIZE;
    assert pte == q * ADDRESS_TOP + pte % ADDRESS_TOP;
    assert pte % ADDRESS_TOP == p * PAGE_SIZE + pte % ADDRESS_TOP % PAGE_SIZE;
    Fields(q, p, pte % ADDRESS_TOP % PAGE_SIZE);
  }

  lemma Fields(q: nat, p: nat, low: nat)
    requires p < 0x10_0000_0000 && low < PAGE_SIZE
    ensures var w := (q * 0x10_0000_0000 + p) * PAGE_SIZE + low;
      w / PAGE_SIZE == q * 0x10_0000_0000 + p && w / PAGE_SIZE % 0x10_0000_0000 == p
      && w % PAGE_SIZE == low && w / ADDRESS_TOP == q && w % 4 == low % 4
  {
    var v := q * 0x10_0000_0000 + p;
    Quotient(v * PAGE_SIZE + low, PAGE_SIZE, v, low);
    Quotient(v, 0x10_0000_0000, q, p);
    Quotient(v * PAGE_SIZE + low, ADDRESS_TOP, q, p * PAGE_SIZE + low);
    Quotient(v * PAGE_SIZE + low, 4, v * 1024 + low / 4, low % 4);
  }

  /** The same on 64-bit words, where the source builds descriptors with or and masks them. */
  lemma DescriptorBits(pa: bv64, pte: bv64, kind: bv64)
    requires pa & 0xFFFF_0000_0000_0FFF == 0 && pte & 0x0000_FFFF_FFFF_F003 == 0 && kind & 3 == kind
    ensures pa | pte | kind == pa + pte + kind
    ensures (pa | pte | kind) & 0x0000_FFFF_FFFF_F000 == pa && (pa | pte | kind) & 3 == kind
  {
  }

  // ---- tables --------------------------------------------------------------------------------

  /** The piece one height up that piece s is part of, and its place in that piece's table. */
  function Up(s: nat): nat {
    s / 512
  }

  function Pos(s: nat): (i: nat)
    ensures i < 512
  {
    s % 512
  }

  /** A table of height h over the pages v with v / 512^h == n: height 1 holds page
      descriptors, the root has height 3, or 4 with lvl4. */
  datatype Key = Key(h: nat, n: nat)

  /** Memory of the table frames, and where the tables are. */
  datatype Tables = Tables(mem: map<nat, seq<nat>>, at: map<Key, nat>, depth: nat, root: nat)

  /** The word for the s-th piece of height h, 0 where its table is missing. */
  ghost function Word(t: Tables, h: nat, s: nat): nat {
    var k := Key(h + 1, Up(s));
    if k in t.at && t.at[k] in t.mem && |t.mem[t.at[k]]| == 512 then t.mem[t.at[k]][Pos(s)] else 0
  }

  ghost predicate KeyOk(t: Tables, k: Key) {
    && 1 <= k.h <= t.depth && (k.h == t.depth ==> k.n == 0)
    && k in t.at && IsFrame(t.at[k]) && t.at[k] in t.mem && |t.mem[t.at[k]]| == 512
  }

  /** Every table below the root hangs in the table above it. */
  ghost predicate Hangs(t: Tables, k: Key) {
    k in t.at && Key(k.h + 1, Up(k.n)) in t.at && Word(t, k.h, k.n) == t.at[k] + PTE_TABLE
  }

  /** A word is 0, a page, a block of 2 MB, or leads to a table. */
  ghost predicate WordOk(t: Tables, h: nat, s: nat) {
    var w := Word(t, h, s);
    w != 0 ==>
      && (h == 0 ==> w % 4 == PTE_PAGE)
      && (h == 1 ==> w % 4 == PTE_BLOCK || Key(1, s) in t.at)
      && (h > 1 ==> Key(h, s) in t.at)
  }

  ghost predicate KeysOk(t: Tables) {
    forall k {:trigger KeyOk(t, k)} :: k in t.at ==> KeyOk(t, k)
  }

  ghost predicate NoSharing(t: Tables) {
    forall j, k :: j in t.at && k in t.at && t.at[j] == t.at[k] ==> j == k
  }

  ghost predicate AllHang(t: Tables) {
    forall k {:trigger Hangs(t, k)} :: k in t.at && k.h < t.depth ==> Hangs(t, k)
  }

  ghost predicate WordsOk(t: Tables) {
    forall h: nat, s: nat :: WordOk(t, h, s)
  }

  ghost predicate HasRoot(t: Tables) {
    3 <= t.depth <= 4 && Key(t.depth, 0) in t.at && t.at[Key(t.depth, 0)] == t.root
  }

  /** The frames form one tree in which no two tables share a frame. */
  ghost predicate Inv(t: Tables) {
    HasRoot(t) && KeysOk(t) && NoSharing(t) && AllHang(t) && WordsOk(t)
  }

  // ---- translation -----------------------------------------------------------------------------

  /** Output address, attributes, and whether a 2 MB block gives it. */
  datatype Hit = Hit(pa: nat, attr: nat, block: bool)

  /** What word w says of page v. */
  function HitOf(w: nat, v: nat, block: bool): Option<Hit> {
    if w == 0 then None else Some(Hit(ToPa(w) + if block then Pos(v) * PAGE_SIZE else 0, Attr(w), block))
  }

  /** The translation of page number v. */
  ghost function Lookup(t: Tables, v: nat): Option<Hit> {
    if Key(1, Up(v)) in t.at then
      HitOf(Word(t, 0, v), v, false)
    else
      HitOf(Word(t, 1, Up(v)), v, true)
  }

  ghost predicate SameLookup(t: Tables, t': Tables) {
    forall v: nat :: Lookup(t', v) == Lookup(t, v)
  }

  // ---- steps --------------------------------------------------------------------------------

  function Zeros(): (s: seq<nat>)
    ensures |s| == 512 && forall i :: 0 <= i < 512 ==> s[i] == 0
  {
    seq(512, i => 0)
  }

  /** set_entry on the word for piece s of height h. */
  ghost function Put(t: Tables, h: nat, s: nat, w: nat): Tables
    requires Key(h + 1, Up(s)) in t.at && t.at[Key(h + 1, Up(s))] in t.mem
    requires |t.mem[t.at[Key(h + 1, Up(s))]]| == 512
  {
    var f := t.at[Key(h + 1, Up(s))];
    var words: seq<nat> := t.mem[f][Pos(s) := w];
    t.(mem := t.mem[f := words])
  }

  lemma SamePiece(s: nat, s': nat)
    requires Up(s) == Up(s') && Pos(s) == Pos(s')
    ensures s == s'
  {
  }

  lemma PutWord(t: Tables, h: nat, s: nat, w: nat, h': nat, s': nat)
    requires NoSharing(t) && Key(h + 1, Up(s)) in t.at && KeyOk(t, Key(h + 1, Up(s)))
    ensures Word(Put(t, h, s, w), h', s') == if h' == h && s' == s then w else Word(t, h', s')
  {
    if Up(s) == Up(s') && Pos(s) == Pos(s') {
      SamePiece(s, s');
    }
  }

  /** The words of t' are those of t except that piece s of height h reads w. */
  ghost predicate Rewritten(t: Tables, t': Tables, h: nat, s: nat, w: nat) {
    forall h': nat, s': nat :: Word(t', h', s') == if h' == h && s' == s then w else Word(t, h', s')
  }

  lemma PutRewritten(t: Tables, h: nat, s: nat, w: nat)
    requires KeysOk(t) && NoSharing(t) && Key(h + 1, Up(s)) in t.at && KeyOk(t, Key(h + 1, Up(s)))
    ensures Rewritten(t, Put(t, h, s, w), h, s, w) && KeysOk(Put(t, h, s, w))
  {
    hide KeysOk;
    var t' := Put(t, h, s, w);
    forall h': nat, s': nat ensures Word(t', h', s') == if h' == h && s' == s then w else Word(t, h', s') {
      hide *;
      PutWord(t, h, s, w, h', s');
    }
    PutKeys(t, h, s, w);
  }

  lemma PutKeys(t: Tables, h: nat, s: nat, w: nat)
    requires KeysOk(t) && Key(h + 1, Up(s)) in t.at && KeyOk(t, Key(h + 1, Up(s)))
    ensures KeysOk(Put(t, h, s, w))
  {
    var t' := Put(t, h, s, w);
    forall k | k in t.at ensures KeyOk(t', k) {
      assert KeyOk(t, k);
    }
  }

  lemma PutShape(t: Tables, h: nat, s: nat, w: nat)
    requires Key(h + 1, Up(s)) in t.at && KeyOk(t, Key(h + 1, Up(s)))
    ensures var t' := Put(t, h, s, w); t'.at == t.at && t'.depth == t.depth && t'.root == t.root
  {
  }

  lemma KeyOf(t: Tables, k: Key)
    requires Inv(t) && k in t.at
    ensures KeyOk(t, k)
  {
  }

  /** A page or block descriptor is written over 0, or 0 over it. */
  lemma PutLeaf(t: Tables, h: nat, s: nat, w: nat)
    requires Inv(t) && h <= 1 && Key(h + 1, Up(s)) in t.at && Key(h, s) !in t.at
    requires w == 0 || w % 4 == (if h == 0 then PTE_PAGE else PTE_BLOCK)
    ensures KeyOk(t, Key(h + 1, Up(s))) && Inv(Put(t, h, s, w)) && Rewritten(t, Put(t, h, s, w), h, s, w)
  {
    KeyOf(t, Key(h + 1, Up(s)));
    hide Word, Put, KeyOk, KeysOk;
    PutRewritten(t, h, s, w);
    PutShape(t, h, s, w);
    var t' := Put(t, h, s, w);
    assert AllHang(t') by {
      forall k | k in t.at && k.h < t.depth ensures Hangs(t', k) {
        assert Hangs(t, k);
      }
    }
    hide Hangs;
    forall h': nat, s': nat ensures WordOk(t', h', s') {
      assert WordOk(t, h', s');
    }
  }

  /** A zeroed frame f becomes the table for piece s of height h. */
  ghost function Grow(t: Tables, h: nat, s: nat, f: nat): Tables
    requires Key(h + 1, Up(s)) in t.at && KeyOk(t, Key(h + 1, Up(s))) && Fresh(t, f)
  {
    Put(t.(mem := t.mem[f := Zeros()]), h, s, f + PTE_TABLE).(at := t.at[Key(h, s) := f])
  }

  /** f is a frame no table uses. */
  ghost predicate Fresh(t: Tables, f: nat) {
    IsFrame(f) && forall k :: k in t.at ==> t.at[k] != f
  }

  lemma GrowWord(t: Tables, h: nat, s: nat, f: nat, h': nat, s': nat)
    requires NoSharing(t) && Key(h + 1, Up(s)) in t.at && KeyOk(t, Key(h + 1, Up(s)))
    requires Fresh(t, f) && h >= 1 && Key(h, s) !in t.at
    ensures Word(Grow(t, h, s, f), h', s') == if h' == h && s' == s then f + PTE_TABLE else Word(t, h', s')
  {
    var t1 := t.(mem := t.mem[f := Zeros()]);
    assert KeyOk(t1, Key(h + 1, Up(s)));
    var t2 := Put(t1, h, s, f + PTE_TABLE);
    PutWord(t1, h, s, f + PTE_TABLE, h', s');
    assert Word(t1, h', s') == Word(t, h', s');
    if Key(h' + 1, Up(s')) == Key(h, s) {
      assert Word(Grow(t, h, s, f), h', s') == 0;
    } else {
      assert Word(Grow(t, h, s, f), h', s') == Word(t2, h', s');
    }
  }

  lemma GrowKeys(t: Tables, h: nat, s: nat, f: nat)
    requires KeysOk(t) && Key(h + 1, Up(s)) in t.at && KeyOk(t, Key(h + 1, Up(s))) && Fresh(t, f) && h >= 1
    ensures KeysOk(Grow(t, h, s, f))
  {
    var t' := Grow(t, h, s, f);
    forall k | k in t'.at ensures KeyOk(t', k) {
      assert k in t.at ==> KeyOk(t, k);
    }
  }

  /** t' is t with an empty table in frame f for piece s of height h. */
  ghost predicate Grown(t: Tables, t': Tables, h: nat, s: nat, f: nat) {
    && 1 <= h < t.depth && Key(h + 1, Up(s)) in t.at && Key(h, s) !in t.at && Word(t, h, s) == 0
    && t'.at == t.at[Key(h, s) := f] && t'.depth == t.depth && t'.root == t.root
    && Rewritten(t, t', h, s, f + PTE_TABLE) && KeysOk(t')
  }

  lemma GrowShape(t: Tables, h: nat, s: nat, f: nat)
    requires Inv(t) && Key(h + 1, Up(s)) in t.at && h >= 1 && Key(h, s) !in t.at && Word(t, h, s) == 0 && Fresh(t, f)
    ensures KeyOk(t, Key(h + 1, Up(s))) && Grown(t, Grow(t, h, s, f), h, s, f)
  {
    KeyOf(t, Key(h + 1, Up(s)));
    GrowKeys(t, h, s, f);
    hide KeysOk;
    var t' := Grow(t, h, s, f);
    forall h': nat, s': nat ensures Word(t', h', s') == if h' == h && s' == s then f + PTE_TABLE else Word(t, h', s') {
      assert NoSharing(t);
      hide *;
      GrowWord(t, h, s, f, h', s');
    }
  }

  lemma GrownHangs(t: Tables, t': Tables, h: nat, s: nat, f: nat, k: Key)
    requires Grown(t, t', h, s, f) && k in t'.at && (k in t.at ==> Hangs(t, k))
    ensures Hangs(t', k)
  {
    hide Word, KeysOk;
  }

  lemma GrownWord(t: Tables, t': Tables, h: nat, s: nat, f: nat, h': nat, s': nat)
    requires Grown(t, t', h, s, f) && WordOk(t, h', s')
    ensures WordOk(t', h', s')
  {
    hide Word, KeysOk;
  }

  /** Hanging an empty table in an empty place keeps the tree ... */
  lemma GrownInv(t: Tables, t': Tables, h: nat, s: nat, f: nat)
    requires Inv(t) && Grown(t, t', h, s, f) && Fresh(t, f)
    ensures Inv(t')
  {
    hide KeysOk, WordOk, Hangs, Rewritten;
    forall k | k in t'.at && k.h < t'.depth ensures Hangs(t', k) {
      GrownHangs(t, t', h, s, f, k);
    }
    forall h': nat, s': nat ensures WordOk(t', h', s') {
      GrownWord(t, t', h, s, f, h', s');
    }
  }

  /** ... and changes no translation. */
  lemma GrownLookup(t: Tables, t': Tables, h: nat, s: nat, f: nat)
    requires Inv(t) && Grown(t, t', h, s, f)
    ensures SameLookup(t, t')
  {
    hide KeysOk, AllHang, NoSharing;
    forall v: nat ensures Lookup(t', v) == Lookup(t, v) {
      GrownLookupAt(t, t', h, s, f, v);
    }
  }

  lemma GrownLookupAt(t: Tables, t': Tables, h: nat, s: nat, f: nat, v: nat)
    requires Grown(t, t', h, s, f) && WordsOk(t)
    ensures Lookup(t', v) == Lookup(t, v)
  {
    assert WordOk(t, 1, Up(v));
    Orphan(t, h, s, v);
    hide Word, KeysOk, WordsOk;
    assert Word(t', 0, v) == Word(t, 0, v);
  }

  /** Nothing is below a missing table. */
  lemma Orphan(t: Tables, h: nat, s: nat, v: nat)
    requires Key(h, s) !in t.at
    ensures h >= 1 && Up(v) == s ==> Word(t, h - 1, v) == 0
  {
  }

  /** t' is t without the empty table for piece s of height h. */
  ghost predicate Dropped(t: Tables, t': Tables, h: nat, s: nat) {
    && 1 <= h < t.depth && Key(h, s) in t.at && Barren(t, h - 1, s)
    && t'.at == t.at - {Key(h, s)} && t'.depth == t.depth && t'.root == t.root
    && Rewritten(t, t', h, s, 0) && KeysOk(t')
  }

  /** All words of the table for piece n of height h + 1 are 0. */
  ghost predicate Barren(t: Tables, h: nat, n: nat) {
    forall s: nat :: Up(s) == n ==> Word(t, h, s) == 0
  }

  /** set_entry with 0 on the word that led to a table, which is then forgotten. */
  ghost function Drop(t: Tables, h: nat, s: nat): Tables
    requires Key(h + 1, Up(s)) in t.at && KeyOk(t, Key(h + 1, Up(s)))
  {
    Put(t, h, s, 0).(at := t.at - {Key(h, s)})
  }

  lemma DropWord(t: Tables, h: nat, s: nat, h': nat, s': nat)
    requires NoSharing(t) && Key(h + 1, Up(s)) in t.at && KeyOk(t, Key(h + 1, Up(s)))
    requires h >= 1 && (h' == h - 1 && Up(s') == s ==> Word(t, h', s') == 0)
    ensures Word(Drop(t, h, s), h', s') == if h' == h && s' == s then 0 else Word(t, h', s')
  {
    PutWord(t, h, s, 0, h', s');
    if Key(h' + 1, Up(s')) != Key(h, s) {
      assert Word(Drop(t, h, s), h', s') == Word(Put(t, h, s, 0), h', s');
    }
  }

  lemma DropKeys(t: Tables, h: nat, s: nat)
    requires KeysOk(t) && Key(h + 1, Up(s)) in t.at && KeyOk(t, Key(h + 1, Up(s)))
    ensures KeysOk(Drop(t, h, s))
  {
    PutKeys(t, h, s, 0);
    var t' := Drop(t, h, s);
    hide Put;
    forall k | k in t'.at ensures KeyOk(t', k) {
      assert KeyOk(Put(t, h, s, 0), k);
    }
  }

  lemma HangsAt(t: Tables, k: Key)
    requires Inv(t) && k in t.at && k.h < t.depth
    ensures Hangs(t, k)
  {
    hide KeysOk, NoSharing, WordsOk;
  }

  lemma DropRewritten(t: Tables, h: nat, s: nat)
    requires NoSharing(t) && Key(h + 1, Up(s)) in t.at && KeyOk(t, Key(h + 1, Up(s)))
    requires h >= 1 && Barren(t, h - 1, s)
    ensures Rewritten(t, Drop(t, h, s), h, s, 0)
  {
    hide Word, NoSharing, Drop, KeyOk;
    forall h': nat, s': nat ensures Word(Drop(t, h, s), h', s') == if h' == h && s' == s then 0 else Word(t, h', s') {
      DropWord(t, h, s, h', s');
    }
  }

  lemma DropShape(t: Tables, h: nat, s: nat)
    requires Inv(t) && 1 <= h < t.depth && Key(h, s) in t.at && Barren(t, h - 1, s)
    ensures Key(h + 1, Up(s)) in t.at && KeyOk(t, Key(h + 1, Up(s))) && Dropped(t, Drop(t, h, s), h, s)
  {
    hide Word, KeysOk, NoSharing, AllHang, WordsOk, Barren, Rewritten, KeyOk, Up;
    HangsAt(t, Key(h, s));
    KeyOf(t, Key(h + 1, Up(s)));
    DropKeys(t, h, s);
    DropRewritten(t, h, s);
  }

  lemma DroppedHangs(t: Tables, t': Tables, h: nat, s: nat, k: Key)
    requires Dropped(t, t', h, s) && k in t'.at && Hangs(t, k)
    ensures Hangs(t', k)
  {
    hide Word, KeysOk;
  }

  lemma DroppedWord(t: Tables, t': Tables, h: nat, s: nat, h': nat, s': nat)
    requires Dropped(t, t', h, s) && WordOk(t, h', s')
    ensures WordOk(t', h', s')
  {
    hide Word, KeysOk;
  }

  lemma DroppedInv(t: Tables, t': Tables, h: nat, s: nat)
    requires Inv(t) && Dropped(t, t', h, s)
    ensures Inv(t')
  {
    hide KeysOk, WordOk, Hangs, Rewritten;
    forall k | k in t'.at && k.h < t'.depth ensures Hangs(t', k) {
      assert Hangs(t, k);
      DroppedHangs(t, t', h, s, k);
    }
    forall h': nat, s': nat ensures WordOk(t', h', s') {
      DroppedWord(t, t', h, s, h', s');
    }
  }

  /** Removing an empty table changes no translation. */
  lemma DroppedLookup(t: Tables, t': Tables, h: nat, s: nat)
    requires Inv(t) && Dropped(t, t', h, s)
    ensures SameLookup(t, t')
  {
    hide KeysOk, AllHang, NoSharing;
    forall v: nat ensures Lookup(t', v) == Lookup(t, v) {
      DroppedLookupAt(t, t', h, s, v);
    }
  }

  lemma DroppedLookupAt(t: Tables, t': Tables, h: nat, s: nat, v: nat)
    requires Dropped(t, t', h, s) && WordsOk(t)
    ensures Lookup(t', v) == Lookup(t, v)
  {
    hide Word, KeysOk, WordsOk;
    assert h == 1 && Up(v) == s ==> Word(t, 0, v) == 0;
    assert Word(t', 0, v) == Word(t, 0, v);
  }

  // ---- leaves ------------------------------------------------------------------------------------

  /** A page descriptor decides its page, a block descriptor its 512 pages, and nothing else. */
  lemma LeafLookup(t: Tables, t': Tables, h: nat, s: nat, w: nat, v: nat)
    requires Rewritten(t, t', h, s, w) && t'.at == t.at && h <= 1
    requires if h == 0 then Key(1, Up(s)) in t.at else Key(1, s) !in t.at
    ensures Lookup(t', v) == if Piece(v, h) == s then HitOf(w, v, h == 1) else Lookup(t, v)
  {
    hide Word;
    assert Piece(v, 0) == v && Piece(v, 1) == Up(v);
  }

  /** The piece of height h that page v is in. */
  function Piece(v: nat, h: nat): nat {
    if h == 0 then v else Up(Piece(v, h - 1))
  }

  // ---- reclaiming --------------------------------------------------------------------------------

  ghost predicate NonEmpty(t: Tables, h: nat, n: nat) {
    exists s: nat :: Up(s) == n && Word(t, h, s) != 0
  }

  /** No table of height 1 or 2 is empty, except perhaps x. */
  ghost predicate NoEmptyBut(t: Tables, x: Key) {
    forall k :: k in t.at && 1 <= k.h <= 2 && k != x ==> NonEmpty(t, k.h - 1, k.n)
  }

  ghost predicate NoEmpty(t: Tables) {
    forall k :: k in t.at && 1 <= k.h <= 2 ==> NonEmpty(t, k.h - 1, k.n)
  }

  lemma StillNonEmpty(t: Tables, t': Tables, h: nat, s: nat, w: nat, h': nat, n: nat)
    requires Rewritten(t, t', h, s, w) && NonEmpty(t, h', n) && !(w == 0 && h' == h && n == Up(s))
    ensures NonEmpty(t', h', n)
  {
    hide Word;
    var s' :| Up(s') == n && Word(t, h', s') != 0;
    assert Word(t', h', s') != 0;
  }

  /** Writing a word that is not 0 fills its table. */
  lemma FilledNoEmpty(t: Tables, t': Tables, h: nat, s: nat, w: nat, x: Key)
    requires NoEmptyBut(t, Key(h + 1, Up(s))) && Rewritten(t, t', h, s, w) && w != 0
    requires forall k :: k in t'.at ==> k in t.at || k == x
    ensures NoEmptyBut(t', x)
  {
    hide Word;
    forall k | k in t'.at && 1 <= k.h <= 2 && k != x ensures NonEmpty(t', k.h - 1, k.n) {
      if k == Key(h + 1, Up(s)) {
        assert Word(t', h, s) != 0;
      } else {
        StillNonEmpty(t, t', h, s, w, k.h - 1, k.n);
      }
    }
  }

  /** Clearing a word may empty its table only. */
  lemma ClearedNoEmpty(t: Tables, t': Tables, h: nat, s: nat, x: Key)
    requires NoEmptyBut(t, x) && Rewritten(t, t', h, s, 0)
    requires forall k :: k in t'.at ==> k in t.at && k != x
    ensures NoEmptyBut(t', Key(h + 1, Up(s)))
  {
    hide Word;
    forall k | k in t'.at && 1 <= k.h <= 2 && k != Key(h + 1, Up(s)) ensures NonEmpty(t', k.h - 1, k.n) {
      StillNonEmpty(t, t', h, s, 0, k.h - 1, k.n);
    }
  }

  /** With no empty tables, which tables of height 1 and 2 exist is read off the translation. */
  lemma PageTableNeeded(t: Tables, n: nat)
    requires Inv(t) && NoEmpty(t)
    ensures Key(1, n) in t.at <==> exists v: nat :: Up(v) == n && Lookup(t, v).Some? && !Lookup(t, v).value.block
  {
    hide KeysOk, NoSharing, AllHang, WordsOk, Word;
    if Key(1, n) in t.at {
      var v: nat :| Up(v) == n && Word(t, 0, v) != 0;
      assert Lookup(t, v).Some? && !Lookup(t, v).value.block;
    }
  }

  lemma BlockTableNeeded(t: Tables, n: nat)
    requires Inv(t) && NoEmpty(t)
    ensures Key(2, n) in t.at <==> exists v: nat :: Up(Up(v)) == n && Lookup(t, v).Some?
  {
    hide KeysOk, NoSharing, Word;
    if Key(2, n) in t.at {
      var s: nat :| Up(s) == n && Word(t, 1, s) != 0;
      if Key(1, s) in t.at {
        PageTableNeeded(t, s);
        var v: nat :| Up(v) == s && Lookup(t, v).Some? && !Lookup(t, v).value.block;
        assert Up(Up(v)) == n;
      } else {
        FirstPage(s);
        assert Lookup(t, s * 512).Some?;
        assert Up(Up(s * 512)) == n;
      }
    }
    forall v: nat | Up(Up(v)) == n && Lookup(t, v).Some? ensures Key(2, n) in t.at {
      LookupPath(t, v);
    }
  }

  lemma FirstPage(s: nat)
    ensures Up(s * 512) == s
  {
  }

  /** A translated page has a table of height 2. */
  lemma LookupPath(t: Tables, v: nat)
    requires Inv(t) && Lookup(t, v).Some?
    ensures Key(2, Up(Up(v))) in t.at
  {
    var k := Key(1, Up(v));
    if k in t.at {
      assert Hangs(t, k);
    }
  }

  /** Two states with the same translation and no empty tables that both lie within a third
      have the same tables in the same frames, but for those of height 3 that lvl4 adds. */
  lemma SameTables(t: Tables, mid: Tables, t': Tables)
    requires Inv(t) && Inv(t') && NoEmpty(t) && NoEmpty(t') && SameLookup(t, t') && t.depth == t'.depth
    requires forall k :: k in t.at ==> k in mid.at && mid.at[k] == t.at[k]
    requires forall k :: k in t'.at ==> k in mid.at && mid.at[k] == t'.at[k]
    ensures forall k: Key :: k.h != 3 ==> (k in t.at <==> k in t'.at)
    ensures forall k :: k in t.at && k in t'.at ==> t.at[k] == t'.at[k]
    ensures t.depth == 3 ==> t.at == t'.at
  {
    forall k: Key | k.h != 3 ensures k in t.at <==> k in t'.at {
      SameKey(t, t', k);
    }
    if t.depth == 3 {
      forall k: Key ensures k in t.at <==> k in t'.at {
        SameKey(t, t', k);
      }
    }
  }

  lemma SameKey(t: Tables, t': Tables, k: Key)
    requires Inv(t) && Inv(t') && NoEmpty(t) && NoEmpty(t') && SameLookup(t, t') && t.depth == t'.depth
    requires k.h != 3 || t.depth == 3
    ensures k in t.at <==> k in t'.at
  {
    hide Lookup;
    if k.h == 1 {
      PageTableNeeded(t, k.n);
      PageTableNeeded(t', k.n);
    } else if k.h == 2 {
      BlockTableNeeded(t, k.n);
      BlockTableNeeded(t', k.n);
    } else {
      TopKey(t, k);
      TopKey(t', k);
    }
  }

  lemma TopKey(t: Tables, k: Key)
    requires Inv(t) && (k.h == t.depth || k.h == 0 || k.h > 3)
    ensures k in t.at <==> k == Key(t.depth, 0)
  {
    if k in t.at {
      KeyOf(t, k);
    }
  }
}
