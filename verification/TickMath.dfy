/** muldiv64 of util.c: a times b over c with a 96-bit intermediate result. */
module TickMath {
  import opened Common

  const BIT32: nat := 0x1_0000_0000
  const BIT64: nat := 0x1_0000_0000_0000_0000

  function Trunc32(x: nat): nat {
    x % BIT32
  }

  function Trunc64(x: nat): nat {
    x % BIT64
  }

  function High(x: nat): nat {
    x / BIT32
  }

  function Times(x: nat, y: nat): nat {
    x * y
  }

  function Quot(x: nat, c: nat): nat
    requires c > 0
  {
    x / c
  }

  function Rem(x: nat, c: nat): nat
    requires c > 0
  {
    x % c
  }

  /** muldiv64, with every 64-bit and 32-bit truncation of the source written out. */
  function MulDiv64(a: nat, b: nat, c: nat): nat
    requires a < BIT64 && b < BIT32 && 0 < c < BIT32
  {
    var rl := Trunc64(Times(Trunc32(a), b));
    var rh := Trunc64(Trunc64(Times(High(a), b)) + High(rl));
    var resHigh := Trunc32(Quot(rh, c));
    var resLow := Trunc32(Quot(Trunc64(Trunc64(Times(Rem(rh, c), BIT32)) + Trunc32(rl)), c));
    Times(resHigh, BIT32) + resLow
  }

  lemma ProductBelow(x: nat, y: nat, m: nat, n: nat)
    requires x < m && y < n
    ensures x * y <= (m - 1) * (n - 1)
  {
    Grows(x, m - 1, y);
    Grows(y, n - 1, m - 1);
  }

  lemma Grows(x: nat, x': nat, y: nat)
    requires x <= x'
    ensures x * y <= x' * y && y * x <= y * x'
  {
    assert x' * y == x * y + (x' - x) * y;
  }

  /** The product from the halves of a. */
  lemma Halves(low: nat, high: nat, b: nat, rl: nat, carry: nat, t: nat)
    requires rl == low * b && rl == carry * BIT32 + t
    ensures (high * BIT32 + low) * b == (high * b + carry) * BIT32 + t
  {
    assert (high * BIT32 + low) * b == high * b * BIT32 + low * b;
  }

  lemma CarryBelow(rl: nat)
    requires rl <= (BIT32 - 1) * (BIT32 - 1)
    ensures rl / BIT32 < BIT32 - 1 && rl < BIT64
  {
  }

  /** Dividing digit by digit. */
  lemma LongDivision(rh: nat, t: nat, c: nat)
    requires 0 < c < BIT32 && t < BIT32
    ensures rh % c * BIT32 + t < BIT64 && (rh % c * BIT32 + t) / c < BIT32
    ensures (rh * BIT32 + t) / c == rh / c * BIT32 + (rh % c * BIT32 + t) / c
  {
    var q: nat, s: nat := rh / c, rh % c;
    var w: nat := s * BIT32 + t;
    var p: nat, r: nat := w / c, w % c;
    SmallQuotient(s, t, c);
    Digits(rh, q, s, c, t, p, r);
    Quotient(rh * BIT32 + t, c, q * BIT32 + p, r);
  }

  lemma Digits(rh: nat, q: nat, s: nat, c: nat, t: nat, p: nat, r: nat)
    requires rh == q * c + s && s * BIT32 + t == p * c + r
    ensures rh * BIT32 + t == (q * BIT32 + p) * c + r
  {
    assert rh * BIT32 == q * c * BIT32 + s * BIT32;
    assert (q * BIT32 + p) * c == q * c * BIT32 + p * c;
  }

  lemma SmallQuotient(s: nat, t: nat, c: nat)
    requires s < c && t < BIT32 && c < BIT32
    ensures s * BIT32 + t < BIT64 && (s * BIT32 + t) / c < BIT32
  {
    Below(s * BIT32 + t, c, BIT32);
  }

  lemma Below(w: nat, c: nat, n: nat)
    requires c > 0 && w < c * n
    ensures w / c < n
  {
    var e := w / c - n;
    assert w / c * c <= w;
    assert e * c == w / c * c - n * c < 0;
  }

  lemma Small(x: nat)
    ensures x < BIT64 ==> Trunc64(x) == x
    ensures x < BIT32 ==> Trunc32(x) == x
  {
  }

  /** With nothing overflowing the truncations can be left out. */
  lemma Untruncated(a: nat, b: nat, c: nat, rl: nat, m: nat, rh: nat, s: nat, p: nat)
    requires a < BIT64 && b < BIT32 && 0 < c < BIT32
    requires rl == Times(Trunc32(a), b) < BIT64 && m == Times(High(a), b) < BIT64 && rh == m + High(rl) < BIT64
    requires s == Times(Rem(rh, c), BIT32) + Trunc32(rl) < BIT64 && p == Quot(s, c) < BIT32
    ensures MulDiv64(a, b, c) == Times(Trunc32(Quot(rh, c)), BIT32) + p
  {
    hide Trunc32, Trunc64, High, Times, Quot, Rem;
    Small(rl);
    Small(m);
    Small(rh);
    Small(Times(Rem(rh, c), BIT32));
    Small(s);
    Small(p);
  }

  lemma Bounds(a: nat, b: nat)
    requires a < BIT64 && b < BIT32
    ensures var rl, m := Times(Trunc32(a), b), Times(High(a), b);
      rl < BIT64 && m < BIT64 && m + High(rl) < BIT64 && a * b == (m + High(rl)) * BIT32 + Trunc32(rl)
  {
    var low: nat, high: nat := a % BIT32, a / BIT32;
    var rl: nat := low * b;
    ProductBelow(low, b, BIT32, BIT32);
    ProductBelow(high, b, BIT32, BIT32);
    CarryBelow(rl);
    Halves(low, high, b, rl, rl / BIT32, rl % BIT32);
  }

  lemma ByDigits(rh: nat, t: nat, c: nat)
    requires 0 < c < BIT32 && t < BIT32
    ensures var w := Times(Rem(rh, c), BIT32) + t;
      w < BIT64 && Quot(w, c) < BIT32 && (rh * BIT32 + t) / c == Quot(rh, c) * BIT32 + Quot(w, c)
  {
    LongDivision(rh, t, c);
  }

  /** One digit of the division after the other, with no 64-bit value overflowing. */
  lemma Divides(rh: nat, t: nat, c: nat)
    requires 0 < c < BIT32 && t < BIT32
    ensures var s := Times(Rem(rh, c), BIT32) + t; var p := Quot(s, c);
      s < BIT64 && p < BIT32 && (rh * BIT32 + t) / c % BIT64 == Times(Trunc32(Quot(rh, c)), BIT32) + p
  {
    hide Quot, Rem;
    ByDigits(rh, t, c);
    WholeQuotient(Quot(rh, c), Quot(Times(Rem(rh, c), BIT32) + t, c));
  }

  lemma Trunc32Below(x: nat)
    ensures Trunc32(x) < BIT32
  {
  }

  /** No intermediate value overflows: the result is the low 64 bits of the exact quotient. */
  lemma MulDivExact(a: nat, b: nat, c: nat)
    requires a < 0x1_0000_0000_0000_0000 && b < 0x1_0000_0000 && 0 < c < 0x1_0000_0000
    ensures MulDiv64(a, b, c) == a * b / c % 0x1_0000_0000_0000_0000
  {
    hide Trunc32, Trunc64, High, Times, Quot, Rem, MulDiv64;
    var rl, m := Times(Trunc32(a), b), Times(High(a), b);
    Bounds(a, b);
    var rh := m + High(rl);
    Trunc32Below(rl);
    Divides(rh, Trunc32(rl), c);
    var s := Times(Rem(rh, c), BIT32) + Trunc32(rl);
    Untruncated(a, b, c, rl, m, rh, s, Quot(s, c));
  }

  lemma WholeQuotient(q: nat, p: nat)
    requires p < BIT32
    ensures (q * BIT32 + p) % BIT64 == q % BIT32 * BIT32 + p
  {
    Quotient(q * BIT32 + p, BIT64, q / BIT32, q % BIT32 * BIT32 + p);
  }
}
