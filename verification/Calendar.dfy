/** date of util.c: a number of seconds, read from the low 40 bits as a signed number, becomes
    a date of the proleptic Gregorian calendar and a time of day. */
module Calendar {
  import opened Common

  const SECS_PER_HOUR: int := 3600
  const SECS_PER_DAY: int := 86400
  const BIT39: nat := 0x80_0000_0000
  const BIT40: nat := 0x100_0000_0000
  const BIT64: nat := 0x1_0000_0000_0000_0000
  /** Days and seconds of 400 years: 303 common ones and 97 leap years. */
  const DAYS_400: int := 146097
  const SECS_400: int := 12622780800

  datatype Tm = Tm(sec: int, min: int, hour: int, mday: int, mon: int, year: int, wday: int, yday: int)

  predicate IsLeap(y: int) {
    y % 4 == 0 && (y % 100 != 0 || y % 400 == 0)
  }

  function YearLength(y: int): int {
    if IsLeap(y) then 366 else 365
  }

  // ---- the calendar ---------------------------------------------------------------------------

  /** Days from the start of 1970 to the start of year y, counted year by year. */
  ghost function DaysBefore(y: int): int
    decreases if y >= 1970 then y - 1970 else 1970 - y
  {
    if y == 1970 then 0
    else if y > 1970 then DaysBefore(y - 1) + YearLength(y - 1)
    else DaysBefore(y + 1) - YearLength(y)
  }

  const MON_LENGTHS: seq<int> := [31, 28, 31, 30, 31, 30, 31, 31, 30, 31, 30, 31]
  const MON_LENGTHS_LEAP: seq<int> := [31, 29, 31, 30, 31, 30, 31, 31, 30, 31, 30, 31]

  function MonLengths(leap: bool): (s: seq<int>)
    ensures |s| == 12
  {
    if leap then MON_LENGTHS_LEAP else MON_LENGTHS
  }

  /** Days of a year before month m, counted from 0. */
  function MonthStart(leap: bool, m: nat): int
    requires m <= 12
  {
    if m == 0 then 0 else MonthStart(leap, m - 1) + MonLengths(leap)[m - 1]
  }

  /** A calendar date with a time of day. */
  predicate Proper(tm: Tm) {
    && 0 <= tm.sec < 60 && 0 <= tm.min < 60 && 0 <= tm.hour < 24 && 0 <= tm.mon < 12
    && 1 <= tm.mday <= MonLengths(IsLeap(tm.year + 1900))[tm.mon]
  }

  /** The seconds since the start of 1970 of a date. */
  ghost function Seconds(tm: Tm): int
    requires Proper(tm)
  {
    var y := tm.year + 1900;
    (DaysBefore(y) + MonthStart(IsLeap(y), tm.mon) + tm.mday - 1) * SECS_PER_DAY + tm.hour * SECS_PER_HOUR + tm.min * 60 + tm.sec
  }

  /** The low 40 bits of t as a signed number. */
  function Signed(t: nat): int {
    if t % BIT40 >= BIT39 then t % BIT40 - BIT40 else t % BIT40
  }

  // ---- 400 years ------------------------------------------------------------------------------

  function Leaps(y: int): int {
    y / 4 - y / 100 + y / 400
  }

  lemma LeapStep(y: int)
    ensures Leaps(y) == Leaps(y - 1) + if IsLeap(y) then 1 else 0
  {
    DivStep(y, 4);
    DivStep(y, 100);
    DivStep(y, 400);
    LeapFactors(y);
  }

  lemma LeapFactors(y: int)
    ensures y % 100 == 0 ==> y % 4 == 0
    ensures y % 400 == 0 ==> y % 100 == 0
  {
    if y % 100 == 0 {
      Quotient(y, 4, y / 100 * 25, 0);
    }
    if y % 400 == 0 {
      Quotient(y, 100, y / 400 * 4, 0);
    }
  }

  lemma DivStep(y: int, d: int)
    requires d in {4, 100, 400}
    ensures y / d == (y - 1) / d + if y % d == 0 then 1 else 0
  {
  }

  lemma {:induction false} DaysClosed(y: int)
    ensures DaysBefore(y) == 365 * (y - 1970) + Leaps(y - 1) - Leaps(1969)
    decreases if y >= 1970 then y - 1970 else 1970 - y
  {
    if y > 1970 {
      DaysClosed(y - 1);
      LeapStep(y - 1);
    } else if y < 1970 {
      DaysClosed(y + 1);
      LeapStep(y);
    }
  }

  /** The calendar repeats after 400 years, and those are whole weeks. */
  lemma FourCenturies(y: int)
    ensures DaysBefore(y - 400) == DaysBefore(y) - DAYS_400 && DAYS_400 % 7 == 0 && SECS_400 == DAYS_400 * SECS_PER_DAY
  {
    DaysClosed(y);
    DaysClosed(y - 400);
    Shift(y - 1, 4, 100);
    Shift(y - 1, 100, 4);
    Shift(y - 1, 400, 1);
  }

  lemma Shift(y: int, d: int, k: int)
    requires d > 0 && d * k == 400
    ensures (y - 400) / d == y / d - k
  {
    Quotient(y - 400, d, y / d - k, y % d);
  }

  lemma {:induction false} Centuries(k: nat)
    ensures DaysBefore(1970 - 400 * k) == -DAYS_400 * k
  {
    if k > 0 {
      Centuries(k - 1);
      FourCenturies(1970 - 400 * (k - 1));
    }
  }

  /** Adding 400 years to a negative number of seconds. */
  lemma SignedAdd(t: nat)
    requires Signed(t) < 0
    ensures Signed((t + SECS_400) % BIT64) == Signed(t) + SECS_400
  {
    var u, w := t % BIT40, t + SECS_400;
    assert w % BIT64 % BIT40 == w % BIT40 by {
      Quotient(w % BIT40, BIT40, 0, w % BIT40);
      var a, b := w / BIT64, w % BIT64;
      Quotient(w, BIT40, a * 0x100_0000 + b / BIT40, b % BIT40);
    }
    var q := t / BIT40;
    if u + SECS_400 >= BIT40 {
      Quotient(w, BIT40, q + 1, u + SECS_400 - BIT40);
    } else {
      Quotient(w, BIT40, q, u + SECS_400);
    }
  }

  lemma BitTest(t: nat)
    ensures t / BIT39 % 2 == 1 <==> Signed(t) < 0
  {
    var q, u := t / BIT40, t % BIT40;
    if u >= BIT39 {
      Quotient(t, BIT39, 2 * q + 1, u - BIT39);
    } else {
      Quotient(t, BIT39, 2 * q, u);
    }
  }

  lemma MonthsOfYear(y: int)
    ensures MonthStart(IsLeap(y), 12) == YearLength(y)
  {
    MonthStartClosed(IsLeap(y), 12);
  }

  // ---- months and dates without tables --------------------------------------------------------------

  /** Thirty days hath September, April, June and November. */
  lemma MonthLength(leap: bool, m: nat)
    requires m < 12
    ensures MonLengths(leap)[m] == if m == 1 then (if leap then 29 else 28) else if m == 3 || m == 5 || m == 8 || m == 10 then 30 else 31
  {
  }

  /** From March on five months have 153 days, and the same again. */
  lemma {:induction false} MonthStartClosed(leap: bool, m: nat)
    requires m <= 12
    ensures MonthStart(leap, m) == if m <= 1 then 31 * m else 59 + (153 * (m - 2) + 2) / 5 + (if leap then 1 else 0)
  {
    hide MonLengths;
    if m > 0 {
      MonthStartClosed(leap, m - 1);
      MonthLength(leap, m - 1);
    }
  }

  /** The seconds of a date in the proleptic Gregorian calendar, written out. */
  lemma SecondsClosed(tm: Tm)
    requires Proper(tm)
    ensures var y, m := tm.year + 1900, tm.mon;
      var leap := y % 4 == 0 && (y % 100 != 0 || y % 400 == 0);
      var years := 365 * (y - 1970) + (y - 1) / 4 - (y - 1) / 100 + (y - 1) / 400 - 477;
      var months := if m <= 1 then 31 * m else 59 + (153 * (m - 2) + 2) / 5 + (if leap then 1 else 0);
      Seconds(tm) == (((years + months + tm.mday - 1) * 24 + tm.hour) * 60 + tm.min) * 60 + tm.sec
  {
    hide MonthStart, DaysBefore, MonLengths;
    MonthStartClosed(IsLeap(tm.year + 1900), tm.mon);
    DaysClosed(tm.year + 1900);
    assert Leaps(1969) == 477;
  }

  /** Signed is the number in the lowest 40 bits, two's complement. */
  lemma SignedIs(t: nat)
    ensures -549755813888 <= Signed(t) < 549755813888 && (t - Signed(t)) % 1099511627776 == 0
  {
    var q: nat, u: nat := t / BIT40, t % BIT40;
    if u >= BIT39 {
      Quotient(t - Signed(t), BIT40, q + 1, 0);
    } else {
      Quotient(t - Signed(t), BIT40, q, 0);
    }
  }

  /** The date of t: all fields in range, converting back gives the low 40 bits of t as a signed
      number, and day of the year and weekday agree with the date. */
  method Date(t0: nat) returns (tm: Tm)
    requires t0 < 0x1_0000_0000_0000_0000
    ensures Proper(tm) && Seconds(tm) == Signed(t0)
    ensures tm.yday == MonthStart(IsLeap(tm.year + 1900), tm.mon) + tm.mday - 1
    ensures tm.wday == (4 + Signed(t0) / 86400) % 7
  {
    hide DaysBefore, MonLengths, Signed;
    var t: nat, y: int := t0, 1970;
    ghost var k: nat := 0;
    BitTest(t);
    while t / BIT39 % 2 == 1
      invariant y == 1970 - 400 * k && Signed(t) == Signed(t0) + k * SECS_400 && (t / BIT39 % 2 == 1 <==> Signed(t) < 0)
      decreases -Signed(t)
    {
      SignedAdd(t);
      y := y - 400;
      t := (t + SECS_400) % BIT64;
      k := k + 1;
      BitTest(t);
    }
    Unsigned(t);
    t := t % BIT40;
    var days, rem := t / SECS_PER_DAY, t % SECS_PER_DAY;
    ghost var d := Signed(t0) / SECS_PER_DAY;
    Rebase(Signed(t0), k, t);
    Centuries(k);
    var hour := rem / SECS_PER_HOUR;
    rem := rem % SECS_PER_HOUR;
    var min, sec := rem / 60, rem % 60;
    var wday := (4 + days) % 7;
    if wday < 0 {
      wday := wday + 7;
    }
    y, days := YearOf(y, days);
    var mon, mday := MonthOf(y, days);
    return Tm(sec, min, hour, mday + 1, mon, y - 1900, wday, days);
  }

  lemma Unsigned(t: nat)
    requires Signed(t) >= 0
    ensures t % BIT40 == Signed(t)
  {
  }

  lemma Rebase(v: int, k: nat, t: int)
    requires t == v + k * SECS_400
    ensures t / SECS_PER_DAY == v / SECS_PER_DAY + k * DAYS_400 && t % SECS_PER_DAY == v % SECS_PER_DAY
    ensures (4 + t / SECS_PER_DAY) % 7 == (4 + v / SECS_PER_DAY) % 7
  {
    var d := v / SECS_PER_DAY;
    Quotient(t, SECS_PER_DAY, d + k * DAYS_400, v % SECS_PER_DAY);
    Quotient(4 + d + k * DAYS_400, 7, (4 + d) / 7 + k * 20871, (4 + d) % 7);
  }

  /** The two loops over years. */
  method YearOf(y0: int, days0: int) returns (y: int, days: int)
    ensures DaysBefore(y) + days == DaysBefore(y0) + days0 && 0 <= days < YearLength(y)
  {
    hide IsLeap;
    y, days := y0, days0;
    var rem := if IsLeap(y) then 366 else 365;
    while days >= rem
      invariant DaysBefore(y) + days == DaysBefore(y0) + days0 && rem == YearLength(y)
      decreases days
    {
      DaysNext(y);
      y := y + 1;
      days := days - rem;
      rem := if IsLeap(y) then 366 else 365;
    }
    while days < 0
      invariant DaysBefore(y) + days == DaysBefore(y0) + days0 && days < YearLength(y)
      decreases -days
    {
      DaysNext(y - 1);
      y := y - 1;
      days := days + if IsLeap(y) then 366 else 365;
    }
  }

  lemma DaysNext(y: int)
    ensures DaysBefore(y + 1) == DaysBefore(y) + YearLength(y)
  {
  }

  /** The loop over months. */
  method MonthOf(y: int, yday: int) returns (m: nat, days: int)
    requires 0 <= yday < YearLength(y)
    ensures m < 12 && MonthStart(IsLeap(y), m) + days == yday && 0 <= days < MonLengths(IsLeap(y))[m]
  {
    hide IsLeap, MonLengths, YearLength;
    var ip := MonLengths(IsLeap(y));
    MonthsOfYear(y);
    m, days := 0, yday;
    while days >= ip[m]
      invariant m < 12 && MonthStart(IsLeap(y), m) + days == yday && 0 <= days
      decreases 12 - m
    {
      assert MonthStart(IsLeap(y), m + 1) == MonthStart(IsLeap(y), m) + ip[m];
      days := days - ip[m];
      m := m + 1;
    }
  }
}
