/** The timestamps in snapshot file names, layout YYYY-MM-DD-hhmmss, and why sorting them as
    strings sorts them in time (control-plane/internal/snapshot/snapshot.go). */
module Timestamps {
  import opened Common

  // --- string order ----------------------------------------------------------------------

  /** The order of Go's `<` on strings. */
  predicate Less(a: string, b: string)
    decreases |a|
  {
    b != "" && (a == "" || a[0] < b[0] || (a[0] == b[0] && Less(a[1..], b[1..])))
  }

  lemma {:induction false} LessIsTotal(a: string, b: string)
    ensures Less(a, b) || Less(b, a) || a == b
    ensures !(Less(a, b) && Less(b, a)) && !Less(a, a)
    decreases |a|
  {
    if a != "" {
      LessIsTotal(a[1..], a[1..]);
      if b != "" && a[0] == b[0] {
        LessIsTotal(a[1..], b[1..]);
        assert a[1..] == b[1..] ==> a == [a[0]] + a[1..] == [b[0]] + b[1..] == b;
      }
    }
  }

  lemma {:induction false} LessIsTransitive(a: string, b: string, c: string)
    requires Less(a, b) && Less(b, c)
    ensures Less(a, c)
    decreases |a|
  {
    if a != "" && a[0] == b[0] && b[0] == c[0] {
      LessIsTransitive(a[1..], b[1..], c[1..]);
    }
  }

  /** Strings of one width compare field by field. */
  lemma {:induction false} LessConcat(a: string, b: string, x: string, y: string)
    requires |a| == |b|
    ensures Less(a + x, b + y) <==> Less(a, b) || (a == b && Less(x, y))
    decreases |a|
  {
    if a == "" {
      assert a + x == x && b + y == y;
    } else {
      LessConcat(a[1..], b[1..], x, y);
      assert (a + x)[1..] == a[1..] + x && (b + y)[1..] == b[1..] + y;
      assert a == [a[0]] + a[1..] && b == [b[0]] + b[1..];
    }
  }

  // --- fixed-width numbers ----------------------------------------------------------------

  predicate IsDigit(c: char) {
    '0' <= c <= '9'
  }

  function DigitChar(n: nat): (c: char)
    requires n < 10
    ensures IsDigit(c) && DigitValue(c) == n
  {
    '0' + n as char
  }

  function DigitValue(c: char): nat
    requires IsDigit(c)
  {
    (c - '0') as nat
  }

  function Limit(width: nat): nat {
    if width == 0 then 1 else 10 * Limit(width - 1)
  }

  /** `n` in decimal, zero-padded to `width`. */
  function Pad(n: nat, width: nat): (s: string)
    ensures |s| == width && forall i :: 0 <= i < |s| ==> IsDigit(s[i])
    decreases width
  {
    if width == 0 then "" else Pad(n / 10, width - 1) + [DigitChar(n % 10)]
  }

  function Number(s: string): nat
    requires forall i :: 0 <= i < |s| ==> IsDigit(s[i])
  {
    if s == "" then 0 else 10 * Number(s[..|s| - 1]) + DigitValue(s[|s| - 1])
  }

  lemma {:induction false} NumberOfPad(n: nat, width: nat)
    requires n < Limit(width)
    ensures Number(Pad(n, width)) == n
    decreases width
  {
    if width > 0 {
      NumberOfPad(n / 10, width - 1);
      assert Pad(n, width)[..width - 1] == Pad(n / 10, width - 1);
    }
  }

  lemma {:induction false} PadOfNumber(s: string)
    requires forall i :: 0 <= i < |s| ==> IsDigit(s[i])
    ensures Number(s) < Limit(|s|) && Pad(Number(s), |s|) == s
    decreases |s|
  {
    if s != "" {
      PadOfNumber(s[..|s| - 1]);
      assert s == s[..|s| - 1] + [s[|s| - 1]];
      var v := DigitValue(s[|s| - 1]);
      assert DigitChar(v) == s[|s| - 1];
    }
  }

  lemma {:induction false} DigitOrder(i: nat, j: nat)
    requires i < 10 && j < 10
    ensures Less([DigitChar(i)], [DigitChar(j)]) <==> i < j
    ensures [DigitChar(i)] == [DigitChar(j)] <==> i == j
  {
    assert [DigitChar(i)][0] == DigitChar(i) && [DigitChar(j)][0] == DigitChar(j);
    assert DigitValue(DigitChar(i)) == i && DigitValue(DigitChar(j)) == j;
  }

  lemma {:induction false} PadOrder(n: nat, m: nat, width: nat)
    requires n < Limit(width) && m < Limit(width)
    ensures Less(Pad(n, width), Pad(m, width)) <==> n < m
    ensures Pad(n, width) == Pad(m, width) <==> n == m
    decreases width
  {
    NumberOfPad(n, width);
    NumberOfPad(m, width);
    if width > 0 {
      var a, i, b, j := n / 10, n % 10, m / 10, m % 10;
      assert a < Limit(width - 1) && b < Limit(width - 1);
      PadOrder(a, b, width - 1);
      DigitOrder(i, j);
      assert n == 10 * a + i && m == 10 * b + j;
      LessConcat(Pad(a, width - 1), Pad(b, width - 1), [DigitChar(i)], [DigitChar(j)]);
      assert Pad(n, width) == Pad(a, width - 1) + [DigitChar(i)];
      assert Pad(m, width) == Pad(b, width - 1) + [DigitChar(j)];
    }
  }

  // --- civil time --------------------------------------------------------------------------

  datatype Civil = Civil(year: nat, month: nat, day: nat, hour: nat, minute: nat, second: nat)

  predicate IsLeap(y: nat) {
    y % 4 == 0 && (y % 100 != 0 || y % 400 == 0)
  }

  function DaysIn(y: nat, m: nat): nat
    requires 1 <= m <= 12
  {
    if m == 2 then (if IsLeap(y) then 29 else 28)
    else if m in {4, 6, 9, 11} then 30 else 31
  }

  predicate IsValid(c: Civil) {
    && c.year <= 9999 && 1 <= c.month <= 12 && 1 <= c.day <= DaysIn(c.year, c.month)
    && c.hour < 24 && c.minute < 60 && c.second < 60
  }

  function DaysBeforeYear(y: nat): nat {
    if y == 0 then 0 else DaysBeforeYear(y - 1) + if IsLeap(y - 1) then 366 else 365
  }

  function DaysBeforeMonth(y: nat, m: nat): nat
    requires 1 <= m <= 12
  {
    if m == 1 then 0 else DaysBeforeMonth(y, m - 1) + DaysIn(y, m - 1)
  }

  function DayNumber(c: Civil): nat
    requires IsValid(c)
  {
    DaysBeforeYear(c.year) + DaysBeforeMonth(c.year, c.month) + c.day - 1
  }

  function SecondOfDay(c: Civil): nat {
    3600 * c.hour + 60 * c.minute + c.second
  }

  /** Seconds since the start of year 0, in the proleptic Gregorian calendar, UTC. */
  function Instant(c: Civil): nat
    requires IsValid(c)
  {
    86400 * DayNumber(c) + SecondOfDay(c)
  }

  lemma {:induction false} MonthFits(y: nat, m: nat, m': nat)
    requires 1 <= m < m' <= 12
    ensures DaysBeforeMonth(y, m) + DaysIn(y, m) <= DaysBeforeMonth(y, m')
    decreases m'
  {
    if m + 1 < m' {
      MonthFits(y, m, m' - 1);
    }
  }

  lemma {:induction false} YearLength(y: nat)
    ensures DaysBeforeMonth(y, 12) + 31 == if IsLeap(y) then 366 else 365
  {
    assert DaysBeforeMonth(y, 2) == 31;
    assert DaysBeforeMonth(y, 3) == 31 + DaysIn(y, 2);
    assert DaysBeforeMonth(y, 5) == DaysBeforeMonth(y, 3) + 61;
    assert DaysBeforeMonth(y, 7) == DaysBeforeMonth(y, 5) + 61;
    assert DaysBeforeMonth(y, 9) == DaysBeforeMonth(y, 7) + 62;
    assert DaysBeforeMonth(y, 11) == DaysBeforeMonth(y, 9) + 61;
  }

  lemma {:induction false} YearFits(y: nat, y': nat)
    requires y < y'
    ensures DaysBeforeYear(y) + (if IsLeap(y) then 366 else 365) <= DaysBeforeYear(y')
    decreases y'
  {
    if y + 1 < y' {
      YearFits(y, y' - 1);
    }
  }

  predicate EarlierDay(a: Civil, b: Civil) {
    a.year < b.year || (a.year == b.year &&
    (a.month < b.month || (a.month == b.month && a.day < b.day)))
  }

  lemma {:induction false} EarlierDayIsLess(a: Civil, b: Civil)
    requires IsValid(a) && IsValid(b) && EarlierDay(a, b)
    ensures DayNumber(a) < DayNumber(b)
  {
    if a.year < b.year {
      YearFits(a.year, b.year);
      YearLength(a.year);
      if a.month < 12 {
        MonthFits(a.year, a.month, 12);
      }
    } else if a.month < b.month {
      MonthFits(a.year, a.month, b.month);
    }
  }

  /** Field by field, most significant first. */
  predicate Earlier(a: Civil, b: Civil) {
    EarlierDay(a, b) ||
    (a.year == b.year && a.month == b.month && a.day == b.day && SecondOfDay(a) < SecondOfDay(b))
  }

  lemma {:induction false} EarlierIffInstant(a: Civil, b: Civil)
    requires IsValid(a) && IsValid(b)
    ensures Earlier(a, b) <==> Instant(a) < Instant(b)
  {
    if EarlierDay(a, b) {
      EarlierDayIsLess(a, b);
    } else if EarlierDay(b, a) {
      EarlierDayIsLess(b, a);
    }
  }

  /** The dates there are: every fourth year has a 29 February, of the full centuries every fourth. */
  lemma {:induction false} ValidDates(y: nat, m: nat, d: nat)
    ensures IsValid(Civil(y, m, d, 0, 0, 0)) <==>
      && y <= 9999 && 1 <= m <= 12 && d >= 1
      && (d <= 28 || (d == 29 && (m != 2 || y % 400 == 0 || (y % 4 == 0 && y % 100 != 0)))
          || (d == 30 && m != 2) || (d == 31 && m in {1, 3, 5, 7, 8, 10, 12}))
  {
  }

  /** The next second: on the clock, then on the calendar, where a day is followed by the next of
      its month if there is one. */
  ghost predicate IsNext(a: Civil, b: Civil) {
    var midnight := a.hour == 23 && a.minute == 59 && a.second == 59;
    var more := IsValid(Civil(a.year, a.month, a.day + 1, 0, 0, 0));
    if a.second < 59 then b == a.(second := a.second + 1)
    else if a.minute < 59 then b == a.(minute := a.minute + 1, second := 0)
    else if a.hour < 23 then b == a.(hour := a.hour + 1, minute := 0, second := 0)
    else if more then b == Civil(a.year, a.month, a.day + 1, 0, 0, 0)
    else if a.month < 12 then b == Civil(a.year, a.month + 1, 1, 0, 0, 0)
    else b == Civil(a.year + 1, 1, 1, 0, 0, 0)
  }

  /** Instants count seconds: from the start of year 0, one for each. */
  lemma {:induction false} InstantCounts(a: Civil, b: Civil)
    requires IsValid(a) && IsValid(b) && IsNext(a, b)
    ensures Instant(b) == Instant(a) + 1
    ensures Instant(Civil(0, 1, 1, 0, 0, 0)) == 0
  {
    if a.month == 12 && b.month == 1 {
      YearLength(a.year);
    }
  }

  // --- the layout -----------------------------------------------------------------------------

  function Format(c: Civil): string {
    Pad(c.year, 4) + ("-" + (Pad(c.month, 2) + ("-" + (Pad(c.day, 2) + ("-" +
    (Pad(c.hour, 2) + (Pad(c.minute, 2) + Pad(c.second, 2))))))))
  }

  predicate DigitsAt(s: string, from: nat, to: nat)
    requires from <= to <= |s|
  {
    forall i :: from <= i < to ==> IsDigit(s[i])
  }

  /** Exactly the layout, naming a date and time that exist. */
  function Parse(s: string): Option<Civil> {
    if |s| == 17 && s[4] == '-' && s[7] == '-' && s[10] == '-'
       && DigitsAt(s, 0, 4) && DigitsAt(s, 5, 7) && DigitsAt(s, 8, 10) && DigitsAt(s, 11, 17)
    then
      var c := Civil(Number(s[0..4]), Number(s[5..7]), Number(s[8..10]),
                     Number(s[11..13]), Number(s[13..15]), Number(s[15..17]));
      if IsValid(c) then Some(c) else None
    else None
  }

  lemma {:induction false} Limits()
    ensures Limit(2) == 100 && Limit(4) == 10000
  {
    assert Limit(1) == 10;
    assert Limit(3) == 1000;
  }

  lemma {:induction false} FormatShape(c: Civil)
    ensures var s := Format(c);
      && |s| == 17 && s[4] == '-' && s[7] == '-' && s[10] == '-'
      && s[0..4] == Pad(c.year, 4) && s[5..7] == Pad(c.month, 2) && s[8..10] == Pad(c.day, 2)
      && s[11..13] == Pad(c.hour, 2) && s[13..15] == Pad(c.minute, 2) && s[15..17] == Pad(c.second, 2)
  {
  }

  lemma {:induction false} ParseFormat(c: Civil)
    requires IsValid(c)
    ensures Parse(Format(c)) == Some(c)
  {
    FormatShape(c);
    Limits();
    NumberOfPad(c.year, 4);
    NumberOfPad(c.month, 2);
    NumberOfPad(c.day, 2);
    NumberOfPad(c.hour, 2);
    NumberOfPad(c.minute, 2);
    NumberOfPad(c.second, 2);
    var s := Format(c);
    assert forall i :: 0 <= i < 4 ==> s[i] == s[0..4][i];
    assert forall i :: 5 <= i < 7 ==> s[i] == s[5..7][i - 5];
    assert forall i :: 8 <= i < 10 ==> s[i] == s[8..10][i - 8];
    assert forall i :: 11 <= i < 13 ==> s[i] == s[11..13][i - 11];
    assert forall i :: 13 <= i < 15 ==> s[i] == s[13..15][i - 13];
    assert forall i :: 15 <= i < 17 ==> s[i] == s[15..17][i - 15];
  }

  lemma {:induction false} FormatParse(s: string)
    requires Parse(s).Some?
    ensures IsValid(Parse(s).value) && Format(Parse(s).value) == s
  {
    var c := Parse(s).value;
    PadOfNumber(s[0..4]);
    PadOfNumber(s[5..7]);
    PadOfNumber(s[8..10]);
    PadOfNumber(s[11..13]);
    PadOfNumber(s[13..15]);
    PadOfNumber(s[15..17]);
    Reassembled(s);
  }

  lemma {:induction false} Reassembled(s: string)
    requires |s| == 17 && s[4] == '-' && s[7] == '-' && s[10] == '-'
    ensures s == s[0..4] + ("-" + (s[5..7] + ("-" + (s[8..10] + ("-" + (s[11..13] + (s[13..15] + s[15..17])))))))
  {
    assert s == s[0..4] + s[4..];
    assert s[4..] == "-" + s[5..];
    assert s[5..] == s[5..7] + s[7..];
    assert s[7..] == "-" + s[8..];
    assert s[8..] == s[8..10] + s[10..];
    assert s[10..] == "-" + s[11..];
    assert s[11..] == s[11..13] + (s[13..15] + s[15..17]);
  }

  /** String order on well-formed names is the order of the instants they name. */
  lemma {:induction false} StringOrderIsTimeOrder(a: Civil, b: Civil)
    requires IsValid(a) && IsValid(b)
    ensures Less(Format(a), Format(b)) <==> Instant(a) < Instant(b)
  {
    Limits();
    EarlierIffInstant(a, b);
    var a6, b6 := Pad(a.second, 2), Pad(b.second, 2);
    var a5, b5 := Pad(a.minute, 2) + a6, Pad(b.minute, 2) + b6;
    var a4, b4 := Pad(a.hour, 2) + a5, Pad(b.hour, 2) + b5;
    PadOrder(a.second, b.second, 2);
    PadOrder(a.minute, b.minute, 2);
    LessConcat(Pad(a.minute, 2), Pad(b.minute, 2), a6, b6);
    PadOrder(a.hour, b.hour, 2);
    LessConcat(Pad(a.hour, 2), Pad(b.hour, 2), a5, b5);
    assert Less(a4, b4) <==> SecondOfDay(a) < SecondOfDay(b);
    DateOrder(a, b, a4, b4);
  }

  lemma {:induction false} DateOrder(a: Civil, b: Civil, a4: string, b4: string)
    requires IsValid(a) && IsValid(b)
    requires Less(a4, b4) <==> SecondOfDay(a) < SecondOfDay(b)
    requires Format(a) == Pad(a.year, 4) + ("-" + (Pad(a.month, 2) + ("-" + (Pad(a.day, 2) + ("-" + a4)))))
    requires Format(b) == Pad(b.year, 4) + ("-" + (Pad(b.month, 2) + ("-" + (Pad(b.day, 2) + ("-" + b4)))))
    ensures Less(Format(a), Format(b)) <==> Earlier(a, b)
  {
    Limits();
    var a3, b3 := Pad(a.day, 2) + ("-" + a4), Pad(b.day, 2) + ("-" + b4);
    var a2, b2 := Pad(a.month, 2) + ("-" + a3), Pad(b.month, 2) + ("-" + b3);
    LessConcat("-", "-", a4, b4);
    PadOrder(a.day, b.day, 2);
    LessConcat(Pad(a.day, 2), Pad(b.day, 2), "-" + a4, "-" + b4);
    LessConcat("-", "-", a3, b3);
    PadOrder(a.month, b.month, 2);
    LessConcat(Pad(a.month, 2), Pad(b.month, 2), "-" + a3, "-" + b3);
    LessConcat("-", "-", a2, b2);
    PadOrder(a.year, b.year, 4);
    LessConcat(Pad(a.year, 4), Pad(b.year, 4), "-" + a2, "-" + b2);
  }

  /** The same, stated on the names themselves. */
  lemma {:induction false} NamesSortInTime(s: string, t: string)
    requires Parse(s).Some? && Parse(t).Some?
    ensures Less(s, t) <==> Instant(Parse(s).value) < Instant(Parse(t).value)
  {
    FormatParse(s);
    FormatParse(t);
    StringOrderIsTimeOrder(Parse(s).value, Parse(t).value);
  }
}
