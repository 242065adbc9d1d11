/** Timestamps and their ISO text: when does text order agree with the order of time? */
module IsoTime {
  import opened Common
  import opened TextOrder

  /** A calendar timestamp; `offset` is the distance from UTC in microseconds, None for a naive one. */
  datatype DateTime = DateTime(
    year: nat, month: nat, day: nat, hour: nat, minute: nat, second: nat, micro: nat, offset: Option<int>)

  predicate IsLeap(year: int) {
    year % 4 == 0 && (year % 100 != 0 || year % 400 == 0)
  }

  function DaysInMonth(year: int, month: nat): nat {
    if month == 2 then (if IsLeap(year) then 29 else 28)
    else if month == 4 || month == 6 || month == 9 || month == 11 then 30
    else 31
  }

  const DAY_MICROS := 86_400_000_000

  predicate ValidOffset(offset: Option<int>) {
    offset.Some? ==> -DAY_MICROS < offset.value < DAY_MICROS
  }

  predicate Valid(t: DateTime) {
    && 1 <= t.year <= 9999
    && 1 <= t.month <= 12
    && 1 <= t.day <= DaysInMonth(t.year, t.month)
    && t.hour < 24 && t.minute < 60 && t.second < 60 && t.micro < 1_000_000
    && ValidOffset(t.offset)
  }

  // ----- the calendar as a count of microseconds -----

  function DaysBeforeYear(year: int): int {
    var y := year - 1;
    y * 365 + y / 4 - y / 100 + y / 400
  }

  function DaysBeforeMonth(year: int, month: nat): nat {
    if month <= 1 then 0 else DaysBeforeMonth(year, month - 1) + DaysInMonth(year, month - 1)
  }

  function Ordinal(t: DateTime): int {
    DaysBeforeYear(t.year) + DaysBeforeMonth(t.year, t.month) + t.day
  }

  /** Local time in microseconds. */
  function Clock(t: DateTime): int {
    (((Ordinal(t) * 24 + t.hour) * 60 + t.minute) * 60 + t.second) * 1_000_000 + t.micro
  }

  /** Distance from UTC; a naive timestamp counts as UTC. */
  function Shift(offset: Option<int>): int {
    if offset.Some? then offset.value else 0
  }

  /** Time in microseconds. */
  function Instant(t: DateTime): int {
    Clock(t) - Shift(t.offset)
  }

  // ----- ISO text -----

  function Digit(n: nat): char
    requires n < 10
  {
    ['0', '1', '2', '3', '4', '5', '6', '7', '8', '9'][n]
  }

  function Pad2(n: nat): string
    requires n < 100
  {
    [Digit(n / 10), Digit(n % 10)]
  }

  function Pad4(n: nat): string
    requires n < 10_000
  {
    Pad2(n / 100) + Pad2(n % 100)
  }

  function Pad6(n: nat): string
    requires n < 1_000_000
  {
    Pad2(n / 10_000) + Pad4(n % 10_000)
  }

  function Fraction(micro: nat): string
    requires micro < 1_000_000
  {
    if micro == 0 then "" else "." + Pad6(micro)
  }

  /** Seconds and microseconds of an offset, left out when both are zero. */
  function OffsetTail(second: nat, micro: nat): string
    requires second < 60 && micro < 1_000_000
  {
    if second == 0 && micro == 0 then "" else ":" + (Pad2(second) + Fraction(micro))
  }

  function OffsetText(offset: Option<int>): string
    requires ValidOffset(offset)
  {
    if offset.None? then ""
    else
      var size := if offset.value < 0 then -offset.value else offset.value;
      var seconds := size / 1_000_000;
      (if offset.value < 0 then "-" else "+")
      + (Pad2(seconds / 3600) + (":" + (Pad2(seconds / 60 % 60) + OffsetTail(seconds % 60, size % 1_000_000))))
  }

  function Iso(t: DateTime): string
    requires Valid(t)
  {
    Pad4(t.year) + ("-" + (Pad2(t.month) + ("-" + (Pad2(t.day) + ("T" + (Pad2(t.hour) + (":" + (Pad2(t.minute)
    + (":" + (Pad2(t.second) + (Fraction(t.micro) + OffsetText(t.offset))))))))))))
  }

  // ----- text order of the parts -----

  lemma DigitOrder(n: nat, m: nat)
    requires n < 10 && m < 10
    ensures Digit(n) < Digit(m) <==> n < m
    ensures Digit(n) == Digit(m) <==> n == m
    ensures '0' <= Digit(n) <= '9'
  {}

  /** Fixed-width numbers compare by value, and what follows decides between equal ones. */
  lemma Pad2Order(n: nat, m: nat, x: string, y: string)
    requires n < 100 && m < 100
    ensures Before(Pad2(n) + x, Pad2(m) + y) <==> n < m || (n == m && Before(x, y))
  {
    DigitOrder(n / 10, m / 10);
    DigitOrder(n % 10, m % 10);
    hide Digit;
    var a, b := Pad2(n) + x, Pad2(m) + y;
    assert a[1..] == [Digit(n % 10)] + x && b[1..] == [Digit(m % 10)] + y;
    assert a[1..][1..] == x && b[1..][1..] == y;
    assert n == n / 10 * 10 + n % 10 && m == m / 10 * 10 + m % 10;
  }

  lemma Pad4Order(n: nat, m: nat, x: string, y: string)
    requires n < 10_000 && m < 10_000
    ensures Before(Pad4(n) + x, Pad4(m) + y) <==> n < m || (n == m && Before(x, y))
  {
    Pad2Order(n / 100, m / 100, Pad2(n % 100) + x, Pad2(m % 100) + y);
    Pad2Order(n % 100, m % 100, x, y);
    hide Pad2;
    assert Pad4(n) + x == Pad2(n / 100) + (Pad2(n % 100) + x);
    assert Pad4(m) + y == Pad2(m / 100) + (Pad2(m % 100) + y);
  }

  lemma Pad6Order(n: nat, m: nat, x: string, y: string)
    requires n < 1_000_000 && m < 1_000_000
    ensures Before(Pad6(n) + x, Pad6(m) + y) <==> n < m || (n == m && Before(x, y))
  {
    Pad2Order(n / 10_000, m / 10_000, Pad4(n % 10_000) + x, Pad4(m % 10_000) + y);
    Pad4Order(n % 10_000, m % 10_000, x, y);
    hide Pad2, Pad4;
    assert Pad6(n) + x == Pad2(n / 10_000) + (Pad4(n % 10_000) + x);
    assert Pad6(m) + y == Pad2(m / 10_000) + (Pad4(m % 10_000) + y);
  }

  /** Nothing, or a sign and more. */
  ghost predicate IsOffset(x: string) {
    x == "" || x[0] == '+' || x[0] == '-'
  }

  /** The fraction is left out when it is zero; text order still agrees, because both signs come before the point. */
  lemma FractionOrder(n: nat, m: nat, x: string, y: string)
    requires n < 1_000_000 && m < 1_000_000 && IsOffset(x) && IsOffset(y)
    ensures Before(Fraction(n) + x, Fraction(m) + y) <==> n < m || (n == m && Before(x, y))
  {
    hide Pad6;
    var a, b := Fraction(n) + x, Fraction(m) + y;
    if n == 0 {
      assert a == x;
    }
    if m == 0 {
      assert b == y;
    }
    if n > 0 && m > 0 {
      assert a == "." + (Pad6(n) + x) && b == "." + (Pad6(m) + y);
      CommonStart(".", Pad6(n) + x, Pad6(m) + y);
      Pad6Order(n, m, x, y);
    }
  }

  lemma Then2(c: string, n: nat, m: nat, x: string, y: string)
    requires n < 100 && m < 100
    ensures Before(c + (Pad2(n) + x), c + (Pad2(m) + y)) <==> n < m || (n == m && Before(x, y))
  {
    CommonStart(c, Pad2(n) + x, Pad2(m) + y);
    Pad2Order(n, m, x, y);
  }

  /** Earlier by calendar fields. */
  ghost predicate FieldsBefore(a: DateTime, b: DateTime) {
    a.year < b.year || (a.year == b.year && (a.month < b.month || (a.month == b.month && (a.day < b.day ||
    (a.day == b.day && (a.hour < b.hour || (a.hour == b.hour && (a.minute < b.minute || (a.minute == b.minute &&
    (a.second < b.second || (a.second == b.second && a.micro < b.micro)))))))))))
  }

  ghost predicate SameFields(a: DateTime, b: DateTime) {
    a == b.(offset := a.offset)
  }

  lemma TextByFields(a: DateTime, b: DateTime)
    requires Valid(a) && Valid(b)
    ensures Before(Iso(a), Iso(b)) <==>
            FieldsBefore(a, b) || (SameFields(a, b) && Before(OffsetText(a.offset), OffsetText(b.offset)))
  {
    hide Pad2, Pad4, Fraction, OffsetText, Before;
    OffsetStarts(a.offset);
    OffsetStarts(b.offset);
    var a6, b6 := Fraction(a.micro) + OffsetText(a.offset), Fraction(b.micro) + OffsetText(b.offset);
    FractionOrder(a.micro, b.micro, OffsetText(a.offset), OffsetText(b.offset));
    var a5, b5 := ":" + (Pad2(a.second) + a6), ":" + (Pad2(b.second) + b6);
    Then2(":", a.second, b.second, a6, b6);
    var a4, b4 := ":" + (Pad2(a.minute) + a5), ":" + (Pad2(b.minute) + b5);
    Then2(":", a.minute, b.minute, a5, b5);
    var a3, b3 := "T" + (Pad2(a.hour) + a4), "T" + (Pad2(b.hour) + b4);
    Then2("T", a.hour, b.hour, a4, b4);
    var a2, b2 := "-" + (Pad2(a.day) + a3), "-" + (Pad2(b.day) + b3);
    Then2("-", a.day, b.day, a3, b3);
    var a1, b1 := "-" + (Pad2(a.month) + a2), "-" + (Pad2(b.month) + b2);
    Then2("-", a.month, b.month, a2, b2);
    Pad4Order(a.year, b.year, a1, b1);
  }

  // ----- the calendar orders fields and days alike -----

  lemma {:induction false} MonthsAscend(year: int, m: nat, n: nat)
    requires 1 <= m < n
    ensures DaysBeforeMonth(year, m) + DaysInMonth(year, m) <= DaysBeforeMonth(year, n)
  {
    if m < n - 1 {
      MonthsAscend(year, m, n - 1);
    }
  }

  lemma YearLength(year: int)
    ensures DaysBeforeMonth(year, 13) == if IsLeap(year) then 366 else 365
  {
    assert DaysBeforeMonth(year, 4) == if IsLeap(year) then 91 else 90 by {
      assert DaysBeforeMonth(year, 2) == 31;
    }
    assert DaysBeforeMonth(year, 7) == DaysBeforeMonth(year, 4) + 91 by {
      assert DaysBeforeMonth(year, 5) == DaysBeforeMonth(year, 4) + 30;
    }
    assert DaysBeforeMonth(year, 10) == DaysBeforeMonth(year, 7) + 92 by {
      assert DaysBeforeMonth(year, 8) == DaysBeforeMonth(year, 7) + 31;
    }
    assert DaysBeforeMonth(year, 11) == DaysBeforeMonth(year, 10) + 31;
  }

  lemma FourthsStep(y: int)
    ensures y / 4 == (y - 1) / 4 + if y % 4 == 0 then 1 else 0
  {}

  lemma CenturiesStep(y: int)
    ensures y / 100 == (y - 1) / 100 + if y % 100 == 0 then 1 else 0
    ensures y / 400 == (y - 1) / 400 + if y % 400 == 0 then 1 else 0
  {}

  lemma DividesDown(y: int)
    ensures y % 400 == 0 ==> y % 100 == 0
    ensures y % 100 == 0 ==> y % 4 == 0
  {}

  lemma YearStep(year: int)
    ensures DaysBeforeYear(year + 1) == DaysBeforeYear(year) + if IsLeap(year) then 366 else 365
  {
    FourthsStep(year);
    CenturiesStep(year);
    DividesDown(year);
  }

  lemma {:induction false} YearsAscend(y: int, z: int)
    requires y < z
    ensures DaysBeforeYear(y) + DaysBeforeMonth(y, 13) <= DaysBeforeYear(z)
    decreases z - y
  {
    hide DaysBeforeYear;
    YearLength(y);
    YearStep(y);
    if y + 1 < z {
      YearsAscend(y + 1, z);
    }
  }

  lemma DayOfYear(t: DateTime)
    requires Valid(t)
    ensures 1 <= DaysBeforeMonth(t.year, t.month) + t.day <= DaysBeforeMonth(t.year, 13)
  {
    MonthsAscend(t.year, t.month, 13);
  }

  lemma DaysOrder(a: DateTime, b: DateTime)
    requires Valid(a) && Valid(b)
    requires a.year < b.year || (a.year == b.year && (a.month < b.month || (a.month == b.month && a.day < b.day)))
    ensures Ordinal(a) < Ordinal(b)
  {
    hide DaysBeforeYear;
    if a.year < b.year {
      DayOfYear(a);
      DayOfYear(b);
      YearsAscend(a.year, b.year);
    } else if a.month < b.month {
      MonthsAscend(a.year, a.month, b.month);
    }
  }

  lemma FieldsOrderClock(a: DateTime, b: DateTime)
    requires Valid(a) && Valid(b) && FieldsBefore(a, b)
    ensures Clock(a) < Clock(b)
  {
    hide Ordinal;
    if a.year != b.year || a.month != b.month || a.day != b.day {
      DaysOrder(a, b);
    } else {
      assert Ordinal(a) == Ordinal(b) by { SameDay(a, b); }
    }
  }

  lemma SameDay(a: DateTime, b: DateTime)
    requires a.year == b.year && a.month == b.month && a.day == b.day
    ensures Ordinal(a) == Ordinal(b)
  {}

  lemma ClockByFields(a: DateTime, b: DateTime)
    requires Valid(a) && Valid(b)
    ensures Clock(a) < Clock(b) <==> FieldsBefore(a, b)
    ensures Clock(a) == Clock(b) <==> SameFields(a, b)
  {
    if FieldsBefore(a, b) {
      FieldsOrderClock(a, b);
    } else if FieldsBefore(b, a) {
      FieldsOrderClock(b, a);
    } else {
      SameDay(a, b);
      hide Ordinal;
    }
  }

  // ----- when text order is time order -----

  /** For any offsets: text compares local time first and the offset's text last. */
  lemma IsoOrder(a: DateTime, b: DateTime)
    requires Valid(a) && Valid(b)
    ensures Before(Iso(a), Iso(b)) <==>
            Clock(a) < Clock(b) || (Clock(a) == Clock(b) && Before(OffsetText(a.offset), OffsetText(b.offset)))
  {
    TextByFields(a, b);
    ClockByFields(a, b);
  }

  /** With one offset, text order is the order of time, whether or not there are fractions. */
  lemma SameOffsetOrder(a: DateTime, b: DateTime)
    requires Valid(a) && Valid(b) && a.offset == b.offset
    ensures Before(Iso(a), Iso(b)) <==> Instant(a) < Instant(b)
    ensures Iso(a) == Iso(b) <==> Instant(a) == Instant(b)
  {
    hide Iso, Clock, OffsetText, Before;
    IsoOrder(a, b);
    IsoOrder(b, a);
    Irreflexive(OffsetText(a.offset));
    Irreflexive(Iso(a));
    Total(Iso(a), Iso(b));
  }

  /** With different offsets it need not be: one o'clock at two hours east of UTC comes before
      midnight UTC, but its text comes after. */
  lemma MixedOffsetsDisagree()
    ensures var utc := DateTime(2024, 1, 1, 0, 0, 0, 0, Some(0));
            var east := DateTime(2024, 1, 1, 1, 0, 0, 0, Some(7_200_000_000));
            Valid(utc) && Valid(east) && Instant(east) < Instant(utc) && Before(Iso(utc), Iso(east))
  {
    var utc := DateTime(2024, 1, 1, 0, 0, 0, 0, Some(0));
    var east := DateTime(2024, 1, 1, 1, 0, 0, 0, Some(7_200_000_000));
    IsoOrder(utc, east);
    SameDay(utc, east);
    hide Ordinal, Iso;
  }

  /** Text order of timestamps at the first offset against timestamps at the second is time order. */
  ghost predicate TextIsTime(first: Option<int>, second: Option<int>) {
    forall a, b :: Valid(a) && Valid(b) && a.offset == first && b.offset == second ==>
      (Before(Iso(a), Iso(b)) <==> Instant(a) < Instant(b))
  }

  /** What two offsets have to satisfy: among equal clocks text puts the first before the second
      exactly when time does, which takes a difference of one microsecond. */
  predicate OffsetsAgree(first: Option<int>, second: Option<int>)
    requires ValidOffset(first) && ValidOffset(second)
  {
    Shift(first) - Shift(second) == if Before(OffsetText(first), OffsetText(second)) then 1 else 0
  }

  const NEW_YEAR := DateTime(2024, 1, 1, 0, 0, 0, 1, None)

  /** A pair of timestamps, at most one microsecond apart by the clock, that shows the disagreement. */
  lemma DisagreeingPair(first: Option<int>, second: Option<int>) returns (a: DateTime, b: DateTime)
    requires ValidOffset(first) && ValidOffset(second) && !OffsetsAgree(first, second)
    ensures Valid(a) && Valid(b) && a.offset == first && b.offset == second
    ensures !(Before(Iso(a), Iso(b)) <==> Instant(a) < Instant(b))
  {
    hide OffsetText, Before;
    var turn := if Before(OffsetText(first), OffsetText(second)) then 1 else 0;
    var apart := if Shift(first) - Shift(second) > turn then turn else turn - 1;
    a, b := NEW_YEAR.(micro := 1 + apart, offset := first), NEW_YEAR.(offset := second);
    IsoOrder(a, b);
    SameDay(a, b);
    hide Ordinal, Iso;
  }

  /** Text order between two offsets is time order exactly when the offsets agree. */
  lemma TextIsTimeExactly(first: Option<int>, second: Option<int>)
    requires ValidOffset(first) && ValidOffset(second)
    ensures TextIsTime(first, second) <==> OffsetsAgree(first, second)
  {
    hide Iso, Clock, OffsetText, Before;
    if OffsetsAgree(first, second) {
      forall a, b | Valid(a) && Valid(b) && a.offset == first && b.offset == second
        ensures Before(Iso(a), Iso(b)) <==> Instant(a) < Instant(b)
      {
        IsoOrder(a, b);
      }
    } else {
      var a, b := DisagreeingPair(first, second);
    }
  }

  /** In both directions text order is time order exactly for one and the same offset. */
  lemma OnlyOneOffsetBothWays(first: Option<int>, second: Option<int>)
    requires ValidOffset(first) && ValidOffset(second)
    ensures TextIsTime(first, second) && TextIsTime(second, first) <==> first == second
  {
    TextIsTimeExactly(first, second);
    TextIsTimeExactly(second, first);
    Irreflexive(OffsetText(first));
    Total(OffsetText(first), OffsetText(second));
    OffsetReadBack(first);
    OffsetReadBack(second);
    hide TextIsTime, OffsetText, Before, ReadOffset;
  }

  predicate WholeSeconds(offset: Option<int>) {
    offset.Some? ==> offset.value % 1_000_000 == 0
  }

  /** Offsets of whole seconds agree when they are the same, or when the first is UTC and the second naive. */
  lemma WholeSecondOffsetsAgree(first: Option<int>, second: Option<int>)
    requires ValidOffset(first) && ValidOffset(second)
    requires WholeSeconds(first) && WholeSeconds(second)
    ensures OffsetsAgree(first, second) <==> first == second || (first == Some(0) && second == None)
  {
    hide OffsetText;
    Irreflexive(OffsetText(first));
    UtcText();
    WholeSecondsApart(Shift(first), Shift(second));
  }

  lemma UtcText()
    ensures OffsetText(None) == "" && OffsetText(Some(0)) != ""
  {}

  lemma WholeSecondsApart(x: int, y: int)
    requires x % 1_000_000 == 0 && y % 1_000_000 == 0
    ensures x - y != 1
  {}

  // ----- reading ISO text -----

  datatype Parsed = Parsed(value: nat, rest: string)

  function Read2(text: string): Option<Parsed> {
    if |text| >= 2 && '0' <= text[0] <= '9' && '0' <= text[1] <= '9'
    then Some(Parsed((text[0] - '0') as nat * 10 + (text[1] - '0') as nat, text[2..]))
    else None
  }

  function Read2After(c: char, text: string): Option<Parsed> {
    if text != "" && text[0] == c then Read2(text[1..]) else None
  }

  function Read4(text: string): Option<Parsed> {
    var high :- Read2(text);
    var low :- Read2(high.rest);
    Some(Parsed(high.value * 100 + low.value, low.rest))
  }

  function Read6(text: string): Option<Parsed> {
    var high :- Read2(text);
    var low :- Read4(high.rest);
    Some(Parsed(high.value * 10_000 + low.value, low.rest))
  }

  function ReadFraction(text: string): Option<Parsed> {
    if text == "" || text[0] != '.' then Some(Parsed(0, text)) else Read6(text[1..])
  }

  /** Seconds and microseconds of an offset, as microseconds. */
  function ReadTail(text: string): Option<nat> {
    if text == "" then Some(0)
    else
      var second :- Read2After(':', text);
      var micro :- ReadFraction(second.rest);
      if micro.rest == "" then Some(second.value * 1_000_000 + micro.value) else None
  }

  function ReadOffset(text: string): Option<Option<int>> {
    if text == "" then Some(None)
    else if text[0] != '+' && text[0] != '-' then None
    else
      var hour :- Read2(text[1..]);
      var minute :- Read2After(':', hour.rest);
      var tail :- ReadTail(minute.rest);
      var size := (hour.value * 60 + minute.value) * 60_000_000 + tail;
      Some(Some(if text[0] == '-' then -size else size))
  }

  /** `fromisoformat` on the texts that `isoformat` gives; a field out of range is refused. */
  function ReadIso(text: string): Option<DateTime> {
    var year :- Read4(text);
    var month :- Read2After('-', year.rest);
    var day :- Read2After('-', month.rest);
    var hour :- Read2After('T', day.rest);
    var minute :- Read2After(':', hour.rest);
    var second :- Read2After(':', minute.rest);
    var micro :- ReadFraction(second.rest);
    var offset :- ReadOffset(micro.rest);
    var t := DateTime(year.value, month.value, day.value, hour.value, minute.value, second.value, micro.value, offset);
    if Valid(t) then Some(t) else None
  }

  lemma DigitReadBack(n: nat)
    requires n < 10
    ensures '0' <= Digit(n) <= '9' && (Digit(n) - '0') as nat == n
  {}

  lemma Read2Back(n: nat, rest: string)
    requires n < 100
    ensures Read2(Pad2(n) + rest) == Some(Parsed(n, rest))
  {
    DigitReadBack(n / 10);
    DigitReadBack(n % 10);
    hide Digit;
    assert (Pad2(n) + rest)[2..] == rest;
  }

  lemma Read2AfterBack(c: string, n: nat, rest: string)
    requires n < 100 && |c| == 1
    ensures Read2After(c[0], c + (Pad2(n) + rest)) == Some(Parsed(n, rest))
  {
    Read2Back(n, rest);
    hide Pad2, Read2;
    assert (c + (Pad2(n) + rest))[1..] == Pad2(n) + rest;
  }

  lemma Read4Back(n: nat, rest: string)
    requires n < 10_000
    ensures Read4(Pad4(n) + rest) == Some(Parsed(n, rest))
  {
    Read2Back(n / 100, Pad2(n % 100) + rest);
    Read2Back(n % 100, rest);
    hide Pad2, Read2;
    assert Pad4(n) + rest == Pad2(n / 100) + (Pad2(n % 100) + rest);
  }

  lemma Read6Back(n: nat, rest: string)
    requires n < 1_000_000
    ensures Read6(Pad6(n) + rest) == Some(Parsed(n, rest))
  {
    hide Pad2, Pad4, Read2, Read4;
    Read2Back(n / 10_000, Pad4(n % 10_000) + rest);
    Read4Back(n % 10_000, rest);
    assert Pad6(n) + rest == Pad2(n / 10_000) + (Pad4(n % 10_000) + rest);
  }

  lemma FractionReadBack(n: nat, rest: string)
    requires n < 1_000_000 && (rest == "" || rest[0] != '.')
    ensures ReadFraction(Fraction(n) + rest) == Some(Parsed(n, rest))
  {
    hide Pad6, Read6;
    if n == 0 {
      assert Fraction(n) + rest == rest;
    } else {
      Read6Back(n, rest);
      assert (Fraction(n) + rest)[1..] == Pad6(n) + rest;
    }
  }

  lemma TailReadBack(second: nat, micro: nat)
    requires second < 60 && micro < 1_000_000
    ensures ReadTail(OffsetTail(second, micro)) == Some(second * 1_000_000 + micro)
  {
    hide Pad2, Read2After, Fraction, ReadFraction;
    if second != 0 || micro != 0 {
      Read2AfterBack(":", second, Fraction(micro));
      FractionReadBack(micro, "");
      assert Fraction(micro) + "" == Fraction(micro);
    }
  }

  lemma OffsetSizeSplit(s: nat, micro: nat)
    ensures (s / 3600 * 60 + s / 60 % 60) * 60_000_000 + (s % 60 * 1_000_000 + micro) == s * 1_000_000 + micro
  {
    assert s / 60 / 60 == s / 3600;
  }

  lemma SignReadBack(sign: char, size: int)
    requires (sign == '+' || sign == '-') && 0 <= size < DAY_MICROS
    ensures var s := size / 1_000_000;
            ReadOffset([sign] + (Pad2(s / 3600) + (":" + (Pad2(s / 60 % 60) + OffsetTail(s % 60, size % 1_000_000)))))
            == Some(Some(if sign == '-' then -size else size))
  {
    hide Pad2, Read2, Read2After, OffsetTail, ReadTail;
    var s, u := size / 1_000_000, size % 1_000_000;
    var hour, minute, second := s / 3600, s / 60 % 60, s % 60;
    OffsetSizeSplit(s, u);
    assert s * 1_000_000 + u == size;
    var tail := OffsetTail(second, u);
    TailReadBack(second, u);
    Read2AfterBack(":", minute, tail);
    var rest := Pad2(hour) + (":" + (Pad2(minute) + tail));
    Read2Back(hour, ":" + (Pad2(minute) + tail));
    assert ([sign] + rest)[1..] == rest;
  }

  lemma OffsetReadBack(offset: Option<int>)
    requires ValidOffset(offset)
    ensures ReadOffset(OffsetText(offset)) == Some(offset)
  {
    hide ReadOffset, Pad2, OffsetTail;
    if offset.Some? {
      SignReadBack(if offset.value < 0 then '-' else '+', if offset.value < 0 then -offset.value else offset.value);
    } else {
      NaiveReadBack();
    }
  }

  lemma NaiveReadBack()
    ensures ReadOffset("") == Some(None)
  {}

  lemma OffsetStarts(offset: Option<int>)
    requires ValidOffset(offset)
    ensures IsOffset(OffsetText(offset))
  {}

  /** Reading the printed text gives the timestamp back. */
  lemma IsoReadBack(t: DateTime)
    requires Valid(t)
    ensures ReadIso(Iso(t)) == Some(t)
  {
    hide Pad2, Pad4, Read2, Read2After, Read4, Fraction, ReadFraction, OffsetText, ReadOffset;
    var t7 := OffsetText(t.offset);
    OffsetReadBack(t.offset);
    OffsetStarts(t.offset);
    var t6 := Fraction(t.micro) + t7;
    FractionReadBack(t.micro, t7);
    var t5 := ":" + (Pad2(t.second) + t6);
    Read2AfterBack(":", t.second, t6);
    var t4 := ":" + (Pad2(t.minute) + t5);
    Read2AfterBack(":", t.minute, t5);
    var t3 := "T" + (Pad2(t.hour) + t4);
    Read2AfterBack("T", t.hour, t4);
    var t2 := "-" + (Pad2(t.day) + t3);
    Read2AfterBack("-", t.day, t3);
    var t1 := "-" + (Pad2(t.month) + t2);
    Read2AfterBack("-", t.month, t2);
    Read4Back(t.year, t1);
    assert Iso(t) == Pad4(t.year) + t1;
  }

  /** So the text determines the timestamp. */
  lemma IsoDetermines(a: DateTime, b: DateTime)
    requires Valid(a) && Valid(b)
    ensures Iso(a) == Iso(b) ==> a == b
  {
    IsoReadBack(a);
    IsoReadBack(b);
  }
}
