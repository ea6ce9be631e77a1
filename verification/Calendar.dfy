/** The values of DATE and DATETIME columns: days of the calendar, with or without a time of day. A value
    is also a number, YYYYMMDDhhmmss, and the order of values is the order of these numbers. */
module Calendar {
  import opened Text

  predicate Leap(y: nat) {
    y % 4 == 0 && (y % 100 != 0 || y % 400 == 0)
  }

  function DaysIn(y: nat, m: nat): (n: nat)
    ensures 28 <= n <= 31
  {
    if m == 2 then (if Leap(y) then 29 else 28)
    else if m == 4 || m == 6 || m == 9 || m == 11 then 30
    else 31
  }

  /** February in leap years, centuries that are and are not, and the other months. */
  lemma MonthLengths(y: nat)
    ensures DaysIn(2016, 2) == DaysIn(2000, 2) == 29 && DaysIn(2015, 2) == DaysIn(1900, 2) == 28
    ensures DaysIn(y, 4) == DaysIn(y, 6) == DaysIn(y, 9) == DaysIn(y, 11) == 30
    ensures DaysIn(y, 1) == DaysIn(y, 3) == DaysIn(y, 5) == DaysIn(y, 7) == DaysIn(y, 8) == DaysIn(y, 10) == DaysIn(y, 12) == 31
  {
  }

  /** YYYYMMDD names a day of the calendar. */
  predicate ValidDay(d: nat) {
    d / 10000 <= 9999 && 1 <= d / 100 % 100 <= 12 && 1 <= d % 100 <= DaysIn(d / 10000, d / 100 % 100)
  }

  /** hhmmss names a time of day. */
  predicate ValidTime(t: nat) {
    t / 10000 < 24 && t / 100 % 100 < 60 && t % 100 < 60
  }

  // ---------------------------------------------------------------- texts

  /** YYYY-MM-DD hh:mm:ss as to its shape */
  predicate IsClock(s: string) {
    && |s| == 19 && s[10] == ' ' && s[13] == ':' && s[16] == ':'
    && AllDigits(s[11..13]) && AllDigits(s[14..16]) && AllDigits(s[17..19])
  }

  function Clock(s: string): (c: string)
    requires IsClock(s)
    ensures |c| == 6 && AllDigits(c)
  {
    s[11..13] + s[14..16] + s[17..19]
  }

  predicate IsBareDate(s: string) {
    IsDate(s) && |s| == 10 && ValidDay(DateIndex(Day, s))
  }

  predicate IsDateTime(s: string) {
    IsDate(s) && IsClock(s) && ValidDay(DateIndex(Day, s)) && ValidTime(Num(Clock(s)))
  }

  predicate IsMoment(s: string) {
    IsBareDate(s) || IsDateTime(s)
  }

  /** YYYYMMDDhhmmss */
  function Stamp(s: string): nat
    requires IsMoment(s)
  {
    DateIndex(Day, s) * 1000000 + TimeOf(s)
  }

  function TimeOf(s: string): nat
    requires IsMoment(s)
  {
    if |s| == 10 then 0 else Num(Clock(s))
  }

  lemma ZeroTime()
    ensures AllDigits("000000") && Num("000000") == 0 && ValidTime(0)
  {
    assert "000000"[..5] == "00000" && "00000"[..4] == "0000" && "0000"[..3] == "000";
    assert "000"[..2] == "00" && "00"[..1] == "0" && "0"[..0] == "";
    assert Num("0") == 0 && Num("00") == 0 && Num("000") == 0 && Num("0000") == 0 && Num("00000") == 0;
  }

  /** A bare date is midnight of its day. */
  lemma NormalStamp(s: string)
    requires IsMoment(s)
    ensures IsDateTime(Normal(s)) && Stamp(Normal(s)) == Stamp(s)
    ensures forall g :: DateIndex(g, Normal(s)) == DateIndex(g, s)
  {
    if |s| == 10 {
      var n := Normal(s);
      assert n[..4] == s[..4] && n[5..7] == s[5..7] && n[8..10] == s[8..10];
      assert forall g :: Compact(g, n) == Compact(g, s);
      assert n[11..13] == "00" && n[14..16] == "00" && n[17..19] == "00";
      assert Clock(n) == "000000";
      ZeroTime();
    }
  }

  /** The day of a date-time. */
  lemma DatePart(s: string)
    requires IsMoment(s)
    ensures IsBareDate(s[..10]) && Stamp(s[..10]) == DateIndex(Day, s) * 1000000
    ensures forall g :: DateIndex(g, s[..10]) == DateIndex(g, s)
  {
    var d := s[..10];
    assert d[..4] == s[..4] && d[5..7] == s[5..7] && d[8..10] == s[8..10];
    assert forall g :: Compact(g, d) == Compact(g, s);
  }

  // ---------------------------------------------------------------- order

  function Digits(s: string): (d: string)
    requires IsDate(s) && IsClock(s)
    ensures |d| == 14
  {
    Compact(Day, s) + Clock(s)
  }

  lemma DigitsAre(s: string)
    requires IsDateTime(s)
    ensures AllDigits(Digits(s)) && Num(Digits(s)) == Stamp(s)
  {
    CompactDigits(Day, s);
    NumOfConcat(Compact(Day, s), Clock(s));
    assert Pow10(6) == 1000000;
  }

  /** Where digit `j` stands in the text. */
  function Place(j: nat): nat {
    if j < 4 then j else if j < 6 then j + 1 else if j < 8 then j + 2 else if j < 10 then j + 3 else if j < 12 then j + 4 else j + 5
  }

  lemma DigitAt(s: string, j: nat)
    requires IsDate(s) && IsClock(s) && j < 14
    ensures Digits(s)[j] == s[Place(j)]
  {
    if j < 8 {
      CompactAt(Day, s, j);
    } else {
      assert Digits(s)[j] == Clock(s)[j - 8];
    }
  }

  /** The digit that stands at place `k`, which is not one of a separator. */
  function DigitOf(k: nat): nat {
    if k < 4 then k else if k < 7 then k - 1 else if k < 10 then k - 2 else if k < 13 then k - 3 else if k < 16 then k - 4 else k - 5
  }

  lemma SamePlaces(a: string, b: string, j: nat)
    requires IsDateTime(a) && IsDateTime(b) && j <= 14 && Digits(a)[..j] == Digits(b)[..j]
    ensures var n := if j == 14 then 19 else Place(j); a[..n] == b[..n]
  {
    var n := if j == 14 then 19 else Place(j);
    forall k | 0 <= k < n
      ensures a[k] == b[k]
    {
      if k != 4 && k != 7 && k != 10 && k != 13 && k != 16 {
        DigitAt(a, DigitOf(k));
        DigitAt(b, DigitOf(k));
        assert Digits(a)[..j][DigitOf(k)] == Digits(b)[..j][DigitOf(k)];
      }
    }
  }

  lemma SmallerStamp(a: string, b: string)
    requires IsDateTime(a) && IsDateTime(b) && Stamp(a) < Stamp(b)
    ensures LexLess(a, b)
  {
    DigitsAre(a);
    DigitsAre(b);
    var j := FirstDigitDifference(Digits(a), Digits(b));
    SamePlaces(a, b, j);
    DigitAt(a, j);
    DigitAt(b, j);
    LexAt(a, b, Place(j));
  }

  lemma SameStamp(a: string, b: string)
    requires IsDateTime(a) && IsDateTime(b) && Stamp(a) == Stamp(b)
    ensures a == b
  {
    DigitsAre(a);
    DigitsAre(b);
    SameNumSameDigits(Digits(a), Digits(b));
    SamePlaces(a, b, 14);
    assert a[..19] == a && b[..19] == b;
  }

  /** The order of dates and date-times, a bare date counting as its midnight, is that of their numbers. */
  lemma StampOrder(a: string, b: string)
    requires IsMoment(a) && IsMoment(b)
    ensures DateLess(a, b) <==> Stamp(a) < Stamp(b)
    ensures Normal(a) == Normal(b) <==> Stamp(a) == Stamp(b)
  {
    NormalStamp(a);
    NormalStamp(b);
    LexTotal(Normal(a), Normal(b));
    if Stamp(a) < Stamp(b) {
      SmallerStamp(Normal(a), Normal(b));
    } else if Stamp(b) < Stamp(a) {
      SmallerStamp(Normal(b), Normal(a));
    } else {
      SameStamp(Normal(a), Normal(b));
    }
  }

  // ---------------------------------------------------------------- from numbers to texts

  /** The number of a value of a DATETIME column (`timed`) or of a DATE column. */
  predicate ValidStamp(timed: bool, n: nat) {
    ValidDay(n / 1000000) && if timed then ValidTime(n % 1000000) else n % 1000000 == 0
  }

  function ClockText(t: nat): string {
    var d := Fixed(t, 6);
    d[..2] + ":" + d[2..4] + ":" + d[4..]
  }

  function MomentText(timed: bool, n: nat): string {
    DateText(n / 1000000) + if timed then " " + ClockText(n % 1000000) else ""
  }

  lemma DayText(d: nat)
    requires ValidDay(d)
    ensures IsBareDate(DateText(d)) && DateIndex(Day, DateText(d)) == d
  {
    assert Pow10(2) == 100 && Pow10(4) == 10000 && Pow10(8) == 100000000;
    DateTextIndex(d);
  }

  lemma TimedText(d: nat, t: nat)
    requires ValidDay(d) && ValidTime(t)
    ensures var s := DateText(d) + " " + ClockText(t);
            IsDateTime(s) && DateIndex(Day, s) == d && Num(Clock(s)) == t
  {
    var date, c := DateText(d), Fixed(t, 6);
    DayText(d);
    ClockTextIs(t);
    SpacedIs(date, ClockText(t), c);
  }

  lemma ClockTextIs(t: nat)
    requires ValidTime(t)
    ensures var c, s := Fixed(t, 6), ClockText(t);
            && |s| == 8 && s[2] == s[5] == ':' && s[..2] == c[..2] && s[3..5] == c[2..4] && s[6..] == c[4..]
            && AllDigits(c) && Num(c) == t
  {
    assert Pow10(2) == 100 && Pow10(4) == 10000 && Pow10(6) == 1000000;
    NumOfFixed(t, 6);
  }

  lemma SpacedIs(date: string, time: string, c: string)
    requires IsDate(date) && |date| == 10 && |c| == 6 && AllDigits(c)
    requires |time| == 8 && time[2] == time[5] == ':' && time[..2] == c[..2] && time[3..5] == c[2..4] && time[6..] == c[4..]
    ensures var s := date + " " + time;
            IsDate(s) && IsClock(s) && Clock(s) == c && DateIndex(Day, s) == DateIndex(Day, date)
  {
    var s := date + " " + time;
    assert s[..4] == date[..4] && s[5..7] == date[5..7] && s[8..10] == date[8..10];
    assert Compact(Day, s) == Compact(Day, date);
    assert s[11..13] == time[..2] && s[14..16] == time[3..5] && s[17..19] == time[6..];
    assert c == c[..2] + c[2..4] + c[4..];
    assert AllDigits(c[..2]) && AllDigits(c[2..4]) && AllDigits(c[4..]);
  }

  /** Every number of a value is that of the value it spells. */
  lemma MomentTextIs(timed: bool, n: nat)
    requires ValidStamp(timed, n)
    ensures var s := MomentText(timed, n);
            && (if timed then IsDateTime(s) else IsBareDate(s))
            && Stamp(s) == n && DateIndex(Day, s) == n / 1000000
  {
    var d, t := n / 1000000, n % 1000000;
    if timed {
      TimedText(d, t);
      assert MomentText(timed, n) == DateText(d) + " " + ClockText(t);
    } else {
      DayText(d);
      assert MomentText(timed, n) == DateText(d);
    }
  }

  lemma StampIsValid(s: string)
    requires IsMoment(s)
    ensures ValidStamp(true, Stamp(s)) && Stamp(s) / 1000000 == DateIndex(Day, s)
    ensures TimeOf(s) <= 235959 && (IsBareDate(s) ==> TimeOf(s) == 0 && ValidStamp(false, Stamp(s)))
  {
    ZeroTime();
  }

  // ---------------------------------------------------------------- sub-tables

  /** The number of a sub-table that holds days of the calendar. */
  predicate ValidIndex(g: Granularity, t: nat) {
    match g
    case Year => t <= 9999
    case Month => t / 100 <= 9999 && 1 <= t % 100 <= 12
    case Day => ValidDay(t)
  }

  function FirstDay(g: Granularity, t: nat): nat {
    match g
    case Year => t * 10000 + 101
    case Month => t * 100 + 1
    case Day => t
  }

  function LastDay(g: Granularity, t: nat): nat {
    match g
    case Year => t * 10000 + 1231
    case Month => t * 100 + DaysIn(t / 100, t % 100)
    case Day => t
  }

  /** The least value in sub-table `t`. */
  function FirstStamp(g: Granularity, t: nat): nat {
    FirstDay(g, t) * 1000000
  }

  /** The greatest one. */
  function LastStamp(timed: bool, g: Granularity, t: nat): nat {
    LastDay(g, t) * 1000000 + if timed then 235959 else 0
  }

  /** `n` is the number of a value in sub-table `t`. */
  predicate InTable(timed: bool, g: Granularity, t: nat, n: nat) {
    ValidStamp(timed, n) && FirstStamp(g, t) <= n <= LastStamp(timed, g, t)
  }

  lemma Digitwise(d: nat)
    ensures d == d / 100 * 100 + d % 100 && d / 100 == d / 10000 * 100 + d / 100 % 100
  {
    var m := d / 100;
    assert m / 100 == d / 10000;
  }

  lemma YearBounds(y: nat, m: nat, n: nat, t: nat)
    requires 1 <= m <= 12 && 1 <= n <= 31
    ensures y == t <==> t * 10000 + 101 <= (y * 100 + m) * 100 + n <= t * 10000 + 1231
  {
  }

  lemma YearOfDay(t: nat, d: nat)
    requires ValidDay(d)
    ensures d / 10000 == t <==> t <= 9999 && t * 10000 + 101 <= d <= t * 10000 + 1231
  {
    Digitwise(d);
    YearBounds(d / 10000, d / 100 % 100, d % 100, t);
  }

  lemma MonthOfDay(t: nat, d: nat)
    requires ValidDay(d)
    ensures d / 100 == t <==> ValidIndex(Month, t) && t * 100 + 1 <= d <= t * 100 + DaysIn(t / 100, t % 100)
  {
    var m, r := d / 100, d % 100;
    assert d == 100 * m + r && m / 100 == d / 10000;
  }

  lemma SpanIs(g: Granularity)
    ensures Span(g) == match g case Year => 10000 case Month => 100 case Day => 1
  {
    assert Pow10(0) == 1 && Pow10(2) == 100 && Pow10(4) == 10000;
  }

  /** The sub-table of a day, which is its number without the last digits. */
  lemma DayInTable(g: Granularity, t: nat, d: nat)
    requires ValidDay(d)
    ensures d / Span(g) == t <==> ValidIndex(g, t) && FirstDay(g, t) <= d <= LastDay(g, t)
  {
    SpanIs(g);
    match g
    case Year =>
      assert d / Span(g) == d / 10000;
      YearOfDay(t, d);
    case Month =>
      assert d / Span(g) == d / 100;
      MonthOfDay(t, d);
    case Day =>
      assert d / Span(g) == d / 1 == d;
  }

  lemma FirstOfYear(t: nat)
    requires t <= 9999
    ensures ValidDay(t * 10000 + 101) && ValidDay(t * 10000 + 1231)
  {
    var a, b := t * 10000 + 101, t * 10000 + 1231;
    assert a / 10000 == t && a / 100 == t * 100 + 1 && a % 100 == 1;
    assert b / 10000 == t && b / 100 == t * 100 + 12 && b % 100 == 31;
  }

  lemma DayOfMonth(t: nat, n: nat)
    requires ValidIndex(Month, t) && 1 <= n <= DaysIn(t / 100, t % 100)
    ensures ValidDay(t * 100 + n)
  {
    var d := t * 100 + n;
    assert d / 100 == t && d % 100 == n && d / 10000 == t / 100;
  }

  lemma DaysValid(g: Granularity, t: nat)
    requires ValidIndex(g, t)
    ensures ValidDay(FirstDay(g, t)) && ValidDay(LastDay(g, t)) && FirstDay(g, t) <= LastDay(g, t)
  {
    match g
    case Year => FirstOfYear(t);
    case Month =>
      DayOfMonth(t, 1);
      DayOfMonth(t, DaysIn(t / 100, t % 100));
    case Day =>
  }

  lemma DaysAscend(g: Granularity, i: nat, j: nat)
    requires ValidIndex(g, i) && ValidIndex(g, j) && i <= j
    ensures FirstDay(g, i) <= LastDay(g, j)
  {
  }

  lemma WithTime(timed: bool, d: nat, c: nat)
    requires ValidDay(d) && ValidTime(c) && (c == 0 || timed)
    ensures ValidStamp(timed, d * 1000000 + c)
  {
    assert c < 1000000;
    assert (d * 1000000 + c) / 1000000 == d && (d * 1000000 + c) % 1000000 == c;
  }

  /** A sub-table of the calendar has a first and a last value. */
  lemma EndsValid(timed: bool, g: Granularity, t: nat)
    requires ValidIndex(g, t)
    ensures InTable(timed, g, t, FirstStamp(g, t)) && InTable(timed, g, t, LastStamp(timed, g, t))
  {
    DaysValid(g, t);
    assert ValidTime(235959) && ValidTime(0);
    WithTime(timed, FirstDay(g, t), 0);
    WithTime(timed, LastDay(g, t), if timed then 235959 else 0);
  }

  /** The values between two ends of whole days. */
  lemma DayBounds(timed: bool, first: nat, last: nat, d: nat, c: nat)
    requires c <= 235959 && (timed || c == 0)
    ensures first <= d <= last <==>
            first * 1000000 <= d * 1000000 + c <= last * 1000000 + (if timed then 235959 else 0)
  {
  }

  /** The sub-table of a value, by numbers. */
  lemma StampInTable(timed: bool, g: Granularity, s: string, t: nat)
    requires if timed then IsDateTime(s) else IsBareDate(s)
    ensures DateIndex(g, s) == t <==> ValidIndex(g, t) && InTable(timed, g, t, Stamp(s))
  {
    var d, c := DateIndex(Day, s), TimeOf(s);
    StampIsValid(s);
    DayNumber(g, s);
    DayInTable(g, t, d);
    DayBounds(timed, FirstDay(g, t), LastDay(g, t), d, c);
  }

  lemma DayNumber(g: Granularity, s: string)
    requires IsDate(s)
    ensures DateIndex(g, s) == DateIndex(Day, s) / Span(g)
  {
    IndexOfDay(g, s);
    var d, m := DateIndex(Day, s), Span(g);
    SameQuotient(DateIndex(g, s), d / m, m, d);
  }

  /** Some value lies in sub-table `t` between two moments: they are in order and not both to one side of
      it, and in a DATE column they are not two times within one day. */
  predicate MeetsTable(timed: bool, g: Granularity, t: nat, lo: nat, hi: nat) {
    && lo <= hi && FirstStamp(g, t) <= hi && lo <= LastStamp(timed, g, t)
    && (timed || lo % 1000000 == 0 || lo / 1000000 < hi / 1000000)
  }

  /** Such a value. */
  function Meeting(timed: bool, g: Granularity, t: nat, lo: nat, hi: nat): nat {
    if lo <= FirstStamp(g, t) then FirstStamp(g, t)
    else if LastStamp(timed, g, t) <= hi then LastStamp(timed, g, t)
    else if timed || lo % 1000000 == 0 then lo
    else hi / 1000000 * 1000000
  }

  lemma LastMidnight(lo: nat, hi: nat)
    requires lo / 1000000 < hi / 1000000
    ensures lo < hi / 1000000 * 1000000 <= hi
  {
  }

  lemma MeetingIs(timed: bool, g: Granularity, t: nat, lo: nat, hi: nat)
    requires ValidIndex(g, t) && ValidStamp(true, lo) && ValidStamp(true, hi) && MeetsTable(timed, g, t, lo, hi)
    ensures var n := Meeting(timed, g, t, lo, hi); InTable(timed, g, t, n) && lo <= n <= hi
  {
    EndsValid(timed, g, t);
    var n := Meeting(timed, g, t, lo, hi);
    if n != FirstStamp(g, t) && n != LastStamp(timed, g, t) && !timed && lo % 1000000 != 0 {
      LastMidnight(lo, hi);
      MidnightValid(hi);
    }
  }

  lemma MidnightValid(n: nat)
    requires ValidStamp(true, n)
    ensures ValidStamp(false, n / 1000000 * 1000000)
  {
    WithTime(false, n / 1000000, 0);
  }

  /** Nothing else is between the moments. */
  lemma MeetsIfBetween(timed: bool, g: Granularity, t: nat, lo: nat, hi: nat, n: nat)
    requires InTable(timed, g, t, n) && lo <= n <= hi
    ensures MeetsTable(timed, g, t, lo, hi)
  {
    if !timed && lo % 1000000 != 0 {
      assert lo < n && lo / 1000000 < n / 1000000 <= hi / 1000000;
    }
  }
}
