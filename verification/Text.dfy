/** Decimal numerals, byte-wise string order and the date texts used as sharding keys. */
module Text {
  import opened Prelude

  // ---------------------------------------------------------------- decimal numerals

  predicate IsDigit(c: char) {
    '0' <= c <= '9'
  }

  predicate AllDigits(s: string) {
    forall i :: 0 <= i < |s| ==> IsDigit(s[i])
  }

  function DigitValue(c: char): (d: nat)
    requires IsDigit(c)
    ensures d < 10
  {
    c as int - '0' as int
  }

  function DigitChar(d: nat): (c: char)
    requires d < 10
    ensures IsDigit(c) && DigitValue(c) == d
  {
    ('0' as int + d) as char
  }

  function Pow10(w: nat): (p: nat)
    ensures p > 0
  {
    if w == 0 then 1 else 10 * Pow10(w - 1)
  }

  /** The number a string of digits spells. */
  function Num(s: string): nat
    requires AllDigits(s)
  {
    if s == "" then 0 else 10 * Num(s[..|s| - 1]) + DigitValue(s[|s| - 1])
  }

  /** strconv.ParseUint(s, 10, 64) */
  function ParseUint64(s: string): Option<nat> {
    if s != "" && AllDigits(s) && Num(s) < TWO_64 then Some(Num(s)) else None
  }

  /** strconv.ParseInt(s, 10, 64) and strconv.Atoi */
  function ParseInt64(s: string): Option<int> {
    var signed := s != "" && (s[0] == '-' || s[0] == '+');
    var body := if signed then s[1..] else s;
    if body == "" || !AllDigits(body) then None
    else
      var n: int := Num(body);
      var v: int := if signed && s[0] == '-' then -n else n;
      if IsInt64(v) then Some(v) else None
  }

  function FormatNat(n: nat): (s: string)
    ensures s != "" && AllDigits(s)
  {
    if n < 10 then [DigitChar(n)] else FormatNat(n / 10) + [DigitChar(n % 10)]
  }

  /** strconv.FormatInt(v, 10) */
  function FormatInt(v: int): (s: string)
    ensures s != ""
  {
    if v < 0 then "-" + FormatNat(-v) else FormatNat(v)
  }

  lemma {:induction false} NumOfFormat(n: nat)
    ensures Num(FormatNat(n)) == n
  {
    if n >= 10 {
      NumOfFormat(n / 10);
      assert FormatNat(n)[..|FormatNat(n)| - 1] == FormatNat(n / 10);
    }
  }

  /** Signed numerals survive a round trip; unsigned parsing accepts exactly the non-negative ones. */
  lemma FormatParse(v: int)
    requires IsInt64(v)
    ensures ParseInt64(FormatInt(v)) == Some(v)
    ensures ParseUint64(FormatInt(v)) == (if 0 <= v then Some(v) else None)
  {
    if v < 0 {
      NegativeParse(v);
    } else {
      NumOfFormat(v);
      assert IsDigit(FormatNat(v)[0]);
    }
  }

  lemma NegativeParse(v: int)
    requires IsInt64(v) && v < 0
    ensures ParseInt64(FormatInt(v)) == Some(v) && ParseUint64(FormatInt(v)) == None
  {
    var s := FormatInt(v);
    NumOfFormat(-v);
    assert s[0] == '-' && s[1..] == FormatNat(-v);
    assert !IsDigit(s[0]);
  }

  /** `n` written with exactly `w` digits. */
  function Fixed(n: nat, w: nat): (s: string)
    ensures |s| == w && AllDigits(s)
  {
    if w == 0 then "" else Fixed(n / 10, w - 1) + [DigitChar(n % 10)]
  }

  lemma TenthBelow(n: nat, p: nat)
    requires n < 10 * p
    ensures n / 10 < p && 10 * (n / 10) + n % 10 == n
  {
  }

  lemma {:induction false} NumOfFixed(n: nat, w: nat)
    requires n < Pow10(w)
    ensures Num(Fixed(n, w)) == n
  {
    if w > 0 {
      TenthBelow(n, Pow10(w - 1));
      NumOfFixed(n / 10, w - 1);
      assert Fixed(n, w)[..w - 1] == Fixed(n / 10, w - 1);
    }
  }

  lemma TenTimes(x: int, p: int)
    ensures x * (10 * p) == 10 * (x * p)
  {
  }

  lemma {:induction false} NumOfConcat(a: string, b: string)
    requires AllDigits(a) && AllDigits(b)
    ensures AllDigits(a + b)
    ensures Num(a + b) == Num(a) * Pow10(|b|) + Num(b)
  {
    if b == "" {
      assert a + b == a;
    } else {
      var b' := b[..|b| - 1];
      NumOfConcat(a, b');
      assert (a + b)[..|a + b| - 1] == a + b';
      TenTimes(Num(a), Pow10(|b'|));
    }
  }

  lemma {:induction false} NumBound(s: string)
    requires AllDigits(s)
    ensures Num(s) < Pow10(|s|)
  {
    if s != "" {
      NumBound(s[..|s| - 1]);
    }
  }

  // ---------------------------------------------------------------- letter case

  function LowerChar(c: char): (l: char)
    ensures if 'A' <= c <= 'Z' then 'a' <= l <= 'z' && l as int == c as int + 32 else l == c
  {
    if 'A' <= c <= 'Z' then (c as int + 32) as char else c
  }

  function Lower(s: string): string {
    seq(|s|, i requires 0 <= i < |s| => LowerChar(s[i]))
  }

  /** Letters are compared without regard to case: a name and its spelling in capitals are the same. */
  lemma LowerLetters(s: string, t: string)
    requires |s| == |t|
    requires forall i :: 0 <= i < |s| ==> s[i] == t[i] || ('A' <= s[i] <= 'Z' && t[i] as int == s[i] as int + 32)
    ensures Lower(s) == Lower(t)
    ensures (forall i :: 0 <= i < |s| ==> !('A' <= s[i] <= 'Z')) ==> Lower(s) == s
  {
    forall i | 0 <= i < |s|
      ensures Lower(s)[i] == Lower(t)[i]
    {
    }
  }

  // ---------------------------------------------------------------- byte-wise string order

  predicate LexLess(a: string, b: string) {
    b != "" && (a == "" || a[0] < b[0] || (a[0] == b[0] && LexLess(a[1..], b[1..])))
  }

  lemma {:induction false} LexTotal(a: string, b: string)
    ensures a == b || LexLess(a, b) || LexLess(b, a)
    ensures !(LexLess(a, b) && LexLess(b, a))
    ensures !LexLess(a, a)
  {
    if a != "" {
      if b != "" && a[0] == b[0] {
        LexTotal(a[1..], b[1..]);
        assert a == [a[0]] + a[1..] && b == [b[0]] + b[1..];
      } else {
        LexTotal(a[1..], a[1..]);
      }
    }
  }

  lemma {:induction false} LexTransitive(a: string, b: string, c: string)
    requires LexLess(a, b) && LexLess(b, c)
    ensures LexLess(a, c)
  {
    if a != "" && a[0] == b[0] && b[0] == c[0] {
      LexTransitive(a[1..], b[1..], c[1..]);
    }
  }

  /** A smaller character after a common prefix decides the comparison. */
  lemma {:induction false} LexAt(a: string, b: string, i: nat)
    requires i < |a| && i < |b| && a[..i] == b[..i] && a[i] < b[i]
    ensures LexLess(a, b)
  {
    if i > 0 {
      assert a[0] == a[..i][0] == b[..i][0] == b[0];
      assert a[1..][..i - 1] == a[..i][1..] == b[..i][1..] == b[1..][..i - 1];
      LexAt(a[1..], b[1..], i - 1);
    }
  }

  /** A text comes before its extensions. */
  lemma {:induction false} LexExtension(a: string, b: string)
    requires b != ""
    ensures LexLess(a, a + b) && !LexLess(a + b, a)
  {
    LexTotal(a, a + b);
    if a != "" {
      LexExtension(a[1..], b);
      assert (a + b)[1..] == a[1..] + b;
    }
  }

  /** Where two digit strings of one length differ first, the numbers differ the same way. */
  lemma {:induction false} FirstDigitDifference(a: string, b: string) returns (i: nat)
    requires AllDigits(a) && AllDigits(b) && |a| == |b|
    requires Num(a) < Num(b)
    ensures i < |a| && a[..i] == b[..i] && a[i] < b[i]
  {
    var n := |a| - 1;
    if Num(a[..n]) < Num(b[..n]) {
      i := FirstDigitDifference(a[..n], b[..n]);
      assert a[..n][..i] == a[..i] && b[..n][..i] == b[..i];
    } else {
      i := n;
      assert Num(a[..n]) == Num(b[..n]);
      SameNumSameDigits(a[..n], b[..n]);
    }
  }

  lemma {:induction false} SameNumSameDigits(a: string, b: string)
    requires AllDigits(a) && AllDigits(b) && |a| == |b|
    requires Num(a) == Num(b)
    ensures a == b
  {
    if a != "" {
      var n := |a| - 1;
      assert Num(a[..n]) == Num(b[..n]);
      SameNumSameDigits(a[..n], b[..n]);
      assert a == a[..n] + [a[n]] && b == b[..n] + [b[n]];
    }
  }

  // ---------------------------------------------------------------- dates

  /** The three granularities of date rules. */
  datatype Granularity = Year | Month | Day {
    function Width(): nat {
      match this
      case Year => 4
      case Month => 6
      case Day => 8
    }
  }

  /** YYYY-MM-DD, possibly followed by a time. */
  predicate IsDate(s: string) {
    |s| >= 10 && s[4] == '-' && s[7] == '-' &&
    AllDigits(s[..4]) && AllDigits(s[5..7]) && AllDigits(s[8..10])
  }

  /** The characters of a date text that name its sub-table. */
  function Compact(g: Granularity, s: string): (c: string)
    requires |s| >= 10
    ensures |c| == g.Width()
  {
    match g
    case Year => s[..4]
    case Month => s[..4] + s[5..7]
    case Day => s[..4] + s[5..7] + s[8..10]
  }

  lemma CompactDigits(g: Granularity, s: string)
    requires IsDate(s)
    ensures AllDigits(Compact(g, s))
    ensures ParseInt64(Compact(g, s)) == Some(Num(Compact(g, s)))
  {
    var c := Compact(g, s);
    assert AllDigits(c);
    assert IsDigit(c[0]);
    NumBound(c);
    assert Pow10(|c|) <= 100000000 by {
      assert Pow10(2) == 100 && Pow10(4) == 10000 && Pow10(6) == 1000000 && Pow10(8) == 100000000;
    }
  }

  function DateIndex(g: Granularity, s: string): nat
    requires IsDate(s)
  {
    CompactDigits(g, s);
    Num(Compact(g, s))
  }

  /** MySQL compares a bare date with a date-time as midnight of that day. */
  function Normal(s: string): string {
    if |s| == 10 then s + " 00:00:00" else s
  }

  predicate DateLess(a: string, b: string) {
    LexLess(Normal(a), Normal(b))
  }

  /** Position in the date text of the `j`-th character of its compact form. */
  function Position(j: nat): nat {
    if j < 4 then j else if j < 6 then j + 1 else j + 2
  }

  lemma CompactAt(g: Granularity, s: string, j: nat)
    requires |s| >= 10 && j < g.Width()
    ensures Compact(g, s)[j] == s[Position(j)]
  {
  }

  lemma CompactPrefix(g: Granularity, a: string, b: string, j: nat)
    requires IsDate(a) && IsDate(b) && j < g.Width()
    requires Compact(g, a)[..j] == Compact(g, b)[..j]
    ensures a[..Position(j)] == b[..Position(j)]
  {
    forall k | 0 <= k < Position(j)
      ensures a[k] == b[k]
    {
      if k != 4 && k != 7 {
        var k' := if k < 4 then k else if k < 7 then k - 1 else k - 2;
        CompactAt(g, a, k');
        CompactAt(g, b, k');
        assert Compact(g, a)[..j][k'] == Compact(g, b)[..j][k'];
      }
    }
  }

  /** Dates in chronological order have sub-table indexes in ascending order. */
  lemma DateIndexMonotone(g: Granularity, a: string, b: string)
    requires IsDate(a) && IsDate(b)
    requires !DateLess(b, a)
    ensures DateIndex(g, a) <= DateIndex(g, b)
  {
    CompactDigits(g, a);
    CompactDigits(g, b);
    if DateIndex(g, b) < DateIndex(g, a) {
      var j := FirstDigitDifference(Compact(g, b), Compact(g, a));
      CompactPrefix(g, b, a, j);
      CompactAt(g, a, j);
      CompactAt(g, b, j);
      var i := Position(j);
      assert Normal(b)[..i] == b[..i] && Normal(a)[..i] == a[..i];
      LexAt(Normal(b), Normal(a), i);
    }
  }

  /** Equal date-times lie in one sub-table. */
  lemma EqualDatesShareIndex(g: Granularity, a: string, b: string)
    requires IsDate(a) && IsDate(b) && Normal(a) == Normal(b)
    ensures DateIndex(g, a) == DateIndex(g, b)
  {
    LexTotal(Normal(a), Normal(b));
    DateIndexMonotone(g, a, b);
    DateIndexMonotone(g, b, a);
  }

  /** A day sub-table holds one bare date only. */
  lemma DayIndexInjective(a: string, b: string)
    requires IsDate(a) && IsDate(b) && |a| == |b| == 10
    requires DateIndex(Day, a) == DateIndex(Day, b)
    ensures a == b
  {
    CompactDigits(Day, a);
    CompactDigits(Day, b);
    SameNumSameDigits(Compact(Day, a), Compact(Day, b));
    CompactPrefix(Day, a, b, 7);
    CompactAt(Day, a, 7);
    CompactAt(Day, b, 7);
    assert a == a[..9] + [a[9]] && b == b[..9] + [b[9]];
  }

  /** How many bare dates a sub-table may hold. */
  function Span(g: Granularity): (n: nat)
    ensures n > 0
  {
    Pow10(8 - g.Width())
  }

  lemma CompactRest(g: Granularity, s: string)
    requires IsDate(s)
    ensures Compact(Day, s)[..g.Width()] == Compact(g, s)
    ensures AllDigits(Compact(Day, s)[g.Width()..])
  {
    CompactDigits(Day, s);
    forall j | 0 <= j < g.Width()
      ensures Compact(Day, s)[j] == Compact(g, s)[j]
    {
      CompactAt(Day, s, j);
      CompactAt(g, s, j);
    }
  }

  /** The sub-table of a date is its day number cut down to the granularity. */
  lemma IndexOfDay(g: Granularity, s: string)
    requires IsDate(s)
    ensures DateIndex(g, s) * Span(g) <= DateIndex(Day, s) < DateIndex(g, s) * Span(g) + Span(g)
  {
    var w, all := g.Width(), Compact(Day, s);
    CompactDigits(Day, s);
    CompactDigits(g, s);
    CompactRest(g, s);
    assert all == all[..w] + all[w..];
    NumOfConcat(all[..w], all[w..]);
    NumBound(all[w..]);
  }

  /** The date with a given day number. */
  function DateText(d: nat): string {
    var c := Fixed(d, 8);
    c[..4] + "-" + c[4..6] + "-" + c[6..]
  }

  lemma DateTextIndex(d: nat)
    requires d < Pow10(8)
    ensures IsDate(DateText(d)) && |DateText(d)| == 10 && DateIndex(Day, DateText(d)) == d
  {
    NumOfFixed(d, 8);
    var c, s := Fixed(d, 8), DateText(d);
    assert s[..4] == c[..4] && s[5..7] == c[4..6] && s[8..10] == c[6..];
    assert Compact(Day, s) == c;
  }

  lemma MulMonotone(a: int, b: int, m: int)
    requires a <= b && 0 <= m
    ensures a * m <= b * m
  {
  }

  lemma SameQuotient(a: int, b: int, m: int, x: int)
    requires m > 0 && a * m <= x < a * m + m && b * m <= x < b * m + m
    ensures a == b
  {
    if a < b {
      MulMonotone(a + 1, b, m);
    } else if b < a {
      MulMonotone(b + 1, a, m);
    }
  }
}
