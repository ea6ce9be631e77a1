/** Sharding rules: from a configuration to a partition of sub-tables over nodes
    (proxy/router/router.go, proxy/router/numkey.go). */
module Rules {
  import opened Prelude
  import opened Text
  import opened SortedLists
  import opened Shards

  datatype RuleType = DefaultRule | HashRule | RangeRule | DateRule(granularity: Granularity)

  /** `parseDays` stands for the calendar library behind day ranges. */
  datatype ShardConfig = ShardConfig(
    table: string, key: string, ruleType: RuleType, nodes: seq<string>,
    locations: seq<int>, dateRanges: seq<string>, tableRowLimit: int,
    crc: string -> nat, parseDays: string -> Result<seq<int>>)

  datatype Rule = Rule(
    table: string, key: string, ruleType: RuleType, nodes: seq<string>,
    subTables: seq<int>, tableToNode: map<int, int>, shard: Shard)

  /** The sub-tables in order, each on exactly one existing node. */
  ghost predicate Partition(rule: Rule) {
    && StrictlyAscending(rule.subTables)
    && (forall t :: t in rule.tableToNode <==> t in rule.subTables)
    && (forall t :: t in rule.tableToNode ==> 0 <= rule.tableToNode[t] < |rule.nodes|)
  }

  ghost predicate Numbered(rule: Rule, n: nat) {
    |rule.subTables| == n && forall i :: 0 <= i < n ==> rule.subTables[i] == i
  }

  /** A rule whose placement function agrees with its list of sub-tables. */
  ghost predicate ValidRule(rule: Rule) {
    && Partition(rule)
    && match rule.ruleType
       case HashRule =>
         && rule.shard.HashShard?
         && Numbered(rule, rule.shard.shardNum)
       case RangeRule =>
         && rule.shard.NumRangeShard?
         && Contiguous(rule.shard.ranges)
         && Numbered(rule, |rule.shard.ranges|)
       case DateRule(g) => rule.shard == DateShard(g)
       case DefaultRule => rule.shard == DefaultShard
  }

  // ---------------------------------------------------------------- hash and range rules

  function Interval(start: int, count: int): seq<int> {
    if count <= 0 then [] else seq(count, k => start + k)
  }

  /** The sub-tables of the first `n` nodes. */
  function Located(locations: seq<int>, n: nat): seq<int>
    requires n <= |locations|
  {
    if n == 0 then []
    else Located(locations, n - 1) + Interval(Sum(locations[..n - 1]), locations[n - 1])
  }

  /** `t` lies in the block of sub-tables that node `i` is given. */
  ghost predicate InBlock(locations: seq<int>, i: int, t: int) {
    0 <= i < |locations| && Sum(locations[..i]) <= t < Sum(locations[..i]) + locations[i]
  }

  lemma IntervalIn(start: int, count: int, t: int)
    ensures t in Interval(start, count) <==> start <= t < start + count
  {
    if start <= t < start + count {
      assert Interval(start, count)[t - start] == t;
    }
  }

  lemma {:induction false} LocatedIn(locations: seq<int>, n: nat, t: int)
    requires n <= |locations|
    ensures t in Located(locations, n) <==> exists i :: 0 <= i < n && InBlock(locations, i, t)
  {
    if n > 0 {
      LocatedIn(locations, n - 1, t);
      IntervalIn(Sum(locations[..n - 1]), locations[n - 1], t);
      assert t in Interval(Sum(locations[..n - 1]), locations[n - 1]) <==> InBlock(locations, n - 1, t);
    }
  }

  /** Node blocks overlap nowhere and come in order. */
  ghost predicate BlocksInOrder(locations: seq<int>, n: nat)
    requires n <= |locations|
  {
    forall i, j :: 0 <= i < j < n ==> BlockBefore(locations, i, j)
  }

  ghost predicate BlockBefore(locations: seq<int>, i: nat, j: nat)
    requires i < j < |locations|
  {
    locations[i] > 0 && locations[j] > 0 ==> Sum(locations[..i]) + locations[i] <= Sum(locations[..j])
  }

  /** The sub-table list of a hash or range rule is strictly ascending exactly when no negative
      location pulls a later node's block back over an earlier one. */
  lemma {:induction false} LocatedAscending(locations: seq<int>, n: nat)
    requires n <= |locations|
    ensures StrictlyAscending(Located(locations, n)) <==> BlocksInOrder(locations, n)
  {
    if n > 0 {
      LocatedAscending(locations, n - 1);
      if BlocksInOrder(locations, n) {
        assert BlocksInOrder(locations, n - 1);
        AscendingAppend(locations, n - 1);
      }
      if StrictlyAscending(Located(locations, n)) {
        AscendingOrders(locations, n - 1);
      }
    }
  }

  lemma AscendingOrders(locations: seq<int>, n: nat)
    requires n < |locations| && StrictlyAscending(Located(locations, n + 1))
    requires StrictlyAscending(Located(locations, n)) ==> BlocksInOrder(locations, n)
    ensures BlocksInOrder(locations, n + 1)
  {
    var before, block := Located(locations, n), Interval(Sum(locations[..n]), locations[n]);
    assert Located(locations, n + 1) == before + block;
    assert before == (before + block)[..|before|];
    forall i | 0 <= i < n
      ensures BlockBefore(locations, i, n)
    {
      if locations[i] > 0 && locations[n] > 0 {
        LastBefore(locations, n, i, block);
      }
    }
  }

  lemma AscendingAppend(locations: seq<int>, n: nat)
    requires n < |locations| && BlocksInOrder(locations, n + 1)
    requires StrictlyAscending(Located(locations, n))
    ensures StrictlyAscending(Located(locations, n + 1))
  {
    var before, block := Located(locations, n), Interval(Sum(locations[..n]), locations[n]);
    forall k, l | 0 <= k < |before| && 0 <= l < |block|
      ensures before[k] < block[l]
    {
      LocatedIn(locations, n, before[k]);
      var i :| 0 <= i < n && InBlock(locations, i, before[k]);
      assert BlockBefore(locations, i, n);
    }
    JoinAscends(before, block);
  }

  lemma LastBefore(locations: seq<int>, n: nat, i: nat, block: seq<int>)
    requires i < n < |locations| && locations[i] > 0
    requires StrictlyAscending(Located(locations, n) + block) && block != []
    ensures Sum(locations[..i]) + locations[i] <= block[0]
  {
    var before := Located(locations, n);
    var last := Sum(locations[..i]) + locations[i] - 1;
    LocatedIn(locations, n, last);
    assert InBlock(locations, i, last);
    var p :| 0 <= p < |before| && before[p] == last;
    assert (before + block)[p] < (before + block)[|before|] == block[0];
  }

  lemma {:induction false} LocatedNumbered(locations: seq<int>, n: nat)
    requires n <= |locations|
    requires forall k :: 0 <= k < |locations| ==> locations[k] >= 0
    ensures Sum(locations[..n]) >= 0
    ensures Located(locations, n) == Interval(0, Sum(locations[..n]))
  {
    if n > 0 {
      LocatedNumbered(locations, n - 1);
      assert locations[..n][..n - 1] == locations[..n - 1];
    }
  }

  /** parseRule's loop over the locations: which sub-tables there are, and which node has each. */
  method LocateTables(locations: seq<int>) returns (subTables: seq<int>, tableToNode: map<int, int>)
    ensures subTables == Located(locations, |locations|)
    ensures forall t :: t in tableToNode <==> t in subTables
    ensures forall t :: t in tableToNode ==> InBlock(locations, tableToNode[t], t)
  {
    subTables, tableToNode := [], map[];
    var sumTables := 0;
    for i := 0 to |locations|
      invariant sumTables == Sum(locations[..i])
      invariant subTables == Located(locations, i)
      invariant forall t :: t in tableToNode <==> t in subTables
      invariant forall t :: t in tableToNode ==> InBlock(locations, tableToNode[t], t)
    {
      subTables, tableToNode := LocateNode(locations, i, sumTables, subTables, tableToNode);
      assert locations[..i + 1][..i] == locations[..i];
      sumTables := sumTables + locations[i];
    }
  }

  /** The block of one node. */
  method LocateNode(locations: seq<int>, i: nat, sumTables: int, subTables: seq<int>, tableToNode: map<int, int>)
    returns (tables: seq<int>, nodes: map<int, int>)
    requires i < |locations| && sumTables == Sum(locations[..i])
    requires forall t :: t in tableToNode <==> t in subTables
    requires forall t :: t in tableToNode ==> InBlock(locations, tableToNode[t], t)
    ensures tables == subTables + Interval(sumTables, locations[i])
    ensures forall t :: t in nodes <==> t in tables
    ensures forall t :: t in nodes ==> InBlock(locations, nodes[t], t)
  {
    tables, nodes := subTables, tableToNode;
    var j := 0;
    while j < locations[i]
      invariant 0 <= j && (j <= locations[i] || j == 0)
      invariant tables == subTables + Interval(sumTables, j)
      invariant forall t :: t in nodes <==> t in tables
      invariant forall t :: t in nodes ==> InBlock(locations, nodes[t], t)
    {
      assert InBlock(locations, i, j + sumTables);
      assert Interval(sumTables, j + 1) == Interval(sumTables, j) + [j + sumTables];
      tables := tables + [j + sumTables];
      nodes := nodes[j + sumTables := i];
      j := j + 1;
    }
    assert Interval(sumTables, j) == Interval(sumTables, locations[i]);
  }

  // ---------------------------------------------------------------- date ranges

  /** strings.SplitN(s, "-", 2): the part before the first dash, and the part after it. */
  function SplitDash(s: string): (parts: (string, Option<string>))
    ensures parts.1.None? ==> parts.0 == s && '-' !in s
    ensures parts.1.Some? ==> '-' !in parts.0 && s == parts.0 + "-" + parts.1.value
  {
    if s == "" then ("", None)
    else if s[0] == '-' then ("", Some(s[1..]))
    else
      var rest := SplitDash(s[1..]);
      ([s[0]] + rest.0, rest.1)
  }

  lemma {:induction false} SplitDashAt(a: string, b: string)
    requires '-' !in a
    ensures SplitDash(a + "-" + b) == (a, Some(b))
  {
    var s := a + "-" + b;
    if a == "" {
      assert s[1..] == b;
    } else {
      SplitDashAt(a[1..], b);
      assert s[1..] == a[1..] + "-" + b;
      assert s[0] == a[0] != '-';
      assert a == [a[0]] + a[1..];
    }
  }

  /** The YYYYMM number of the month counted as `serial` = 12 * year + month. */
  function MonthNum(serial: int): int {
    (serial - 1) / 12 * 100 + (serial - 1) % 12 + 1
  }

  lemma MonthNumOfCalendar(year: int, month: int)
    requires 1 <= month <= 12
    ensures MonthNum(year * 12 + month) == year * 100 + month
  {
  }

  /** Every month from `lo` to `hi`, in order. */
  function Months(lo: int, hi: int): (months: seq<int>)
    ensures |months| == if lo <= hi then hi - lo + 1 else 0
    ensures forall k :: 0 <= k < |months| ==> months[k] == MonthNum(lo + k)
  {
    if lo <= hi then seq(hi - lo + 1, k => MonthNum(lo + k)) else []
  }

  /** The loop of ParseMonthRange. */
  method ListMonths(fromYear: int, fromMonth: int, toYear: int, toMonth: int) returns (months: seq<int>)
    ensures months == MonthLoop(fromYear, fromMonth, (toYear - fromYear) * 12 + toMonth - fromMonth + 1)
  {
    var beginYear := fromYear;
    var monthCount := (toYear - fromYear) * 12 + toMonth - fromMonth + 1;
    var monthTmp := fromMonth;
    months := [];
    var i := 0;
    while i < monthCount
      invariant 0 <= i
      invariant months + MonthLoop(beginYear, monthTmp, monthCount - i) == MonthLoop(fromYear, fromMonth, monthCount)
      decreases monthCount - i
    {
      ghost var rest := MonthLoop(beginYear, monthTmp, monthCount - i);
      if 12 < monthTmp {
        monthTmp := monthTmp % 12;
        beginYear := beginYear + 1;
      }
      var monthNum := beginYear * 100 + monthTmp;
      monthTmp := monthTmp + 1;
      i := i + 1;
      assert rest == [monthNum] + MonthLoop(beginYear, monthTmp, monthCount - i);
      months := months + [monthNum];
    }
    assert months + [] == months;
  }

  lemma {:induction false} LoopAscends(year: int, month: int, count: int)
    ensures StrictlyAscending(MonthLoop(year, month, count))
    ensures count > 0 ==>
              && |MonthLoop(year, month, count)| > 0
              && MonthLoop(year, month, count)[0] == if 12 < month then (year + 1) * 100 + month % 12 else year * 100 + month
    decreases if count < 0 then 0 else count
  {
    if count > 0 {
      var y, m := if 12 < month then year + 1 else year, if 12 < month then month % 12 else month;
      LoopAscends(y, m + 1, count - 1);
      assert m <= 12;
      var rest := MonthLoop(y, m + 1, count - 1);
      assert rest != [] ==> y * 100 + m < rest[0];
      JoinAscends([y * 100 + m], rest);
    }
  }

  lemma {:induction false} LoopIsCalendar(year: int, month: int, count: int)
    requires 1 <= month <= 13
    ensures |MonthLoop(year, month, count)| == if count <= 0 then 0 else count
    ensures forall k :: 0 <= k < |MonthLoop(year, month, count)| ==>
              MonthLoop(year, month, count)[k] == MonthNum(year * 12 + month + k)
    decreases if count < 0 then 0 else count
  {
    if count > 0 {
      var y, m := if 12 < month then year + 1 else year, if 12 < month then month % 12 else month;
      LoopIsCalendar(y, m + 1, count - 1);
      MonthNumOfCalendar(y, m);
      assert y * 12 + m == year * 12 + month;
    }
  }

  /** From a month of the calendar the loop lists exactly the calendar months up to the last one. */
  lemma LoopIsMonths(fromYear: int, fromMonth: int, toYear: int, toMonth: int)
    requires 1 <= fromMonth <= 12
    ensures MonthLoop(fromYear, fromMonth, (toYear - fromYear) * 12 + toMonth - fromMonth + 1) ==
            Months(fromYear * 12 + fromMonth, toYear * 12 + toMonth)
  {
    LoopIsCalendar(fromYear, fromMonth, (toYear - fromYear) * 12 + toMonth - fromMonth + 1);
  }

  /** What the loop lists from a year and a month, whatever the month is. */
  function MonthLoop(year: int, month: int, count: int): seq<int>
    decreases if count < 0 then 0 else count
  {
    if count <= 0 then []
    else
      var y, m := if 12 < month then year + 1 else year, if 12 < month then month % 12 else month;
      [y * 100 + m] + MonthLoop(y, m + 1, count - 1)
  }

  function MonthRange(dateRange: string): Result<seq<int>> {
    var parts := SplitDash(dateRange);
    if parts.1.None? then (if |parts.0| != 6 then Err(DateRangeIllegal) else One(Atoi(parts.0)))
    else if |parts.0| != 6 || |parts.1.value| != 6 then Err(DateRangeIllegal)
    else if LexLess(parts.1.value, parts.0) then MonthsFrom(parts.1.value, parts.0)
    else MonthsFrom(parts.0, parts.1.value)
  }

  function One(n: Result<int>): Result<seq<int>> {
    match n case Ok(v) => Ok([v]) case Err(e) => Err(e)
  }

  function MonthsFrom(first: string, second: string): Result<seq<int>>
    requires |first| == |second| == 6
  {
    var beginYear :- Atoi(first[..4]);
    var beginMonth :- Atoi(first[4..]);
    var endYear :- Atoi(second[..4]);
    var endMonth :- Atoi(second[4..]);
    Ok(MonthLoop(beginYear, beginMonth, (endYear - beginYear) * 12 + endMonth - beginMonth + 1))
  }

  function YearRange(dateRange: string): Result<seq<int>> {
    var parts := SplitDash(dateRange);
    if parts.1.None? then (if |parts.0| != 4 then Err(DateRangeIllegal) else One(Atoi(parts.0)))
    else if LexLess(parts.1.value, parts.0) then YearsFrom(parts.1.value, parts.0)
    else YearsFrom(parts.0, parts.1.value)
  }

  function YearsFrom(first: string, second: string): Result<seq<int>> {
    var beginYear :- Atoi(first);
    var endYear :- Atoi(second);
    Ok(Interval(beginYear, endYear - beginYear + 1))
  }

  /** The sub-tables of one configured date range. */
  function DateBlock(cfg: ShardConfig, g: Granularity, dateRange: string): Result<seq<int>> {
    match g
    case Year => YearRange(dateRange)
    case Month => MonthRange(dateRange)
    case Day => cfg.parseDays(dateRange)
  }

  /** YYYYMM with a month of the calendar. */
  predicate IsYearMonth(s: string) {
    |s| == 6 && AllDigits(s[..4]) && AllDigits(s[4..]) && 1 <= Num(s[4..]) <= 12
  }

  function MonthSerial(s: string): int
    requires IsYearMonth(s)
  {
    Num(s[..4]) * 12 + Num(s[4..])
  }

  /** The text order of YYYYMM is the calendar order. */
  lemma YearMonthOrder(a: string, b: string)
    requires IsYearMonth(a) && IsYearMonth(b)
    ensures LexLess(a, b) <==> MonthSerial(a) < MonthSerial(b)
  {
    YearMonthNum(a);
    YearMonthNum(b);
    DigitOrder(a, b);
    SerialOrder(Num(a[..4]), Num(a[4..]), Num(b[..4]), Num(b[4..]));
  }

  lemma SerialOrder(y1: int, m1: int, y2: int, m2: int)
    requires 1 <= m1 <= 12 && 1 <= m2 <= 12
    ensures y1 * 100 + m1 < y2 * 100 + m2 <==> y1 * 12 + m1 < y2 * 12 + m2
  {
  }

  lemma YearMonthNum(a: string)
    requires IsYearMonth(a)
    ensures AllDigits(a) && Num(a) == Num(a[..4]) * 100 + Num(a[4..])
  {
    NumOfConcat(a[..4], a[4..]);
    assert a == a[..4] + a[4..];
    assert Pow10(2) == 100;
  }

  lemma DigitOrder(a: string, b: string)
    requires AllDigits(a) && AllDigits(b) && |a| == |b|
    ensures LexLess(a, b) <==> Num(a) < Num(b)
  {
    LexTotal(a, b);
    if Num(a) < Num(b) {
      var i := FirstDigitDifference(a, b);
      LexAt(a, b, i);
    } else if Num(b) < Num(a) {
      var i := FirstDigitDifference(b, a);
      LexAt(b, a, i);
    } else {
      SameNumSameDigits(a, b);
    }
  }

  function Atoi(s: string): Result<int> {
    match ParseInt64(s) case Some(v) => Ok(v) case None => Err(InvalidNumber)
  }

  lemma AtoiDigits(s: string)
    requires s != "" && AllDigits(s) && |s| <= 6
    ensures Atoi(s) == Ok(Num(s))
  {
    assert IsDigit(s[0]);
    NumBound(s);
    assert Pow10(1) == 10 && Pow10(2) == 100 && Pow10(3) == 1000 && Pow10(4) == 10000 && Pow10(5) == 100000
           && Pow10(6) == 1000000;
  }

  /** Two calendar months joined by a dash. */
  predicate IsMonthRange(s: string) {
    |s| == 13 && s[6] == '-' && IsYearMonth(s[..6]) && IsYearMonth(s[7..])
  }

  lemma MonthRangeSplit(s: string)
    requires IsMonthRange(s)
    ensures SplitDash(s) == (s[..6], Some(s[7..]))
  {
    YearMonthNum(s[..6]);
    assert s == s[..6] + "-" + s[7..];
    SplitDashAt(s[..6], s[7..]);
  }

  /** A range between two calendar months, given in either order, lists exactly the months between;
      any accepted text gives a strictly ascending list. */
  method ParseMonthRange(dateRange: string) returns (r: Result<seq<int>>)
    ensures r == MonthRange(dateRange)
    ensures r.Ok? ==> StrictlyAscending(r.value)
    ensures IsYearMonth(dateRange) ==> AllDigits(dateRange) && r == Ok([Num(dateRange)])
    ensures IsMonthRange(dateRange) ==>
              var a, b := MonthSerial(dateRange[..6]), MonthSerial(dateRange[7..]);
              r == Ok(if a <= b then Months(a, b) else Months(b, a))
  {
    var parts := SplitDash(dateRange);
    if IsYearMonth(dateRange) {
      YearMonthDigits(dateRange);
      SingleNumber(dateRange);
    }
    if IsMonthRange(dateRange) {
      MonthRangeSplit(dateRange);
    }
    if parts.1.None? {
      if |parts.0| != 6 {
        return Err(DateRangeIllegal);
      }
      var n :- Atoi(parts.0);
      return Ok([n]);
    }
    if |parts.0| != 6 || |parts.1.value| != 6 {
      return Err(DateRangeIllegal);
    }
    var first, second := parts.0, parts.1.value;
    if LexLess(second, first) {
      first, second := second, first;
    }
    if IsMonthRange(dateRange) {
      YearMonthOrder(parts.1.value, parts.0);
      MonthsFromCalendar(first, second);
    }
    r := MonthsBetween(first, second);
    if r.Ok? {
      MonthsFromAscend(first, second);
    }
  }

  lemma {:induction false} NoDash(s: string)
    requires '-' !in s
    ensures SplitDash(s) == (s, None)
  {
    if s != "" {
      NoDash(s[1..]);
      assert s == [s[0]] + s[1..];
    }
  }

  lemma SingleNumber(s: string)
    requires (|s| == 4 || |s| == 6) && AllDigits(s)
    ensures SplitDash(s) == (s, None) && Atoi(s) == Ok(Num(s))
  {
    NoDash(s);
    AtoiDigits(s);
  }

  lemma YearMonthDigits(s: string)
    requires IsYearMonth(s)
    ensures AllDigits(s)
  {
    assert s == s[..4] + s[4..];
  }

  method MonthsBetween(first: string, second: string) returns (r: Result<seq<int>>)
    requires |first| == |second| == 6
    ensures r == MonthsFrom(first, second)
  {
    var beginYear :- Atoi(first[..4]);
    var beginMonth :- Atoi(first[4..]);
    var endYear :- Atoi(second[..4]);
    var endMonth :- Atoi(second[4..]);
    var months := ListMonths(beginYear, beginMonth, endYear, endMonth);
    return Ok(months);
  }

  lemma MonthsFromAscend(first: string, second: string)
    requires |first| == |second| == 6 && MonthsFrom(first, second).Ok?
    ensures StrictlyAscending(MonthsFrom(first, second).value)
  {
    var y, m, y', m' := Atoi(first[..4]).value, Atoi(first[4..]).value, Atoi(second[..4]).value, Atoi(second[4..]).value;
    LoopAscends(y, m, (y' - y) * 12 + m' - m + 1);
  }

  lemma MonthsFromCalendar(first: string, second: string)
    requires IsYearMonth(first) && IsYearMonth(second)
    ensures MonthsFrom(first, second) == Ok(Months(MonthSerial(first), MonthSerial(second)))
  {
    AtoiYearMonth(first);
    AtoiYearMonth(second);
    LoopIsMonths(Num(first[..4]), Num(first[4..]), Num(second[..4]), Num(second[4..]));
  }

  lemma AtoiYearMonth(s: string)
    requires IsYearMonth(s)
    ensures Atoi(s[..4]) == Ok(Num(s[..4])) && Atoi(s[4..]) == Ok(Num(s[4..]))
  {
    AtoiDigits(s[..4]);
    AtoiDigits(s[4..]);
  }

  /** Two years joined by a dash. */
  predicate IsYearRange(s: string) {
    |s| == 9 && s[4] == '-' && AllDigits(s[..4]) && AllDigits(s[5..])
  }

  lemma YearRangeSplit(s: string)
    requires IsYearRange(s)
    ensures SplitDash(s) == (s[..4], Some(s[5..]))
    ensures Atoi(s[..4]) == Ok(Num(s[..4])) && Atoi(s[5..]) == Ok(Num(s[5..]))
    ensures LexLess(s[5..], s[..4]) <==> Num(s[5..]) < Num(s[..4])
  {
    assert s == s[..4] + "-" + s[5..];
    SplitDashAt(s[..4], s[5..]);
    AtoiDigits(s[..4]);
    AtoiDigits(s[5..]);
    DigitOrder(s[5..], s[..4]);
  }

  method ParseYearRange(dateRange: string) returns (r: Result<seq<int>>)
    ensures r == YearRange(dateRange)
    ensures r.Ok? ==> StrictlyAscending(r.value)
    ensures |dateRange| == 4 && AllDigits(dateRange) ==> r == Ok([Num(dateRange)])
    ensures IsYearRange(dateRange) ==>
              var a, b := Num(dateRange[..4]), Num(dateRange[5..]);
              r == Ok(if a <= b then Interval(a, b - a + 1) else Interval(b, a - b + 1))
  {
    var parts := SplitDash(dateRange);
    if |dateRange| == 4 && AllDigits(dateRange) {
      SingleNumber(dateRange);
    }
    if IsYearRange(dateRange) {
      YearRangeSplit(dateRange);
    }
    if parts.1.None? {
      if |parts.0| != 4 {
        return Err(DateRangeIllegal);
      }
      var n :- Atoi(parts.0);
      return Ok([n]);
    }
    var first, second := parts.0, parts.1.value;
    if LexLess(second, first) {
      first, second := second, first;
    }
    r := YearsBetween(first, second);
  }

  method YearsBetween(first: string, second: string) returns (r: Result<seq<int>>)
    ensures r == YearsFrom(first, second)
    ensures r.Ok? ==> StrictlyAscending(r.value)
  {
    var beginYear :- Atoi(first);
    var endYear :- Atoi(second);
    var years: seq<int> := [];
    var i := beginYear;
    while i <= endYear
      invariant beginYear <= i && (i <= endYear + 1 || i == beginYear)
      invariant years == Interval(beginYear, i - beginYear)
    {
      years := years + [i];
      i := i + 1;
    }
    return Ok(years);
  }

  method ParseDateRange(cfg: ShardConfig, g: Granularity, dateRange: string, ghost parse: string -> Result<seq<int>>)
    returns (r: Result<seq<int>>)
    requires forall s :: cfg.parseDays(s).Ok? ==> StrictlyAscending(cfg.parseDays(s).value)
    requires parse == ParserOf(cfg, g)
    ensures r == parse(dateRange)
    ensures r.Ok? ==> StrictlyAscending(r.value)
    ensures g == Year && IsYearRange(dateRange) ==>
              var a, b := Num(dateRange[..4]), Num(dateRange[5..]);
              r == Ok(if a <= b then Interval(a, b - a + 1) else Interval(b, a - b + 1))
    ensures g == Month && IsMonthRange(dateRange) ==>
              var a, b := MonthSerial(dateRange[..6]), MonthSerial(dateRange[7..]);
              r == Ok(if a <= b then Months(a, b) else Months(b, a))
    ensures g == Day ==> r == cfg.parseDays(dateRange)
  {
    match g
    case Year => r := ParseYearRange(dateRange);
    case Month => r := ParseMonthRange(dateRange);
    case Day => r := cfg.parseDays(dateRange);
  }

  /** The blocks of the first `n` date ranges. */
  function BlocksBy(parse: string -> Result<seq<int>>, ranges: seq<string>, n: nat): Result<seq<seq<int>>>
    requires n <= |ranges|
  {
    if n == 0 then Ok([])
    else
      var before :- BlocksBy(parse, ranges, n - 1);
      var block :- parse(ranges[n - 1]);
      Ok(before + [block])
  }

  function ParserOf(cfg: ShardConfig, g: Granularity): string -> Result<seq<int>> {
    s => DateBlock(cfg, g, s)
  }

  function DateBlocks(cfg: ShardConfig, g: Granularity): Result<seq<seq<int>>> {
    BlocksBy(ParserOf(cfg, g), cfg.dateRanges, |cfg.dateRanges|)
  }

  lemma {:induction false} BlocksAre(parse: string -> Result<seq<int>>, ranges: seq<string>, n: nat)
    requires n <= |ranges| && BlocksBy(parse, ranges, n).Ok?
    ensures |BlocksBy(parse, ranges, n).value| == n
    ensures forall i :: 0 <= i < n ==> parse(ranges[i]) == Ok(BlocksBy(parse, ranges, n).value[i])
  {
    if n > 0 {
      BlocksAre(parse, ranges, n - 1);
    }
  }

  /** The sub-tables are the blocks one after another, and each belongs to the node of its block. */
  ghost predicate LocatedDates(blocks: seq<seq<int>>, subTables: seq<int>, tableToNode: map<int, int>) {
    && subTables == Flatten(blocks) && StrictlyAscending(subTables)
    && (forall t :: t in tableToNode <==> t in subTables)
    && (forall t :: t in tableToNode ==> 0 <= tableToNode[t] < |blocks| && t in blocks[tableToNode[t]])
  }

  lemma LocatedNext(blocks: seq<seq<int>>, numbers: seq<int>, subTables: seq<int>, tableToNode: map<int, int>, after: map<int, int>)
    requires LocatedDates(blocks, subTables, tableToNode) && StrictlyAscending(numbers)
    requires subTables == [] || numbers == [] || subTables[|subTables| - 1] < numbers[0]
    requires forall t :: t in after <==> t in tableToNode || t in numbers
    requires forall t :: t in after ==> after[t] == if t in numbers then |blocks| else tableToNode[t]
    ensures LocatedDates(blocks + [numbers], subTables + numbers, after)
  {
    var more := blocks + [numbers];
    FlattenNext(more, |blocks|);
    assert more[..|blocks|] == blocks && more[..|blocks| + 1] == more;
    JoinAscends(subTables, numbers);
  }

  /** Every block begins behind those before it, and none is empty behind one that is not. */
  ghost predicate Follow(blocks: seq<seq<int>>) {
    forall i :: 0 <= i < |blocks| ==> FollowsAt(blocks, i)
  }

  ghost predicate FollowsAt(blocks: seq<seq<int>>, i: nat)
    requires i < |blocks|
  {
    var front := Flatten(blocks[..i]);
    front != [] ==> blocks[i] != [] && front[|front| - 1] < blocks[i][0]
  }

  lemma {:induction false} BlocksStop(parse: string -> Result<seq<int>>, ranges: seq<string>, n: nat, k: nat)
    requires k <= n <= |ranges|
    ensures BlocksBy(parse, ranges, k).Err? ==> BlocksBy(parse, ranges, n).Err?
    ensures BlocksBy(parse, ranges, n).Ok? ==>
              BlocksBy(parse, ranges, k).Ok? && |BlocksBy(parse, ranges, n).value| == n &&
              BlocksBy(parse, ranges, n).value[..k] == BlocksBy(parse, ranges, k).value
    decreases n
  {
    if k < n {
      BlocksStop(parse, ranges, n - 1, k);
    } else if BlocksBy(parse, ranges, n).Ok? {
      BlocksAre(parse, ranges, n);
    }
  }

  /** A block that does not follow those before it stops the loop, whatever comes after it. */
  lemma NotFollowing(parse: string -> Result<seq<int>>, ranges: seq<string>, i: nat, blocks: seq<seq<int>>, numbers: seq<int>)
    requires i < |ranges| && BlocksBy(parse, ranges, i) == Ok(blocks) && parse(ranges[i]) == Ok(numbers) && |blocks| == i
    requires var front := Flatten(blocks); front != [] && (numbers == [] || numbers[0] <= front[|front| - 1])
    ensures BlocksBy(parse, ranges, |ranges|).Ok? ==> !Follow(BlocksBy(parse, ranges, |ranges|).value)
  {
    BlocksStop(parse, ranges, |ranges|, i + 1);
    if BlocksBy(parse, ranges, |ranges|).Ok? {
      var all := BlocksBy(parse, ranges, |ranges|).value;
      assert all[..i + 1] == blocks + [numbers];
      assert all[..i + 1][..i] == all[..i] && all[..i + 1][i] == all[i];
      assert all[..i] == blocks && all[i] == numbers;
      assert !FollowsAt(all, i);
    }
  }

  lemma FollowNext(blocks: seq<seq<int>>, numbers: seq<int>)
    requires Follow(blocks)
    requires var front := Flatten(blocks); front == [] || (numbers != [] && front[|front| - 1] < numbers[0])
    ensures Follow(blocks + [numbers])
  {
    var more := blocks + [numbers];
    forall i | 0 <= i < |more|
      ensures FollowsAt(more, i)
    {
      if i < |blocks| {
        assert more[..i] == blocks[..i] && FollowsAt(blocks, i);
      } else {
        assert more[..i] == blocks && more[i] == numbers;
      }
    }
  }

  /** The first of the numbers must be behind the last sub-table; looking at it is a panic if there is none. */
  method CheckOrder(subTables: seq<int>, numbers: seq<int>) returns (r: Result<()>)
    ensures r.Ok? <==> subTables == [] || (numbers != [] && subTables[|subTables| - 1] < numbers[0])
  {
    if |subTables| > 0 {
      if |numbers| == 0 {
        return Err(Panicked);
      }
      if subTables[|subTables| - 1] >= numbers[0] {
        return Err(DateIllegal);
      }
    }
    return Ok(());
  }

  /** All ranges are read, and their blocks follow one another. */
  ghost predicate Accepts(parse: string -> Result<seq<int>>, ranges: seq<string>) {
    BlocksBy(parse, ranges, |ranges|).Ok? && Follow(BlocksBy(parse, ranges, |ranges|).value)
  }

  /** The state of the loop after `n` ranges. */
  ghost predicate LocatedSoFar(
    parse: string -> Result<seq<int>>, ranges: seq<string>, n: nat, blocks: seq<seq<int>>, subTables: seq<int>, tableToNode: map<int, int>)
  {
    && n <= |ranges| && |blocks| == n && BlocksBy(parse, ranges, n) == Ok(blocks)
    && LocatedDates(blocks, subTables, tableToNode) && Follow(blocks)
  }

  /** One turn of the loop. */
  method LocateNext(cfg: ShardConfig, g: Granularity, i: nat, subTables: seq<int>, tableToNode: map<int, int>,
                    ghost parse: string -> Result<seq<int>>, ghost blocks: seq<seq<int>>)
    returns (r: Result<(seq<int>, map<int, int>)>, ghost next: seq<seq<int>>)
    requires forall s :: cfg.parseDays(s).Ok? ==> StrictlyAscending(cfg.parseDays(s).value)
    requires parse == ParserOf(cfg, g) && i < |cfg.dateRanges|
    requires LocatedSoFar(parse, cfg.dateRanges, i, blocks, subTables, tableToNode)
    ensures r.Err? ==> !Accepts(parse, cfg.dateRanges)
    ensures r.Ok? ==> LocatedSoFar(parse, cfg.dateRanges, i + 1, next, r.value.0, r.value.1)
  {
    next := [];
    BlocksStop(parse, cfg.dateRanges, |cfg.dateRanges|, i + 1);
    var numbers :- ParseDateRange(cfg, g, cfg.dateRanges[i], parse);
    var order := CheckOrder(subTables, numbers);
    if order.Err? {
      NotFollowing(parse, cfg.dateRanges, i, blocks, numbers);
      return Err(order.error), [];
    }
    var located := LocateBlock(tableToNode, numbers, i);
    LocatedNext(blocks, numbers, subTables, tableToNode, located);
    FollowNext(blocks, numbers);
    return Ok((subTables + numbers, located)), blocks + [numbers];
  }

  lemma NothingLocated(parse: string -> Result<seq<int>>, ranges: seq<string>)
    ensures LocatedSoFar(parse, ranges, 0, [], [], map[])
  {
  }

  /** parseRule's loop over the date ranges: blocks must follow one another. */
  method LocateDates(cfg: ShardConfig, g: Granularity) returns (r: Result<(seq<int>, map<int, int>)>)
    requires forall s :: cfg.parseDays(s).Ok? ==> StrictlyAscending(cfg.parseDays(s).value)
    ensures r.Ok? <==> DateBlocks(cfg, g).Ok? && Follow(DateBlocks(cfg, g).value)
    ensures r.Ok? ==> DateBlocks(cfg, g).Ok? && LocatedDates(DateBlocks(cfg, g).value, r.value.0, r.value.1)
  {
    var subTables: seq<int>, tableToNode: map<int, int> := [], map[];
    ghost var parse, blocks: seq<seq<int>> := ParserOf(cfg, g), [];
    NothingLocated(parse, cfg.dateRanges);
    for i := 0 to |cfg.dateRanges|
      invariant LocatedSoFar(parse, cfg.dateRanges, i, blocks, subTables, tableToNode)
    {
      var located, next := LocateNext(cfg, g, i, subTables, tableToNode, parse, blocks);
      if located.Err? {
        return located;
      }
      subTables, tableToNode, blocks := located.value.0, located.value.1, next;
    }
    return Ok((subTables, tableToNode));
  }

  method LocateBlock(tableToNode: map<int, int>, numbers: seq<int>, i: int) returns (located: map<int, int>)
    ensures forall t :: t in located <==> t in tableToNode || t in numbers
    ensures forall t :: t in located ==> located[t] == if t in numbers then i else tableToNode[t]
  {
    located := tableToNode;
    for k := 0 to |numbers|
      invariant forall t :: t in located <==> t in tableToNode || t in numbers[..k]
      invariant forall t :: t in located ==> located[t] == if t in numbers[..k] then i else tableToNode[t]
    {
      located := located[numbers[k] := i];
    }
    assert numbers[..|numbers|] == numbers;
  }

  // ---------------------------------------------------------------- parseRule

  /** What a configuration must satisfy for its sub-tables not to overlap. */
  ghost predicate NonNegative(locations: seq<int>) {
    forall k :: 0 <= k < |locations| ==> locations[k] >= 0
  }

  ghost predicate Located?(cfg: ShardConfig) {
    cfg.ruleType.HashRule? || cfg.ruleType.RangeRule?
  }

  ghost predicate FitsInt64(cfg: ShardConfig) {
    cfg.tableRowLimit > 0 && Sum(cfg.locations) * cfg.tableRowLimit <= MAX_INT64
  }

  /** parseShard */
  method ParseShard(cfg: ShardConfig, tables: nat) returns (r: Result<Shard>)
    ensures r.Ok? <==> (cfg.ruleType.RangeRule? ==> Sum(cfg.locations) == tables)
    ensures r.Ok? ==>
              match cfg.ruleType
              case HashRule => r.value == HashShard(tables, cfg.crc)
              case RangeRule =>
                && r.value == NumRangeShard(RangeTable(tables, cfg.tableRowLimit))
                && (FitsInt64(cfg) ==> Contiguous(RangeTable(tables, cfg.tableRowLimit)))
              case DateRule(g) => r.value == DateShard(g)
              case DefaultRule => r.value == DefaultShard
  {
    match cfg.ruleType
    case HashRule => return Ok(HashShard(tables, cfg.crc));
    case RangeRule =>
      var ranges :- ParseNumSharding(cfg.locations, cfg.tableRowLimit);
      if |ranges| != tables {
        return Err(RangeSpaceMismatch);
      }
      if FitsInt64(cfg) {
        RangeTableContiguous(Sum(cfg.locations), cfg.tableRowLimit);
      }
      return Ok(NumRangeShard(ranges));
    case DateRule(g) => return Ok(DateShard(g));
    case DefaultRule => return Ok(DefaultShard);
  }

  /** Whatever rule is accepted partitions its sub-tables over its nodes, provided locations are not
      negative; with a range space that fits 64 bits the placement function agrees with it too. */
  method ParseRule(cfg: ShardConfig) returns (r: Result<Rule>)
    requires forall s :: cfg.parseDays(s).Ok? ==> StrictlyAscending(cfg.parseDays(s).value)
    ensures Located?(cfg) && NonNegative(cfg.locations) ==> (r.Ok? <==> |cfg.locations| == |cfg.nodes|)
    ensures cfg.ruleType.HashRule? ==> (r.Ok? <==> |cfg.locations| == |cfg.nodes|)
    ensures cfg.ruleType.DateRule? ==>
              var blocks := DateBlocks(cfg, cfg.ruleType.granularity);
              r.Ok? <==> |cfg.dateRanges| == |cfg.nodes| && blocks.Ok? && Follow(blocks.value)
    ensures cfg.ruleType.DefaultRule? ==> r.Ok?
    ensures r.Ok? ==>
              && r.value.table == cfg.table && r.value.key == Lower(cfg.key)
              && r.value.nodes == cfg.nodes && r.value.ruleType == cfg.ruleType
    ensures r.Ok? ==>
              match cfg.ruleType
              case HashRule => r.value.shard == HashShard(|r.value.tableToNode|, cfg.crc)
              case RangeRule => r.value.shard == NumRangeShard(RangeTable(|r.value.tableToNode|, cfg.tableRowLimit))
              case DateRule(g) => r.value.shard == DateShard(g)
              case DefaultRule => r.value.shard == DefaultShard
    ensures r.Ok? && Located?(cfg) ==>
              && |cfg.locations| == |cfg.nodes|
              && r.value.subTables == Located(cfg.locations, |cfg.locations|)
              && forall t :: t in r.value.tableToNode ==> InBlock(cfg.locations, r.value.tableToNode[t], t)
    ensures r.Ok? && cfg.ruleType.DateRule? ==>
              var blocks := DateBlocks(cfg, cfg.ruleType.granularity);
              && |cfg.dateRanges| == |cfg.nodes|
              && blocks.Ok? && LocatedDates(blocks.value, r.value.subTables, r.value.tableToNode)
    ensures r.Ok? && (Located?(cfg) ==> NonNegative(cfg.locations)) ==> Partition(r.value)
    ensures r.Ok? && (Located?(cfg) ==> NonNegative(cfg.locations)) && (cfg.ruleType.RangeRule? ==> FitsInt64(cfg)) ==>
              ValidRule(r.value)
  {
    var located :- LocateAll(cfg);
    var shard :- ParseShard(cfg, |located.1|);
    return Ok(Rule(cfg.table, Lower(cfg.key), cfg.ruleType, cfg.nodes, located.0, located.1, shard));
  }

  /** The sub-tables of the rule and their nodes. */
  method LocateAll(cfg: ShardConfig) returns (r: Result<(seq<int>, map<int, int>)>)
    requires forall s :: cfg.parseDays(s).Ok? ==> StrictlyAscending(cfg.parseDays(s).value)
    ensures Located?(cfg) ==>
              && (r.Ok? <==> |cfg.locations| == |cfg.nodes|)
              && (r.Ok? ==>
                    && r.value.0 == Located(cfg.locations, |cfg.locations|)
                    && (forall t :: t in r.value.1 <==> t in r.value.0)
                    && (forall t :: t in r.value.1 ==> InBlock(cfg.locations, r.value.1[t], t))
                    && (NonNegative(cfg.locations) ==>
                          && r.value.0 == Interval(0, Sum(cfg.locations)) && |r.value.1| == |r.value.0| == Sum(cfg.locations)))
    ensures cfg.ruleType.DateRule? ==>
              var blocks := DateBlocks(cfg, cfg.ruleType.granularity);
              && (r.Ok? <==> |cfg.dateRanges| == |cfg.nodes| && blocks.Ok? && Follow(blocks.value))
              && (r.Ok? ==> |blocks.value| == |cfg.nodes| && LocatedDates(blocks.value, r.value.0, r.value.1))
    ensures cfg.ruleType.DefaultRule? ==> r == Ok(([], map[]))
  {
    if cfg.ruleType.DateRule? {
      if |cfg.dateRanges| != |cfg.nodes| {
        return Err(DateRangeCount);
      }
      r := LocateDates(cfg, cfg.ruleType.granularity);
      if r.Ok? {
        BlocksAre(ParserOf(cfg, cfg.ruleType.granularity), cfg.dateRanges, |cfg.dateRanges|);
      }
      return r;
    }
    if cfg.ruleType.DefaultRule? {
      return Ok(([], map[]));
    }
    if |cfg.locations| != |cfg.nodes| {
      return Err(LocationsCount);
    }
    var subTables, tableToNode := LocateTables(cfg.locations);
    if NonNegative(cfg.locations) {
      assert cfg.locations[..|cfg.locations|] == cfg.locations;
      LocatedNumbered(cfg.locations, |cfg.locations|);
      KeyCount(subTables, tableToNode);
    }
    return Ok((subTables, tableToNode));
  }

  lemma KeyCount(list: seq<int>, m: map<int, int>)
    requires StrictlyAscending(list)
    requires forall t :: t in m <==> t in list
    ensures |m| == |list|
  {
    ListCardinality(list);
    assert forall t :: t in m.Keys <==> t in Elems(list);
    SameMembers(m.Keys, Elems(list));
  }

  lemma {:induction false} ListCardinality(list: seq<int>)
    requires StrictlyAscending(list)
    ensures |Elems(list)| == |list|
  {
    if list == [] {
      assert forall k :: k !in Elems(list);
      SameMembers(Elems(list), {});
    } else {
      var n := |list| - 1;
      ListCardinality(list[..n]);
      assert forall k :: k in Elems(list) <==> k in Elems(list[..n]) + {list[n]} by {
        assert list == list[..n] + [list[n]];
      }
      SameMembers(Elems(list), Elems(list[..n]) + {list[n]});
      assert list[n] !in Elems(list[..n]);
    }
  }

  /** A negative location makes an accepted hash rule list a sub-table twice. */
  lemma NegativeLocationOverlaps()
    ensures Located([2, -1, 1], 3) == [0, 1, 1]
    ensures !BlocksInOrder([2, -1, 1], 3)
  {
    var l := [2, -1, 1];
    assert l[..1] == [2] && l[..2] == [2, -1] && l[..0] == [];
    assert [2, -1][..1] == [2];
    assert Sum(l[..0]) == 0 && Sum(l[..1]) == 2 && Sum(l[..2]) == 1;
    assert Located(l, 1) == [0, 1] && Located(l, 2) == [0, 1];
    assert !BlockBefore(l, 0, 2);
  }
}
