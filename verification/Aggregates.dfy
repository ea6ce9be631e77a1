/** Aggregate functions: what they compute over a column, and how the proxy computes them over the values
    the shards sent (proxy/server/conn_select.go, calFuncExprValue and its helpers). */
module Aggregates {
  import opened Prelude
  import opened Text
  import opened GroupKeys

  /** The functions, with the type of their column where the backends' answers depend on it. */
  datatype Func = Count | Sum | DecimalSum | Max | Min | UnsignedMax | UnsignedMin

  // ---------------------------------------------------------------- aggregates over columns

  /** What the aggregates of a column need to know about it. */
  datatype Stats = Stats(total: int, nonNull: nat, max: Option<int>, min: Option<int>)

  const EMPTY := Stats(0, 0, None, None)

  function Larger(a: Option<int>, b: Option<int>): Option<int> {
    if a.None? then b else if b.None? || b.value <= a.value then a else b
  }

  function Smaller(a: Option<int>, b: Option<int>): Option<int> {
    if a.None? then b else if b.None? || a.value <= b.value then a else b
  }

  function One(x: Option<int>): Stats {
    match x
    case None => EMPTY
    case Some(v) => Stats(v, 1, Some(v), Some(v))
  }

  function Merge(a: Stats, b: Stats): Stats {
    Stats(a.total + b.total, a.nonNull + b.nonNull, Larger(a.max, b.max), Smaller(a.min, b.min))
  }

  function StatsOf(column: seq<Option<int>>): (st: Stats)
    ensures Proper(st)
  {
    if column == [] then EMPTY
    else Merge(StatsOf(column[..|column| - 1]), One(column[|column| - 1]))
  }

  lemma MergeAssociative(a: Stats, b: Stats, c: Stats)
    ensures Merge(Merge(a, b), c) == Merge(a, Merge(b, c))
    ensures Merge(a, b) == Merge(b, a)
    ensures Merge(a, EMPTY) == a
  {
  }

  lemma {:induction false} StatsAppend(a: seq<Option<int>>, b: seq<Option<int>>)
    ensures StatsOf(a + b) == Merge(StatsOf(a), StatsOf(b))
  {
    if b == [] {
      assert a + b == a;
      MergeAssociative(StatsOf(a), EMPTY, EMPTY);
    } else {
      var n := |b| - 1;
      StatsAppend(a, b[..n]);
      assert (a + b)[..|a + b| - 1] == a + b[..n];
      MergeAssociative(StatsOf(a), StatsOf(b[..n]), One(b[n]));
    }
  }

  /** The order of a column does not matter. */
  lemma {:induction false} StatsPermuted(a: seq<Option<int>>, b: seq<Option<int>>)
    requires multiset(a) == multiset(b)
    ensures StatsOf(a) == StatsOf(b)
  {
    if a == [] {
      assert |b| == |multiset(b)| == |multiset(a)| == 0;
    } else {
      var n := |a| - 1;
      var x := a[n];
      assert x in multiset(b);
      var i :| 0 <= i < |b| && b[i] == x;
      var front, back := b[..i], b[i + 1..];
      assert a == a[..n] + [x] && b == front + [x] + back;
      RemoveFromBoth(a[..n], front, x, back);
      StatsPermuted(a[..n], front + back);
      StatsRemove(front, x, back);
    }
  }

  lemma StatsRemove(front: seq<Option<int>>, x: Option<int>, back: seq<Option<int>>)
    ensures StatsOf(front + [x] + back) == Merge(StatsOf(front + back), One(x))
  {
    StatsAppend(front, back);
    StatsAppend(front + [x], back);
    assert (front + [x])[..|front|] == front;
    MergeAssociative(StatsOf(front), One(x), StatsOf(back));
    MergeAssociative(StatsOf(front), StatsOf(back), One(x));
    MergeAssociative(One(x), StatsOf(back), EMPTY);
  }

  /** The extremes of a column are among its values, and none is beyond them. */
  predicate Extremes(column: seq<Option<int>>, max: Option<int>, min: Option<int>) {
    && max.Some? == min.Some? && (max.Some? ==> max in column && min in column)
    && forall i :: 0 <= i < |column| && column[i].Some? ==>
         max.Some? && min.Some? && min.value <= column[i].value <= max.value
  }

  lemma {:induction false} StatsExtremes(column: seq<Option<int>>)
    ensures Extremes(column, StatsOf(column).max, StatsOf(column).min)
  {
    if column != [] {
      var front, x := column[..|column| - 1], column[|column| - 1];
      StatsExtremes(front);
      MergedExtremes(StatsOf(front), x);
      ExtremesNext(front, StatsOf(front).max, StatsOf(front).min, x, column);
    }
  }

  lemma MergedExtremes(st: Stats, x: Option<int>)
    ensures Merge(st, One(x)).max == Larger(st.max, x) && Merge(st, One(x)).min == Smaller(st.min, x)
  {
  }

  lemma ExtremesNext(front: seq<Option<int>>, max: Option<int>, min: Option<int>, x: Option<int>, column: seq<Option<int>>)
    requires Extremes(front, max, min) && column != [] && front == column[..|column| - 1] && x == column[|column| - 1]
    ensures Extremes(column, Larger(max, x), Smaller(min, x))
  {
    assert forall i :: 0 <= i < |front| ==> column[i] == front[i];
    assert forall y :: y in front ==> y in column;
    assert x in column;
  }

  /** One more row counts, and adds, if it has a value. */
  lemma StatsGrow(column: seq<Option<int>>, v: int)
    ensures StatsOf([]).nonNull == StatsOf([]).total == 0
    ensures StatsOf(column + [None]) == StatsOf(column)
    ensures StatsOf(column + [Some(v)]).nonNull == StatsOf(column).nonNull + 1
    ensures StatsOf(column + [Some(v)]).total == StatsOf(column).total + v
  {
    assert (column + [None])[..|column|] == column && (column + [Some(v)])[..|column|] == column;
  }

  /** The aggregates of a column in those terms; without values all but the count are NULL. */
  lemma AggregateReads(st: Stats)
    requires Proper(st)
    ensures Aggregate(Count, st) == Int(Wrap64(st.nonNull))
    ensures st.nonNull == 0 ==> forall f :: f != Count ==> Aggregate(f, st) == Null
    ensures st.nonNull > 0 ==>
              && Aggregate(Sum, st) == Int(Wrap64(st.total)) && Aggregate(DecimalSum, st) == Float(st.total as real)
              && Aggregate(Max, st) == Int(st.max.value) && Aggregate(Min, st) == Int(st.min.value)
              && (st.max.value >= 0 ==> Aggregate(UnsignedMax, st) == Uint(st.max.value))
              && (st.min.value >= 0 ==> Aggregate(UnsignedMin, st) == Uint(st.min.value))
  {
  }

  /** 64-bit wrap-around, as a value: what follows of partial aggregates holds of any such function. */
  const WRAP: int -> int := v => Wrap64(v)

  /** The value of an aggregate function over an integer column: a count, or a sum that the backend types
      as an integer, is a 64-bit one; a sum typed as a decimal arrives as a floating-point number. */
  function Aggregate(f: Func, st: Stats): Value {
    AggregateBy(WRAP, f, st)
  }

  function AggregateBy(wrap: int -> int, f: Func, st: Stats): Value {
    match f
    case Count => Int(wrap(st.nonNull))
    case Sum => if st.nonNull == 0 then Null else Int(wrap(st.total))
    case DecimalSum => if st.nonNull == 0 then Null else Float(st.total as real)
    case Max => if st.max.None? then Null else Int(st.max.value)
    case Min => if st.min.None? then Null else Int(st.min.value)
    case UnsignedMax => if st.max.None? then Null else Uint(Natural(st.max.value))
    case UnsignedMin => if st.min.None? then Null else Uint(Natural(st.min.value))
  }

  /** What an unsigned column holds: its numbers are not negative. */
  function Natural(v: int): nat {
    if v < 0 then 0 else v
  }

  predicate Proper(st: Stats) {
    && (st.nonNull == 0 <==> st.max.None?)
    && (st.nonNull == 0 <==> st.min.None?)
    && (st.nonNull == 0 ==> st.total == 0)
  }

  // ---------------------------------------------------------------- count and sum

  function Truncated(x: real): int {
    if x < 0.0 then -((-x).Floor) else x.Floor
  }

  /** GetInt. A fraction is cut off. */
  function IntOf(v: Value): Result<int> {
    match v
    case Null => Ok(0)
    case Int(n) => Ok(n)
    case Uint(n) => Ok(Wrap64(n))
    case Float(x) => Ok(Wrap64(Truncated(x)))
    case Text(s) => ParsedInt(s)
    case Bytes(s) => ParsedInt(s)
  }

  function ParsedInt(s: string): Result<int> {
    match ParseInt64(s) case Some(n) => Ok(n) case None => Err(InvalidNumber)
  }

  function CountOf(values: seq<Value>): Result<int> {
    if values == [] then Ok(0)
    else
      var n :- CountOf(values[..|values| - 1]);
      var m :- IntOf(values[|values| - 1]);
      Ok(n + m)
  }

  function CountValue(values: seq<Value>): Result<Value> {
    match CountOf(values) case Ok(n) => Ok(Int(Wrap64(n))) case Err(e) => Err(e)
  }

  /** An error stops the count at the first value that is no number. */
  lemma {:induction false} CountStops(values: seq<Value>, n: nat)
    requires n <= |values| && CountOf(values[..n]).Err?
    ensures CountOf(values) == CountOf(values[..n])
    decreases |values|
  {
    if n == |values| {
      assert values[..n] == values;
    } else {
      assert values[..|values| - 1][..n] == values[..n];
      CountStops(values[..|values| - 1], n);
    }
  }

  lemma CountNext(values: seq<Value>, i: nat)
    requires i < |values| && CountOf(values[..i]).Ok?
    ensures CountOf(values[..i + 1]) ==
            match IntOf(values[i]) case Ok(m) => Ok(CountOf(values[..i]).value + m) case Err(e) => Err(e)
  {
    assert values[..i + 1][..i] == values[..i];
  }

  method GetCountValue(values: seq<Value>) returns (r: Result<Value>)
    ensures r == CountValue(values)
  {
    var num := 0;
    for i := 0 to |values|
      invariant CountOf(values[..i]).Ok? && num == Wrap64(CountOf(values[..i]).value)
    {
      CountNext(values, i);
      var found := IntOf(values[i]);
      if found.Err? {
        CountStops(values, i + 1);
        return Err(found.error);
      }
      WrapAdd(CountOf(values[..i]).value, found.value);
      num := Wrap64(num + found.value);
    }
    assert values[..|values|] == values;
    return Ok(Int(num));
  }

  /** strconv.ParseFloat */
  type ParseFloat = string -> Option<real>

  /** Integers and floating-point numbers are summed apart; `isInt` tells whether there was an integer. */
  datatype Sums = Sums(sumi: int, sumf: real, isInt: bool)

  function Summed(sums: Sums, parse: ParseFloat, v: Value): Result<Sums> {
    match v
    case Null => Ok(sums)
    case Int(n) => Ok(sums.(sumi := sums.sumi + n, isInt := true))
    case Float(x) => Ok(sums.(sumf := sums.sumf + x))
    case Bytes(s) => (match parse(s) case Some(x) => Ok(sums.(sumf := sums.sumf + x)) case None => Err(InvalidNumber))
    case Uint(_) => Err(SumColumnType)
    case Text(_) => Err(SumColumnType)
  }

  function SumsOf(parse: ParseFloat, values: seq<Value>): Result<Sums> {
    if values == [] then Ok(Sums(0, 0.0, false))
    else
      var sums :- SumsOf(parse, values[..|values| - 1]);
      Summed(sums, parse, values[|values| - 1])
  }

  function SumValue(parse: ParseFloat, values: seq<Value>): Result<Value> {
    match SumsOf(parse, values)
    case Ok(sums) => Ok(if sums.isInt then Int(Wrap64(sums.sumi)) else Float(sums.sumf))
    case Err(e) => Err(e)
  }

  lemma {:induction false} SumStops(parse: ParseFloat, values: seq<Value>, n: nat)
    requires n <= |values| && SumsOf(parse, values[..n]).Err?
    ensures SumsOf(parse, values) == SumsOf(parse, values[..n])
    decreases |values|
  {
    if n == |values| {
      assert values[..n] == values;
    } else {
      assert values[..|values| - 1][..n] == values[..n];
      SumStops(parse, values[..|values| - 1], n);
    }
  }

  lemma SumNext(parse: ParseFloat, values: seq<Value>, i: nat)
    requires i < |values| && SumsOf(parse, values[..i]).Ok?
    ensures SumsOf(parse, values[..i + 1]) == Summed(SumsOf(parse, values[..i]).value, parse, values[i])
  {
    assert values[..i + 1][..i] == values[..i];
  }

  method GetSumFuncExprValue(parse: ParseFloat, values: seq<Value>) returns (r: Result<Value>)
    ensures r == SumValue(parse, values)
  {
    var sumi, sumf, isInt := 0, 0.0, false;
    for i := 0 to |values|
      invariant SumsOf(parse, values[..i]).Ok?
      invariant var sums := SumsOf(parse, values[..i]).value;
                sumi == Wrap64(sums.sumi) && sumf == sums.sumf && isInt == sums.isInt
    {
      SumNext(parse, values, i);
      var next := AddValue(sumi, sumf, isInt, parse, values[i], SumsOf(parse, values[..i]).value);
      if next.Err? {
        SumStops(parse, values, i + 1);
        return Err(next.error);
      }
      sumi, sumf, isInt := next.value.sumi, next.value.sumf, next.value.isInt;
    }
    assert values[..|values|] == values;
    return Ok(if isInt then Int(sumi) else Float(sumf));
  }

  /** The switch of getSumFuncExprValue. */
  method AddValue(sumi: int, sumf: real, isInt: bool, parse: ParseFloat, v: Value, ghost sums: Sums) returns (r: Result<Sums>)
    requires sumi == Wrap64(sums.sumi) && sumf == sums.sumf && isInt == sums.isInt
    ensures r.Ok? <==> Summed(sums, parse, v).Ok?
    ensures r.Err? ==> r.error == Summed(sums, parse, v).error
    ensures r.Ok? ==>
              var next := Summed(sums, parse, v).value;
              r.value.sumi == Wrap64(next.sumi) && r.value.sumf == next.sumf && r.value.isInt == next.isInt
  {
    match v
    case Null => return Ok(Sums(sumi, sumf, isInt));
    case Int(n) =>
      WrapAdd(sums.sumi, n);
      return Ok(Sums(Wrap64(sumi + n), sumf, true));
    case Float(x) => return Ok(Sums(sumi, sumf + x, isInt));
    case Bytes(s) =>
      var parsed := parse(s);
      if parsed.None? {
        return Err(InvalidNumber);
      }
      return Ok(Sums(sumi, sumf + parsed.value, isInt));
    case Uint(_) => return Err(SumColumnType);
    case Text(_) => return Err(SumColumnType);
  }

  // ---------------------------------------------------------------- greatest and least

  function FirstNonNull(values: seq<Value>): Value {
    if values == [] then Null else if values[0] != Null then values[0] else FirstNonNull(values[1..])
  }

  predicate SameKind(a: Value, b: Value) {
    (a.Int? && b.Int?) || (a.Uint? && b.Uint?) || (a.Float? && b.Float?) || (a.Text? && b.Text?)
  }

  predicate Below(a: Value, b: Value)
    requires SameKind(a, b)
  {
    match a
    case Int(n) => n < b.v
    case Uint(n) => n < b.u
    case Float(x) => x < b.x
    case Text(s) => LexLess(s, b.s)
  }

  /** The better of the value kept so far and another. Values of other types than the four are passed
      over; values of different types are a failed type assertion. */
  function Better(isMax: bool, best: Value, v: Value): Result<Value> {
    if v.Null? || v.Bytes? then Ok(best)
    else if !SameKind(best, v) then Err(Panicked)
    else Ok(if isMax then (if Below(best, v) then v else best) else (if Below(v, best) then v else best))
  }

  function BestOf(isMax: bool, best: Value, values: seq<Value>): Result<Value> {
    if values == [] then Ok(best)
    else
      var b :- BestOf(isMax, best, values[..|values| - 1]);
      Better(isMax, b, values[|values| - 1])
  }

  function ExtremeValue(isMax: bool, values: seq<Value>): Result<Value> {
    BestOf(isMax, FirstNonNull(values), values)
  }

  lemma {:induction false} BestStops(isMax: bool, best: Value, values: seq<Value>, n: nat)
    requires n <= |values| && BestOf(isMax, best, values[..n]).Err?
    ensures BestOf(isMax, best, values) == BestOf(isMax, best, values[..n])
    decreases |values|
  {
    if n == |values| {
      assert values[..n] == values;
    } else {
      assert values[..|values| - 1][..n] == values[..n];
      BestStops(isMax, best, values[..|values| - 1], n);
    }
  }

  /** getMaxFuncExprValue and getMinFuncExprValue: find a first value, then compare with all. */
  method GetExtremeFuncExprValue(isMax: bool, values: seq<Value>) returns (r: Result<Value>)
    ensures r == ExtremeValue(isMax, values)
  {
    var best: Value := Null;
    var k := 0;
    while k < |values| && best == Null
      invariant 0 <= k <= |values|
      invariant FirstNonNull(values) == if best == Null then FirstNonNull(values[k..]) else best
    {
      assert values[k..][0] == values[k] && values[k..][1..] == values[k + 1..];
      best := values[k];
      k := k + 1;
    }
    assert values[|values|..] == [];
    ghost var first := FirstNonNull(values);
    for i := 0 to |values|
      invariant BestOf(isMax, first, values[..i]) == Ok(best)
    {
      assert values[..i + 1][..i] == values[..i];
      var next := Better(isMax, best, values[i]);
      if next.Err? {
        BestStops(isMax, first, values, i + 1);
        return Err(next.error);
      }
      best := next.value;
    }
    assert values[..|values|] == values;
    return Ok(best);
  }

  /** NULLs, and values of the kind of `like`. */
  predicate Alike(values: seq<Value>, like: Value) {
    forall i :: 0 <= i < |values| ==> values[i].Null? || SameKind(like, values[i])
  }

  /** `r` is among the values, and none is beyond it. */
  ghost predicate IsExtreme(isMax: bool, values: seq<Value>, r: Value) {
    && r in values && !r.Null?
    && forall i :: 0 <= i < |values| && !values[i].Null? ==>
         SameKind(r, values[i]) && (if isMax then !Below(r, values[i]) else !Below(values[i], r))
  }

  lemma BelowOrder(a: Value, b: Value, c: Value)
    requires SameKind(a, b) && SameKind(b, c)
    ensures SameKind(b, a) && SameKind(a, c)
    ensures Below(a, b) ==> !Below(b, a)
    ensures !Below(a, b) && !Below(b, c) ==> !Below(a, c)
  {
    if a.Text? {
      LexTotal(a.s, b.s);
      LexTotal(b.s, c.s);
      if LexLess(a.s, c.s) && !LexLess(a.s, b.s) {
        if b.s != a.s {
          LexTransitive(b.s, a.s, c.s);
        }
      }
    }
  }

  lemma FirstIn(values: seq<Value>)
    ensures FirstNonNull(values) == Null <==> forall i :: 0 <= i < |values| ==> values[i] == Null
    ensures FirstNonNull(values) != Null ==> FirstNonNull(values) in values
  {
    if values != [] {
      FirstIn(values[1..]);
      assert values == [values[0]] + values[1..];
    }
  }

  lemma {:induction false} BestIsBeyond(isMax: bool, first: Value, values: seq<Value>)
    requires SameKind(first, first) && Alike(values, first)
    ensures var r := BestOf(isMax, first, values);
            && r.Ok? && SameKind(first, r.value) && (r.value == first || r.value in values)
            && (if isMax then !Below(r.value, first) else !Below(first, r.value))
            && forall i :: 0 <= i < |values| && !values[i].Null? ==>
                 SameKind(r.value, values[i]) && (if isMax then !Below(r.value, values[i]) else !Below(values[i], r.value))
  {
    if values == [] {
      BelowOrder(first, first, first);
    } else {
      var n := |values| - 1;
      BestIsBeyond(isMax, first, values[..n]);
      var b, v := BestOf(isMax, first, values[..n]).value, values[n];
      if !v.Null? {
        BeyondNext(isMax, first, values[..n], b, v);
      }
      assert values == values[..n] + [v];
    }
  }

  lemma BeyondNext(isMax: bool, first: Value, front: seq<Value>, b: Value, v: Value)
    requires SameKind(first, b) && SameKind(first, v) && Alike(front, first)
    requires if isMax then !Below(b, first) else SameKind(b, first) && !Below(first, b)
    requires forall i :: 0 <= i < |front| && !front[i].Null? ==>
               SameKind(b, front[i]) && (if isMax then !Below(b, front[i]) else SameKind(front[i], b) && !Below(front[i], b))
    ensures Better(isMax, b, v).Ok? && SameKind(first, Better(isMax, b, v).value)
    ensures var r := Better(isMax, b, v).value;
            && SameKind(r, first) && SameKind(r, v) && SameKind(v, r)
            && (if isMax then !Below(r, first) && !Below(r, v) else !Below(first, r) && !Below(v, r))
            && forall i :: 0 <= i < |front| && !front[i].Null? ==>
                 SameKind(r, front[i]) && SameKind(front[i], r) && (if isMax then !Below(r, front[i]) else !Below(front[i], r))
  {
    var r := Better(isMax, b, v).value;
    BelowOrder(b, v, b);
    BelowOrder(v, b, v);
    BelowOrder(v, v, v);
    BelowOrder(r, b, first);
    BelowOrder(first, b, r);
    forall i | 0 <= i < |front| && !front[i].Null?
      ensures SameKind(r, front[i]) && SameKind(front[i], r) && (if isMax then !Below(r, front[i]) else !Below(front[i], r))
    {
      BelowOrder(r, b, front[i]);
      BelowOrder(front[i], b, r);
    }
  }

  /** Over values of one comparable kind and NULLs the result is the greatest or least one; without any
      value it is NULL. */
  lemma ExtremeIsExtreme(isMax: bool, values: seq<Value>)
    requires FirstNonNull(values) == Null || Alike(values, FirstNonNull(values))
    ensures ExtremeValue(isMax, values).Ok?
    ensures var r := ExtremeValue(isMax, values).value;
            if FirstNonNull(values) == Null then r == Null else IsExtreme(isMax, values, r)
  {
    var first := FirstNonNull(values);
    FirstIn(values);
    if first == Null {
      PassedOver(isMax, Null, values);
    } else {
      BestIsBeyond(isMax, first, values);
    }
  }

  /** Byte strings are not compared at all: whatever the function, the first one is the result. */
  lemma {:induction false} PassedOver(isMax: bool, best: Value, values: seq<Value>)
    requires forall i :: 0 <= i < |values| ==> values[i].Null? || values[i].Bytes?
    ensures BestOf(isMax, best, values) == Ok(best)
  {
    if values != [] {
      PassedOver(isMax, best, values[..|values| - 1]);
    }
  }

  // ---------------------------------------------------------------- calFuncExprValue

  /** The value of a function over values of all answers. */
  function FuncValue(parse: ParseFloat, f: Func, values: seq<Value>): Result<Value> {
    match f
    case Count => CountValue(values)
    case Sum => SumValue(parse, values)
    case DecimalSum => SumValue(parse, values)
    case Max => ExtremeValue(true, values)
    case Min => ExtremeValue(false, values)
    case UnsignedMax => ExtremeValue(true, values)
    case UnsignedMin => ExtremeValue(false, values)
  }

  method CalFuncExprValue(parse: ParseFloat, f: Func, values: seq<Value>) returns (r: Result<Value>)
    ensures r == FuncValue(parse, f, values)
  {
    match f
    case Count => r := GetCountValue(values);
    case Sum => r := GetSumFuncExprValue(parse, values);
    case DecimalSum => r := GetSumFuncExprValue(parse, values);
    case Max => r := GetExtremeFuncExprValue(true, values);
    case Min => r := GetExtremeFuncExprValue(false, values);
    case UnsignedMax => r := GetExtremeFuncExprValue(true, values);
    case UnsignedMin => r := GetExtremeFuncExprValue(false, values);
  }

  /** Greatest and least by the values themselves, over NULLs and values of one type: one of the values, and
      none beyond it. */
  lemma ExtremePayload(parse: ParseFloat, values: seq<Value>, like: Value)
    requires like in values
    requires (like.Int? && forall i :: 0 <= i < |values| ==> values[i].Null? || values[i].Int?)
          || (like.Uint? && forall i :: 0 <= i < |values| ==> values[i].Null? || values[i].Uint?)
          || (like.Float? && forall i :: 0 <= i < |values| ==> values[i].Null? || values[i].Float?)
          || (like.Text? && forall i :: 0 <= i < |values| ==> values[i].Null? || values[i].Text?)
    ensures var most, least := FuncValue(parse, Max, values), FuncValue(parse, Min, values);
            && most.Ok? && least.Ok? && most.value in values && least.value in values
            && forall i :: 0 <= i < |values| && !values[i].Null? ==>
                 var v := values[i];
                 && (like.Int? ==> most.value.Int? && least.value.Int? && least.value.v <= v.v <= most.value.v)
                 && (like.Uint? ==> most.value.Uint? && least.value.Uint? && least.value.u <= v.u <= most.value.u)
                 && (like.Float? ==> most.value.Float? && least.value.Float? && least.value.x <= v.x <= most.value.x)
                 && (like.Text? ==> most.value.Text? && least.value.Text? &&
                                    !LexLess(v.s, least.value.s) && !LexLess(most.value.s, v.s))
  {
    FirstIn(values);
    ExtremeIsExtreme(true, values);
    ExtremeIsExtreme(false, values);
  }

  /** Values of different types are not compared: a panic. */
  lemma MixedPanics(parse: ParseFloat, n: int, s: string, x: real)
    ensures FuncValue(parse, Max, [Int(n), Text(s)]) == FuncValue(parse, Min, [Text(s), Int(n)]) == Err(Panicked)
    ensures FuncValue(parse, Max, [Float(x), Int(n)]) == FuncValue(parse, Min, [Int(n), Float(x)]) == Err(Panicked)
  {
    MixedPair(true, Int(n), Text(s));
    MixedPair(false, Text(s), Int(n));
    MixedPair(true, Float(x), Int(n));
    MixedPair(false, Int(n), Float(x));
  }

  lemma MixedPair(isMax: bool, a: Value, b: Value)
    requires !a.Null? && !a.Bytes? && !b.Null? && !b.Bytes? && !SameKind(a, b)
    ensures ExtremeValue(isMax, [a, b]) == Err(Panicked)
  {
    PairPrefixes(a, b);
    assert [a, b][0] == a && FirstNonNull([a, b]) == a;
    assert BestOf(isMax, a, []) == Ok(a);
    assert SameKind(a, a);
    assert BestOf(isMax, a, [a]) == Better(isMax, a, a) == Ok(a);
  }

  /** How a count reads the values of each type, a fraction being cut off towards zero. */
  lemma CountReads(n: int, x: real)
    requires IsInt64(n) && -(TWO_63 as real) < x < TWO_63 as real
    ensures IntOf(Null) == Ok(0) && IntOf(Int(n)) == Ok(n) && (n >= 0 ==> IntOf(Uint(n)) == Ok(n))
    ensures IntOf(Text(FormatInt(n))) == Ok(n) && IntOf(Bytes(FormatInt(n))) == Ok(n)
    ensures IntOf(Float(x)).Ok?
    ensures x >= 0.0 ==> IntOf(Float(x)).value as real <= x < IntOf(Float(x)).value as real + 1.0
    ensures x < 0.0 ==> IntOf(Float(x)).value as real - 1.0 < x <= IntOf(Float(x)).value as real
  {
    FormatParse(n);
  }

  /** A count adds them up, with wrap-around. */
  lemma CountAdds(values: seq<Value>, v: Value)
    ensures CountValue([]) == Ok(Int(0))
    ensures CountOf(values).Ok? && IntOf(v).Ok? ==>
              CountValue(values + [v]) == Ok(Int(Wrap64(CountOf(values).value + IntOf(v).value)))
    ensures CountOf(values).Ok? && IntOf(v).Ok? ==> CountOf(values + [v]) == Ok(CountOf(values).value + IntOf(v).value)
  {
    assert (values + [v])[..|values|] == values;
  }

  /** A sum adds numbers of one type; of integers and floating-point numbers together only the integers
      count; unsigned integers and texts are refused. */
  lemma SumOfPairs(parse: ParseFloat, a: int, b: int, x: real, y: real, s: string)
    ensures SumValue(parse, [Int(a), Int(b)]) == Ok(Int(Wrap64(a + b)))
    ensures SumValue(parse, [Float(x), Float(y)]) == Ok(Float(x + y))
    ensures SumValue(parse, [Int(a), Float(y)]) == SumValue(parse, [Float(y), Int(a)]) == Ok(Int(Wrap64(a)))
    ensures SumValue(parse, [Null, Float(y)]) == Ok(Float(y)) && SumValue(parse, [Null, Int(b)]) == Ok(Int(Wrap64(b)))
    ensures SumValue(parse, [Float(x), Bytes(s)]) ==
            match parse(s) case Some(z) => Ok(Float(x + z)) case None => Err(InvalidNumber)
    ensures a >= 0 ==> SumValue(parse, [Float(x), Uint(a)]) == Err(SumColumnType)
    ensures SumValue(parse, [Float(x), Text(s)]) == Err(SumColumnType)
  {
    SumOfTwo(parse, Int(a), Int(b));
    SumOfTwo(parse, Float(x), Float(y));
    SumOfTwo(parse, Int(a), Float(y));
    SumOfTwo(parse, Float(y), Int(a));
    SumOfTwo(parse, Null, Float(y));
    SumOfTwo(parse, Null, Int(b));
    SumOfTwo(parse, Float(x), Bytes(s));
    SumOfTwo(parse, Float(x), Text(s));
    if a >= 0 {
      SumOfTwo(parse, Float(x), Uint(a));
    }
  }

  lemma SumOfTwo(parse: ParseFloat, v: Value, w: Value)
    requires v.Null? || v.Int? || v.Float?
    ensures SumsOf(parse, [v, w]) == Summed(Sums(IntPart(v), FloatPart(v), v.Int?), parse, w)
  {
    PairPrefixes(v, w);
    assert SumsOf(parse, []) == Ok(Sums(0, 0.0, false));
    assert SumsOf(parse, [v]) == Ok(Sums(IntPart(v), FloatPart(v), v.Int?));
  }

  // ---------------------------------------------------------------- combining partial aggregates

  /** What a backend, or an earlier combination, puts in the column of an aggregate over integers. */
  predicate Fits(f: Func, v: Value) {
    match f
    case Sum => v.Null? || v.Int? || v.Float?
    case DecimalSum => v.Null? || v.Float?
    case UnsignedMax => v.Null? || v.Uint?
    case UnsignedMin => v.Null? || v.Uint?
    case _ => v.Null? || v.Int?
  }

  function IntPart(v: Value): int {
    if v.Int? then v.v else 0
  }

  function FloatPart(v: Value): real {
    if v.Float? then v.x else 0.0
  }

  /** The function value of two rows: the one that arrives and the one kept so far. */
  function Combine(f: Func, arriving: Value, kept: Value): Value {
    CombineBy(WRAP, f, arriving, kept)
  }

  function CombineBy(wrap: int -> int, f: Func, arriving: Value, kept: Value): Value {
    match f
    case Count => Int(wrap(IntPart(arriving) + IntPart(kept)))
    case Max =>
      if !arriving.Int? then (if kept.Int? then kept else Null)
      else if kept.Int? && arriving.v < kept.v then kept else arriving
    case Min =>
      if !arriving.Int? then (if kept.Int? then kept else Null)
      else if kept.Int? && kept.v < arriving.v then kept else arriving
    case UnsignedMax =>
      if !arriving.Uint? then (if kept.Uint? then kept else Null)
      else if kept.Uint? && arriving.u < kept.u then kept else arriving
    case UnsignedMin =>
      if !arriving.Uint? then (if kept.Uint? then kept else Null)
      else if kept.Uint? && kept.u < arriving.u then kept else arriving
    case _ =>
      if arriving.Int? || kept.Int? then Int(wrap(IntPart(arriving) + IntPart(kept)))
      else Float(FloatPart(arriving) + FloatPart(kept))
  }

  lemma PairPrefixes(a: Value, b: Value)
    ensures [a, b][..1] == [a] && [a][..0] == [] && [a, b][1..] == [b] && [b][1..] == []
  {
  }

  lemma CountPair(a: Value, b: Value)
    requires Fits(Count, a) && Fits(Count, b)
    ensures CountValue([a, b]) == Ok(Combine(Count, a, b))
  {
    PairPrefixes(a, b);
    assert CountOf([a]) == Ok(IntPart(a));
  }

  lemma SumPair(parse: ParseFloat, f: Func, a: Value, b: Value)
    requires (f == Sum || f == DecimalSum) && Fits(f, a) && Fits(f, b)
    ensures SumValue(parse, [a, b]) == Ok(Combine(f, a, b))
  {
    PairPrefixes(a, b);
    assert SumsOf(parse, []) == Ok(Sums(0, 0.0, false));
    assert SumsOf(parse, [a]) == Ok(Sums(IntPart(a), FloatPart(a), a.Int?));
  }

  lemma ExtremePair(isMax: bool, a: Value, b: Value)
    requires (Fits(Max, a) && Fits(Max, b)) || (Fits(UnsignedMax, a) && Fits(UnsignedMax, b))
    ensures Fits(Max, a) && Fits(Max, b) ==> ExtremeValue(isMax, [a, b]) == Ok(Combine(if isMax then Max else Min, a, b))
    ensures Fits(UnsignedMax, a) && Fits(UnsignedMax, b) ==>
              ExtremeValue(isMax, [a, b]) == Ok(Combine(if isMax then UnsignedMax else UnsignedMin, a, b))
  {
    PairPrefixes(a, b);
    var first := FirstNonNull([a, b]);
    assert FirstNonNull([]) == Null;
    assert [b][0] == b && FirstNonNull([b]) == b;
    assert [a, b][0] == a;
    assert first == if a != Null then a else b;
    assert BestOf(isMax, first, []) == Ok(first);
    assert BestOf(isMax, first, [a]) == Better(isMax, first, a);
  }

  /** On columns of partial aggregates the function of the two values is their combination, and fits. */
  lemma PairIsCombine(parse: ParseFloat, f: Func, arriving: Value, kept: Value)
    requires Fits(f, arriving) && Fits(f, kept)
    ensures FuncValue(parse, f, [arriving, kept]) == Ok(Combine(f, arriving, kept))
    ensures Fits(f, Combine(f, arriving, kept))
  {
    match f
    case Count => CountPair(arriving, kept);
    case Sum => SumPair(parse, f, arriving, kept);
    case DecimalSum => SumPair(parse, f, arriving, kept);
    case Max => ExtremePair(true, arriving, kept);
    case Min => ExtremePair(false, arriving, kept);
    case UnsignedMax => ExtremePair(true, arriving, kept);
    case UnsignedMin => ExtremePair(false, arriving, kept);
  }

  predicate IsSum(f: Func) {
    f == Sum || f == DecimalSum
  }

  /** What a merged column holds: the aggregate, except that a sum without values that came in several
      parts is 0.0. */
  function Merged(f: Func, st: Stats, parts: nat): Value {
    MergedBy(WRAP, f, st, parts)
  }

  function MergedBy(wrap: int -> int, f: Func, st: Stats, parts: nat): Value {
    if IsSum(f) && st.nonNull == 0 && parts > 1 then Float(0.0) else AggregateBy(wrap, f, st)
  }

  /** Wrapping early or late makes no difference to the sum of these two. */
  predicate WrapsSum(wrap: int -> int, x: int, y: int) {
    wrap(wrap(x) + wrap(y)) == wrap(x + y) && wrap(wrap(x)) == wrap(x) && wrap(wrap(y)) == wrap(y)
  }

  /** The column of one part combined with that of `parts` parts is the column of all of them. */
  ghost predicate PartsCombine(wrap: int -> int, f: Func, arriving: Stats, kept: Stats, parts: nat) {
    CombineBy(wrap, f, AggregateBy(wrap, f, arriving), MergedBy(wrap, f, kept, parts)) ==
    MergedBy(wrap, f, Merge(kept, arriving), parts + 1)
  }

  lemma MergeTotals(a: Stats, b: Stats)
    ensures Merge(a, b).total == a.total + b.total && Merge(a, b).nonNull == a.nonNull + b.nonNull
  {
  }

  lemma CombineCounts(wrap: int -> int, arriving: Stats, kept: Stats, parts: nat)
    requires WrapsSum(wrap, arriving.nonNull, kept.nonNull)
    ensures PartsCombine(wrap, Count, arriving, kept, parts)
  {
    MergeTotals(kept, arriving);
  }

  lemma MergedSum(wrap: int -> int, st: Stats, parts: nat)
    requires parts > 1
    ensures MergedBy(wrap, Sum, st, parts) == if st.nonNull == 0 then Float(0.0) else Int(wrap(st.total))
    ensures MergedBy(wrap, DecimalSum, st, parts) == if st.nonNull == 0 then Float(0.0) else Float(st.total as real)
  {
  }

  lemma CombinedSum(wrap: int -> int, arriving: Stats, kept: Stats, parts: nat)
    requires Proper(arriving) && Proper(kept) && parts >= 1 && WrapsSum(wrap, arriving.total, kept.total)
    ensures CombineBy(wrap, Sum, AggregateBy(wrap, Sum, arriving), MergedBy(wrap, Sum, kept, parts)) ==
            if arriving.nonNull + kept.nonNull == 0 then Float(0.0) else Int(wrap(kept.total + arriving.total))
  {
  }

  lemma CombineSums(wrap: int -> int, arriving: Stats, kept: Stats, parts: nat)
    requires Proper(arriving) && Proper(kept) && parts >= 1 && WrapsSum(wrap, arriving.total, kept.total)
    ensures PartsCombine(wrap, Sum, arriving, kept, parts)
  {
    CombinedSum(wrap, arriving, kept, parts);
    MergeTotals(kept, arriving);
    var st := Merge(kept, arriving);
    MergedSum(wrap, st, parts + 1);
  }

  lemma RealSum(a: int, b: int)
    ensures (a + b) as real == a as real + b as real
  {
  }

  lemma CombinedDecimal(wrap: int -> int, arriving: Stats, kept: Stats, parts: nat)
    requires Proper(arriving) && Proper(kept) && parts >= 1
    ensures CombineBy(wrap, DecimalSum, AggregateBy(wrap, DecimalSum, arriving), MergedBy(wrap, DecimalSum, kept, parts)) ==
            Float(arriving.total as real + kept.total as real)
  {
  }

  lemma CombineDecimals(wrap: int -> int, arriving: Stats, kept: Stats, parts: nat)
    requires Proper(arriving) && Proper(kept) && parts >= 1
    ensures PartsCombine(wrap, DecimalSum, arriving, kept, parts)
  {
    CombinedDecimal(wrap, arriving, kept, parts);
    MergeTotals(kept, arriving);
    RealSum(arriving.total, kept.total);
    MergedSum(wrap, Merge(kept, arriving), parts + 1);
  }

  lemma CombineExtremes(wrap: int -> int, f: Func, arriving: Stats, kept: Stats, parts: nat)
    requires f == Max || f == Min || f == UnsignedMax || f == UnsignedMin
    ensures PartsCombine(wrap, f, arriving, kept, parts)
  {
  }

  lemma WrapPair(x: int, y: int)
    ensures WrapsSum(WRAP, x, y)
  {
    WrapAdd(x, Wrap64(y));
    WrapAdd(y, x);
  }

  /** Combining the aggregate of one part with that of the `parts` parts before gives the aggregate of all
      of them together, up to the 0.0 for a sum without any value. */
  lemma CombineIsMerge(f: Func, arriving: Stats, kept: Stats, parts: nat)
    requires Proper(arriving) && Proper(kept) && parts >= 1
    ensures PartsCombine(WRAP, f, arriving, kept, parts)
    ensures Combine(f, Aggregate(f, arriving), Merged(f, kept, parts)) == Merged(f, Merge(kept, arriving), parts + 1)
  {
    match f
    case Count =>
      WrapPair(arriving.nonNull, kept.nonNull);
      CombineCounts(WRAP, arriving, kept, parts);
    case Sum =>
      WrapPair(arriving.total, kept.total);
      CombineSums(WRAP, arriving, kept, parts);
    case DecimalSum => CombineDecimals(WRAP, arriving, kept, parts);
    case _ => CombineExtremes(WRAP, f, arriving, kept, parts);
  }
}
