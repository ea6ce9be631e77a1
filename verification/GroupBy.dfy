/** Merging GROUP BY answers: partial aggregates of the shards are folded, group by group, into one
    row per group (proxy/server/conn_select.go). */
module GroupBy {
  import opened Prelude
  import opened GroupKeys
  import opened Aggregates

  type ResultRow = seq<Value>

  // ---------------------------------------------------------------- the merge loop

  /** The kept row with every function column combined with the arriving row's. */
  function UpdateFuncs(kept: ResultRow, arriving: ResultRow, funcs: map<nat, Func>): (r: ResultRow)
    requires |kept| == |arriving|
    ensures |r| == |kept|
  {
    seq(|kept|, i requires 0 <= i < |kept| => if i in funcs then Combine(funcs[i], arriving[i], kept[i]) else kept[i])
  }

  /** The rows whose group has map key `mk`, in order of arrival. */
  function RowsFor(rows: seq<ResultRow>, start: nat, mk: string): seq<ResultRow> {
    if rows == [] then []
    else
      var n := |rows| - 1;
      RowsFor(rows[..n], start, mk) +
      (if start <= |rows[n]| && MapKey(rows[n][start..]) == mk then [rows[n]] else [])
  }

  /** The row a group ends with. */
  function Folded(rows: seq<ResultRow>, funcs: map<nat, Func>, width: nat): (r: ResultRow)
    requires rows != [] && forall i :: 0 <= i < |rows| ==> |rows[i]| == width
    ensures |r| == width
  {
    var n := |rows| - 1;
    if n == 0 then rows[0]
    else UpdateFuncs(Folded(rows[..n], funcs, width), rows[n], funcs)
  }

  /** Answers of one statement: rows of one width, group columns last, aggregates in their columns. */
  predicate WellTyped(rows: seq<ResultRow>, width: nat, start: nat, funcs: map<nat, Func>) {
    && start <= width
    && (forall i :: i in funcs ==> i < start)
    && (forall k :: 0 <= k < |rows| ==> |rows[k]| == width)
    && (forall k, i :: 0 <= k < |rows| && i in funcs ==> Fits(funcs[i], rows[k][i]))
  }

  lemma {:induction false} RowsForIn(rows: seq<ResultRow>, start: nat, mk: string, r: ResultRow)
    requires r in RowsFor(rows, start, mk)
    ensures r in rows && start <= |r| && MapKey(r[start..]) == mk
  {
    var n := |rows| - 1;
    if r in RowsFor(rows[..n], start, mk) {
      RowsForIn(rows[..n], start, mk, r);
    }
  }

  lemma RowsForTyped(rows: seq<ResultRow>, width: nat, start: nat, funcs: map<nat, Func>, mk: string)
    requires WellTyped(rows, width, start, funcs)
    ensures WellTyped(RowsFor(rows, start, mk), width, start, funcs)
  {
    var g := RowsFor(rows, start, mk);
    forall k | 0 <= k < |g|
      ensures g[k] in rows
    {
      RowsForIn(rows, start, mk, g[k]);
    }
  }

  lemma {:induction false} FoldedTyped(rows: seq<ResultRow>, width: nat, start: nat, funcs: map<nat, Func>)
    requires WellTyped(rows, width, start, funcs) && rows != []
    ensures forall i :: i in funcs ==> Fits(funcs[i], Folded(rows, funcs, width)[i])
  {
    if |rows| > 1 {
      FoldedTyped(rows[..|rows| - 1], width, start, funcs);
    }
  }

  /** Columns that are not aggregated are those of the row that arrived first. */
  lemma {:induction false} FoldedKeeps(rows: seq<ResultRow>, funcs: map<nat, Func>, width: nat, i: nat)
    requires rows != [] && (forall k :: 0 <= k < |rows| ==> |rows[k]| == width) && i < width && i !in funcs
    ensures Folded(rows, funcs, width)[i] == rows[0][i]
  {
    if |rows| > 1 {
      FoldedKeeps(rows[..|rows| - 1], funcs, width, i);
    }
  }

  /** The result map after `rows` have arrived. */
  ghost predicate IsResultMap(resultMap: map<string, ResultRow>, rows: seq<ResultRow>, width: nat, start: nat, funcs: map<nat, Func>)
    requires WellTyped(rows, width, start, funcs)
  {
    forall mk :: IsEntry(resultMap, rows, width, start, funcs, mk)
  }

  ghost predicate IsEntry(
    resultMap: map<string, ResultRow>, rows: seq<ResultRow>, width: nat, start: nat, funcs: map<nat, Func>, mk: string)
    requires WellTyped(rows, width, start, funcs)
  {
    && (mk in resultMap <==> RowsFor(rows, start, mk) != [])
    && (mk in resultMap ==> resultMap[mk] == FoldedFor(rows, width, start, funcs, mk))
  }

  function FoldedFor(rows: seq<ResultRow>, width: nat, start: nat, funcs: map<nat, Func>, mk: string): ResultRow
    requires WellTyped(rows, width, start, funcs) && RowsFor(rows, start, mk) != []
  {
    RowsForTyped(rows, width, start, funcs, mk);
    Folded(RowsFor(rows, start, mk), funcs, width)
  }

  /** The inner loop over the aggregate columns, in whatever order the map is walked. */
  method CombineRow(parse: ParseFloat, kept: ResultRow, arriving: ResultRow, funcs: map<nat, Func>) returns (row: ResultRow)
    requires |kept| == |arriving| && forall i :: i in funcs ==> i < |kept|
    requires forall i :: i in funcs ==> Fits(funcs[i], arriving[i]) && Fits(funcs[i], kept[i])
    ensures row == UpdateFuncs(kept, arriving, funcs)
  {
    row := kept;
    var todo := funcs.Keys;
    while todo != {}
      invariant forall i :: i in todo ==> i in funcs
      invariant |row| == |kept|
      invariant forall i :: 0 <= i < |kept| ==>
                  row[i] == if i in funcs && i !in todo then Combine(funcs[i], arriving[i], kept[i]) else kept[i]
    {
      HasMember(todo);
      var i :| i in todo;
      PairIsCombine(parse, funcs[i], arriving[i], row[i]);
      var v := CalFuncExprValue(parse, funcs[i], [arriving[i], row[i]]);
      row := row[i := v.value];
      todo := todo - {i};
    }
  }

  lemma RowsForNext(rows: seq<ResultRow>, row: ResultRow, start: nat, mk: string)
    requires start <= |row|
    ensures RowsFor(rows + [row], start, mk) ==
            RowsFor(rows, start, mk) + (if MapKey(row[start..]) == mk then [row] else [])
  {
    var all := rows + [row];
    assert all[..|all| - 1] == rows;
  }

  lemma FoldedAppend(g: seq<ResultRow>, row: ResultRow, funcs: map<nat, Func>, width: nat)
    requires |row| == width && forall i :: 0 <= i < |g| ==> |g[i]| == width
    ensures Folded(g + [row], funcs, width) == if g == [] then row else UpdateFuncs(Folded(g, funcs, width), row, funcs)
  {
    assert (g + [row])[..|g|] == g;
  }

  function Arrived(resultMap: map<string, ResultRow>, row: ResultRow, start: nat, funcs: map<nat, Func>): map<string, ResultRow>
    requires start <= |row| && forall mk :: mk in resultMap ==> |resultMap[mk]| == |row|
  {
    var mk := MapKey(row[start..]);
    resultMap[mk := if mk in resultMap then UpdateFuncs(resultMap[mk], row, funcs) else row]
  }

  /** One entry of the map, after a row that is or is not of its group. */
  lemma ArriveEntry(
      resultMap: map<string, ResultRow>, rows: seq<ResultRow>, row: ResultRow, width: nat, start: nat, funcs: map<nat, Func>, k: string)
    requires WellTyped(rows + [row], width, start, funcs) && WellTyped(rows, width, start, funcs) && |row| == width
    requires (forall mk :: mk in resultMap ==> |resultMap[mk]| == width) && IsEntry(resultMap, rows, width, start, funcs, k)
    ensures IsEntry(Arrived(resultMap, row, start, funcs), rows + [row], width, start, funcs, k)
  {
    RowsForNext(rows, row, start, k);
    RowsForTyped(rows, width, start, funcs, k);
    var g := RowsFor(rows, start, k);
    if MapKey(row[start..]) == k {
      FoldedAppend(g, row, funcs, width);
    } else {
      assert g + [] == g;
    }
  }

  lemma ArriveStep(resultMap: map<string, ResultRow>, rows: seq<ResultRow>, row: ResultRow, width: nat, start: nat, funcs: map<nat, Func>)
    requires WellTyped(rows + [row], width, start, funcs) && WellTyped(rows, width, start, funcs) && |row| == width
    requires IsResultMap(resultMap, rows, width, start, funcs)
    ensures forall mk :: mk in resultMap ==>
              |resultMap[mk]| == width && forall i :: i in funcs ==> Fits(funcs[i], resultMap[mk][i])
    ensures IsResultMap(Arrived(resultMap, row, start, funcs), rows + [row], width, start, funcs)
  {
    forall mk | mk in resultMap
      ensures |resultMap[mk]| == width && forall i :: i in funcs ==> Fits(funcs[i], resultMap[mk][i])
    {
      assert IsEntry(resultMap, rows, width, start, funcs, mk);
      RowsForTyped(rows, width, start, funcs, mk);
      FoldedTyped(RowsFor(rows, start, mk), width, start, funcs);
    }
    forall k
      ensures IsEntry(Arrived(resultMap, row, start, funcs), rows + [row], width, start, funcs, k)
    {
      assert IsEntry(resultMap, rows, width, start, funcs, k);
      ArriveEntry(resultMap, rows, row, width, start, funcs, k);
    }
  }

  /** loadResultWithFuncIntoMap */
  method LoadResultWithFuncIntoMap(parse: ParseFloat, rs: seq<seq<ResultRow>>, width: nat, start: nat, funcs: map<nat, Func>)
    returns (resultMap: map<string, ResultRow>)
    requires WellTyped(Flatten(rs), width, start, funcs)
    ensures IsResultMap(resultMap, Flatten(rs), width, start, funcs)
  {
    resultMap := map[];
    NothingArrived(width, start, funcs);
    for k := 0 to |rs|
      invariant WellTyped(Flatten(rs[..k]), width, start, funcs)
      invariant IsResultMap(resultMap, Flatten(rs[..k]), width, start, funcs)
    {
      ghost var before := Flatten(rs[..k]);
      ArrivalsNext(rs, k, width, start, funcs);
      resultMap := LoadOne(parse, resultMap, rs[k], before, width, start, funcs);
    }
    assert rs[..|rs|] == rs;
  }

  lemma NothingArrived(width: nat, start: nat, funcs: map<nat, Func>)
    requires start <= width && forall i :: i in funcs ==> i < start
    ensures WellTyped([], width, start, funcs) && IsResultMap(map[], [], width, start, funcs)
  {
  }

  lemma ArrivalsNext(rs: seq<seq<ResultRow>>, k: nat, width: nat, start: nat, funcs: map<nat, Func>)
    requires k < |rs| && WellTyped(Flatten(rs), width, start, funcs)
    ensures Flatten(rs[..k + 1]) == Flatten(rs[..k]) + rs[k]
    ensures WellTyped(Flatten(rs[..k + 1]), width, start, funcs)
  {
    FlattenNext(rs, k);
    ArrivalsPrefix(rs, k + 1);
    TypedPrefix(Flatten(rs), |Flatten(rs[..k + 1])|, width, start, funcs);
  }

  lemma TypedPrefix(rows: seq<ResultRow>, n: nat, width: nat, start: nat, funcs: map<nat, Func>)
    requires n <= |rows| && WellTyped(rows, width, start, funcs)
    ensures WellTyped(rows[..n], width, start, funcs)
  {
  }

  /** The answer of one shard. */
  method LoadOne(parse: ParseFloat, loaded: map<string, ResultRow>, rows: seq<ResultRow>, ghost before: seq<ResultRow>, width: nat, start: nat, funcs: map<nat, Func>)
    returns (resultMap: map<string, ResultRow>)
    requires WellTyped(before + rows, width, start, funcs) && WellTyped(before, width, start, funcs)
    requires IsResultMap(loaded, before, width, start, funcs)
    ensures IsResultMap(resultMap, before + rows, width, start, funcs)
  {
    resultMap := loaded;
    assert before + rows[..0] == before;
    for i := 0 to |rows|
      invariant WellTyped(before + rows[..i], width, start, funcs)
      invariant IsResultMap(resultMap, before + rows[..i], width, start, funcs)
    {
      var row := rows[i];
      assert (before + rows)[|before| + i] == row;
      assert before + rows[..i + 1] == before + rows[..i] + [row] == (before + rows)[..|before| + i + 1];
      TypedPrefix(before + rows, |before| + i + 1, width, start, funcs);
      ArriveStep(resultMap, before + rows[..i], row, width, start, funcs);
      var mk := GenerateMapKey(row[start..]);
      if mk in resultMap {
        assert forall c :: c in funcs ==> Fits(funcs[c], (before + rows)[|before| + i][c]);
        var merged := CombineRow(parse, resultMap[mk], row, funcs);
        resultMap := resultMap[mk := merged];
      } else {
        resultMap := resultMap[mk := row];
      }
    }
    assert rows[..|rows|] == rows;
  }

  lemma {:induction false} ArrivalsPrefix(rs: seq<seq<ResultRow>>, k: nat)
    requires k <= |rs|
    ensures Flatten(rs[..k]) <= Flatten(rs)
    decreases |rs|
  {
    if k == |rs| {
      assert rs[..k] == rs;
    } else {
      var n := |rs| - 1;
      ArrivalsPrefix(rs[..n], k);
      assert rs[..n][..k] == rs[..k];
    }
  }

  // ---------------------------------------------------------------- the merge is a homomorphism

  /** A row of the logical table: its group, and for each aggregate column the argument it supplies. */
  datatype BaseRow = BaseRow(group: seq<Value>, args: map<nat, Option<int>>)

  function Arg(b: BaseRow, i: nat): Option<int> {
    if i in b.args then b.args[i] else None
  }

  function Column(rows: seq<BaseRow>, i: nat): seq<Option<int>> {
    seq(|rows|, k requires 0 <= k < |rows| => Arg(rows[k], i))
  }

  function OfGroup(rows: seq<BaseRow>, g: seq<Value>): seq<BaseRow> {
    if rows == [] then []
    else
      var n := |rows| - 1;
      OfGroup(rows[..n], g) + (if rows[n].group == g then [rows[n]] else [])
  }

  /** `row` is a shard's answer for the base rows `source`, all of one group. */
  ghost predicate Represents(row: ResultRow, source: seq<BaseRow>, start: nat, funcs: map<nat, Func>) {
    && start <= |row| && source != []
    && (forall k :: 0 <= k < |source| ==> source[k].group == row[start..])
    && (forall i :: i in funcs ==> i < start && row[i] == Aggregate(funcs[i], StatsOf(Column(source, i))))
  }

  ghost predicate RepresentAll(rows: seq<ResultRow>, sources: seq<seq<BaseRow>>, start: nat, funcs: map<nat, Func>) {
    |rows| == |sources| && forall k :: 0 <= k < |rows| ==> Represents(rows[k], sources[k], start, funcs)
  }

  lemma ColumnAppend(a: seq<BaseRow>, b: seq<BaseRow>, i: nat)
    ensures Column(a + b, i) == Column(a, i) + Column(b, i)
  {
  }

  lemma {:induction false} FoldedAggregate(
      rows: seq<ResultRow>, sources: seq<seq<BaseRow>>, width: nat, start: nat, funcs: map<nat, Func>, i: nat)
    requires rows != [] && WellTyped(rows, width, start, funcs) && RepresentAll(rows, sources, start, funcs) && i in funcs
    ensures Folded(rows, funcs, width)[i] == Merged(funcs[i], StatsOf(Column(Flatten(sources), i)), |rows|)
  {
    var n := |rows| - 1;
    assert Represents(rows[n], sources[n], start, funcs);
    var kept, arriving := StatsOf(Column(Flatten(sources[..n]), i)), StatsOf(Column(sources[n], i));
    FlatStats(sources, i);
    if n == 0 {
      NoStats(sources[..0], i);
      MergeAssociative(arriving, EMPTY, EMPTY);
    } else {
      FoldedAggregate(rows[..n], sources[..n], width, start, funcs, i);
      FoldedNext(rows, funcs, width, i);
      CombineIsMerge(funcs[i], arriving, kept, n);
    }
  }

  lemma NoStats(sources: seq<seq<BaseRow>>, i: nat)
    requires sources == []
    ensures StatsOf(Column(Flatten(sources), i)) == EMPTY
  {
    assert Column(Flatten(sources), i) == [];
  }

  lemma FoldedNext(rows: seq<ResultRow>, funcs: map<nat, Func>, width: nat, i: nat)
    requires |rows| > 1 && (forall k :: 0 <= k < |rows| ==> |rows[k]| == width) && i in funcs && i < width
    ensures Folded(rows, funcs, width)[i] ==
            Combine(funcs[i], rows[|rows| - 1][i], Folded(rows[..|rows| - 1], funcs, width)[i])
  {
  }

  lemma FlatStats(sources: seq<seq<BaseRow>>, i: nat)
    requires sources != []
    ensures var n := |sources| - 1;
            StatsOf(Column(Flatten(sources), i)) ==
            Merge(StatsOf(Column(Flatten(sources[..n]), i)), StatsOf(Column(sources[n], i)))
  {
    var n := |sources| - 1;
    ColumnAppend(Flatten(sources[..n]), sources[n], i);
    StatsAppend(Column(Flatten(sources[..n]), i), Column(sources[n], i));
  }

  /** The sources of the rows that `RowsFor` picks. */
  function SourcesFor(rows: seq<ResultRow>, sources: seq<seq<BaseRow>>, start: nat, mk: string): seq<seq<BaseRow>>
    requires |rows| == |sources|
  {
    if rows == [] then []
    else
      var n := |rows| - 1;
      SourcesFor(rows[..n], sources[..n], start, mk) +
      (if start <= |rows[n]| && MapKey(rows[n][start..]) == mk then [sources[n]] else [])
  }

  lemma RepresentNext(
      rows: seq<ResultRow>, sources: seq<seq<BaseRow>>, row: ResultRow, source: seq<BaseRow>, start: nat, funcs: map<nat, Func>)
    requires RepresentAll(rows, sources, start, funcs) && Represents(row, source, start, funcs)
    ensures RepresentAll(rows + [row], sources + [source], start, funcs)
  {
  }

  lemma {:induction false} SourcesRepresent(rows: seq<ResultRow>, sources: seq<seq<BaseRow>>, start: nat, funcs: map<nat, Func>, mk: string)
    requires RepresentAll(rows, sources, start, funcs)
    ensures RepresentAll(RowsFor(rows, start, mk), SourcesFor(rows, sources, start, mk), start, funcs)
  {
    if rows != [] {
      var n := |rows| - 1;
      SourcesRepresent(rows[..n], sources[..n], start, funcs, mk);
      assert Represents(rows[n], sources[n], start, funcs);
      RepresentNext(RowsFor(rows[..n], start, mk), SourcesFor(rows[..n], sources[..n], start, mk), rows[n], sources[n], start, funcs);
    }
  }

  lemma {:induction false} OfGroupAppend(a: seq<BaseRow>, b: seq<BaseRow>, g: seq<Value>)
    ensures OfGroup(a + b, g) == OfGroup(a, g) + OfGroup(b, g)
  {
    if b == [] {
      assert a + b == a;
    } else {
      var n := |b| - 1;
      OfGroupAppend(a, b[..n], g);
      assert (a + b)[..|a + b| - 1] == a + b[..n];
    }
  }

  lemma {:induction false} OfOneGroup(rows: seq<BaseRow>, h: seq<Value>, g: seq<Value>)
    requires forall k :: 0 <= k < |rows| ==> rows[k].group == h
    ensures OfGroup(rows, g) == if h == g then rows else []
  {
    if rows != [] {
      OfOneGroup(rows[..|rows| - 1], h, g);
      assert rows == rows[..|rows| - 1] + [rows[|rows| - 1]];
    }
  }

  /** The rows folded into a group are exactly the rows of that group. */
  lemma {:induction false} SourcesAreGroup(rows: seq<ResultRow>, sources: seq<seq<BaseRow>>, start: nat, funcs: map<nat, Func>, types: seq<ColumnType>, g: seq<Value>)
    requires RepresentAll(rows, sources, start, funcs) && Typed(g, types)
    requires forall k :: 0 <= k < |rows| ==> Typed(rows[k][start..], types)
    ensures Flatten(SourcesFor(rows, sources, start, MapKey(g))) == OfGroup(Flatten(sources), g)
  {
    if rows != [] {
      var n := |rows| - 1;
      SourcesAreGroup(rows[..n], sources[..n], start, funcs, types, g);
      LastSource(rows, sources, start, funcs, types, g);
      OfGroupAppend(Flatten(sources[..n]), sources[n], g);
    }
  }

  lemma LastSource(rows: seq<ResultRow>, sources: seq<seq<BaseRow>>, start: nat, funcs: map<nat, Func>, types: seq<ColumnType>, g: seq<Value>)
    requires RepresentAll(rows, sources, start, funcs) && Typed(g, types) && rows != []
    requires Typed(rows[|rows| - 1][start..], types)
    ensures var n := |rows| - 1;
            Flatten(SourcesFor(rows, sources, start, MapKey(g))) ==
            Flatten(SourcesFor(rows[..n], sources[..n], start, MapKey(g))) + OfGroup(sources[n], g)
  {
    var n := |rows| - 1;
    var picked := SourcesFor(rows[..n], sources[..n], start, MapKey(g));
    var h := rows[n][start..];
    assert Represents(rows[n], sources[n], start, funcs);
    OfOneGroup(sources[n], h, g);
    if MapKey(h) == MapKey(g) {
      MapKeyInjective(h, g, types);
      assert (picked + [sources[n]])[..|picked|] == picked;
    } else {
      assert SourcesFor(rows, sources, start, MapKey(g)) == picked;
    }
  }

  lemma {:induction false} FoldedGroup(rows: seq<ResultRow>, width: nat, start: nat, funcs: map<nat, Func>)
    requires rows != [] && WellTyped(rows, width, start, funcs)
    ensures Folded(rows, funcs, width)[start..] == rows[0][start..]
  {
    if |rows| > 1 {
      FoldedGroup(rows[..|rows| - 1], width, start, funcs);
    }
  }

  lemma CountLast(rows: seq<BaseRow>, last: BaseRow, b: BaseRow)
    ensures multiset(rows + [last])[b] == multiset(rows)[b] + if b == last then 1 else 0
  {
  }

  lemma {:induction false} GroupCount(rows: seq<BaseRow>, g: seq<Value>, b: BaseRow)
    ensures multiset(OfGroup(rows, g))[b] == if b.group == g then multiset(rows)[b] else 0
  {
    if rows != [] {
      var n := |rows| - 1;
      GroupCount(rows[..n], g, b);
      CountLast(rows[..n], rows[n], b);
      CountLast(OfGroup(rows[..n], g), rows[n], b);
      assert rows == rows[..n] + [rows[n]];
    }
  }

  lemma GroupPermuted(a: seq<BaseRow>, b: seq<BaseRow>, g: seq<Value>, i: nat)
    requires multiset(a) == multiset(b)
    ensures StatsOf(Column(OfGroup(a, g), i)) == StatsOf(Column(OfGroup(b, g), i))
    ensures OfGroup(a, g) == [] <==> OfGroup(b, g) == []
  {
    forall r
      ensures multiset(OfGroup(a, g))[r] == multiset(OfGroup(b, g))[r]
    {
      GroupCount(a, g, r);
      GroupCount(b, g, r);
    }
    assert multiset(OfGroup(a, g)) == multiset(OfGroup(b, g));
    ColumnPermuted(OfGroup(a, g), OfGroup(b, g), i);
    StatsPermuted(Column(OfGroup(a, g), i), Column(OfGroup(b, g), i));
    assert |OfGroup(a, g)| == |multiset(OfGroup(a, g))| == |multiset(OfGroup(b, g))| == |OfGroup(b, g)|;
  }

  lemma {:induction false} ColumnPermuted(a: seq<BaseRow>, b: seq<BaseRow>, i: nat)
    requires multiset(a) == multiset(b)
    ensures multiset(Column(a, i)) == multiset(Column(b, i))
  {
    if a == [] {
      assert |b| == |multiset(b)| == |multiset(a)| == 0;
    } else {
      var n := |a| - 1;
      var x := a[n];
      assert x in multiset(b);
      var k :| 0 <= k < |b| && b[k] == x;
      var front, back := b[..k], b[k + 1..];
      assert a == a[..n] + [x] && b == front + [x] + back;
      RemoveFromBoth(a[..n], front, x, back);
      ColumnPermuted(a[..n], front + back, i);
      ColumnAppend(front, back, i);
      ColumnAppend(front + [x], back, i);
      ColumnAppend(front, [x], i);
      ColumnAppend(a[..n], [x], i);
    }
  }

  /** GROUP BY merge is a homomorphism. Let the answers of the shards, in whatever order they arrive,
      together represent the rows `all` of the logical table, grouped by columns whose map keys tell
      groups apart. Then there is one merged row for each group, it carries the group's columns, and its
      aggregate columns are the aggregates over all rows of the group (a sum without any value being 0.0
      when several shards contribute to it). */
  lemma GroupByMerge(
      resultMap: map<string, ResultRow>, arrivals: seq<ResultRow>, sources: seq<seq<BaseRow>>, all: seq<BaseRow>,
      width: nat, start: nat, funcs: map<nat, Func>, types: seq<ColumnType>, g: seq<Value>)
    requires WellTyped(arrivals, width, start, funcs) && IsResultMap(resultMap, arrivals, width, start, funcs)
    requires RepresentAll(arrivals, sources, start, funcs) && multiset(Flatten(sources)) == multiset(all)
    requires Typed(g, types) && forall k :: 0 <= k < |arrivals| ==> Typed(arrivals[k][start..], types)
    ensures MapKey(g) in resultMap <==> OfGroup(all, g) != []
    ensures MapKey(g) in resultMap ==>
              && |resultMap[MapKey(g)]| == width && resultMap[MapKey(g)][start..] == g
              && forall i :: i in funcs ==>
                   resultMap[MapKey(g)][i] ==
                   Merged(funcs[i], StatsOf(Column(OfGroup(all, g), i)), |RowsFor(arrivals, start, MapKey(g))|)
  {
    var mk := MapKey(g);
    var rows, mine := RowsFor(arrivals, start, mk), SourcesFor(arrivals, sources, start, mk);
    RowsForTyped(arrivals, width, start, funcs, mk);
    assert IsEntry(resultMap, arrivals, width, start, funcs, mk);
    SourcesRepresent(arrivals, sources, start, funcs, mk);
    SourcesAreGroup(arrivals, sources, start, funcs, types, g);
    GroupPermuted(Flatten(sources), all, g, 0);
    if rows == [] {
      assert mine == [];
    } else {
      FlatNonEmpty(mine, rows, start, funcs);
      FoldedGroup(rows, width, start, funcs);
      RowsForIn(arrivals, start, mk, rows[0]);
      MapKeyInjective(rows[0][start..], g, types);
      forall i | i in funcs
        ensures resultMap[mk][i] == Merged(funcs[i], StatsOf(Column(OfGroup(all, g), i)), |rows|)
      {
        FoldedAggregate(rows, mine, width, start, funcs, i);
        GroupPermuted(Flatten(sources), all, g, i);
      }
    }
  }

  lemma FlatNonEmpty(sources: seq<seq<BaseRow>>, rows: seq<ResultRow>, start: nat, funcs: map<nat, Func>)
    requires RepresentAll(rows, sources, start, funcs) && rows != []
    ensures Flatten(sources) != []
  {
    var n := |rows| - 1;
    assert Represents(rows[n], sources[n], start, funcs);
  }

  // ---------------------------------------------------------------- the result for the client

  /** The rows of the map, in the order in which it is walked, without their group columns. */
  predicate Delivers(resultMap: map<string, ResultRow>, start: nat, keys: seq<string>, rows: seq<ResultRow>) {
    && (forall i, j :: 0 <= i < j < |keys| ==> keys[i] != keys[j])
    && (forall i :: 0 <= i < |keys| ==> keys[i] in resultMap) && (forall mk :: mk in resultMap ==> mk in keys)
    && |rows| == |keys|
    && forall i :: 0 <= i < |rows| ==> start <= |resultMap[keys[i]]| && rows[i] == resultMap[keys[i]][..start]
  }

  lemma SomeKey(todo: set<string>)
    requires todo != {}
    ensures exists mk :: mk in todo
  {
  }

  /** buildSelectGroupByResult after the merge: the map becomes a list, and then each row is cut. */
  method BuildGroupByResult(resultMap: map<string, ResultRow>, start: nat) returns (keys: seq<string>, rows: seq<ResultRow>)
    requires forall mk :: mk in resultMap ==> start <= |resultMap[mk]|
    ensures Delivers(resultMap, start, keys, rows)
  {
    keys, rows := [], [];
    var todo := resultMap.Keys;
    while todo != {}
      invariant forall mk :: mk in todo ==> mk in resultMap && mk !in keys
      invariant forall mk :: mk in resultMap ==> mk in todo || mk in keys
      invariant forall i, j :: 0 <= i < j < |keys| ==> keys[i] != keys[j]
      invariant |rows| == |keys| && forall i :: 0 <= i < |keys| ==> keys[i] in resultMap && rows[i] == resultMap[keys[i]]
    {
      SomeKey(todo);
      var mk :| mk in todo;
      keys, rows := keys + [mk], rows + [resultMap[mk]];
      todo := todo - {mk};
    }
    for i := 0 to |rows|
      invariant |rows| == |keys|
      invariant forall j :: 0 <= j < |keys| ==>
                  rows[j] == if j < i then resultMap[keys[j]][..start] else resultMap[keys[j]]
    {
      rows := rows[i := rows[i][..start]];
    }
  }

  /** Every delivered row stands for a group. */
  lemma DeliveredGroup(
      resultMap: map<string, ResultRow>, arrivals: seq<ResultRow>, width: nat, start: nat, funcs: map<nat, Func>,
      types: seq<ColumnType>, mk: string) returns (g: seq<Value>)
    requires WellTyped(arrivals, width, start, funcs) && IsResultMap(resultMap, arrivals, width, start, funcs)
    requires forall k :: 0 <= k < |arrivals| ==> Typed(arrivals[k][start..], types)
    requires mk in resultMap
    ensures Typed(g, types) && MapKey(g) == mk
  {
    assert IsEntry(resultMap, arrivals, width, start, funcs, mk);
    var row := RowsFor(arrivals, start, mk)[0];
    RowsForIn(arrivals, start, mk, row);
    g := row[start..];
  }
}
