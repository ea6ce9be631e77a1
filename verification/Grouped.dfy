/** A sharded SELECT with GROUP BY: the merged rows are the groups of the logical table
    (proxy/server/conn_select.go, buildSelectGroupByResult). */
module Grouped {
  import opened Prelude
  import opened Rules
  import opened Where
  import opened Select
  import opened GroupKeys
  import opened Aggregates
  import opened GroupBy

  /** What each backend sends unless it refuses: rows standing for the groups of the rows its statement
      selects. `base` gives the group and the aggregated columns of a row. */
  ghost predicate BackendGroups(
    m: Meaning, rule: Rule, st: Statement, shards: Contents, tables: seq<int>, base: Row -> BaseRow,
    answers: seq<seq<ResultRow>>, sources: seq<seq<seq<BaseRow>>>, start: nat, funcs: map<nat, Func>)
  {
    && |answers| == |tables| && |sources| == |tables|
    && forall i :: 0 <= i < |tables| && Refusal(rule, shards, SqlFor(rule, st, tables[i])).None? ==>
         && RepresentAll(answers[i], sources[i], start, funcs)
         && IsGrouping(m, WhereFor(rule, st.where, tables[i]), RowsOf(shards, tables[i]), base, sources[i])
  }

  /** The sources are the selected rows, put into groups. */
  ghost predicate IsGrouping(m: Meaning, where: Pred, rows: seq<Row>, base: Row -> BaseRow, sources: seq<seq<BaseRow>>) {
    multiset(Flatten(sources)) == multiset(Mapping(base, Filter(m, where, rows)))
  }

  lemma RepresentAppend(
      a: seq<ResultRow>, a': seq<seq<BaseRow>>, b: seq<ResultRow>, b': seq<seq<BaseRow>>, start: nat, funcs: map<nat, Func>)
    requires RepresentAll(a, a', start, funcs) && RepresentAll(b, b', start, funcs)
    ensures RepresentAll(a + b, a' + b', start, funcs)
  {
  }

  lemma {:induction false} GroupsGathered(
      m: Meaning, rule: Rule, st: Statement, shards: Contents, tables: seq<int>, base: Row -> BaseRow,
      answers: seq<seq<ResultRow>>, sources: seq<seq<seq<BaseRow>>>, start: nat, funcs: map<nat, Func>)
    requires BackendGroups(m, rule, st, shards, tables, base, answers, sources, start, funcs)
    requires Unrefused(rule, st, shards, tables)
    ensures RepresentAll(Flatten(answers), Flatten(sources), start, funcs)
    ensures multiset(Flatten(Flatten(sources))) == multiset(Mapping(base, Gathered(m, rule, st.where, shards, tables)))
  {
    if tables != [] {
      var n, p := |tables| - 1, st.where;
      GroupsGathered(m, rule, st, shards, tables[..n], base, answers[..n], sources[..n], start, funcs);
      RepresentAppend(Flatten(answers[..n]), Flatten(sources[..n]), answers[n], sources[n], start, funcs);
      FlattenAppend(Flatten(sources[..n]), sources[n]);
      MappingAppend(base, Gathered(m, rule, p, shards, tables[..n]),
                    Filter(m, WhereFor(rule, p, tables[n]), RowsOf(shards, tables[n])));
      assert IsGrouping(m, WhereFor(rule, p, tables[n]), RowsOf(shards, tables[n]), base, sources[n]);
    }
  }

  function GroupReplies(rule: Rule, st: Statement, shards: Contents, tables: seq<int>, answers: seq<seq<ResultRow>>)
    : seq<Result<seq<ResultRow>>>
    requires |answers| == |tables|
  {
    seq(|tables|, i requires 0 <= i < |tables| =>
      match Refusal(rule, shards, SqlFor(rule, st, tables[i]))
      case Some(e) => Err(e)
      case None => Ok(answers[i]))
  }

  /** The rows that arrive, unless nothing is routed to or a backend refuses. */
  function Arriving(rule: Rule, st: Statement, shards: Contents, tables: seq<int>, answers: seq<seq<ResultRow>>)
    : Result<seq<ResultRow>>
    requires |answers| == |tables|
  {
    if tables == [] then Err(NoCriteria) else Collect(GroupReplies(rule, st, shards, tables, answers))
  }

  lemma ArrivingWhen(
      m: Meaning, rule: Rule, st: Statement, shards: Contents, tables: seq<int>, answers: seq<seq<ResultRow>>)
    requires Query(m, rule, st.where, shards, tables) && PlannedFrom(rule, st) && |answers| == |tables|
    ensures Arriving(rule, st, shards, tables, answers).Ok? <==> Answerable(rule, st)
    ensures Answerable(rule, st) ==>
              Unrefused(rule, st, shards, tables) && Arriving(rule, st, shards, tables, answers) == Ok(Flatten(answers))
  {
    if tables != [] {
      var replies := GroupReplies(rule, st, shards, tables, answers);
      NothingRefused(m, rule, st, shards, tables);
      UnrefusedAll(rule, st, shards, tables);
      CollectOk(replies);
      assert forall i :: 0 <= i < |tables| ==>
        (replies[i].Ok? <==> Refusal(rule, shards, SqlFor(rule, st, tables[i])).None?);
      if Unrefused(rule, st, shards, tables) {
        CollectConcat(replies, answers);
      }
    }
  }

  /** The map the proxy folds the arriving rows into, and what it makes of it for the client. */
  ghost predicate MergedInto(
    arrivals: seq<ResultRow>, resultMap: map<string, ResultRow>, keys: seq<string>, rows: seq<ResultRow>,
    width: nat, start: nat, funcs: map<nat, Func>, types: seq<ColumnType>)
  {
    && WellTyped(arrivals, width, start, funcs) && IsResultMap(resultMap, arrivals, width, start, funcs)
    && (forall k :: 0 <= k < |arrivals| ==> Typed(arrivals[k][start..], types))
    && Delivers(resultMap, start, keys, rows)
  }

  /** Row `row` has the aggregates over the rows of `all` in group `g`, in `start` columns. */
  ghost predicate Aggregated(
    row: ResultRow, all: seq<BaseRow>, g: seq<Value>, arrivals: seq<ResultRow>, start: nat, funcs: map<nat, Func>)
  {
    && |row| == start
    && forall i :: i in funcs ==>
         && i < start
         && row[i] == Merged(funcs[i], StatsOf(Column(OfGroup(all, g), i)), |RowsFor(arrivals, start, MapKey(g))|)
  }

  /** Group `g` is delivered if it has rows, with its aggregates. */
  ghost predicate GroupDelivered(
    keys: seq<string>, rows: seq<ResultRow>, all: seq<BaseRow>, g: seq<Value>, arrivals: seq<ResultRow>, start: nat, funcs: map<nat, Func>)
    requires |keys| == |rows|
  {
    && (MapKey(g) in keys <==> OfGroup(all, g) != [])
    && forall j :: 0 <= j < |rows| && keys[j] == MapKey(g) ==> Aggregated(rows[j], all, g, arrivals, start, funcs)
  }

  lemma KeysOfMap(resultMap: map<string, ResultRow>, start: nat, keys: seq<string>, rows: seq<ResultRow>, mk: string)
    requires Delivers(resultMap, start, keys, rows)
    ensures mk in keys <==> mk in resultMap
  {
  }

  lemma MergedGroup(
      arrivals: seq<ResultRow>, sources: seq<seq<BaseRow>>, all: seq<BaseRow>, resultMap: map<string, ResultRow>,
      keys: seq<string>, rows: seq<ResultRow>, width: nat, start: nat, funcs: map<nat, Func>, types: seq<ColumnType>, g: seq<Value>)
    requires MergedInto(arrivals, resultMap, keys, rows, width, start, funcs, types) && Typed(g, types)
    requires RepresentAll(arrivals, sources, start, funcs) && multiset(Flatten(sources)) == multiset(all)
    ensures GroupDelivered(keys, rows, all, g, arrivals, start, funcs)
  {
    var mk := MapKey(g);
    GroupByMerge(resultMap, arrivals, sources, all, width, start, funcs, types, g);
    KeysOfMap(resultMap, start, keys, rows, mk);
    if mk in resultMap {
      CutRow(resultMap[mk], resultMap[mk][..start], all, g, arrivals, start, funcs);
    }
  }

  lemma CutRow(
      full: ResultRow, cut: ResultRow, all: seq<BaseRow>, g: seq<Value>, arrivals: seq<ResultRow>, start: nat, funcs: map<nat, Func>)
    requires start <= |full| && cut == full[..start] && forall i :: i in funcs ==> i < start
    requires forall i :: i in funcs ==>
               full[i] == Merged(funcs[i], StatsOf(Column(OfGroup(all, g), i)), |RowsFor(arrivals, start, MapKey(g))|)
    ensures Aggregated(cut, all, g, arrivals, start, funcs)
  {
  }

  /** Every key delivered is that of a group. */
  ghost predicate KeysOfGroups(keys: seq<string>, types: seq<ColumnType>) {
    && (forall i, j :: 0 <= i < j < |keys| ==> keys[i] != keys[j])
    && forall j :: 0 <= j < |keys| ==> KeyOfGroup(keys[j], types)
  }

  ghost predicate KeyOfGroup(mk: string, types: seq<ColumnType>) {
    exists g :: Typed(g, types) && MapKey(g) == mk
  }

  lemma AllGroups(
      arrivals: seq<ResultRow>, resultMap: map<string, ResultRow>, keys: seq<string>, rows: seq<ResultRow>,
      width: nat, start: nat, funcs: map<nat, Func>, types: seq<ColumnType>)
    requires MergedInto(arrivals, resultMap, keys, rows, width, start, funcs, types)
    ensures KeysOfGroups(keys, types)
  {
    forall j | 0 <= j < |keys|
      ensures KeyOfGroup(keys[j], types)
    {
      var g := DeliveredGroup(resultMap, arrivals, width, start, funcs, types, keys[j]);
    }
  }

  /** A sharded SELECT with GROUP BY is answered if and only if it is answerable. Then the client gets one
      row for each group of the selected rows of the logical table, without the group's columns and with
      the aggregates over all its rows; and no others. `keys` tells which row is which group's. */
  lemma ShardedGroupBy(
      m: Meaning, rule: Rule, st: Statement, shards: Contents, tables: seq<int>, base: Row -> BaseRow,
      answers: seq<seq<ResultRow>>, sources: seq<seq<seq<BaseRow>>>, resultMap: map<string, ResultRow>,
      keys: seq<string>, rows: seq<ResultRow>, width: nat, start: nat, funcs: map<nat, Func>, types: seq<ColumnType>)
    requires Query(m, rule, st.where, shards, tables) && PlannedFrom(rule, st)
    requires BackendGroups(m, rule, st, shards, tables, base, answers, sources, start, funcs)
    requires var arrivals := Arriving(rule, st, shards, tables, answers);
             arrivals.Ok? ==> MergedInto(arrivals.value, resultMap, keys, rows, width, start, funcs, types)
    ensures Arriving(rule, st, shards, tables, answers).Ok? <==> Answerable(rule, st)
    ensures Answerable(rule, st) ==>
              var all := Mapping(base, Filter(m, st.where, Logical(shards, rule.subTables)));
              && |rows| == |keys| && KeysOfGroups(keys, types)
              && forall g :: Typed(g, types) ==> GroupDelivered(keys, rows, all, g, Flatten(answers), start, funcs)
  {
    ArrivingWhen(m, rule, st, shards, tables, answers);
    if Answerable(rule, st) {
      var all := Mapping(base, Filter(m, st.where, Logical(shards, rule.subTables)));
      SourcesGathered(m, rule, st, shards, tables, base, answers, sources, start, funcs);
      AllGroups(Flatten(answers), resultMap, keys, rows, width, start, funcs, types);
      forall g | Typed(g, types)
        ensures GroupDelivered(keys, rows, all, g, Flatten(answers), start, funcs)
      {
        MergedGroup(Flatten(answers), Flatten(sources), all, resultMap, keys, rows, width, start, funcs, types, g);
      }
    }
  }

  lemma SourcesGathered(
      m: Meaning, rule: Rule, st: Statement, shards: Contents, tables: seq<int>, base: Row -> BaseRow,
      answers: seq<seq<ResultRow>>, sources: seq<seq<seq<BaseRow>>>, start: nat, funcs: map<nat, Func>)
    requires Query(m, rule, st.where, shards, tables) && Unrefused(rule, st, shards, tables)
    requires BackendGroups(m, rule, st, shards, tables, base, answers, sources, start, funcs)
    ensures RepresentAll(Flatten(answers), Flatten(sources), start, funcs)
    ensures multiset(Flatten(Flatten(sources))) == multiset(Mapping(base, Filter(m, st.where, Logical(shards, rule.subTables))))
  {
    GroupsGathered(m, rule, st, shards, tables, base, answers, sources, start, funcs);
    GatheredIsSelected(m, rule, st.where, shards, tables);
    MappingPermuted(base, Gathered(m, rule, st.where, shards, tables), Filter(m, st.where, Logical(shards, rule.subTables)));
  }
}
