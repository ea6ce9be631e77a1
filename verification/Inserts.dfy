/** INSERT ... VALUES: every row goes to the sub-table of its key (proxy/router/planbuilder.go,
    getInsertTableIndex; proxy/router/router.go, generateInsertSql). */
module Inserts {
  import opened Prelude
  import opened Text
  import opened SortedLists
  import opened Shards
  import opened Rules
  import opened Where
  import opened Routing
  import opened Select
  import opened Rewriter
  import opened Planning
  import opened Parts

  /** The rows of a statement, and where each of them goes: a sub-table or an error. */
  type Values = seq<seq<Val>>
  type Placing = seq<Val> -> Result<int>

  /** getInsertTableIndex for one row. */
  function Target(rule: Rule, keyIndex: nat, row: seq<Val>): Result<int> {
    if |row| < keyIndex + 1 then Err(ColsLenNotMatch) else IndexOf(rule.shard, row[keyIndex])
  }

  function PlacingOf(rule: Rule, keyIndex: nat): Placing {
    row => Target(rule, keyIndex, row)
  }

  /** The rows that go to sub-table `t`, in their order. */
  function RowsFor(to: Placing, vals: Values, t: int): Values {
    if vals == [] then []
    else
      var n := |vals| - 1;
      RowsFor(to, vals[..n], t) + (if to(vals[n]) == Ok(t) then [vals[n]] else [])
  }

  predicate SomeTarget(to: Placing, vals: Values, t: int) {
    exists i :: 0 <= i < |vals| && to(vals[i]) == Ok(t)
  }

  predicate AllTargets(to: Placing, vals: Values) {
    forall i :: 0 <= i < |vals| ==> to(vals[i]).Ok?
  }

  /** The statement stops with the error of the first row that has one. */
  ghost predicate StopsWith(to: Placing, vals: Values, e: Failure) {
    exists i :: 0 <= i < |vals| && to(vals[i]) == Err(e) && AllTargets(to, vals[..i])
  }

  /** `rows` holds the parts of the VALUES list, sub-table by sub-table. */
  ghost predicate IsParts(to: Placing, vals: Values, rows: map<int, Values>) {
    Holds(rows, t => RowsFor(to, vals, t))
  }

  lemma PartsStep(to: Placing, vals: Values, i: nat, t: int, rows: map<int, Values>)
    requires i < |vals| && to(vals[i]) == Ok(t)
    requires IsParts(to, vals[..i], rows)
    ensures IsParts(to, vals[..i + 1], rows[t := PartAt(rows, t) + [vals[i]]])
  {
    forall u
      ensures RowsFor(to, vals[..i + 1], u) == RowsFor(to, vals[..i], u) + (if u == t then [vals[i]] else [])
    {
      assert vals[..i + 1][..i] == vals[..i];
    }
    HoldsNext(rows, u => RowsFor(to, vals[..i], u), u => RowsFor(to, vals[..i + 1], u), t, vals[i]);
  }

  lemma {:induction false} NoRows(to: Placing, vals: Values, t: int)
    ensures RowsFor(to, vals, t) == [] <==> !SomeTarget(to, vals, t)
  {
    if vals != [] {
      var n := |vals| - 1;
      NoRows(to, vals[..n], t);
      assert forall j :: 0 <= j < n ==> vals[j] == vals[..n][j];
    }
  }

  lemma TargetsNext(to: Placing, vals: Values, i: nat)
    requires i < |vals| && AllTargets(to, vals[..i])
    ensures to(vals[i]).Ok? ==> AllTargets(to, vals[..i + 1])
    ensures to(vals[i]).Err? ==> StopsWith(to, vals, to(vals[i]).error)
  {
    assert vals[..i + 1] == vals[..i] + [vals[i]];
  }

  lemma NoParts(to: Placing)
    ensures IsParts(to, [], map[])
  {
  }

  /** The loop of getInsertTableIndex: the target of every row, and the rows by target. */
  method CutUp(rule: Rule, keyIndex: nat, vals: Values) returns (r: Result<(seq<int>, map<int, Values>)>)
    ensures r.Err? ==> StopsWith(PlacingOf(rule, keyIndex), vals, r.error)
    ensures r.Ok? ==>
              && AllTargets(PlacingOf(rule, keyIndex), vals)
              && (forall t :: t in r.value.0 <==> t in r.value.1)
              && IsParts(PlacingOf(rule, keyIndex), vals, r.value.1)
  {
    var tableIndexs: seq<int>, rowsToTindex: map<int, Values> := [], map[];
    ghost var to := PlacingOf(rule, keyIndex);
    NoParts(to);
    for i := 0 to |vals|
      invariant AllTargets(to, vals[..i]) && IsParts(to, vals[..i], rowsToTindex)
      invariant forall t :: t in tableIndexs <==> t in rowsToTindex
    {
      assert to(vals[i]) == Target(rule, keyIndex, vals[i]);
      TargetsNext(to, vals, i);
      if |vals[i]| < keyIndex + 1 {
        return Err(ColsLenNotMatch);
      }
      var found := IndexOf(rule.shard, vals[i][keyIndex]);
      if found.Err? {
        return Err(found.error);
      }
      PartsStep(to, vals, i, found.value, rowsToTindex);
      tableIndexs := tableIndexs + [found.value];
      rowsToTindex := rowsToTindex[found.value := PartAt(rowsToTindex, found.value) + [vals[i]]];
    }
    assert vals[..|vals|] == vals;
    return Ok((tableIndexs, rowsToTindex));
  }

  /** The statement for one sub-table. */
  datatype InsertSql = InsertSql(table: int, rows: Values)

  class InsertPlan {
    const rule: Rule
    var KeyIndex: nat
    var Rows: map<int, Values>
    var RouteTableIndexs: seq<int>
    var RouteNodeIndexs: seq<int>

    constructor (rule: Rule)
      ensures this.rule == rule && Rows == map[]
    {
      this.rule := rule;
      KeyIndex, Rows, RouteTableIndexs, RouteNodeIndexs := 0, map[], [], [];
    }

    /** GetIRKeyIndex: the first column named like the sharding key, case aside. */
    method GetIRKeyIndex(cols: seq<string>) returns (r: Result<()>)
      modifies `KeyIndex
      ensures r == if exists i :: 0 <= i < |cols| && Lower(cols[i]) == rule.key then Ok(()) else Err(NoShardingKey)
      ensures r.Ok? ==>
                && KeyIndex < |cols| && Lower(cols[KeyIndex]) == rule.key
                && forall i :: 0 <= i < KeyIndex ==> Lower(cols[i]) != rule.key
    {
      for i := 0 to |cols|
        invariant forall j :: 0 <= j < i ==> Lower(cols[j]) != rule.key
      {
        if Lower(cols[i]) == rule.key {
          KeyIndex := i;
          return Ok(());
        }
      }
      return Err(NoShardingKey);
    }

    /** getInsertTableIndex: the sub-tables of the rows, each once, and the rows cut up among them. */
    method GetInsertTableIndex(vals: Values) returns (r: Result<seq<int>>)
      modifies `Rows
      ensures var to := PlacingOf(rule, KeyIndex);
              match r
              case Err(e) => StopsWith(to, vals, e) && Rows == old(Rows)
              case Ok(tables) =>
                && AllTargets(to, vals)
                && Distinct(tables) && (forall t :: t in tables <==> SomeTarget(to, vals, t))
                && (forall t :: t in tables ==> PartAt(Rows, t) == RowsFor(to, vals, t))
                && (forall t :: t !in tables ==> PartAt(Rows, t) == PartAt(old(Rows), t))
    {
      var parts :- CutUp(rule, KeyIndex, vals);
      Rows := Rows + parts.1;
      var tables := CleanList(parts.0);
      ghost var to := PlacingOf(rule, KeyIndex);
      forall t
        ensures t in tables <==> t in parts.1
        ensures t in parts.1 <==> SomeTarget(to, vals, t)
        ensures t in parts.1 ==> PartAt(parts.1, t) == RowsFor(to, vals, t)
      {
        assert t in tables <==> t in Elems(tables);
        assert t in parts.0 <==> t in Elems(parts.0);
        HoldsAt(parts.1, u => RowsFor(to, vals, u), t);
        NoRows(to, vals, t);
      }
      return Ok(tables);
    }

    /** generateInsertSql: one statement per routed sub-table, grouped by the name that the router's
        node list has for its node. */
    method GenerateInsertSql(nodes: seq<string>) returns (r: Result<map<string, seq<InsertSql>>>)
      ensures r.Ok? <==> forall t :: t in RouteTableIndexs ==> 0 <= NodeOf(rule, t) < |nodes|
      ensures r.Ok? ==> var rows := Rows; IsDispatch(rule, nodes, t => InsertSql(t, PartAt(rows, t)), RouteTableIndexs, r.value)
    {
      var tables, sqls: map<string, seq<InsertSql>> := RouteTableIndexs, map[];
      ghost var rows := Rows;
      ghost var sqlOf := (t: int) => InsertSql(t, PartAt(rows, t));
      for i := 0 to |tables|
        invariant forall t :: t in tables[..i] ==> 0 <= NodeOf(rule, t) < |nodes|
        invariant IsDispatch(rule, nodes, sqlOf, tables[..i], sqls)
      {
        var t := tables[i];
        var nodeIndex := NodeOf(rule, t);
        if !(0 <= nodeIndex < |nodes|) {
          return Err(Panicked);
        }
        var nodeName, sql := nodes[nodeIndex], InsertSql(t, PartAt(Rows, t));
        DispatchNext(rule, nodes, sqlOf, tables, i, sqls);
        sqls := sqls[nodeName := StatementsAt(sqls, nodeName) + [sql]];
      }
      assert tables[..|tables|] == tables;
      return Ok(sqls);
    }
  }

  function InsertsFor(to: Placing, vals: Values): int -> InsertSql {
    t => InsertSql(t, RowsFor(to, vals, t))
  }

  /** What planning an INSERT leaves behind. */
  datatype Planned = Planned(keyIndex: nat, tables: seq<int>, nodeIndexs: seq<int>, sqls: map<string, seq<InsertSql>>)

  /** `i` is the first column named like the sharding key. */
  predicate IsKeyColumn(rule: Rule, cols: seq<string>, i: nat) {
    i < |cols| && Lower(cols[i]) == rule.key && forall j :: 0 <= j < i ==> Lower(cols[j]) != rule.key
  }

  /** An INSERT can be planned: it names the key column, every row has a place, and every place a node. */
  ghost predicate Insertable(rule: Rule, keyIndex: nat, vals: Values, nodes: seq<string>) {
    && AllTargets(PlacingOf(rule, keyIndex), vals)
    && forall t :: SomeTarget(PlacingOf(rule, keyIndex), vals, t) ==> 0 <= NodeOf(rule, t) < |nodes|
  }

  /** A row has a place exactly if it is long enough and its key can be placed: in hash rules if the key can be
      read, in range rules if it lies in the key space, in date rules if it has the digits of its date. */
  lemma RowPlaced(rule: Rule, keyIndex: nat, row: seq<Val>)
    requires ValidRule(rule) && rule.subTables != []
    requires keyIndex < |row| ==> IsValue(row[keyIndex])
    ensures Target(rule, keyIndex, row).Ok? <==>
              && keyIndex < |row|
              && match rule.ruleType
                 case HashRule => Readable(row[keyIndex])
                 case RangeRule => InSpace(rule, row[keyIndex])
                 case DateRule(g) => DateReadable(g, row[keyIndex])
                 case DefaultRule => BoundValue(row[keyIndex]).Ok?
  {
    if keyIndex < |row| {
      match rule.ruleType
      case HashRule => HashIndex(rule, row[keyIndex]);
      case RangeRule => RangeIndex(rule, row[keyIndex]);
      case DateRule(_) => DateIndexed(rule, row[keyIndex]);
      case DefaultRule =>
    }
  }

  /** buildInsertPlan for a sharded table. */
  method BuildInsertPlan(rule: Rule, cols: seq<string>, vals: Values, nodes: seq<string>) returns (r: Result<Planned>)
    ensures forall i :: IsKeyColumn(rule, cols, i) ==> (r.Ok? <==> Insertable(rule, i, vals, nodes))
    ensures (forall i :: 0 <= i < |cols| ==> Lower(cols[i]) != rule.key) ==> r == Err(NoShardingKey)
    ensures r.Ok? ==>
              var to := PlacingOf(rule, r.value.keyIndex);
              && r.value.keyIndex < |cols| && Lower(cols[r.value.keyIndex]) == rule.key
              && AllTargets(to, vals)
              && Distinct(r.value.tables) && (forall t :: t in r.value.tables <==> SomeTarget(to, vals, t))
              && (forall n :: n in r.value.nodeIndexs <==>
                    exists i :: 0 <= i < |r.value.tables| && NodeOf(rule, r.value.tables[i]) == n)
              && (forall t :: t in r.value.tables ==> 0 <= NodeOf(rule, t) < |nodes|)
              && IsDispatch(rule, nodes, InsertsFor(to, vals), r.value.tables, r.value.sqls)
  {
    var plan := new InsertPlan(rule);
    var _ :- plan.GetIRKeyIndex(cols);
    var tables :- plan.GetInsertTableIndex(vals);
    plan.RouteTableIndexs := tables;
    plan.RouteNodeIndexs := TindexsToNindexs(rule, tables);
    var sqls :- plan.GenerateInsertSql(nodes);
    ghost var rows := plan.Rows;
    SameDispatch(rule, nodes, t => InsertSql(t, PartAt(rows, t)), InsertsFor(PlacingOf(rule, plan.KeyIndex), vals), tables, sqls);
    return Ok(Planned(plan.KeyIndex, tables, plan.RouteNodeIndexs, sqls));
  }

  // ---------------------------------------------------------------- the parts make up the whole

  /** The rows of sub-table `t` are those at exactly the positions whose key is placed in `t`, in
      ascending order of position. */
  lemma {:induction false} RowsKeepOrder(to: Placing, vals: Values, t: int) returns (at: seq<int>)
    ensures StrictlyAscending(at) && |at| == |RowsFor(to, vals, t)|
    ensures forall p :: p in at <==> 0 <= p < |vals| && to(vals[p]) == Ok(t)
    ensures forall k :: 0 <= k < |at| ==> 0 <= at[k] < |vals| && RowsFor(to, vals, t)[k] == vals[at[k]]
  {
    if vals == [] {
      at := [];
    } else {
      var n := |vals| - 1;
      var before := RowsKeepOrder(to, vals[..n], t);
      at := before + if to(vals[n]) == Ok(t) then [n] else [];
      forall p
        ensures p in at <==> 0 <= p < |vals| && to(vals[p]) == Ok(t)
      {
        assert 0 <= p < n ==> vals[..n][p] == vals[p];
      }
    }
  }

  // ---------------------------------------------------------------- what the sub-tables hold afterwards

  function Append(shards: Contents, t: int, rows: seq<Row>): Contents {
    shards[t := RowsOf(shards, t) + rows]
  }

  function StoredAll(store: seq<Val> -> Row, vals: Values): seq<Row> {
    seq(|vals|, i requires 0 <= i < |vals| => store(vals[i]))
  }

  /** Where a stored row belongs. */
  function Home(rule: Rule, row: Row): int {
    match FindForKey(rule.shard, row.key) case Ok(t) => t case Err(_) => -1
  }

  /** Reference: the rows inserted one at a time, each where its stored key is placed. */
  function OneByOne(shards: Contents, home: Row -> int, store: seq<Val> -> Row, vals: Values): Contents {
    if vals == [] then shards
    else
      var n := |vals| - 1;
      var row := store(vals[n]);
      Append(OneByOne(shards, home, store, vals[..n]), home(row), [row])
  }

  /** The statements of the routed sub-tables, carried out one after the other. */
  function Executed(shards: Contents, to: Placing, store: seq<Val> -> Row, vals: Values, tables: seq<int>): Contents {
    if tables == [] then shards
    else
      var n := |tables| - 1;
      Append(Executed(shards, to, store, vals, tables[..n]), tables[n], StoredAll(store, RowsFor(to, vals, tables[n])))
  }

  /** Any statements carried out in this order. */
  function Applied(shards: Contents, store: seq<Val> -> Row, sqls: seq<InsertSql>): Contents {
    if sqls == [] then shards
    else
      var n := |sqls| - 1;
      Append(Applied(shards, store, sqls[..n]), sqls[n].table, StoredAll(store, sqls[n].rows))
  }

  /** Routing by the literal agrees with placing the stored key. */
  ghost predicate Agree(to: Placing, home: Row -> int, store: seq<Val> -> Row, vals: Values) {
    forall i :: 0 <= i < |vals| ==> to(vals[i]) == Ok(home(store(vals[i])))
  }

  lemma {:induction false} OneByOneAt(shards: Contents, to: Placing, home: Row -> int, store: seq<Val> -> Row, vals: Values, t: int)
    requires Agree(to, home, store, vals)
    ensures RowsOf(OneByOne(shards, home, store, vals), t) == RowsOf(shards, t) + StoredAll(store, RowsFor(to, vals, t))
  {
    if vals != [] {
      var n := |vals| - 1;
      OneByOneAt(shards, to, home, store, vals[..n], t);
      var part := RowsFor(to, vals[..n], t);
      assert StoredAll(store, part + [vals[n]]) == StoredAll(store, part) + [store(vals[n])];
    }
  }

  lemma InFront(tables: seq<int>, t: int)
    requires tables != [] && Distinct(tables)
    ensures var n := |tables| - 1;
            && (t in tables <==> t in tables[..n] || t == tables[n])
            && tables[n] !in tables[..n]
  {
    assert tables == tables[..|tables| - 1] + [tables[|tables| - 1]];
  }

  lemma AppendAt(shards: Contents, t: int, rows: seq<Row>, u: int)
    ensures RowsOf(Append(shards, t, rows), u) == if u == t then RowsOf(shards, u) + rows else RowsOf(shards, u)
  {
  }

  lemma {:induction false} ExecutedAt(shards: Contents, to: Placing, store: seq<Val> -> Row, vals: Values, tables: seq<int>, t: int)
    requires Distinct(tables)
    ensures RowsOf(Executed(shards, to, store, vals, tables), t) ==
            RowsOf(shards, t) + if t in tables then StoredAll(store, RowsFor(to, vals, t)) else []
  {
    if tables != [] {
      var n := |tables| - 1;
      ExecutedAt(shards, to, store, vals, tables[..n], t);
      InFront(tables, t);
      AppendAt(Executed(shards, to, store, vals, tables[..n]), tables[n], StoredAll(store, RowsFor(to, vals, tables[n])), t);
    }
  }

  lemma ExecutedIsOneByOne(shards: Contents, to: Placing, home: Row -> int, store: seq<Val> -> Row, vals: Values, tables: seq<int>, t: int)
    requires Agree(to, home, store, vals)
    requires Distinct(tables) && forall u :: u in tables <==> SomeTarget(to, vals, u)
    ensures RowsOf(Executed(shards, to, store, vals, tables), t) == RowsOf(OneByOne(shards, home, store, vals), t)
  {
    OneByOneAt(shards, to, home, store, vals, t);
    ExecutedAt(shards, to, store, vals, tables, t);
    NoRows(to, vals, t);
  }

  /** The keys of the rows are literals that denote a key, are spelled as routing needs, and are stored
      as the column holds that key. */
  ghost predicate Storable(rule: Rule, kind: ColumnKind, keyIndex: nat, store: seq<Val> -> Row, vals: Values) {
    forall i :: 0 <= i < |vals| ==>
      && keyIndex < |vals[i]| && Spelled(rule, kind, vals[i][keyIndex])
      && store(vals[i]).key == Stored(kind, Literal(kind, vals[i][keyIndex]).value)
  }

  lemma StorableAgree(rule: Rule, kind: ColumnKind, keyIndex: nat, store: seq<Val> -> Row, vals: Values)
    requires ValidRule(rule) && KindFits(rule, kind) && Storable(rule, kind, keyIndex, store, vals)
    requires AllTargets(PlacingOf(rule, keyIndex), vals)
    ensures Agree(PlacingOf(rule, keyIndex), row => Home(rule, row), store, vals)
    ensures forall i :: 0 <= i < |vals| ==>
              && ValidKey(kind, store(vals[i]).key)
              && FindForKey(rule.shard, store(vals[i]).key) == Target(rule, keyIndex, vals[i])
  {
    forall i | 0 <= i < |vals|
      ensures FindForKey(rule.shard, store(vals[i]).key) == Target(rule, keyIndex, vals[i])
      ensures PlacingOf(rule, keyIndex)(vals[i]) == Target(rule, keyIndex, vals[i])
    {
      SpelledIndex(rule, kind, vals[i][keyIndex]);
      StoredPlace(rule, kind, Literal(kind, vals[i][keyIndex]).value);
    }
  }

  /** A sharded INSERT is an insert of every row where it belongs: the statements of the routed
      sub-tables, in whatever order they are carried out, leave every sub-table as inserting the rows
      one at a time would. */
  lemma ShardedInsert(
      shards: Contents, rule: Rule, kind: ColumnKind, keyIndex: nat, store: seq<Val> -> Row, vals: Values, tables: seq<int>)
    requires ValidRule(rule) && KindFits(rule, kind) && Storable(rule, kind, keyIndex, store, vals)
    requires AllTargets(PlacingOf(rule, keyIndex), vals)
    requires Distinct(tables) && forall u :: u in tables <==> SomeTarget(PlacingOf(rule, keyIndex), vals, u)
    ensures forall t :: RowsOf(Executed(shards, PlacingOf(rule, keyIndex), store, vals, tables), t) ==
                        RowsOf(OneByOne(shards, row => Home(rule, row), store, vals), t)
  {
    StorableAgree(rule, kind, keyIndex, store, vals);
    forall t
      ensures RowsOf(Executed(shards, PlacingOf(rule, keyIndex), store, vals, tables), t) ==
              RowsOf(OneByOne(shards, row => Home(rule, row), store, vals), t)
    {
      ExecutedIsOneByOne(shards, PlacingOf(rule, keyIndex), row => Home(rule, row), store, vals, tables, t);
    }
  }

  /** Every row is routed to a sub-table that the rule lists. */
  ghost predicate Configured(rule: Rule, to: Placing, vals: Values) {
    forall i :: 0 <= i < |vals| ==> to(vals[i]).Ok? && to(vals[i]).value in rule.subTables
  }

  /** Rows stay where queries look for them exactly when every key is placed in a configured sub-table. */
  lemma {:induction false} InsertKeepsPlaced(
      shards: Contents, rule: Rule, kind: ColumnKind, keyIndex: nat, store: seq<Val> -> Row, vals: Values)
    requires ValidRule(rule) && KindFits(rule, kind) && Storable(rule, kind, keyIndex, store, vals)
    requires AllTargets(PlacingOf(rule, keyIndex), vals) && Placed(rule, kind, shards)
    ensures Placed(rule, kind, OneByOne(shards, row => Home(rule, row), store, vals)) <==>
            Configured(rule, PlacingOf(rule, keyIndex), vals)
  {
    if vals != [] {
      var n := |vals| - 1;
      InsertKeepsPlaced(shards, rule, kind, keyIndex, store, vals[..n]);
      StorableAgree(rule, kind, keyIndex, store, vals);
      AppendPlaced(OneByOne(shards, row => Home(rule, row), store, vals[..n]), rule, kind, store(vals[n]));
      ConfiguredLast(rule, PlacingOf(rule, keyIndex), vals);
    }
  }

  lemma ConfiguredLast(rule: Rule, to: Placing, vals: Values)
    requires vals != []
    ensures var n := |vals| - 1;
            Configured(rule, to, vals) <==>
            Configured(rule, to, vals[..n]) && to(vals[n]).Ok? && to(vals[n]).value in rule.subTables
  {
    var n := |vals| - 1;
    assert forall i :: 0 <= i < n ==> vals[..n][i] == vals[i];
  }

  lemma AppendPlaced(shards: Contents, rule: Rule, kind: ColumnKind, row: Row)
    requires ValidKey(kind, row.key) && FindForKey(rule.shard, row.key).Ok?
    ensures Placed(rule, kind, Append(shards, Home(rule, row), [row])) <==>
            Placed(rule, kind, shards) && Home(rule, row) in rule.subTables
  {
    var t := Home(rule, row);
    var after := Append(shards, t, [row]);
    assert after[t] == RowsOf(shards, t) + [row];
    if Placed(rule, kind, after) {
      PlacedAt(after, rule, kind, t, row);
      forall u: int, r: Row | u in shards && r in shards[u]
        ensures BelongsIn(rule, kind, u, r)
      {
        assert u in after && r in after[u];
        PlacedAt(after, rule, kind, u, r);
      }
      assert Placed(rule, kind, shards);
    }
    if Placed(rule, kind, shards) && t in rule.subTables {
      forall u: int, r: Row | u in after && r in after[u]
        ensures BelongsIn(rule, kind, u, r)
      {
        if u != t || r != row {
          assert u in shards && r in shards[u];
          PlacedAt(shards, rule, kind, u, r);
        }
      }
      assert Placed(rule, kind, after);
    }
  }

  lemma PlacedAt(shards: Contents, rule: Rule, kind: ColumnKind, t: int, row: Row)
    requires Placed(rule, kind, shards) && t in shards && row in shards[t]
    ensures t in rule.subTables && ValidKey(kind, row.key) && FindForKey(rule.shard, row.key) == Ok(t)
  {
  }

  /** In hash and range rules every key that is placed at all is placed in a configured sub-table. */
  lemma LocatedConfigured(rule: Rule, keyIndex: nat, vals: Values)
    requires ValidRule(rule) && (rule.ruleType.HashRule? || rule.ruleType.RangeRule?)
    requires AllTargets(PlacingOf(rule, keyIndex), vals)
    ensures Configured(rule, PlacingOf(rule, keyIndex), vals)
  {
    forall i | 0 <= i < |vals|
      ensures PlacingOf(rule, keyIndex)(vals[i]).value in rule.subTables
    {
      var t := Target(rule, keyIndex, vals[i]).value;
      assert PlacingOf(rule, keyIndex)(vals[i]) == Target(rule, keyIndex, vals[i]);
      assert 0 <= t < |rule.subTables|;
      assert rule.subTables[t] == t;
    }
  }

  /** Nothing is lost and nothing added: the logical table grows by exactly the rows of the statement. */
  lemma InsertConserves(
      shards: Contents, rule: Rule, kind: ColumnKind, keyIndex: nat, store: seq<Val> -> Row, vals: Values)
    requires ValidRule(rule) && KindFits(rule, kind) && Storable(rule, kind, keyIndex, store, vals)
    requires Configured(rule, PlacingOf(rule, keyIndex), vals)
    ensures multiset(Logical(OneByOne(shards, row => Home(rule, row), store, vals), rule.subTables)) ==
            multiset(Logical(shards, rule.subTables)) + multiset(StoredAll(store, vals))
  {
    StorableAgree(rule, kind, keyIndex, store, vals);
    LogicalGrows(shards, row => Home(rule, row), store, vals, rule.subTables);
  }

  lemma {:induction false} LogicalGrows(
      shards: Contents, home: Row -> int, store: seq<Val> -> Row, vals: Values, tables: seq<int>)
    requires Distinct(tables) && forall i :: 0 <= i < |vals| ==> home(store(vals[i])) in tables
    ensures multiset(Logical(OneByOne(shards, home, store, vals), tables)) ==
            multiset(Logical(shards, tables)) + multiset(StoredAll(store, vals))
  {
    if vals == [] {
      assert StoredAll(store, vals) == [];
    } else {
      LogicalGrows(shards, home, store, vals[..|vals| - 1], tables);
      LastGrows(shards, home, store, vals, tables);
    }
  }

  lemma StoredLast(store: seq<Val> -> Row, vals: Values)
    requires vals != []
    ensures StoredAll(store, vals) == StoredAll(store, vals[..|vals| - 1]) + [store(vals[|vals| - 1])]
  {
  }

  lemma LastGrows(shards: Contents, home: Row -> int, store: seq<Val> -> Row, vals: Values, tables: seq<int>)
    requires Distinct(tables) && vals != [] && home(store(vals[|vals| - 1])) in tables
    requires multiset(Logical(OneByOne(shards, home, store, vals[..|vals| - 1]), tables)) ==
             multiset(Logical(shards, tables)) + multiset(StoredAll(store, vals[..|vals| - 1]))
    ensures multiset(Logical(OneByOne(shards, home, store, vals), tables)) ==
            multiset(Logical(shards, tables)) + multiset(StoredAll(store, vals))
  {
    var n := |vals| - 1;
    var row, before := store(vals[n]), OneByOne(shards, home, store, vals[..n]);
    var after := Append(before, home(row), [row]);
    StoredLast(store, vals);
    LogicalAppend(before, tables, home(row), row);
    Regroup(Logical(before, tables), Logical(after, tables), Logical(shards, tables), StoredAll(store, vals[..n]), row);
  }

  lemma Regroup(before: seq<Row>, after: seq<Row>, base: seq<Row>, stored: seq<Row>, row: Row)
    requires multiset(before) == multiset(base) + multiset(stored)
    requires multiset(after) == multiset(before) + multiset{row}
    ensures multiset(after) == multiset(base) + multiset(stored + [row])
  {
  }

  lemma {:induction false} LogicalElsewhere(shards: Contents, tables: seq<int>, t: int, rows: seq<Row>)
    requires t !in tables
    ensures Logical(Append(shards, t, rows), tables) == Logical(shards, tables)
  {
    if tables != [] {
      var n := |tables| - 1;
      assert tables[n] in tables;
      LogicalElsewhere(shards, tables[..n], t, rows);
    }
  }

  lemma {:induction false} LogicalAppend(shards: Contents, tables: seq<int>, t: int, row: Row)
    requires Distinct(tables) && t in tables
    ensures multiset(Logical(Append(shards, t, [row]), tables)) == multiset(Logical(shards, tables)) + multiset{row}
  {
    var n, after := |tables| - 1, Append(shards, t, [row]);
    var front, front', last := Logical(shards, tables[..n]), Logical(after, tables[..n]), RowsOf(shards, tables[n]);
    LogicalLast(shards, tables);
    LogicalLast(after, tables);
    AppendAt(shards, t, [row], tables[n]);
    if t == tables[n] {
      LogicalElsewhere(shards, tables[..n], t, [row]);
      GrowRight(front, last, row);
    } else {
      LogicalAppend(shards, tables[..n], t, row);
      GrowLeft(front, front', last, row);
    }
  }

  lemma LogicalLast(shards: Contents, tables: seq<int>)
    requires tables != []
    ensures Logical(shards, tables) == Logical(shards, tables[..|tables| - 1]) + RowsOf(shards, tables[|tables| - 1])
  {
  }

  lemma GrowRight(a: seq<Row>, b: seq<Row>, row: Row)
    ensures multiset(a + (b + [row])) == multiset(a + b) + multiset{row}
  {
  }

  lemma GrowLeft(a: seq<Row>, a': seq<Row>, b: seq<Row>, row: Row)
    requires multiset(a') == multiset(a) + multiset{row}
    ensures multiset(a' + b) == multiset(a + b) + multiset{row}
  {
  }

  /** A date outside the configured ranges: the row is routed all the same, to a sub-table nobody
      configured, on the first node. */
  lemma UnconfiguredDate(rule: Rule, s: string)
    requires rule.shard == DateShard(Day) && IsDate(s) && ValidRule(rule) && DateIndex(Day, s) !in rule.subTables
    ensures Target(rule, 0, [StrVal(s)]) == Ok(DateIndex(Day, s))
    ensures NodeOf(rule, DateIndex(Day, s)) == 0 && !Configured(rule, PlacingOf(rule, 0), [[StrVal(s)]])
  {
    FindDateIndex(Day, s);
    var vals := [[StrVal(s)]];
    assert PlacingOf(rule, 0)(vals[0]) == Ok(DateIndex(Day, s));
  }
}
