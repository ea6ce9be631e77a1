/** A sharded SELECT from its plan to the slice of results: routed, rewritten, sent to the nodes by
    concurrent goroutines, and answered as the one logical table would answer it. */
module Pipeline {
  import opened Prelude
  import opened Text
  import opened SortedLists
  import opened Shards
  import opened Rules
  import opened Where
  import opened Limits
  import opened Planner
  import opened Routing
  import opened Rewriter
  import opened Sorting
  import opened Select
  import opened Inserts
  import Dispatch

  // ---------------------------------------------------------------- which sub-table a slot is for

  /** The sub-tables on `name`, in routing order. */
  function TablesOn(rule: Rule, nodes: seq<string>, tables: seq<int>, name: string): seq<int>
    requires forall t :: t in tables ==> 0 <= NodeOf(rule, t) < |nodes|
  {
    Collected(rule, nodes, t => t, tables, name)
  }

  lemma {:induction false} CollectedIsMapped<S>(rule: Rule, nodes: seq<string>, sqlOf: int -> S, tables: seq<int>, name: string)
    requires forall t :: t in tables ==> 0 <= NodeOf(rule, t) < |nodes|
    ensures var on := TablesOn(rule, nodes, tables, name);
            |Collected(rule, nodes, sqlOf, tables, name)| == |on| &&
            forall j :: 0 <= j < |on| ==> Collected(rule, nodes, sqlOf, tables, name)[j] == sqlOf(on[j])
  {
    if tables != [] {
      assert forall t :: t in tables[..|tables| - 1] ==> t in tables;
      CollectedIsMapped(rule, nodes, sqlOf, tables[..|tables| - 1], name);
    }
  }

  lemma {:induction false} TablesOnDistinct(rule: Rule, nodes: seq<string>, tables: seq<int>, name: string)
    requires forall t :: t in tables ==> 0 <= NodeOf(rule, t) < |nodes|
    requires Distinct(tables)
    ensures Distinct(TablesOn(rule, nodes, tables, name))
    ensures forall t :: t in TablesOn(rule, nodes, tables, name) <==> t in tables && nodes[NodeOf(rule, t)] == name
  {
    if tables != [] {
      var n := |tables| - 1;
      assert forall t :: t in tables[..n] ==> t in tables;
      TablesOnDistinct(rule, nodes, tables[..n], name);
      assert tables == tables[..n] + [tables[n]];
      assert tables[n] !in tables[..n];
    }
  }

  /** The sub-tables of each goroutine. */
  function TableLists(rule: Rule, nodes: seq<string>, tables: seq<int>, conns: seq<string>): seq<seq<int>>
    requires forall t :: t in tables ==> 0 <= NodeOf(rule, t) < |nodes|
  {
    seq(|conns|, k requires 0 <= k < |conns| => TablesOn(rule, nodes, tables, conns[k]))
  }

  lemma {:induction false} FlatMember(lists: seq<seq<int>>, t: int)
    ensures t in Flatten(lists) <==> exists k :: 0 <= k < |lists| && t in lists[k]
  {
    if lists != [] {
      FlatMember(lists[..|lists| - 1], t);
    }
  }

  ghost predicate Apart(a: seq<int>, b: seq<int>) {
    forall t :: t in a ==> t !in b
  }

  lemma {:induction false} FlatDistinct(lists: seq<seq<int>>)
    requires forall k :: 0 <= k < |lists| ==> Distinct(lists[k])
    requires forall k, l :: 0 <= k < l < |lists| ==> Apart(lists[k], lists[l])
    ensures Distinct(Flatten(lists))
  {
    if lists != [] {
      var n := |lists| - 1;
      FlatDistinct(lists[..n]);
      var before, last := Flatten(lists[..n]), lists[n];
      forall t | t in before
        ensures t !in last
      {
        FlatMember(lists[..n], t);
        var k :| 0 <= k < n && t in lists[k];
        assert Apart(lists[k], lists[n]);
      }
      DistinctConcat(before, last);
    }
  }

  lemma DistinctConcat(a: seq<int>, b: seq<int>)
    requires Distinct(a) && Distinct(b) && forall t :: t in a ==> t !in b
    ensures Distinct(a + b)
  {
    forall i, j | 0 <= i < |a| && 0 <= j < |b|
      ensures a[i] != b[j]
    {
      assert a[i] in a && b[j] in b;
    }
  }

  /** Goroutine by goroutine, statement by statement, `jobs` are the statements of `lists`. */
  ghost predicate Mapped<S>(jobs: Dispatch.Jobs<S>, lists: seq<seq<int>>, sqlOf: int -> S) {
    && |jobs| == |lists|
    && forall k :: 0 <= k < |jobs| ==> MappedList(jobs[k], lists[k], sqlOf)
  }

  ghost predicate MappedList<S>(job: seq<S>, list: seq<int>, sqlOf: int -> S) {
    |job| == |list| && forall j :: 0 <= j < |job| ==> job[j] == sqlOf(list[j])
  }

  lemma {:induction false} FlatLength<S>(jobs: Dispatch.Jobs<S>, lists: seq<seq<int>>, sqlOf: int -> S, n: nat)
    requires Mapped(jobs, lists, sqlOf) && n <= |lists|
    ensures |Flatten(lists[..n])| == Dispatch.Offset(jobs, n)
  {
    if n > 0 {
      FlattenNext(lists, n - 1);
      FlatLength(jobs, lists, sqlOf, n - 1);
      assert MappedList(jobs[n - 1], lists[n - 1], sqlOf);
    }
  }

  /** Slot Offset(k) + j is for the j-th sub-table of the k-th goroutine. */
  lemma {:induction false} FlatAt<S>(jobs: Dispatch.Jobs<S>, lists: seq<seq<int>>, sqlOf: int -> S, n: nat, k: nat, j: nat)
    requires Mapped(jobs, lists, sqlOf) && k < n <= |lists| && j < |jobs[k]|
    ensures var slot := Dispatch.Offset(jobs, k) + j;
            slot < |Flatten(lists[..n])| && jobs[k][j] == sqlOf(Flatten(lists[..n])[slot])
  {
    assert MappedList(jobs[k], lists[k], sqlOf);
    FlattenNext(lists, n - 1);
    if k == n - 1 {
      FlatLength(jobs, lists, sqlOf, k);
    } else {
      FlatAt(jobs, lists, sqlOf, n - 1, k, j);
    }
  }

  lemma JobsAreMapped<S>(
      rule: Rule, nodes: seq<string>, sqlOf: int -> S, tables: seq<int>, sqls: map<string, seq<S>>, conns: seq<string>)
    requires forall t :: t in tables ==> 0 <= NodeOf(rule, t) < |nodes|
    requires IsDispatch(rule, nodes, sqlOf, tables, sqls)
    ensures Mapped(Dispatch.JobsOf(sqls, conns), TableLists(rule, nodes, tables, conns), sqlOf)
  {
    var jobs, lists := Dispatch.JobsOf(sqls, conns), TableLists(rule, nodes, tables, conns);
    forall k | 0 <= k < |conns|
      ensures MappedList(jobs[k], lists[k], sqlOf)
    {
      CollectedIsMapped(rule, nodes, sqlOf, tables, conns[k]);
      assert StatementsAt(sqls, conns[k]) == Collected(rule, nodes, sqlOf, tables, conns[k]);
    }
  }

  /** Every routed sub-table is in exactly one place of one list. */
  lemma ListsPartition(rule: Rule, nodes: seq<string>, tables: seq<int>, conns: seq<string>)
    requires forall t :: t in tables ==> 0 <= NodeOf(rule, t) < |nodes| && nodes[NodeOf(rule, t)] in conns
    requires Distinct(tables) && Dispatch.NoRepeats(conns)
    ensures var order := Flatten(TableLists(rule, nodes, tables, conns));
            Distinct(order) && forall t :: t in order <==> t in tables
  {
    var lists := TableLists(rule, nodes, tables, conns);
    forall k | 0 <= k < |conns|
      ensures Distinct(lists[k])
      ensures forall t :: t in lists[k] <==> t in tables && nodes[NodeOf(rule, t)] == conns[k]
    {
      TablesOnDistinct(rule, nodes, tables, conns[k]);
    }
    FlatDistinct(lists);
    forall t
      ensures t in Flatten(lists) <==> t in tables
    {
      FlatMember(lists, t);
      if t in tables {
        var k :| 0 <= k < |conns| && conns[k] == nodes[NodeOf(rule, t)];
        assert t in lists[k];
      }
    }
  }

  // ---------------------------------------------------------------- the answer

  function StatementsFor(rule: Rule, st: Statement): int -> Rendered {
    t => SqlFor(rule, st, t)
  }

  /** The outcome of planning and of finding connections, on nodes whose names agree. */
  ghost predicate Sent(
    rule: Rule, st: Statement, tables: seq<int>, nodes: seq<string>, sqls: map<string, seq<Rendered>>, conns: seq<string>)
  {
    && Dispatch.InRange(rule, nodes, tables) && Dispatch.NamesAgree(rule, nodes, tables)
    && IsDispatch(rule, nodes, StatementsFor(rule, st), tables, sqls) && Dispatch.IsConns(rule, tables, conns)
  }

  /** buildSelectPlan and the connections for its nodes. */
  method PlanSelect(rule: Rule, stmt: SelectStmt, nodes: seq<string>) returns (r: Result<(SelectPlan, seq<string>)>)
    requires ValidRule(rule) && !rule.ruleType.DefaultRule? && stmt.Valid() && rule.table != ""
    modifies stmt
    ensures r.Ok? ==>
              var st := Statement(stmt.where, stmt.orderBy, stmt.limit, old(stmt.quals), stmt.quals);
              var (plan, conns) := r.value;
              && Plans(rule, st.where) && PlannedFrom(rule, st)
              && IsRoute(rule, st.where, plan) && plan.tables != []
              && Dispatch.InRange(rule, nodes, plan.tables)
              && (Dispatch.NamesAgree(rule, nodes, plan.tables) ==> Sent(rule, st, plan.tables, nodes, plan.sqls, conns))
  {
    ghost var parsed := stmt.quals;
    var plan :- BuildSelectPlan(rule, stmt, nodes);
    var conns :- Dispatch.ConnNames(rule, plan.nodeIndexs, plan.tables);
    ghost var st := Statement(stmt.where, stmt.orderBy, stmt.limit, parsed, stmt.quals);
    ghost var quals := stmt.quals;
    SameDispatch(rule, nodes, t => SqlOf(rule, stmt.where, stmt.orderBy, stmt.limit, quals, t), StatementsFor(rule, st),
                 plan.tables, plan.sqls);
    return Ok((plan, conns));
  }

  /** `answer` tells what each statement was answered. */
  ghost predicate Answered<S, R>(jobs: Dispatch.Jobs<S>, reply: S -> R, answer: (nat, nat) -> R) {
    forall k, j :: 0 <= k < |jobs| && 0 <= j < |jobs[k]| ==> answer(k, j) == reply(jobs[k][j])
  }

  lemma SlotsHold<S, R>(
      jobs: Dispatch.Jobs<S>, lists: seq<seq<int>>, sqlOf: int -> S, reply: S -> R,
      answer: (nat, nat) -> R, size: nat, schedule: seq<nat>)
    requires Mapped(jobs, lists, sqlOf) && Answered(jobs, reply, answer) && size == Dispatch.Offset(jobs, |jobs|)
    requires var r := Dispatch.Run(jobs, answer, size, schedule); r.Some? ==> Dispatch.Finished(jobs, r.value)
    ensures var r, order := Dispatch.Run(jobs, answer, size, schedule), Flatten(lists);
            && r.Some? && |r.value.slots| == |order|
            && forall i :: 0 <= i < |order| ==> r.value.slots[i] == Some(reply(sqlOf(order[i])))
  {
    Dispatch.RunFills(jobs, answer, size, schedule);
    FlatLength(jobs, lists, sqlOf, |lists|);
    assert lists[..|lists|] == lists;
    var s := Dispatch.Run(jobs, answer, size, schedule).value;
    forall i | 0 <= i < size
      ensures s.slots[i] == Some(reply(sqlOf(Flatten(lists)[i])))
    {
      var k, j := Dispatch.SlotOwner(jobs, |jobs|, i);
      assert Dispatch.HoldsAt(jobs, answer, s, k, j);
      FlatAt(jobs, lists, sqlOf, |lists|, k, j);
    }
  }

  /** The sub-tables in the order of their slots. */
  lemma SlotOrder<S>(
      rule: Rule, nodes: seq<string>, sqlOf: int -> S, tables: seq<int>, sqls: map<string, seq<S>>, conns: seq<string>)
    returns (lists: seq<seq<int>>)
    requires Dispatch.InRange(rule, nodes, tables) && Dispatch.NamesAgree(rule, nodes, tables) && Distinct(tables)
    requires IsDispatch(rule, nodes, sqlOf, tables, sqls) && Dispatch.IsConns(rule, tables, conns)
    ensures Mapped(Dispatch.JobsOf(sqls, conns), lists, sqlOf)
    ensures Distinct(Flatten(lists)) && forall t :: t in Flatten(lists) <==> t in tables
  {
    lists := TableLists(rule, nodes, tables, conns);
    AllRouted(rule, nodes, tables, conns);
    ListsPartition(rule, nodes, tables, conns);
    JobsAreMapped(rule, nodes, sqlOf, tables, sqls, conns);
  }

  lemma AllRouted(rule: Rule, nodes: seq<string>, tables: seq<int>, conns: seq<string>)
    requires Dispatch.InRange(rule, nodes, tables) && Dispatch.NamesAgree(rule, nodes, tables)
    requires Dispatch.IsConns(rule, tables, conns)
    ensures forall t :: t in tables ==> nodes[NodeOf(rule, t)] in conns
  {
    forall t | t in tables
      ensures nodes[NodeOf(rule, t)] in conns
    {
      var i :| 0 <= i < |tables| && tables[i] == t;
      assert nodes[NodeOf(rule, tables[i])] == rule.nodes[NodeOf(rule, tables[i])];
    }
  }

  lemma QueryReordered(m: Meaning, rule: Rule, p: Pred, shards: Contents, tables: seq<int>, order: seq<int>)
    requires Query(m, rule, p, shards, tables) && Distinct(order) && forall t :: t in order <==> t in tables
    ensures Query(m, rule, p, shards, order)
    ensures tables != [] ==> order != []
  {
    assert forall t :: t in order <==> Routes(rule, p, t);
    SomeMember(tables, order);
  }

  lemma SomeMember(a: seq<int>, b: seq<int>)
    requires forall t :: t in a ==> t in b
    ensures a != [] ==> b != []
  {
    if a != [] {
      var t := a[0];
      assert t in a;
      assert t in b;
    }
  }

  /** Sharded SELECT, end to end: under every interleaving of the goroutines, once all have finished every
      slot holds the reply for a sub-table of its own. All replies are rows if and only if the statement is
      answerable, and then together they are, as a multiset, exactly the rows of the logical table that
      satisfy the original WHERE tree. */
  lemma ShardedSelectRuns(
      m: Meaning, rule: Rule, st: Statement, shards: Contents, tables: seq<int>, nodes: seq<string>,
      sqls: map<string, seq<Rendered>>, conns: seq<string>,
      answer: (nat, nat) -> Result<seq<Row>>, size: nat, schedule: seq<nat>) returns (replies: seq<Result<seq<Row>>>)
    requires Query(m, rule, st.where, shards, tables) && PlannedFrom(rule, st) && st.limit.None? && tables != []
    requires Sent(rule, st, tables, nodes, sqls, conns)
    requires Answered(Dispatch.JobsOf(sqls, conns), sql => Reply(m, rule, shards, sql), answer)
    requires size == Dispatch.Offset(Dispatch.JobsOf(sqls, conns), |conns|)
    requires var r := Dispatch.Run(Dispatch.JobsOf(sqls, conns), answer, size, schedule);
             r.Some? ==> Dispatch.Finished(Dispatch.JobsOf(sqls, conns), r.value)
    ensures var r := Dispatch.Run(Dispatch.JobsOf(sqls, conns), answer, size, schedule);
            && r.Some? && |r.value.slots| == |replies|
            && (forall i :: 0 <= i < |replies| ==> r.value.slots[i] == Some(replies[i]))
    ensures Collect(replies).Ok? <==> Answerable(rule, st)
    ensures Answerable(rule, st) ==>
              multiset(Collect(replies).value) == multiset(Filter(m, st.where, Logical(shards, rule.subTables)))
  {
    var jobs := Dispatch.JobsOf(sqls, conns);
    var lists := SlotOrder(rule, nodes, StatementsFor(rule, st), tables, sqls, conns);
    var order := Flatten(lists);
    SlotsHold(jobs, lists, StatementsFor(rule, st), sql => Reply(m, rule, shards, sql), answer, size, schedule);
    replies := Replies(m, rule, st, shards, order);
    QueryReordered(m, rule, st.where, shards, tables, order);
    ShardedSelect(m, rule, st, shards, order);
  }

  // ---------------------------------------------------------------- INSERT

  lemma {:induction false} MappedFlatten<S>(jobs: Dispatch.Jobs<S>, lists: seq<seq<int>>, sqlOf: int -> S)
    requires Mapped(jobs, lists, sqlOf)
    ensures Flatten(jobs) == Mapping(sqlOf, Flatten(lists))
  {
    if jobs != [] {
      var n := |jobs| - 1;
      MappedFlatten(jobs[..n], lists[..n], sqlOf);
      assert MappedList(jobs[n], lists[n], sqlOf);
      assert jobs[n] == Mapping(sqlOf, lists[n]);
      MappingAppend(sqlOf, Flatten(lists[..n]), lists[n]);
    }
  }

  /** Statements that are a permutation of those for `tables` are those for a permutation of `tables`. */
  lemma TablesOf<S>(sqlOf: int -> S, tableOf: S -> int, tables: seq<int>, order: seq<S>) returns (done: seq<int>)
    requires forall t :: tableOf(sqlOf(t)) == t
    requires Distinct(tables) && multiset(order) == multiset(Mapping(sqlOf, tables))
    ensures order == Mapping(sqlOf, done) && Distinct(done) && multiset(done) == multiset(tables)
  {
    done := Mapping(tableOf, order);
    MappingPermuted(tableOf, order, Mapping(sqlOf, tables));
    MappedBack(sqlOf, tableOf, tables);
    assert AllDifferent(tables);
    DifferentPermuted(tables, done);
    forall i | 0 <= i < |order|
      ensures order[i] == sqlOf(done[i])
    {
      assert order[i] in multiset(order);
      assert order[i] in Mapping(sqlOf, tables);
    }
  }

  lemma MappedBack<S>(sqlOf: int -> S, tableOf: S -> int, tables: seq<int>)
    requires forall t :: tableOf(sqlOf(t)) == t
    ensures Mapping(tableOf, Mapping(sqlOf, tables)) == tables
  {
    var back := Mapping(tableOf, Mapping(sqlOf, tables));
    forall i | 0 <= i < |tables|
      ensures back[i] == tables[i]
    {
      assert Mapping(sqlOf, tables)[i] == sqlOf(tables[i]);
    }
  }

  lemma SameTables(a: seq<int>, b: seq<int>)
    requires multiset(a) == multiset(b)
    ensures forall t :: t in a <==> t in b
  {
    forall t
      ensures t in a <==> t in b
    {
      assert t in a <==> t in multiset(a);
      assert t in b <==> t in multiset(b);
    }
  }

  lemma {:induction false} AppliedIsExecuted(shards: Contents, to: Placing, store: seq<Val> -> Row, vals: Values, done: seq<int>)
    ensures Applied(shards, store, Mapping(InsertsFor(to, vals), done)) == Executed(shards, to, store, vals, done)
  {
    if done != [] {
      var n := |done| - 1;
      AppliedIsExecuted(shards, to, store, vals, done[..n]);
      assert Mapping(InsertsFor(to, vals), done)[..n] == Mapping(InsertsFor(to, vals), done[..n]);
    }
  }

  /** Sharded INSERT, end to end: under every interleaving of the goroutines, every statement goes to a table
      that exists if and only if every row is placed in a configured sub-table, and then every sub-table
      ends up as if the rows had been inserted one at a time where their keys belong. */
  lemma ShardedInsertRuns<R>(
      shards: Contents, rule: Rule, kind: ColumnKind, keyIndex: nat, store: seq<Val> -> Row, vals: Values,
      tables: seq<int>, nodes: seq<string>, sqls: map<string, seq<InsertSql>>, conns: seq<string>,
      answer: (nat, nat) -> R, size: nat, schedule: seq<nat>)
    requires ValidRule(rule) && KindFits(rule, kind) && Storable(rule, kind, keyIndex, store, vals) && Deployed(rule, shards)
    requires AllTargets(PlacingOf(rule, keyIndex), vals)
    requires Distinct(tables) && forall u :: u in tables <==> SomeTarget(PlacingOf(rule, keyIndex), vals, u)
    requires Dispatch.InRange(rule, nodes, tables) && Dispatch.NamesAgree(rule, nodes, tables)
    requires IsDispatch(rule, nodes, InsertsFor(PlacingOf(rule, keyIndex), vals), tables, sqls)
    requires Dispatch.IsConns(rule, tables, conns)
    requires size == Dispatch.Offset(Dispatch.JobsOf(sqls, conns), |conns|)
    requires var r := Dispatch.Run(Dispatch.JobsOf(sqls, conns), answer, size, schedule);
             r.Some? ==> Dispatch.Finished(Dispatch.JobsOf(sqls, conns), r.value)
    ensures var order := Dispatch.Executed(Dispatch.JobsOf(sqls, conns), answer, size, schedule);
            (forall i :: 0 <= i < |order| ==> order[i].table in shards) <==> Configured(rule, PlacingOf(rule, keyIndex), vals)
    ensures var order := Dispatch.Executed(Dispatch.JobsOf(sqls, conns), answer, size, schedule);
            Configured(rule, PlacingOf(rule, keyIndex), vals) ==>
              forall t :: RowsOf(Applied(shards, store, order), t) ==
                          RowsOf(OneByOne(shards, row => Home(rule, row), store, vals), t)
  {
    var jobs, to := Dispatch.JobsOf(sqls, conns), PlacingOf(rule, keyIndex);
    var order := Dispatch.Executed(jobs, answer, size, schedule);
    var lists := SlotOrder(rule, nodes, InsertsFor(to, vals), tables, sqls, conns);
    Dispatch.ExecutedIsAll(jobs, answer, size, schedule);
    MappedFlatten(jobs, lists, InsertsFor(to, vals));
    var done := TablesOf(InsertsFor(to, vals), (sql: InsertSql) => sql.table, Flatten(lists), order);
    SameTables(done, Flatten(lists));
    AppliedIsExecuted(shards, to, store, vals, done);
    assert forall u :: u in done <==> SomeTarget(to, vals, u);
    ShardedInsert(shards, rule, kind, keyIndex, store, vals, done);
    TargetsExist(rule, shards, to, vals, done, order);
  }

  lemma TargetsExist(rule: Rule, shards: Contents, to: Placing, vals: Values, done: seq<int>, order: seq<InsertSql>)
    requires Deployed(rule, shards) && AllTargets(to, vals) && order == Mapping(InsertsFor(to, vals), done)
    requires forall u :: u in done <==> SomeTarget(to, vals, u)
    ensures (forall i :: 0 <= i < |order| ==> order[i].table in shards) <==> Configured(rule, to, vals)
  {
    if Configured(rule, to, vals) {
      forall i | 0 <= i < |order|
        ensures order[i].table in shards
      {
        var u := done[i];
        assert u in done;
        assert SomeTarget(to, vals, u);
      }
    }
    if forall i :: 0 <= i < |order| ==> order[i].table in shards {
      forall i | 0 <= i < |vals|
        ensures to(vals[i]).value in rule.subTables
      {
        var u := to(vals[i]).value;
        assert SomeTarget(to, vals, u);
        assert u in done;
        var k :| 0 <= k < |done| && done[k] == u;
        assert order[k].table == u;
      }
    }
  }
}
