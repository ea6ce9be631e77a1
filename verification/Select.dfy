/** The answer gathered from the shards is the answer of the one logical table
    (proxy/router/router.go, generateSelectSql; proxy/server/conn_select.go, buildSelectOnlyResult). */
module Select {
  import opened Prelude
  import opened Text
  import opened Calendar
  import opened SortedLists
  import opened Shards
  import opened Rules
  import opened Where
  import opened Routing
  import opened Splitting
  import opened Limits
  import opened Sorting
  import opened Planner
  import opened Rewriter

  /** What each sub-table holds. */
  type Contents = map<int, seq<Row>>

  function RowsOf(shards: Contents, t: int): seq<Row> {
    if t in shards then shards[t] else []
  }

  /** Every row lies in the configured sub-table its key is placed in. */
  ghost predicate Placed(rule: Rule, kind: ColumnKind, shards: Contents) {
    forall t, row :: t in shards && row in shards[t] ==> BelongsIn(rule, kind, t, row)
  }

  predicate BelongsIn(rule: Rule, kind: ColumnKind, t: int, row: Row) {
    t in rule.subTables && ValidKey(kind, row.key) && FindForKey(rule.shard, row.key) == Ok(t)
  }

  predicate Keep(m: Meaning, p: Pred, row: Row) {
    ValidKey(m.kind, row.key) && Eval(m, p, row) == True
  }

  /** SELECT ... WHERE p over some rows. */
  function Filter(m: Meaning, p: Pred, rows: seq<Row>): seq<Row> {
    if rows == [] then []
    else
      var n := |rows| - 1;
      Filter(m, p, rows[..n]) + (if Keep(m, p, rows[n]) then [rows[n]] else [])
  }

  /** The logical table: all sub-tables taken together. */
  function Logical(shards: Contents, tables: seq<int>): seq<Row> {
    if tables == [] then []
    else Logical(shards, tables[..|tables| - 1]) + RowsOf(shards, tables[|tables| - 1])
  }

  /** What the backends answer: each routed sub-table with its own rewritten WHERE. */
  function Gathered(m: Meaning, rule: Rule, p: Pred, shards: Contents, tables: seq<int>): seq<Row> {
    if tables == [] then []
    else
      var n := |tables| - 1;
      Gathered(m, rule, p, shards, tables[..n]) +
      Filter(m, WhereFor(rule, p, tables[n]), RowsOf(shards, tables[n]))
  }

  lemma {:induction false} FilterCount(m: Meaning, p: Pred, rows: seq<Row>, r: Row)
    ensures multiset(Filter(m, p, rows))[r] == if Keep(m, p, r) then multiset(rows)[r] else 0
  {
    if rows != [] {
      var n := |rows| - 1;
      FilterCount(m, p, rows[..n], r);
      assert rows == rows[..n] + [rows[n]];
    }
  }

  /** `r` occurs in no sub-table but `home`. */
  ghost predicate OnlyAt(shards: Contents, r: Row, home: int) {
    forall t :: t != home ==> r !in RowsOf(shards, t)
  }

  lemma {:induction false} GatheredCount(
      m: Meaning, rule: Rule, p: Pred, shards: Contents, tables: seq<int>, r: Row, home: int)
    requires Distinct(tables) && OnlyAt(shards, r, home)
    ensures multiset(Gathered(m, rule, p, shards, tables))[r] ==
            if home in tables && Keep(m, WhereFor(rule, p, home), r) then multiset(RowsOf(shards, home))[r] else 0
  {
    if tables != [] {
      var n := |tables| - 1;
      var t, before := tables[n], tables[..n];
      assert tables == before + [t];
      GatheredCount(m, rule, p, shards, before, r, home);
      var last := Filter(m, WhereFor(rule, p, t), RowsOf(shards, t));
      FilterCount(m, WhereFor(rule, p, t), RowsOf(shards, t), r);
      if t != home {
        assert r !in RowsOf(shards, t);
        assert multiset(RowsOf(shards, t))[r] == 0;
      }
      assert Gathered(m, rule, p, shards, tables) == Gathered(m, rule, p, shards, before) + last;
    }
  }

  lemma {:induction false} LogicalCount(shards: Contents, tables: seq<int>, r: Row, home: int)
    requires Distinct(tables) && OnlyAt(shards, r, home)
    ensures multiset(Logical(shards, tables))[r] ==
            if home in tables then multiset(RowsOf(shards, home))[r] else 0
  {
    if tables != [] {
      var n := |tables| - 1;
      LogicalCount(shards, tables[..n], r, home);
      assert tables == tables[..n] + [tables[n]];
    }
  }

  /** A stored row is gathered exactly when the original WHERE tree selects it. */
  lemma HomeAgrees(m: Meaning, rule: Rule, p: Pred, shards: Contents, tables: seq<int>, r: Row, home: int)
    requires Query(m, rule, p, shards, tables)
    requires home in shards && r in shards[home]
    ensures home in tables && Keep(m, WhereFor(rule, p, home), r) <==> Keep(m, p, r)
    ensures home in rule.subTables
  {
    if Keep(m, p, r) {
      RoutingSound(rule, m, p, r, home);
    }
    if home in tables {
      WherePreserved(rule, m, p, r, home);
    }
  }

  lemma RowAgrees(m: Meaning, rule: Rule, p: Pred, shards: Contents, tables: seq<int>, r: Row)
    requires Query(m, rule, p, shards, tables)
    ensures multiset(Gathered(m, rule, p, shards, tables))[r] ==
            multiset(Filter(m, p, Logical(shards, rule.subTables)))[r]
  {
    var home := FindHome(rule, m.kind, shards, r);
    GatheredCount(m, rule, p, shards, tables, r, home);
    FilterCount(m, p, Logical(shards, rule.subTables), r);
    LogicalCount(shards, rule.subTables, r, home);
    if r in RowsOf(shards, home) {
      HomeAgrees(m, rule, p, shards, tables, r, home);
    } else {
      assert multiset(RowsOf(shards, home))[r] == 0;
    }
  }

  lemma FindHome(rule: Rule, kind: ColumnKind, shards: Contents, r: Row) returns (home: int)
    requires Placed(rule, kind, shards)
    ensures OnlyAt(shards, r, home)
  {
    home := if FindForKey(rule.shard, r.key).Ok? then FindForKey(rule.shard, r.key).value else -1;
  }

  /** The premises of a sharded SELECT: a valid rule whose sub-tables exist, rows placed by it, and a
      WHERE tree whose key tests are spelled and conditioned as `TreeOk` says and whose IN list is
      exchanged without harm in the routed sub-tables. `tables` is the routed list, in any order. */
  ghost predicate Query(m: Meaning, rule: Rule, p: Pred, shards: Contents, tables: seq<int>) {
    && ValidRule(rule) && m.key == rule.key && KindFits(rule, m.kind)
    && Placed(rule, m.kind, shards) && Deployed(rule, shards)
    && Plans(rule, p) && TreeOk(rule, m.kind, p) && DistinctIds(p)
    && (forall t :: t in tables && t in rule.subTables ==> ExchangeOk(rule, m.kind, p, t))
    && Distinct(tables) && forall t :: t in tables <==> Routes(rule, p, t)
  }

  /** The tables that exist are those of the rule. */
  ghost predicate Deployed(rule: Rule, shards: Contents) {
    forall t :: t in shards <==> t in rule.subTables
  }

  /** The rows gathered are, as a multiset, exactly the rows of the logical table that satisfy the
      original WHERE tree. */
  lemma GatheredIsSelected(m: Meaning, rule: Rule, p: Pred, shards: Contents, tables: seq<int>)
    requires Query(m, rule, p, shards, tables)
    ensures multiset(Gathered(m, rule, p, shards, tables)) ==
            multiset(Filter(m, p, Logical(shards, rule.subTables)))
  {
    forall r
      ensures multiset(Gathered(m, rule, p, shards, tables))[r] ==
              multiset(Filter(m, p, Logical(shards, rule.subTables)))[r]
    {
      RowAgrees(m, rule, p, shards, tables, r);
    }
  }

  // ---------------------------------------------------------------- what the backends reply

  /** A SELECT as parsed, and its qualifiers after planning. */
  datatype Statement = Statement(
    where: Pred, orderBy: seq<Val>, limit: Option<Limit>, parsed: seq<string>, planned: seq<string>)

  /** The statement printed for sub-table `t`. */
  function SqlFor(rule: Rule, st: Statement, t: int): Rendered {
    SqlOf(rule, st.where, st.orderBy, st.limit, st.planned, t)
  }

  /** Planning has dropped the qualifiers it came to (`Rewriter.BuildSelectPlan`). */
  ghost predicate PlannedFrom(rule: Rule, st: Statement) {
    rule.table != "" && Cleared(st.parsed, st.planned, rule.table, c => Visits(st.where, c))
  }

  /** A backend refuses a table it does not have, and a column of the unsharded table, which the statement
      does not read from. */
  function Refusal(rule: Rule, shards: Contents, sql: Rendered): Option<Failure> {
    if sql.table !in shards then Some(NoSuchTable)
    else if rule.table in sql.quals then Some(UnknownColumn)
    else None
  }

  /** The reply to a statement without a limit. */
  function Reply(m: Meaning, rule: Rule, shards: Contents, sql: Rendered): Result<seq<Row>> {
    match Refusal(rule, shards, sql)
    case Some(e) => Err(e)
    case None => Ok(Filter(m, sql.where, RowsOf(shards, sql.table)))
  }

  /** All replies together, or the first refusal. */
  function Collect<T>(replies: seq<Result<seq<T>>>): Result<seq<T>> {
    if replies == [] then Ok([])
    else
      var before :- Collect(replies[..|replies| - 1]);
      var last :- replies[|replies| - 1];
      Ok(before + last)
  }

  lemma {:induction false} CollectOk<T>(replies: seq<Result<seq<T>>>)
    ensures Collect(replies).Ok? <==> forall i :: 0 <= i < |replies| ==> replies[i].Ok?
  {
    if replies != [] {
      CollectOk(replies[..|replies| - 1]);
    }
  }

  lemma OneRefusal(e: Failure)
    ensures Collect<Row>([Err(e)]) == Err(e)
  {
    var replies: seq<Result<seq<Row>>> := [Err(e)];
    assert replies[..0] == [];
    assert Collect<Row>([]) == Ok([]);
    assert Collect(replies) == Err(e);
  }

  lemma {:induction false} CollectConcat<T>(replies: seq<Result<seq<T>>>, parts: seq<seq<T>>)
    requires |parts| == |replies| && forall i :: 0 <= i < |parts| ==> replies[i] == Ok(parts[i])
    ensures Collect(replies) == Ok(Flatten(parts))
  {
    if replies != [] {
      CollectConcat(replies[..|replies| - 1], parts[..|parts| - 1]);
    }
  }

  // ---------------------------------------------------------------- when a statement is answered

  /** A test routes to `t` because one of its literals is placed there, whether `t` is configured or not:
      equality and IN. Every other test keeps to the configured sub-tables. */
  predicate NamesTest(rule: Rule, c: KeyTest, t: int) {
    match c
    case Compare(op, lit) => (op == Eq || op == Nse) && IndexOf(rule.shard, lit) == Ok(t)
    case Member(negated, elems) => !negated && SomeIndex(rule.shard, elems, t)
    case Between(_, _, _) => false
  }

  /** The tree routes to `t` by naming it. */
  predicate Names(rule: Rule, p: Pred, t: int) {
    match p
    case And(l, r) => Names(rule, l, t) && Names(rule, r, t)
    case Or(l, r) => Names(rule, l, t) || Names(rule, r, t)
    case Paren(e) => Names(rule, e, t)
    case _ => KeyLeaf(rule.key, p) && NamesTest(rule, TestOf(rule.key, p), t)
  }

  lemma PlacedWithin(rule: Rule, v: Val)
    requires ValidRule(rule) && !rule.ruleType.DateRule? && !rule.ruleType.DefaultRule?
    ensures IndexOf(rule.shard, v).Ok? ==> IndexOf(rule.shard, v).value in rule.subTables
  {
    if IndexOf(rule.shard, v).Ok? {
      var t := IndexOf(rule.shard, v).value;
      assert 0 <= t < |rule.subTables|;
      assert rule.subTables[t] == t;
    }
  }

  lemma NumberedWithin(rule: Rule, t: int)
    requires ValidRule(rule) && (rule.ruleType.HashRule? || rule.ruleType.RangeRule?)
    ensures t in rule.subTables <==> 0 <= t < |rule.subTables|
  {
    if 0 <= t < |rule.subTables| {
      assert rule.subTables[t] == t;
    }
  }

  /** One key test reaches an unconfigured sub-table exactly when an equality or IN literal is placed
      there. */
  lemma TestNames(rule: Rule, c: KeyTest, t: int)
    requires ValidRule(rule) && !rule.ruleType.DefaultRule? && PlansTest(rule, c) && t !in rule.subTables
    requires c.Compare? ==> c.op in {Eq, Lt, Gt, Le, Ge, Nse}
    ensures RoutesTest(rule, c, t) <==> NamesTest(rule, c, t)
  {
    if !rule.ruleType.DateRule? {
      NumberedWithin(rule, t);
      match c
      case Compare(_, lit) => PlacedWithin(rule, lit);
      case Member(_, elems) =>
      case Between(_, from, to) =>
        PlacedWithin(rule, from);
        PlacedWithin(rule, to);
    }
  }

  lemma {:induction false} TreeNames(rule: Rule, p: Pred, t: int)
    requires ValidRule(rule) && !rule.ruleType.DefaultRule? && Plans(rule, p) && t !in rule.subTables
    ensures Routes(rule, p, t) <==> Names(rule, p, t)
  {
    match p
    case And(l, r) =>
      TreeNames(rule, l, t);
      TreeNames(rule, r, t);
    case Or(l, r) =>
      TreeNames(rule, l, t);
      TreeNames(rule, r, t);
    case Paren(e) => TreeNames(rule, e, t);
    case _ => LeafNames(rule, p, t);
  }

  lemma LeafNames(rule: Rule, p: Pred, t: int)
    requires ValidRule(rule) && !rule.ruleType.DefaultRule? && PlansLeaf(rule, p) && t !in rule.subTables
    ensures RoutesLeaf(rule, p, t) <==> KeyLeaf(rule.key, p) && NamesTest(rule, TestOf(rule.key, p), t)
  {
    if KeyLeaf(rule.key, p) {
      TestNames(rule, TestOf(rule.key, p), t);
    }
  }

  /** Every sub-table the tree names is configured. */
  ghost predicate NamesConfigured(rule: Rule, p: Pred) {
    forall t :: Names(rule, p, t) ==> t in rule.subTables
  }

  /** In hash and range rules whatever has a place has a configured one. */
  lemma {:induction false} LocatedNames(rule: Rule, p: Pred, t: int)
    requires ValidRule(rule) && (rule.ruleType.HashRule? || rule.ruleType.RangeRule?) && Names(rule, p, t)
    ensures t in rule.subTables
  {
    match p
    case And(l, r) => LocatedNames(rule, l, t);
    case Or(l, r) =>
      if Names(rule, l, t) {
        LocatedNames(rule, l, t);
      } else {
        LocatedNames(rule, r, t);
      }
    case Paren(e) => LocatedNames(rule, e, t);
    case _ => LocatedLeaf(rule, p, t);
  }

  lemma LocatedLeaf(rule: Rule, p: Pred, t: int)
    requires ValidRule(rule) && (rule.ruleType.HashRule? || rule.ruleType.RangeRule?)
    ensures KeyLeaf(rule.key, p) && NamesTest(rule, TestOf(rule.key, p), t) ==> t in rule.subTables
  {
    forall v
      ensures IndexOf(rule.shard, v) == Ok(t) ==> t in rule.subTables
    {
      PlacedWithin(rule, v);
    }
  }

  /** Planning or rewriting comes to every column that names the table. */
  predicate NoLeftover(rule: Rule, st: Statement) {
    forall c :: 0 <= c < |st.parsed| && st.parsed[c] == rule.table ==>
      Visits(st.where, c) || Reaches(st.where, c) || ReachesAny(st.orderBy, c)
  }

  /** The exact condition for a planned SELECT to be answered rather than refused: something is routed to,
      equality and IN literals are placed in configured sub-tables, and no column keeps the qualifier of
      the unsharded table. */
  ghost predicate Answerable(rule: Rule, st: Statement)
    requires Plans(rule, st.where)
  {
    (exists t :: Routes(rule, st.where, t)) && NamesConfigured(rule, st.where) && NoLeftover(rule, st)
  }

  lemma LeftoverRefused(rule: Rule, st: Statement, t: int)
    requires PlannedFrom(rule, st)
    ensures rule.table in SqlFor(rule, st, t).quals <==> !NoLeftover(rule, st)
  {
    var quals := SqlFor(rule, st, t).quals;
    forall c: nat | c < |st.parsed|
      ensures quals[c] == rule.table <==>
              st.parsed[c] == rule.table && !Visits(st.where, c) && !Reaches(st.where, c) && !ReachesAny(st.orderBy, c)
    {
      LeftoverQualifiers(st.parsed, st.planned, rule, st.where, st.orderBy, st.limit, t, c);
    }
  }

  /** A routed sub-table is refused exactly when it is not configured or a qualifier is left over. */
  lemma RefusedWhen(m: Meaning, rule: Rule, st: Statement, shards: Contents, tables: seq<int>, t: int)
    requires Query(m, rule, st.where, shards, tables) && PlannedFrom(rule, st)
    ensures Refusal(rule, shards, SqlFor(rule, st, t)).None? <==> t in rule.subTables && NoLeftover(rule, st)
  {
    LeftoverRefused(rule, st, t);
  }

  /** No routed sub-table is refused. */
  predicate Unrefused(rule: Rule, st: Statement, shards: Contents, tables: seq<int>) {
    tables == [] ||
    (Unrefused(rule, st, shards, tables[..|tables| - 1]) && Refusal(rule, shards, SqlFor(rule, st, tables[|tables| - 1])).None?)
  }

  lemma {:induction false} UnrefusedAll(rule: Rule, st: Statement, shards: Contents, tables: seq<int>)
    ensures Unrefused(rule, st, shards, tables) <==>
            forall i :: 0 <= i < |tables| ==> Refusal(rule, shards, SqlFor(rule, st, tables[i])).None?
  {
    if tables != [] {
      UnrefusedAll(rule, st, shards, tables[..|tables| - 1]);
    }
  }

  lemma NothingRefused(m: Meaning, rule: Rule, st: Statement, shards: Contents, tables: seq<int>)
    requires Query(m, rule, st.where, shards, tables) && PlannedFrom(rule, st) && tables != []
    ensures Unrefused(rule, st, shards, tables) <==> Answerable(rule, st)
  {
    UnrefusedAll(rule, st, shards, tables);
    assert tables[0] in tables;
    forall i | 0 <= i < |tables|
      ensures Refusal(rule, shards, SqlFor(rule, st, tables[i])).None? <==>
              tables[i] in rule.subTables && NoLeftover(rule, st)
    {
      RefusedWhen(m, rule, st, shards, tables, tables[i]);
    }
    forall t | t !in rule.subTables
      ensures t in tables <==> Names(rule, st.where, t)
    {
      TreeNames(rule, st.where, t);
    }
  }

  // ---------------------------------------------------------------- the claim

  function Replies(m: Meaning, rule: Rule, st: Statement, shards: Contents, tables: seq<int>): seq<Result<seq<Row>>> {
    seq(|tables|, i requires 0 <= i < |tables| => Reply(m, rule, shards, SqlFor(rule, st, tables[i])))
  }

  /** What the client gets: an error when nothing is routed to or a backend refuses, else the rows. */
  function SelectAnswer(m: Meaning, rule: Rule, st: Statement, shards: Contents, tables: seq<int>): Result<seq<Row>> {
    if tables == [] then Err(NoCriteria) else Collect(Replies(m, rule, st, shards, tables))
  }

  lemma RepliesGathered(m: Meaning, rule: Rule, st: Statement, shards: Contents, tables: seq<int>)
    requires Unrefused(rule, st, shards, tables)
    ensures Collect(Replies(m, rule, st, shards, tables)) == Ok(Gathered(m, rule, st.where, shards, tables))
  {
    UnrefusedAll(rule, st, shards, tables);
    var parts := seq(|tables|, i requires 0 <= i < |tables| =>
      Filter(m, WhereFor(rule, st.where, tables[i]), RowsOf(shards, tables[i])));
    CollectConcat(Replies(m, rule, st, shards, tables), parts);
    PartsGathered(m, rule, st.where, shards, tables, parts);
  }

  lemma {:induction false} PartsGathered(
      m: Meaning, rule: Rule, p: Pred, shards: Contents, tables: seq<int>, parts: seq<seq<Row>>)
    requires |parts| == |tables|
    requires forall i :: 0 <= i < |parts| ==> parts[i] == Filter(m, WhereFor(rule, p, tables[i]), RowsOf(shards, tables[i]))
    ensures Flatten(parts) == Gathered(m, rule, p, shards, tables)
  {
    if tables != [] {
      PartsGathered(m, rule, p, shards, tables[..|tables| - 1], parts[..|parts| - 1]);
    }
  }

  /** Sharded SELECT keeps its meaning: it is answered if and only if it is answerable, and then with, as
      a multiset, exactly the rows of the logical table that satisfy the original WHERE tree. */
  lemma ShardedSelect(m: Meaning, rule: Rule, st: Statement, shards: Contents, tables: seq<int>)
    requires Query(m, rule, st.where, shards, tables) && PlannedFrom(rule, st) && st.limit.None?
    ensures SelectAnswer(m, rule, st, shards, tables).Ok? <==> Answerable(rule, st)
    ensures Answerable(rule, st) ==>
              multiset(SelectAnswer(m, rule, st, shards, tables).value) ==
              multiset(Filter(m, st.where, Logical(shards, rule.subTables)))
    ensures tables == [] ==> Filter(m, st.where, Logical(shards, rule.subTables)) == []
  {
    if tables != [] {
      NothingRefused(m, rule, st, shards, tables);
      AnswerFrom(m, rule, st, shards, tables);
    }
    GatheredIsSelected(m, rule, st.where, shards, tables);
  }

  lemma AnswerFrom(m: Meaning, rule: Rule, st: Statement, shards: Contents, tables: seq<int>)
    requires tables != []
    ensures SelectAnswer(m, rule, st, shards, tables).Ok? <==> Unrefused(rule, st, shards, tables)
    ensures Unrefused(rule, st, shards, tables) ==>
              SelectAnswer(m, rule, st, shards, tables) == Ok(Gathered(m, rule, st.where, shards, tables))
  {
    var replies := Replies(m, rule, st, shards, tables);
    CollectOk(replies);
    UnrefusedAll(rule, st, shards, tables);
    assert forall i :: 0 <= i < |tables| ==>
      (replies[i].Ok? <==> Refusal(rule, shards, SqlFor(rule, st, tables[i])).None?);
    if Unrefused(rule, st, shards, tables) {
      RepliesGathered(m, rule, st, shards, tables);
    }
  }

  // ---------------------------------------------------------------- IN beside NOT IN

  /** `d in (june) and d not in (may)` in a day rule is a query of the kind above, routed to one sub-table:
      the groups that NOT IN leaves behind belong to a sub-table nothing is sent to. */
  lemma InBesideNotIn(m: Meaning, rule: Rule, shards: Contents, may: string, june: string)
    requires DayRule(rule, may, june) && m.key == "d" && m.kind == DateColumn
    requires Placed(rule, m.kind, shards) && Deployed(rule, shards) && DateIndex(Day, june) in rule.subTables
    ensures var p, t := And(Leaf(0, In, june), Leaf(1, NotIn, may)), DateIndex(Day, june);
            Query(m, rule, p, shards, [t]) && WhereFor(rule, p, t) == p
  {
    DayIndexApart(may, june);
    BesideRouted(rule, may, june);
    NothingExchanged(rule, may, june);
  }

  lemma BesideRouted(rule: Rule, may: string, june: string)
    requires DayRule(rule, may, june) && DateIndex(Day, june) in rule.subTables && DateIndex(Day, june) != DateIndex(Day, may)
    ensures var p := And(Leaf(0, In, june), Leaf(1, NotIn, may));
            && Plans(rule, p) && TreeOk(rule, DateColumn, p) && DistinctIds(p)
            && forall t :: Routes(rule, p, t) <==> t == DateIndex(Day, june)
  {
    var l, r := Leaf(0, In, june), Leaf(1, NotIn, may);
    InRouted(rule, june);
    NotInRouted(rule, may);
    assert Ids(l) == [0] && Ids(r) == [1] && Ids(And(l, r)) == [0, 1];
  }

  lemma NothingExchanged(rule: Rule, may: string, june: string)
    requires DayRule(rule, may, june)
    ensures var p, t := And(Leaf(0, In, june), Leaf(1, NotIn, may)), DateIndex(Day, june);
            ExchangeOk(rule, DateColumn, p, t) && WhereFor(rule, p, t) == p
  {
    KeyIn(0, In, june);
    KeyIn(1, NotIn, may);
    assert RecordedList(rule, Leaf(1, NotIn, may)) == Some((1, [StrVal(may)]));
    NotGrouped(rule, may, june);
  }

  lemma NotGrouped(rule: Rule, may: string, june: string)
    requires DayRule(rule, may, june)
    ensures Group(rule.shard, [StrVal(may)], DateIndex(Day, june)) == []
  {
    DayIndexApart(may, june);
    FindDateIndex(Day, may);
    var list := [StrVal(may)];
    assert list[..0] == [];
  }

  lemma DayIndexApart(a: string, b: string)
    requires IsBareDate(a) && IsBareDate(b) && a != b
    ensures DateIndex(Day, a) != DateIndex(Day, b)
  {
    if DateIndex(Day, a) == DateIndex(Day, b) {
      DayIndexInjective(a, b);
    }
  }

  // ---------------------------------------------------------------- refused statements

  /** `d = 'day'` for a day that no range of the rule covers: the statement goes to a table that does not
      exist, and the client gets an error instead of no rows. */
  lemma UnconfiguredLiteral(m: Meaning, rule: Rule, shards: Contents, id: nat, col: nat, day: string)
    requires ValidRule(rule) && m.key == rule.key == "d" && rule.ruleType == DateRule(Day) && m.kind == DateColumn
    requires Placed(rule, m.kind, shards) && Deployed(rule, shards)
    requires IsBareDate(day) && DateIndex(Day, day) !in rule.subTables
    ensures var p, t := Cmp(id, Eq, Col(col, "d"), StrVal(day)), DateIndex(Day, day);
            && Query(m, rule, p, shards, [t])
            && forall quals :: SelectAnswer(m, rule, Statement(p, [], None, quals, quals), shards, [t]) == Err(NoSuchTable)
  {
    var p, t := Cmp(id, Eq, Col(col, "d"), StrVal(day)), DateIndex(Day, day);
    FindDateIndex(Day, day);
    assert Lower("d") == "d";
    assert TestOf("d", p) == Compare(Eq, StrVal(day));
    assert Ids(p) == [id];
    forall quals
      ensures SelectAnswer(m, rule, Statement(p, [], None, quals, quals), shards, [t]) == Err(NoSuchTable)
    {
      assert Replies(m, rule, Statement(p, [], None, quals, quals), shards, [t]) == [Err(NoSuchTable)];
      OneRefusal(NoSuchTable);
    }
  }

  /** `k = a and k = b` for literals placed in different sub-tables: nothing is routed to, and the client
      gets an error instead of no rows. */
  lemma ContradictionRefused(m: Meaning, rule: Rule, shards: Contents, p: Pred, a: Val, b: Val, l: Pred, r: Pred)
    requires p == And(l, r) && KeyLeaf(rule.key, l) && KeyLeaf(rule.key, r)
    requires TestOf(rule.key, l) == Compare(Eq, a) && TestOf(rule.key, r) == Compare(Eq, b)
    requires IndexOf(rule.shard, a).Ok? && IndexOf(rule.shard, b).Ok?
    requires IndexOf(rule.shard, a).value != IndexOf(rule.shard, b).value
    ensures Plans(rule, p) && forall t :: !Routes(rule, p, t)
    ensures forall st: Statement :: st.where == p ==> SelectAnswer(m, rule, st, shards, []) == Err(NoCriteria)
  {
    forall t
      ensures Plans(rule, p) && !Routes(rule, p, t)
    {
      assert Routes(rule, l, t) ==> t == IndexOf(rule.shard, a).value;
      assert Routes(rule, r, t) ==> t == IndexOf(rule.shard, b).value;
    }
  }

  /** `not (t.x between ...)`: neither planning nor rewriting comes to the column, and the printed
      qualifier names a table the statement does not read from. */
  lemma NegatedRangeRefused(rule: Rule, from: Val, to: Val, limit: Option<Limit>)
    ensures !NoLeftover(rule, Statement(Not(Range(false, Col(0, "x"), from, to)), [], limit, [rule.table], [rule.table]))
  {
    var st := Statement(Not(Range(false, Col(0, "x"), from, to)), [], limit, [rule.table], [rule.table]);
    assert st.parsed[0] == rule.table;
    assert !Reaches(Range(false, Col(0, "x"), from, to), 0);
    assert !Visits(st.where, 0) && !Reaches(st.where, 0) && !ReachesAny(st.orderBy, 0);
  }

  // ---------------------------------------------------------------- ORDER BY and LIMIT

  /** Each backend that does not refuse sorts the rows its statement selects. */
  ghost predicate BackendSorts(
    m: Meaning, rule: Rule, p: Pred, shards: Contents, tables: seq<int>, keys: seq<SortKey>, sorted: seq<seq<Row>>)
  {
    && |sorted| == |tables|
    && forall i {:trigger BackendSort(m, rule, p, shards, tables[i], keys, sorted[i])} :: 0 <= i < |tables| ==>
         BackendSort(m, rule, p, shards, tables[i], keys, sorted[i])
  }

  ghost predicate BackendSort(m: Meaning, rule: Rule, p: Pred, shards: Contents, t: int, keys: seq<SortKey>, sorted: seq<Row>) {
    IsSort(keys, sorted, Filter(m, WhereFor(rule, p, t), RowsOf(shards, t)))
  }

  lemma {:induction false} SortedIsGathered(
      m: Meaning, rule: Rule, p: Pred, shards: Contents, tables: seq<int>, keys: seq<SortKey>, sorted: seq<seq<Row>>)
    requires BackendSorts(m, rule, p, shards, tables, keys, sorted)
    ensures multiset(Flatten(sorted)) == multiset(Gathered(m, rule, p, shards, tables))
  {
    if tables != [] {
      var n := |tables| - 1;
      forall i | 0 <= i < n
        ensures BackendSort(m, rule, p, shards, tables[..n][i], keys, sorted[..n][i])
      {
        assert BackendSort(m, rule, p, shards, tables[i], keys, sorted[i]);
      }
      SortedIsGathered(m, rule, p, shards, tables[..n], keys, sorted[..n]);
      assert BackendSort(m, rule, p, shards, tables[n], keys, sorted[n]);
    }
  }

  /** How many rows a printed limit asks a backend for. */
  function Asked(limit: Option<Limit>): Option<nat> {
    match limit
    case None => None
    case Some(l) => (match Number(l.rowcount) case Ok(n) => (if n >= 0 then Some(n) else None) case Err(_) => None)
  }

  /** The statement's limit is [offset, offset + count). */
  predicate LimitIs(st: Statement, offset: nat, count: nat) {
    && st.limit.Some? && SliceLimit(st.limit.value)
    && Offset(st.limit.value).value == offset && Number(st.limit.value.rowcount).value == count
  }

  lemma AskedIs(st: Statement, offset: nat, count: nat)
    requires LimitIs(st, offset, count)
    ensures AsksFor(st, offset + count)
  {
    RewrittenLimit(st.limit.value);
  }

  /** The reply to a statement with a limit: as many rows of the sort as the printed limit asks for. */
  function LimitedReply(rule: Rule, st: Statement, shards: Contents, t: int, sorted: seq<Row>): Result<seq<Row>> {
    match Refusal(rule, shards, SqlFor(rule, st, t))
    case Some(e) => Err(e)
    case None => Ok(match Asked(SqlFor(rule, st, t).limit) case Some(n) => Take(sorted, n) case None => sorted)
  }

  function LimitedReplies(rule: Rule, st: Statement, shards: Contents, tables: seq<int>, sorted: seq<seq<Row>>): seq<Result<seq<Row>>>
    requires |sorted| == |tables|
  {
    seq(|tables|, i requires 0 <= i < |tables| => LimitedReply(rule, st, shards, tables[i], sorted[i]))
  }

  /** The printed limit asks for `n` rows. */
  predicate AsksFor(st: Statement, n: nat) {
    Asked(PushedLimit(st.limit)) == Some(n)
  }

  lemma LimitedCollect(rule: Rule, st: Statement, shards: Contents, tables: seq<int>, sorted: seq<seq<Row>>, n: nat)
    requires |sorted| == |tables| && AsksFor(st, n)
    ensures var all := Collect(LimitedReplies(rule, st, shards, tables, sorted));
            && (all.Ok? <==> Unrefused(rule, st, shards, tables))
            && (all.Ok? ==> all.value == Flatten(Prefixes(sorted, n)))
  {
    var replies := LimitedReplies(rule, st, shards, tables, sorted);
    CollectOk(replies);
    UnrefusedAll(rule, st, shards, tables);
    assert forall i :: 0 <= i < |tables| ==>
      (replies[i].Ok? <==> Refusal(rule, shards, SqlFor(rule, st, tables[i])).None?);
    if Unrefused(rule, st, shards, tables) {
      forall i | 0 <= i < |tables|
        ensures replies[i] == Ok(Prefixes(sorted, n)[i])
      {
        assert SqlFor(rule, st, tables[i]).limit == PushedLimit(st.limit);
      }
      CollectConcat(replies, Prefixes(sorted, n));
    }
  }

  lemma OrderedSlice(
      m: Meaning, rule: Rule, p: Pred, shards: Contents, tables: seq<int>,
      keys: seq<SortKey>, offset: nat, count: nat, sorted: seq<seq<Row>>, merged: seq<Row>) returns (full: seq<Row>)
    requires BackendSorts(m, rule, p, shards, tables, keys, sorted)
    requires IsSort(keys, merged, Flatten(Prefixes(sorted, offset + count)))
    ensures IsSort(keys, full, Gathered(m, rule, p, shards, tables))
    ensures Slice(merged, offset, count) == Slice(full, offset, count)
  {
    forall i | 0 <= i < |sorted|
      ensures Sorted(keys, sorted[i])
    {
      assert BackendSort(m, rule, p, shards, tables[i], keys, sorted[i]);
    }
    full := TopKSlice(keys, sorted, offset, count, merged);
    SortedIsGathered(m, rule, p, shards, tables, keys, sorted);
  }

  /** A sharded SELECT with ORDER BY and LIMIT: every backend sorts and sends as many rows as the
      rewritten limit says, the proxy sorts what arrives and cuts out [offset, offset + count). It is
      answered if and only if it is answerable, and then the result is exactly that cut of some sort of
      the selected rows of the logical table. */
  lemma ShardedSelectOrdered(
      m: Meaning, rule: Rule, st: Statement, shards: Contents, tables: seq<int>, keys: seq<SortKey>,
      offset: nat, count: nat, sorted: seq<seq<Row>>, merged: seq<Row>) returns (full: seq<Row>)
    requires Query(m, rule, st.where, shards, tables) && PlannedFrom(rule, st) && tables != []
    requires LimitIs(st, offset, count)
    requires BackendSorts(m, rule, st.where, shards, tables, keys, sorted)
    requires var all := Collect(LimitedReplies(rule, st, shards, tables, sorted)); all.Ok? ==> IsSort(keys, merged, all.value)
    ensures Collect(LimitedReplies(rule, st, shards, tables, sorted)).Ok? <==> Answerable(rule, st)
    ensures Answerable(rule, st) ==>
              CutOfSort(keys, full, Filter(m, st.where, Logical(shards, rule.subTables)), merged, offset, count)
    ensures Answerable(rule, st) ==> CellsInOrder(keys, full)
  {
    AskedIs(st, offset, count);
    full := OrderedWhen(m, rule, st, shards, tables, keys, offset, count, sorted, merged);
    SortedCells(keys, full);
  }

  lemma OrderedWhen(
      m: Meaning, rule: Rule, st: Statement, shards: Contents, tables: seq<int>, keys: seq<SortKey>,
      offset: nat, count: nat, sorted: seq<seq<Row>>, merged: seq<Row>) returns (full: seq<Row>)
    requires Query(m, rule, st.where, shards, tables) && PlannedFrom(rule, st) && tables != []
    requires AsksFor(st, offset + count)
    requires BackendSorts(m, rule, st.where, shards, tables, keys, sorted)
    requires var all := Collect(LimitedReplies(rule, st, shards, tables, sorted)); all.Ok? ==> IsSort(keys, merged, all.value)
    ensures Collect(LimitedReplies(rule, st, shards, tables, sorted)).Ok? <==> Answerable(rule, st)
    ensures Answerable(rule, st) ==>
              CutOfSort(keys, full, Filter(m, st.where, Logical(shards, rule.subTables)), merged, offset, count)
  {
    var all := Collect(LimitedReplies(rule, st, shards, tables, sorted));
    LimitedWhen(m, rule, st, shards, tables, sorted, offset + count);
    full := [];
    if all.Ok? {
      full := OrderedFrom(m, rule, st.where, shards, tables, keys, offset, count, sorted, merged);
    }
  }

  lemma LimitedWhen(
      m: Meaning, rule: Rule, st: Statement, shards: Contents, tables: seq<int>, sorted: seq<seq<Row>>, n: nat)
    requires Query(m, rule, st.where, shards, tables) && PlannedFrom(rule, st) && tables != []
    requires |sorted| == |tables| && AsksFor(st, n)
    ensures var all := Collect(LimitedReplies(rule, st, shards, tables, sorted));
            && (all.Ok? <==> Answerable(rule, st))
            && (all.Ok? ==> all.value == Flatten(Prefixes(sorted, n)))
  {
    NothingRefused(m, rule, st, shards, tables);
    LimitedCollect(rule, st, shards, tables, sorted, n);
  }

  /** [offset, offset + count) is cut alike out of `merged` and of `full`, which is a sort of `rows`. */
  ghost predicate CutOfSort(keys: seq<SortKey>, full: seq<Row>, rows: seq<Row>, merged: seq<Row>, offset: nat, count: nat) {
    IsSort(keys, full, rows) && Slice(merged, offset, count) == Slice(full, offset, count)
  }

  lemma OrderedFrom(
      m: Meaning, rule: Rule, p: Pred, shards: Contents, tables: seq<int>, keys: seq<SortKey>,
      offset: nat, count: nat, sorted: seq<seq<Row>>, merged: seq<Row>) returns (full: seq<Row>)
    requires Query(m, rule, p, shards, tables) && BackendSorts(m, rule, p, shards, tables, keys, sorted)
    requires IsSort(keys, merged, Flatten(Prefixes(sorted, offset + count)))
    ensures CutOfSort(keys, full, Filter(m, p, Logical(shards, rule.subTables)), merged, offset, count)
  {
    full := OrderedSlice(m, rule, p, shards, tables, keys, offset, count, sorted, merged);
    GatheredIsSelected(m, rule, p, shards, tables);
  }
}
