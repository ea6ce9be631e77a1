/** One statement per routed sub-table (proxy/router/router.go): the tree is changed in place, printed,
    and put back. */
module Rewriter {
  import opened Prelude
  import opened Text
  import opened SortedLists
  import opened Shards
  import opened Rules
  import opened Where
  import opened Limits
  import opened Planner
  import opened Planning

  /** `digits` with zeros in front of it up to `width`. */
  function Padded(digits: string, width: nat): (s: string)
    ensures |s| >= |digits|
  {
    seq(if |digits| < width then width - |digits| else 0, i => '0') + digits
  }

  /** table_%04d */
  function SubName(table: string, t: int): (name: string)
    ensures |name| > |table|
  {
    table + "_" + if t < 0 then "-" + Padded(FormatNat(-t), 3) else Padded(FormatNat(t), 4)
  }

  lemma {:induction false} ZerosNum(n: nat)
    ensures AllDigits(seq(n, i => '0')) && Num(seq(n, i => '0')) == 0
  {
    if n > 0 {
      ZerosNum(n - 1);
      assert seq(n, i => '0')[..n - 1] == seq(n - 1, i => '0');
    }
  }

  lemma ZerosInFront(n: nat, digits: string)
    requires AllDigits(digits)
    ensures AllDigits(seq(n, i => '0') + digits) && Num(seq(n, i => '0') + digits) == Num(digits)
  {
    ZerosNum(n);
    NumOfConcat(seq(n, i => '0'), digits);
  }

  lemma PaddedNum(n: nat, width: nat)
    ensures var s := Padded(FormatNat(n), width);
            AllDigits(s) && Num(s) == n && |s| >= width && (|s| > width ==> s == FormatNat(n))
  {
    var digits := FormatNat(n);
    ZerosInFront(if |digits| < width then width - |digits| else 0, digits);
    NumOfFormat(n);
    if |digits| >= width {
      assert Padded(digits, width) == digits;
    }
  }

  /** A sub-table is named after the table and its number, in four digits or more; different numbers give
      different names. */
  lemma SubNameReads(table: string, t: nat, u: nat)
    ensures var d := Padded(FormatNat(t), 4);
            SubName(table, t) == table + "_" + d && |d| >= 4 && AllDigits(d) && Num(d) == t && (|d| > 4 ==> d == FormatNat(t))
    ensures SubName(table, t) == SubName(table, u) ==> t == u
  {
    PaddedNum(t, 4);
    PaddedNum(u, 4);
    SameTail(table + "_", Padded(FormatNat(t), 4), Padded(FormatNat(u), 4));
  }

  lemma SameTail(front: string, a: string, b: string)
    ensures front + a == front + b ==> a == b
  {
    if front + a == front + b {
      assert a == (front + a)[|front|..] && b == (front + b)[|front|..];
    }
  }

  // ---------------------------------------------------------------- qualifiers

  predicate IsCol(v: Val, c: int) {
    v.Col? && v.col == c
  }

  /** rewriteWhereQualifier comes to column `c`: an operand of a comparison, anywhere in the tree. */
  predicate Reaches(p: Pred, c: int) {
    match p
    case And(l, r) => Reaches(l, c) || Reaches(r, c)
    case Or(l, r) => Reaches(l, c) || Reaches(r, c)
    case Not(e) => Reaches(e, c)
    case Paren(e) => Reaches(e, c)
    case Cmp(_, _, lhs, rhs) => IsCol(lhs, c) || IsCol(rhs, c)
    case _ => false
  }

  predicate ReachesAny(vs: seq<Val>, c: int) {
    exists i :: 0 <= i < |vs| && IsCol(vs[i], c)
  }

  /** Qualifiers with those of the `reached` columns naming the sub-table instead of the table. */
  function Tagged(quals: seq<string>, table: string, t: int, reached: int -> bool): (r: seq<string>)
    ensures |r| == |quals|
  {
    seq(|quals|, c requires 0 <= c < |quals| => if reached(c) && quals[c] == table then SubName(table, t) else quals[c])
  }

  /** The state while qualifiers are exchanged: `saved` has the old value of every one changed. */
  ghost predicate Exchanged(
    before: seq<string>, now: seq<string>, saved: map<int, string>, table: string, t: int, reached: int -> bool)
  {
    && now == Tagged(before, table, t, reached)
    && (forall c :: c in saved <==> 0 <= c < |before| && reached(c) && before[c] == table)
    && (forall c :: c in saved ==> saved[c] == before[c])
  }

  method ResetQualifier(plan: Plan, v: Val, t: int, rq: map<int, string>, ghost before: seq<string>, ghost reached: int -> bool)
    returns (saved: map<int, string>)
    requires ColsBelow(v, |plan.stmt.quals|)
    requires Exchanged(before, plan.stmt.quals, rq, plan.rule.table, t, reached)
    modifies plan.stmt`quals
    ensures Exchanged(before, plan.stmt.quals, saved, plan.rule.table, t, c => reached(c) || IsCol(v, c))
  {
    saved := rq;
    var stmt := plan.stmt;
    if v.Col? && stmt.quals[v.col] == plan.rule.table {
      saved := rq[v.col := stmt.quals[v.col]];
      stmt.quals := stmt.quals[v.col := SubName(stmt.quals[v.col], t)];
    }
  }

  /** The right operands of the moment are columns exactly where the parsed ones are. */
  predicate SameColumns(p: Pred, rights: map<nat, Val>) {
    match p
    case And(l, r) => SameColumns(l, rights) && SameColumns(r, rights)
    case Or(l, r) => SameColumns(l, rights) && SameColumns(r, rights)
    case Not(e) => SameColumns(e, rights)
    case Paren(e) => SameColumns(e, rights)
    case Cmp(id, _, _, rhs) => id in rights && (rights[id] == rhs || (rights[id].Tuple? && rhs.Tuple?))
    case _ => true
  }

  lemma ExchangedFor(before: seq<string>, now: seq<string>, saved: map<int, string>, table: string, t: int, f: int -> bool, g: int -> bool)
    requires Exchanged(before, now, saved, table, t, f)
    requires forall c :: f(c) <==> g(c)
    ensures Exchanged(before, now, saved, table, t, g)
  {
    assert Tagged(before, table, t, f) == Tagged(before, table, t, g);
  }

  method RewriteWhereQualifier(plan: Plan, p: Pred, t: int, rq: map<int, string>, ghost before: seq<string>, ghost reached: int -> bool)
    returns (saved: map<int, string>)
    requires PredBelow(p, |plan.stmt.quals|) && SameColumns(p, plan.stmt.rights)
    requires Exchanged(before, plan.stmt.quals, rq, plan.rule.table, t, reached)
    modifies plan.stmt`quals
    ensures Exchanged(before, plan.stmt.quals, saved, plan.rule.table, t, c => reached(c) || Reaches(p, c))
    decreases p
  {
    var stmt, table := plan.stmt, plan.rule.table;
    ghost var all := c => reached(c) || Reaches(p, c);
    match p
    case And(l, r) =>
      saved := RewriteWhereQualifier(plan, l, t, rq, before, reached);
      ghost var mid := c => reached(c) || Reaches(l, c);
      saved := RewriteWhereQualifier(plan, r, t, saved, before, mid);
      ExchangedFor(before, stmt.quals, saved, table, t, c => mid(c) || Reaches(r, c), all);
    case Or(l, r) =>
      saved := RewriteWhereQualifier(plan, l, t, rq, before, reached);
      ghost var mid := c => reached(c) || Reaches(l, c);
      saved := RewriteWhereQualifier(plan, r, t, saved, before, mid);
      ExchangedFor(before, stmt.quals, saved, table, t, c => mid(c) || Reaches(r, c), all);
    case Not(e) =>
      saved := RewriteWhereQualifier(plan, e, t, rq, before, reached);
      ExchangedFor(before, stmt.quals, saved, table, t, c => reached(c) || Reaches(e, c), all);
    case Paren(e) =>
      saved := RewriteWhereQualifier(plan, e, t, rq, before, reached);
      ExchangedFor(before, stmt.quals, saved, table, t, c => reached(c) || Reaches(e, c), all);
    case Cmp(id, _, lhs, rhs) =>
      var right := stmt.rights[id];
      saved := ResetQualifier(plan, lhs, t, rq, before, reached);
      ghost var mid := c => reached(c) || IsCol(lhs, c);
      if right.Tuple? {
        ExchangedFor(before, stmt.quals, saved, table, t, mid, all);
      } else {
        saved := ResetQualifier(plan, right, t, saved, before, mid);
        ExchangedFor(before, stmt.quals, saved, table, t, c => mid(c) || IsCol(right, c), all);
      }
    case _ =>
      saved := rq;
      ExchangedFor(before, stmt.quals, saved, table, t, reached, all);
  }

  /** Putting every saved qualifier back, in whatever order the map is walked. */
  method RestoreQualifiers(stmt: SelectStmt, saved: map<int, string>, ghost before: seq<string>, ghost table: string, ghost t: int, ghost reached: int -> bool)
    requires Exchanged(before, stmt.quals, saved, table, t, reached)
    modifies stmt`quals
    ensures stmt.quals == before
  {
    var todo := saved.Keys;
    while todo != {}
      invariant forall c :: c in todo ==> c in saved
      invariant |stmt.quals| == |before|
      invariant forall c :: 0 <= c < |before| && c !in todo ==> stmt.quals[c] == before[c]
    {
      HasMember(todo);
      var c :| c in todo;
      stmt.quals := stmt.quals[c := saved[c]];
      todo := todo - {c};
    }
  }

  // ---------------------------------------------------------------- one sub-table

  /** The plan holds what planning the statement's WHERE tree recorded. */
  ghost predicate Planned(plan: Plan)
    reads plan, plan.stmt
  {
    && plan.stmt.Valid()
    && plan.InRightToReplace == RecordedIn(plan.rule, plan.stmt.where)
    && (plan.InRightToReplace.Some? ==> plan.InRightToReplace.value in plan.stmt.rights)
    && (plan.InRightToReplace.Some? ==> plan.stmt.rights[plan.InRightToReplace.value].Tuple?)
    && (match RecordedList(plan.rule, plan.stmt.where)
        case Some(list) => IsGroups(plan.rule.shard, list.1, plan.SubTableValueGroups)
        case None => plan.SubTableValueGroups == map[])
  }

  lemma {:induction false} SameColumnsReplaced(p: Pred, rights: map<nat, Val>, id: nat, v: Val)
    requires Agrees(p, rights) && v.Tuple? && id in rights && rights[id].Tuple?
    ensures SameColumns(p, rights) && SameColumns(p, rights[id := v])
  {
    match p
    case And(l, r) =>
      SameColumnsReplaced(l, rights, id, v);
      SameColumnsReplaced(r, rights, id, v);
    case Or(l, r) =>
      SameColumnsReplaced(l, rights, id, v);
      SameColumnsReplaced(r, rights, id, v);
    case Not(e) => SameColumnsReplaced(e, rights, id, v);
    case Paren(e) => SameColumnsReplaced(e, rights, id, v);
    case _ =>
  }

  lemma {:induction false} SameColumnsParsed(p: Pred, rights: map<nat, Val>)
    requires Agrees(p, rights)
    ensures SameColumns(p, rights)
  {
    match p
    case And(l, r) =>
      SameColumnsParsed(l, rights);
      SameColumnsParsed(r, rights);
    case Or(l, r) =>
      SameColumnsParsed(l, rights);
      SameColumnsParsed(r, rights);
    case Not(e) => SameColumnsParsed(e, rights);
    case Paren(e) => SameColumnsParsed(e, rights);
    case _ =>
  }

  /** rewriteWhereIn: exchange the recorded list for its group, giving back the old one. */
  method RewriteWhereIn(plan: Plan, t: int) returns (oldRight: Option<Val>)
    requires Planned(plan)
    modifies plan.stmt`rights
    ensures Resolve(plan.stmt.where, plan.stmt.rights) == WhereFor(plan.rule, plan.stmt.where, t)
    ensures SameColumns(plan.stmt.where, plan.stmt.rights)
    ensures oldRight.None? ==> plan.stmt.rights == old(plan.stmt.rights)
    ensures oldRight.Some? ==>
              && plan.InRightToReplace.Some?
              && plan.stmt.rights[plan.InRightToReplace.value := oldRight.value] == old(plan.stmt.rights)
  {
    oldRight := None;
    var stmt := plan.stmt;
    ResolveReplaced(stmt.where, stmt.rights, 0, ValArg);
    SameColumnsParsed(stmt.where, stmt.rights);
    if plan.InRightToReplace.Some? && t in plan.SubTableValueGroups {
      var id, group := plan.InRightToReplace.value, Tuple(plan.SubTableValueGroups[t]);
      oldRight := Some(stmt.rights[id]);
      ResolveReplaced(stmt.where, stmt.rights, id, group);
      SameColumnsReplaced(stmt.where, stmt.rights, id, group);
      stmt.rights := stmt.rights[id := group];
    }
  }

  function PushedLimit(limit: Option<Limit>): Option<Limit> {
    match limit
    case None => None
    case Some(l) => (match RewriteLimit(l) case Ok(n) => Some(n) case Err(_) => Some(l))
  }

  /** The statement for sub-table `t`: the IN list cut down to `t`, the qualifiers that are reached
      naming `t`, the limit pushed down. */
  function SqlOf(rule: Rule, where: Pred, orderBy: seq<Val>, limit: Option<Limit>, quals: seq<string>, t: int): Rendered {
    Rendered(t, WhereFor(rule, where, t),
             Tagged(quals, rule.table, t, c => ReachesAny(orderBy, c) || Reaches(where, c)),
             PushedLimit(limit))
  }

  function Sql(plan: Plan, t: int): Rendered
    reads plan.stmt
  {
    SqlOf(plan.rule, plan.stmt.where, plan.stmt.orderBy, plan.stmt.limit, plan.stmt.quals, t)
  }

  method ResetOrder(plan: Plan, t: int) returns (saved: map<int, string>)
    requires forall i :: 0 <= i < |plan.stmt.orderBy| ==> ColsBelow(plan.stmt.orderBy[i], |plan.stmt.quals|)
    modifies plan.stmt`quals
    ensures Exchanged(old(plan.stmt.quals), plan.stmt.quals, saved, plan.rule.table, t, c => ReachesAny(plan.stmt.orderBy, c))
  {
    var stmt, table := plan.stmt, plan.rule.table;
    ghost var before := stmt.quals;
    saved := map[];
    assert stmt.quals == Tagged(before, table, t, c => ReachesAny(stmt.orderBy[..0], c));
    for i := 0 to |stmt.orderBy|
      invariant Exchanged(before, stmt.quals, saved, table, t, c => ReachesAny(stmt.orderBy[..i], c))
    {
      var v := stmt.orderBy[i];
      ghost var f := (c: int) => ReachesAny(stmt.orderBy[..i], c);
      saved := ResetQualifier(plan, v, t, saved, before, f);
      ghost var more := stmt.orderBy[..i + 1];
      forall c
        ensures f(c) || IsCol(v, c) <==> ReachesAny(more, c)
      {
        assert more[i] == v && forall j :: 0 <= j < i ==> more[j] == stmt.orderBy[..i][j];
      }
      ExchangedFor(before, stmt.quals, saved, table, t, c => f(c) || IsCol(v, c), c => ReachesAny(more, c));
    }
    assert stmt.orderBy[..|stmt.orderBy|] == stmt.orderBy;
  }

  /** rewriteSelectSql: prints the statement for `t` and leaves the parsed statement as it was, IN list
      and qualifiers alike. */
  method RewriteSelectSql(plan: Plan, t: int) returns (sql: Rendered)
    requires Planned(plan)
    modifies plan.stmt
    ensures plan.stmt.quals == old(plan.stmt.quals) && plan.stmt.rights == old(plan.stmt.rights)
    ensures sql == Sql(plan, t)
  {
    var stmt, table := plan.stmt, plan.rule.table;
    ghost var before := stmt.quals;
    var newLimit := PushedLimit(stmt.limit);
    var oldRight := RewriteWhereIn(plan, t);
    var saved := ResetOrder(plan, t);
    ghost var f := (c: int) => ReachesAny(stmt.orderBy, c);
    saved := RewriteWhereQualifier(plan, stmt.where, t, saved, before, f);
    ghost var g := (c: int) => f(c) || Reaches(stmt.where, c);
    sql := Rendered(t, Resolve(stmt.where, stmt.rights), stmt.quals, newLimit);
    assert sql.quals == Tagged(before, table, t, g);
    if oldRight.Some? {
      stmt.rights := stmt.rights[plan.InRightToReplace.value := oldRight.value];
    }
    RestoreQualifiers(stmt, saved, before, table, t, g);
    assert Tagged(before, table, t, g) == Tagged(before, table, t, c => ReachesAny(stmt.orderBy, c) || Reaches(stmt.where, c));
  }

  /** The printed statement is for sub-table `t`, and every qualifier that named the table and that planning
      did not drop names `t` if rewriting comes to it. */
  lemma QualifiersRewritten(rule: Rule, where: Pred, orderBy: seq<Val>, limit: Option<Limit>, quals: seq<string>, t: nat, c: nat)
    requires c < |quals|
    ensures var sql := SqlOf(rule, where, orderBy, limit, quals, t);
            && sql.table == t && |sql.quals| == |quals|
            && (quals[c] == rule.table && (Reaches(where, c) || ReachesAny(orderBy, c)) ==>
                  sql.quals[c] == rule.table + "_" + Padded(FormatNat(t), 4))
            && (quals[c] != rule.table || !(Reaches(where, c) || ReachesAny(orderBy, c)) ==> sql.quals[c] == quals[c])
  {
    assert SubName(rule.table, t) == rule.table + "_" + Padded(FormatNat(t), 4);
  }

  /** Rewriting comes to a column on either side of a comparison, however deep in conjunctions, disjunctions,
      negations and parentheses; planning to one in a comparison of its own kinds, in a list or in a range
      condition, but in no negation. */
  lemma ColumnsMet(id: nat, c: nat, name: string, other: Val, op: CmpOp, negated: bool, p: Pred, q: Pred)
    ensures Reaches(Cmp(id, op, Col(c, name), other), c) && Reaches(Cmp(id, op, other, Col(c, name)), c)
    ensures Reaches(p, c) ==>
              Reaches(And(p, q), c) && Reaches(And(q, p), c) && Reaches(Or(p, q), c) && Reaches(Or(q, p), c) &&
              Reaches(Not(p), c) && Reaches(Paren(p), c)
    ensures ReachesAny([other, Col(c, name)], c)
    ensures op != Ne && op != Like && op != NotLike ==>
              Visits(Cmp(id, op, Col(c, name), other), c) && Visits(Cmp(id, op, other, Col(c, name)), c)
    ensures Visits(Range(negated, Col(c, name), other, other), c) && Visits(Range(negated, other, Col(c, name), other), c)
    ensures Visits(Range(negated, other, other, Col(c, name)), c)
    ensures Visits(p, c) ==>
              Visits(And(p, q), c) && Visits(And(q, p), c) && Visits(Or(p, q), c) && Visits(Or(q, p), c) && Visits(Paren(p), c)
    ensures !Visits(Not(p), c)
  {
    assert IsCol([other, Col(c, name)][1], c);
  }

  /** Which qualifiers still name the unsharded table in a printed statement: those that did when
      parsed and that neither planning nor rewriting came to. */
  lemma LeftoverQualifiers(
      parsed: seq<string>, planned: seq<string>, rule: Rule, where: Pred, orderBy: seq<Val>, limit: Option<Limit>, t: int, c: nat)
    requires rule.table != "" && c < |parsed|
    requires Cleared(parsed, planned, rule.table, i => Visits(where, i))
    ensures SqlOf(rule, where, orderBy, limit, planned, t).quals[c] == rule.table <==>
            parsed[c] == rule.table && !Visits(where, c) && !Reaches(where, c) && !ReachesAny(orderBy, c)
  {
    assert planned[c] == if Visits(where, c) && parsed[c] == rule.table then "" else parsed[c];
    assert SubName(rule.table, t) != rule.table;
  }

  // ---------------------------------------------------------------- all sub-tables

  function NodeOf(rule: Rule, t: int): int {
    if t in rule.tableToNode then rule.tableToNode[t] else 0
  }

  /** A configured sub-table is on the node the rule has for it, any other on the first. */
  lemma NodeOfReads(rule: Rule, t: int)
    ensures t in rule.tableToNode ==> NodeOf(rule, t) == rule.tableToNode[t]
    ensures t !in rule.tableToNode ==> NodeOf(rule, t) == 0
  {
  }

  /** The statements of the sub-tables that the router's node list puts on `name`, in routing order. */
  function Collected<S>(rule: Rule, nodes: seq<string>, sqlOf: int -> S, tables: seq<int>, name: string): seq<S>
    requires forall t :: t in tables ==> 0 <= NodeOf(rule, t) < |nodes|
  {
    if tables == [] then []
    else
      var n := |tables| - 1;
      assert forall t :: t in tables[..n] ==> t in tables;
      Collected(rule, nodes, sqlOf, tables[..n], name) +
      (if nodes[NodeOf(rule, tables[n])] == name then [sqlOf(tables[n])] else [])
  }

  ghost predicate IsDispatch<S>(rule: Rule, nodes: seq<string>, sqlOf: int -> S, tables: seq<int>, sqls: map<string, seq<S>>)
    requires forall t :: t in tables ==> 0 <= NodeOf(rule, t) < |nodes|
  {
    forall name ::
      && (name in sqls <==> Collected(rule, nodes, sqlOf, tables, name) != [])
      && (name in sqls ==> sqls[name] == Collected(rule, nodes, sqlOf, tables, name))
  }

  lemma CollectedNext<S>(rule: Rule, nodes: seq<string>, sqlOf: int -> S, tables: seq<int>, i: nat, name: string)
    requires i < |tables| && forall t :: t in tables[..i + 1] ==> 0 <= NodeOf(rule, t) < |nodes|
    ensures forall t :: t in tables[..i] ==> t in tables[..i + 1]
    ensures tables[i] in tables[..i + 1]
    ensures Collected(rule, nodes, sqlOf, tables[..i + 1], name) ==
            Collected(rule, nodes, sqlOf, tables[..i], name) +
            (if nodes[NodeOf(rule, tables[i])] == name then [sqlOf(tables[i])] else [])
  {
    assert tables[..i + 1][..i] == tables[..i];
    assert tables[..i + 1][i] == tables[i];
  }

  /** sqls[name], nil when there is none. */
  function StatementsAt<S>(sqls: map<string, seq<S>>, name: string): seq<S> {
    if name in sqls then sqls[name] else []
  }

  /** One more statement, under the name of its node. */
  lemma DispatchNext<S>(rule: Rule, nodes: seq<string>, sqlOf: int -> S, tables: seq<int>, i: nat, sqls: map<string, seq<S>>)
    requires i < |tables| && 0 <= NodeOf(rule, tables[i]) < |nodes|
    requires forall t :: t in tables[..i] ==> 0 <= NodeOf(rule, t) < |nodes|
    requires IsDispatch(rule, nodes, sqlOf, tables[..i], sqls)
    ensures forall t :: t in tables[..i + 1] ==> 0 <= NodeOf(rule, t) < |nodes|
    ensures var name := nodes[NodeOf(rule, tables[i])];
            IsDispatch(rule, nodes, sqlOf, tables[..i + 1], sqls[name := StatementsAt(sqls, name) + [sqlOf(tables[i])]])
  {
    assert tables[..i + 1] == tables[..i] + [tables[i]];
    forall name
      ensures Collected(rule, nodes, sqlOf, tables[..i + 1], name) ==
              Collected(rule, nodes, sqlOf, tables[..i], name) +
              (if nodes[NodeOf(rule, tables[i])] == name then [sqlOf(tables[i])] else [])
    {
      CollectedNext(rule, nodes, sqlOf, tables, i, name);
    }
  }

  lemma SameDispatch<S>(rule: Rule, nodes: seq<string>, f: int -> S, g: int -> S, tables: seq<int>, sqls: map<string, seq<S>>)
    requires forall t :: t in tables ==> f(t) == g(t) && 0 <= NodeOf(rule, t) < |nodes|
    requires IsDispatch(rule, nodes, f, tables, sqls)
    ensures IsDispatch(rule, nodes, g, tables, sqls)
  {
    forall name
      ensures Collected(rule, nodes, f, tables, name) == Collected(rule, nodes, g, tables, name)
    {
      SameCollected(rule, nodes, f, g, tables, name);
    }
  }

  lemma {:induction false} SameCollected<S>(rule: Rule, nodes: seq<string>, f: int -> S, g: int -> S, tables: seq<int>, name: string)
    requires forall t :: t in tables ==> f(t) == g(t) && 0 <= NodeOf(rule, t) < |nodes|
    ensures Collected(rule, nodes, f, tables, name) == Collected(rule, nodes, g, tables, name)
  {
    if tables != [] {
      assert forall t :: t in tables[..|tables| - 1] ==> t in tables;
      SameCollected(rule, nodes, f, g, tables[..|tables| - 1], name);
    }
  }

  /** generateSelectSql: one statement for every routed sub-table, grouped by the name that the
      router's node list has for its node. */
  method GenerateSelectSql(plan: Plan, nodes: seq<string>) returns (r: Result<map<string, seq<Rendered>>>)
    requires Planned(plan)
    modifies plan.stmt
    ensures plan.stmt.quals == old(plan.stmt.quals) && plan.stmt.rights == old(plan.stmt.rights)
    ensures r.Ok? <==> forall t :: t in plan.RouteTableIndexs ==> 0 <= NodeOf(plan.rule, t) < |nodes|
    ensures r.Ok? ==>
              var stmt := plan.stmt;
              var quals := stmt.quals;
              IsDispatch(plan.rule, nodes, t => SqlOf(plan.rule, stmt.where, stmt.orderBy, stmt.limit, quals, t),
                         plan.RouteTableIndexs, r.value)
  {
    var tables, rule, stmt := plan.RouteTableIndexs, plan.rule, plan.stmt;
    ghost var quals := stmt.quals;
    ghost var sqlOf := (t: int) => SqlOf(rule, stmt.where, stmt.orderBy, stmt.limit, quals, t);
    var sqls: map<string, seq<Rendered>> := map[];
    for i := 0 to |tables|
      invariant stmt.quals == old(stmt.quals) && stmt.rights == old(stmt.rights)
      invariant forall t :: t in tables[..i] ==> 0 <= NodeOf(rule, t) < |nodes|
      invariant IsDispatch(rule, nodes, sqlOf, tables[..i], sqls)
    {
      var t := tables[i];
      var nodeIndex := NodeOf(rule, t);
      if !(0 <= nodeIndex < |nodes|) {
        return Err(Panicked);
      }
      var nodeName := nodes[nodeIndex];
      var sql := RewriteSelectSql(plan, t);
      assert sql == sqlOf(t);
      DispatchNext(rule, nodes, sqlOf, tables, i, sqls);
      sqls := sqls[nodeName := StatementsAt(sqls, nodeName) + [sql]];
    }
    assert tables[..|tables|] == tables;
    return Ok(sqls);
  }

  lemma {:induction false} RecordedIsTuple(rule: Rule, p: Pred, rights: map<nat, Val>)
    requires Agrees(p, rights)
    ensures RecordedIn(rule, p).Some? ==>
              RecordedIn(rule, p).value in rights && rights[RecordedIn(rule, p).value].Tuple?
  {
    match p
    case And(l, r) =>
      RecordedIsTuple(rule, l, rights);
      RecordedIsTuple(rule, r, rights);
    case Or(l, r) =>
      RecordedIsTuple(rule, l, rights);
      RecordedIsTuple(rule, r, rights);
    case Paren(e) => RecordedIsTuple(rule, e, rights);
    case _ =>
  }

  /** TindexsToNindexs: the nodes of the routed sub-tables, each once, in no particular order. */
  method TindexsToNindexs(rule: Rule, tables: seq<int>) returns (nodes: seq<int>)
    ensures forall n :: n in nodes <==> exists i :: 0 <= i < |tables| && NodeOf(rule, tables[i]) == n
    ensures Distinct(nodes)
  {
    var list: seq<int> := [];
    for i := 0 to |tables|
      invariant |list| == i
      invariant forall k :: 0 <= k < i ==> list[k] == NodeOf(rule, tables[k])
    {
      list := list + [NodeOf(rule, tables[i])];
    }
    nodes := CleanList(list);
    assert forall n :: n in nodes <==> n in Elems(nodes);
    assert forall n :: n in list <==> n in Elems(list);
  }

  /** What planning a SELECT leaves behind. */
  datatype SelectPlan = SelectPlan(tables: seq<int>, nodeIndexs: seq<int>, sqls: map<string, seq<Rendered>>)

  /** The routed list, ascending, and the nodes of its sub-tables. */
  ghost predicate IsRoute(rule: Rule, where: Pred, plan: SelectPlan)
    requires Plans(rule, where)
  {
    && StrictlyAscending(plan.tables) && (forall t :: t in plan.tables <==> Routes(rule, where, t))
    && Distinct(plan.nodeIndexs)
    && (forall n :: n in plan.nodeIndexs <==> exists i :: 0 <= i < |plan.tables| && NodeOf(rule, plan.tables[i]) == n)
  }

  /** Some sub-table is routed, and every routed one has a node in the router's list. */
  ghost predicate Plannable(rule: Rule, where: Pred, nodes: seq<string>)
    requires Plans(rule, where)
  {
    && (exists t :: Routes(rule, where, t))
    && (forall t :: Routes(rule, where, t) ==> 0 <= NodeOf(rule, t) < |nodes|)
  }

  /** buildSelectPlan for a sharded table: route, then write one statement per routed sub-table. */
  method BuildSelectPlan(rule: Rule, stmt: SelectStmt, nodes: seq<string>) returns (r: Result<SelectPlan>)
    requires ValidRule(rule) && !rule.ruleType.DefaultRule? && stmt.Valid()
    modifies stmt
    ensures r.Ok? <==> Plans(rule, stmt.where) && Plannable(rule, stmt.where, nodes)
    ensures rule.subTables != [] && AllPlaceable(rule, TestsIn(rule.key, stmt.where)) ==>
              Plans(rule, stmt.where) && (r.Ok? <==> Plannable(rule, stmt.where, nodes))
    ensures Plans(rule, stmt.where) && (forall t :: !Routes(rule, stmt.where, t)) ==> r == Err(NoCriteria)
    ensures r.Ok? ==>
              && IsRoute(rule, stmt.where, r.value) && r.value.tables != []
              && (forall t :: t in r.value.tables ==> 0 <= NodeOf(rule, t) < |nodes|)
              && Cleared(old(stmt.quals), stmt.quals, rule.table, c => Visits(stmt.where, c))
              && stmt.rights == old(stmt.rights)
    ensures r.Ok? ==>
              var quals := stmt.quals;
              IsDispatch(rule, nodes, t => SqlOf(rule, stmt.where, stmt.orderBy, stmt.limit, quals, t), r.value.tables, r.value.sqls)
  {
    PlaceableSucceeds(rule, stmt.where);
    var plan := new Plan(rule, stmt);
    var tables :- plan.GetTableIndexByBoolExpr(stmt.where);
    plan.RouteTableIndexs := tables;
    plan.RouteNodeIndexs := TindexsToNindexs(rule, tables);
    assert |tables| > 0 ==> tables[0] in tables;
    if |tables| == 0 {
      return Err(NoCriteria);
    }
    RecordedIsTuple(rule, stmt.where, stmt.rights);
    assert PredBelow(stmt.where, |stmt.quals|);
    var sqls :- GenerateSelectSql(plan, nodes);
    return Ok(SelectPlan(tables, plan.RouteNodeIndexs, sqls));
  }
}
