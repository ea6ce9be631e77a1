/** The planner as it runs: it reads a WHERE tree, records the IN list to split, clears qualifiers of
    the columns it meets, and then writes one statement per sub-table by changing the tree in place
    and putting it back (proxy/router/planbuilder.go, proxy/router/router.go). */
module Planner {
  import opened Prelude
  import opened Text
  import opened SortedLists
  import opened Shards
  import opened Rules
  import opened Where
  import opened Routing
  import opened Planning
  import opened Parts
  import opened Limits

  // ---------------------------------------------------------------- the mutable statement

  /** A parsed SELECT. The parts the proxy writes to are `quals` (the qualifier of each column
      reference, "" for none) and `rights` (the right operand of each comparison). */
  class SelectStmt {
    const where: Pred
    const orderBy: seq<Val>
    const limit: Option<Limit>
    var quals: seq<string>
    var rights: map<nat, Val>

    /** Every comparison has the right operand the parser gave it, every column a qualifier. */
    ghost predicate Valid()
      reads this
    {
      && Agrees(where, rights)
      && PredBelow(where, |quals|)
      && (forall i :: 0 <= i < |orderBy| ==> ColsBelow(orderBy[i], |quals|))
    }

    constructor (where: Pred, orderBy: seq<Val>, limit: Option<Limit>, quals: seq<string>)
      requires DistinctIds(where)
      requires PredBelow(where, |quals|)
      requires forall i :: 0 <= i < |orderBy| ==> ColsBelow(orderBy[i], |quals|)
      ensures Valid()
      ensures this.where == where && this.orderBy == orderBy && this.limit == limit && this.quals == quals
    {
      this.where, this.orderBy, this.limit, this.quals := where, orderBy, limit, quals;
      rights := Rights(where);
      RightsAgree(where);
    }
  }

  /** Every column reference in `v` has one of the first `n` qualifiers. */
  predicate ColsBelow(v: Val, n: nat) {
    match v
    case Col(col, _) => col < n
    case Tuple(elems) => forall i :: 0 <= i < |elems| ==> ColsBelow(elems[i], n)
    case _ => true
  }

  predicate PredBelow(p: Pred, n: nat) {
    match p
    case And(l, r) => PredBelow(l, n) && PredBelow(r, n)
    case Or(l, r) => PredBelow(l, n) && PredBelow(r, n)
    case Not(e) => PredBelow(e, n)
    case Paren(e) => PredBelow(e, n)
    case Cmp(_, _, lhs, rhs) => ColsBelow(lhs, n) && ColsBelow(rhs, n)
    case Range(_, v, from, to) => ColsBelow(v, n) && ColsBelow(from, n) && ColsBelow(to, n)
    case OtherPred(_) => true
  }

  predicate Agrees(p: Pred, rights: map<nat, Val>) {
    match p
    case And(l, r) => Agrees(l, rights) && Agrees(r, rights)
    case Or(l, r) => Agrees(l, rights) && Agrees(r, rights)
    case Not(e) => Agrees(e, rights)
    case Paren(e) => Agrees(e, rights)
    case Cmp(id, _, _, rhs) => id in rights && rights[id] == rhs
    case _ => true
  }

  function Rights(p: Pred): map<nat, Val> {
    match p
    case And(l, r) => Rights(l) + Rights(r)
    case Or(l, r) => Rights(l) + Rights(r)
    case Not(e) => Rights(e)
    case Paren(e) => Rights(e)
    case Cmp(id, _, _, rhs) => map[id := rhs]
    case _ => map[]
  }

  lemma {:induction false} AgreesUnder(p: Pred, small: map<nat, Val>, big: map<nat, Val>)
    requires Agrees(p, small)
    requires forall id :: id in Ids(p) && id in small ==> id in big && big[id] == small[id]
    ensures Agrees(p, big)
  {
    match p
    case And(l, r) =>
      AgreesUnder(l, small, big);
      AgreesUnder(r, small, big);
    case Or(l, r) =>
      AgreesUnder(l, small, big);
      AgreesUnder(r, small, big);
    case Not(e) => AgreesUnder(e, small, big);
    case Paren(e) => AgreesUnder(e, small, big);
    case _ =>
  }

  lemma {:induction false} RightsAgree(p: Pred)
    requires DistinctIds(p)
    ensures Agrees(p, Rights(p))
    ensures forall id :: id in Rights(p) <==> id in Ids(p)
  {
    match p
    case And(l, r) => RightsAgreePair(p, l, r);
    case Or(l, r) => RightsAgreePair(p, l, r);
    case Not(e) =>
      assert Ids(p) == Ids(e);
      RightsAgree(e);
    case Paren(e) =>
      assert Ids(p) == Ids(e);
      RightsAgree(e);
    case _ =>
  }

  lemma {:induction false} RightsAgreePair(p: Pred, l: Pred, r: Pred)
    requires (p == And(l, r) || p == Or(l, r)) && DistinctIds(p)
    ensures Agrees(l, Rights(p)) && Agrees(r, Rights(p))
    ensures forall id :: id in Rights(p) <==> id in Ids(p)
    decreases p, 0
  {
    var a, b := Ids(l), Ids(r);
    assert Ids(p) == a + b;
    assert DistinctIds(l) by {
      assert forall i :: 0 <= i < |a| ==> a[i] == (a + b)[i];
    }
    assert DistinctIds(r) by {
      assert forall i :: 0 <= i < |b| ==> b[i] == (a + b)[|a| + i];
    }
    RightsAgree(l);
    RightsAgree(r);
    forall id | id in a
      ensures id !in b
    {
      var i :| 0 <= i < |a| && a[i] == id;
      assert (a + b)[i] == id;
      assert forall j :: 0 <= j < |b| ==> b[j] == (a + b)[|a| + j];
    }
    AgreesUnder(l, Rights(l), Rights(p));
    AgreesUnder(r, Rights(r), Rights(p));
  }

  /** The tree as it is printed: with the right operands of the moment. */
  function Resolve(p: Pred, rights: map<nat, Val>): Pred {
    match p
    case And(l, r) => And(Resolve(l, rights), Resolve(r, rights))
    case Or(l, r) => Or(Resolve(l, rights), Resolve(r, rights))
    case Not(e) => Not(Resolve(e, rights))
    case Paren(e) => Paren(Resolve(e, rights))
    case Cmp(id, op, lhs, rhs) => Cmp(id, op, lhs, if id in rights then rights[id] else rhs)
    case _ => p
  }

  lemma {:induction false} ResolveReplaced(p: Pred, rights: map<nat, Val>, id: nat, v: Val)
    requires Agrees(p, rights)
    ensures Resolve(p, rights) == p
    ensures Resolve(p, rights[id := v]) == ReplaceRight(p, id, v)
  {
    match p
    case And(l, r) =>
      ResolveReplaced(l, rights, id, v);
      ResolveReplaced(r, rights, id, v);
    case Or(l, r) =>
      ResolveReplaced(l, rights, id, v);
      ResolveReplaced(r, rights, id, v);
    case Not(e) => ResolveReplaced(e, rights, id, v);
    case Paren(e) => ResolveReplaced(e, rights, id, v);
    case _ =>
  }

  // ---------------------------------------------------------------- columns met while planning

  /** getValueType looks at `v`, which includes looking at column `c`. */
  predicate Sees(v: Val, c: int) {
    match v
    case Col(col, _) => c == col
    case Tuple(elems) => SeesIn(elems, c)
    case _ => false
  }

  /** A tuple is looked through up to its first element that is not a value. */
  predicate SeesIn(elems: seq<Val>, c: int) {
    elems != [] && (Sees(elems[0], c) || (IsValue(elems[0]) && SeesIn(elems[1..], c)))
  }

  predicate Visits(p: Pred, c: int) {
    match p
    case And(l, r) => Visits(l, c) || Visits(r, c)
    case Or(l, r) => Visits(l, c) || Visits(r, c)
    case Paren(e) => Visits(e, c)
    case Cmp(_, op, lhs, rhs) => (IsOrderOp(op) || op == In || op == NotIn) && (Sees(lhs, c) || Sees(rhs, c))
    case Range(_, v, from, to) => Sees(v, c) || Sees(from, c) || Sees(to, c)
    case _ => false
  }

  /** The qualifiers after those of the `seen` columns have been dropped where they name the table. */
  ghost predicate Cleared(before: seq<string>, after: seq<string>, table: string, seen: int -> bool) {
    && |after| == |before|
    && forall c :: 0 <= c < |before| ==>
         after[c] == if seen(c) && before[c] == table then "" else before[c]
  }

  lemma ClearedTwice(a: seq<string>, b: seq<string>, c: seq<string>, table: string, f: int -> bool, g: int -> bool, h: int -> bool)
    requires Cleared(a, b, table, f) && Cleared(b, c, table, g)
    requires forall i :: 0 <= i < |a| ==> (h(i) <==> f(i) || g(i))
    ensures Cleared(a, c, table, h)
  {
  }

  // ---------------------------------------------------------------- the plan

  /** `groups` is the list cut up by sub-table. */
  ghost predicate IsGroups(shard: Shard, elems: seq<Val>, groups: map<int, seq<Val>>) {
    Holds(groups, PartsOf(shard, elems))
  }

  function PartsOf(shard: Shard, elems: seq<Val>): int -> seq<Val> {
    t => Group(shard, elems, t)
  }

  /** A statement for one sub-table, as printed. */
  datatype Rendered = Rendered(table: int, where: Pred, quals: seq<string>, limit: Option<Limit>)

  class Plan {
    const rule: Rule
    const stmt: SelectStmt
    var InRightToReplace: Option<nat>
    var SubTableValueGroups: map<int, seq<Val>>
    var RouteTableIndexs: seq<int>
    var RouteNodeIndexs: seq<int>

    constructor (rule: Rule, stmt: SelectStmt)
      ensures this.rule == rule && this.stmt == stmt
      ensures InRightToReplace == None && SubTableValueGroups == map[]
    {
      this.rule, this.stmt := rule, stmt;
      InRightToReplace, SubTableValueGroups := None, map[];
      RouteTableIndexs, RouteNodeIndexs := [], [];
    }

    method GetValueType(v: Val) returns (t: NodeType)
      requires ColsBelow(v, |stmt.quals|)
      modifies stmt`quals
      ensures t == ValueType(rule.key, v)
      ensures Cleared(old(stmt.quals), stmt.quals, rule.table, c => Sees(v, c))
      decreases v
    {
      match v
      case Col(col, name) =>
        if stmt.quals[col] == rule.table {
          stmt.quals := stmt.quals[col := ""];
        }
        return if Lower(name) == rule.key then EidNode else OtherNode;
      case Tuple(elems) =>
        for i := 0 to |elems|
          invariant forall j :: 0 <= j < i ==> IsValue(elems[j])
          invariant forall c :: SeesIn(elems, c) <==> SeesIn(elems[i..], c)
          invariant stmt.quals == old(stmt.quals)
        {
          var e := elems[i];
          assert elems[i..][0] == e && elems[i..][1..] == elems[i + 1..];
          var te := GetValueType(e);
          assert te == ValueNode <==> IsValue(e);
          if te != ValueNode {
            assert forall c :: SeesIn(elems[i..], c) <==> Sees(e, c);
            assert forall c :: Sees(v, c) <==> Sees(e, c);
            return OtherNode;
          }
          assert forall c :: !Sees(e, c);
          assert stmt.quals == old(stmt.quals);
        }
        assert forall c :: !SeesIn(elems[|elems|..], c);
        assert forall c :: !Sees(v, c);
        return ListNode;
      case OtherVal(_) => return OtherNode;
      case _ => return ValueNode;
    }

    /** getTableIndexsByTuple: the sub-tables of a list, and the list cut into their groups. */
    method GetTableIndexsByTuple(elems: seq<Val>) returns (r: Result<seq<int>>)
      modifies `SubTableValueGroups
      ensures r.Ok? <==> forall i :: 0 <= i < |elems| ==> IndexOf(rule.shard, elems[i]).Ok?
      ensures r.Ok? ==> StrictlyAscending(r.value) && forall t :: t in r.value <==> SomeIndex(rule.shard, elems, t)
      ensures r.Ok? ==> IsGroups(rule.shard, elems, SubTableValueGroups)
    {
      var shardset :- GroupValues(rule.shard, elems);
      SubTableValueGroups := shardset;
      var shardlist := SortedKeys(shardset.Keys);
      forall t
        ensures t in shardlist <==> SomeIndex(rule.shard, elems, t)
      {
        assert t in shardlist <==> t in Elems(shardlist);
        GroupMeets(rule.shard, elems, t);
      }
      return Ok(shardlist);
    }

    /** The lists of hash rules. */
    method GetHashShardTableIndex(p: Pred) returns (r: Result<seq<int>>)
      requires ValidRule(rule) && rule.ruleType.HashRule? && KeyLeaf(rule.key, p)
      modifies `SubTableValueGroups
      ensures Answers(TestOf(rule.key, p), r)
      ensures r.Ok? ==> GroupsKept(TestOf(rule.key, p), old(SubTableValueGroups), SubTableValueGroups)
    {
      match p
      case Cmp(_, op, lhs, rhs) =>
        if op == Eq || op == Nse {
          var index: int;
          if ValueType(rule.key, lhs) == EidNode {
            index :- IndexOf(rule.shard, rhs);
          } else {
            index :- IndexOf(rule.shard, lhs);
          }
          return Ok([index]);
        } else if op == In {
          r := GetTableIndexsByTuple(rhs.elems);
        } else {
          return Ok(rule.subTables);
        }
      case Range(_, _, _, _) => return Ok(rule.subTables);
    }

    /** The lists of range rules. */
    method GetRangeShardTableIndex(p: Pred) returns (r: Result<seq<int>>)
      requires ValidRule(rule) && rule.ruleType.RangeRule? && KeyLeaf(rule.key, p)
      modifies `SubTableValueGroups
      ensures Answers(TestOf(rule.key, p), r)
      ensures r.Ok? ==> GroupsKept(TestOf(rule.key, p), old(SubTableValueGroups), SubTableValueGroups)
    {
      match p
      case Cmp(_, op, lhs, rhs) =>
        if op == In {
          r := GetTableIndexsByTuple(rhs.elems);
        } else if op == NotIn {
          return Ok(rule.subTables);
        } else {
          r := GetRangeComparison(op, lhs, rhs, p);
        }
      case Range(negated, _, from, to) => r := GetRangeBetween(negated, from, to);
    }

    /** A comparison in a range rule, with the key on either side. */
    method GetRangeComparison(op: CmpOp, lhs: Val, rhs: Val, ghost p: Pred) returns (r: Result<seq<int>>)
      requires ValidRule(rule) && rule.ruleType.RangeRule? && KeyLeaf(rule.key, p)
      requires p.Cmp? && p.op == op && p.lhs == lhs && p.rhs == rhs && IsOrderOp(op)
      ensures Answers(TestOf(rule.key, p), r)
    {
      var index: int;
      if ValueType(rule.key, lhs) == EidNode {
        index :- IndexOf(rule.shard, rhs);
        assert 0 <= index < |rule.subTables|;
        if op == Lt || op == Le {
          if op == Lt {
            index :- AdjustIndex(rule.shard, rhs, index);
          }
          var l := MakeList(0, index + 1);
          return Ok(l);
        } else if op == Gt || op == Ge {
          var l := MakeList(index, |rule.subTables|);
          return Ok(l);
        }
      } else {
        index :- IndexOf(rule.shard, lhs);
        assert 0 <= index < |rule.subTables|;
        if op == Lt || op == Le {
          var l := MakeList(index, |rule.subTables|);
          return Ok(l);
        } else if op == Gt || op == Ge {
          if op == Gt {
            index :- AdjustIndex(rule.shard, lhs, index);
          }
          var l := MakeList(0, index + 1);
          return Ok(l);
        }
      }
      return Ok([index]);
    }

    method GetRangeBetween(negated: bool, from: Val, to: Val) returns (r: Result<seq<int>>)
      requires ValidRule(rule) && rule.ruleType.RangeRule?
      ensures Answers(Between(negated, from, to), r)
    {
      var start :- IndexOf(rule.shard, from);
      var last :- IndexOf(rule.shard, to);
      assert 0 <= start < |rule.subTables| && 0 <= last < |rule.subTables|;
      if !negated {
        if last < start {
          start, last := last, start;
        }
        var l := MakeList(start, last + 1);
        return Ok(l);
      }
      if last < start {
        start, last := last, start;
        start :- AdjustIndex(rule.shard, to, start);
      } else {
        start :- AdjustIndex(rule.shard, from, start);
      }
      var l1 := MakeList(0, start + 1);
      var l2 := MakeList(last, |rule.subTables|);
      var l := UnionList(l1, l2);
      assert forall t :: t in l <==> t in Elems(l);
      return Ok(l);
    }

    /** The lists of date rules. */
    method GetDateShardTableIndex(p: Pred) returns (r: Result<seq<int>>)
      requires ValidRule(rule) && rule.ruleType.DateRule? && KeyLeaf(rule.key, p)
      modifies `SubTableValueGroups
      ensures Answers(TestOf(rule.key, p), r)
      ensures r.Ok? ==> GroupsKept(TestOf(rule.key, p), old(SubTableValueGroups), SubTableValueGroups)
    {
      match p
      case Cmp(_, op, lhs, rhs) =>
        if op == In || op == NotIn {
          r := GetDateMember(op == NotIn, rhs.elems);
        } else {
          r := GetDateComparison(op, lhs, rhs, p);
        }
      case Range(negated, _, from, to) => r := GetDateBetween(negated, from, to);
    }

    /** A comparison in a date rule, with the key on either side. */
    method GetDateComparison(op: CmpOp, lhs: Val, rhs: Val, ghost p: Pred) returns (r: Result<seq<int>>)
      requires ValidRule(rule) && rule.ruleType.DateRule? && KeyLeaf(rule.key, p)
      requires p.Cmp? && p.op == op && p.lhs == lhs && p.rhs == rhs && IsOrderOp(op)
      ensures Answers(TestOf(rule.key, p), r)
    {
      var index: int;
      if ValueType(rule.key, lhs) == EidNode {
        index :- IndexOf(rule.shard, rhs);
        if op == Lt || op == Le {
          var l := MakeLeList(index, rule.subTables);
          return Ok(l);
        } else if op == Gt || op == Ge {
          var l := MakeGeList(index, rule.subTables);
          return Ok(l);
        }
      } else {
        index :- IndexOf(rule.shard, lhs);
        if op == Lt || op == Le {
          var l := MakeGeList(index, rule.subTables);
          return Ok(l);
        } else if op == Gt || op == Ge {
          var l := MakeLeList(index, rule.subTables);
          return Ok(l);
        }
      }
      return Ok([index]);
    }

    method GetDateMember(negated: bool, elems: seq<Val>) returns (r: Result<seq<int>>)
      requires ValidRule(rule) && rule.ruleType.DateRule?
      modifies `SubTableValueGroups
      ensures Answers(Member(negated, elems), r)
      ensures r.Ok? ==> IsGroups(rule.shard, elems, SubTableValueGroups)
    {
      var l :- GetTableIndexsByTuple(elems);
      if negated {
        l := NotList(l);
      }
      return Ok(l);
    }

    method GetDateBetween(negated: bool, from: Val, to: Val) returns (r: Result<seq<int>>)
      requires ValidRule(rule) && rule.ruleType.DateRule?
      ensures Answers(Between(negated, from, to), r)
    {
      var start :- IndexOf(rule.shard, from);
      var last :- IndexOf(rule.shard, to);
      if last < start {
        start, last := last, start;
      }
      var l := MakeBetweenList(start, last, rule.subTables);
      if negated {
        l := NotList(l);
      }
      return Ok(l);
    }

    /** notList: the configured sub-tables that are not in the list. */
    method NotList(l: seq<int>) returns (r: seq<int>)
      requires ValidRule(rule) && StrictlyAscending(l)
      ensures StrictlyAscending(r) && forall t :: t in r <==> t in rule.subTables && t !in l
    {
      r := DifferentList(rule.subTables, l);
      assert forall t :: t in r <==> t in Elems(r);
      assert forall t :: t in l <==> t in Elems(l);
      assert forall t :: t in rule.subTables <==> t in Elems(rule.subTables);
    }

    /** The list given for a key test is the one `Where.RoutesTest` describes. */
    ghost predicate Answers(c: KeyTest, r: Result<seq<int>>) {
      && (r.Ok? <==> PlansTest(rule, c))
      && (r.Ok? ==> StrictlyAscending(r.value) && forall t :: t in r.value <==> RoutesTest(rule, c, t))
    }

    /** Only lists that are cut up replace the value groups. */
    ghost predicate GroupsKept(c: KeyTest, before: map<int, seq<Val>>, after: map<int, seq<Val>>) {
      if c.Member? && (!c.negated || rule.ruleType.DateRule?) then IsGroups(rule.shard, c.elems, after)
      else after == before
    }

    method GetTableIndexs(p: Pred) returns (r: Result<seq<int>>)
      requires ValidRule(rule) && !rule.ruleType.DefaultRule? && KeyLeaf(rule.key, p)
      modifies `SubTableValueGroups
      ensures Answers(TestOf(rule.key, p), r)
      ensures r.Ok? ==> GroupsKept(TestOf(rule.key, p), old(SubTableValueGroups), SubTableValueGroups)
    {
      match rule.ruleType
      case HashRule => r := GetHashShardTableIndex(p);
      case RangeRule => r := GetRangeShardTableIndex(p);
      case DateRule(_) => r := GetDateShardTableIndex(p);
    }

    /** Which IN is recorded and whose groups are kept, after visiting `p`. */
    ghost predicate Records(p: Pred, in0: Option<nat>, groups0: map<int, seq<Val>>, in1: Option<nat>, groups1: map<int, seq<Val>>) {
      && in1 == (if RecordedIn(rule, p).Some? then RecordedIn(rule, p) else in0)
      && (if RecordedList(rule, p).Some? then IsGroups(rule.shard, RecordedList(rule, p).value.1, groups1)
          else groups1 == groups0)
    }

    /** getTableIndexByBoolExpr on a comparison or a range condition. */
    method GetTableIndexByLeaf(p: Pred) returns (r: Result<seq<int>>)
      requires ValidRule(rule) && !rule.ruleType.DefaultRule?
      requires p.Cmp? || p.Range?
      requires PredBelow(p, |stmt.quals|)
      modifies `InRightToReplace, `SubTableValueGroups, stmt`quals
      ensures r.Ok? <==> Plans(rule, p)
      ensures r.Ok? ==> StrictlyAscending(r.value) && forall t :: t in r.value <==> Routes(rule, p, t)
      ensures r.Ok? ==> Records(p, old(InRightToReplace), old(SubTableValueGroups), InRightToReplace, SubTableValueGroups)
      ensures Cleared(old(stmt.quals), stmt.quals, rule.table, c => Visits(p, c))
    {
      match p
      case Cmp(id, op, lhs, rhs) =>
        if IsOrderOp(op) || op == In || op == NotIn {
          var left := GetValueType(lhs);
          ghost var mid := stmt.quals;
          var right := GetValueType(rhs);
          ClearedTwice(old(stmt.quals), mid, stmt.quals, rule.table, c => Sees(lhs, c), c => Sees(rhs, c), c => Visits(p, c));
          if KeyLeaf(rule.key, p) {
            if op == In {
              InRightToReplace := Some(id);
            }
            r := GetTableIndexs(p);
            return;
          }
        }
        return Ok(rule.subTables);
      case Range(negated, v, from, to) =>
        var left := GetValueType(v);
        ghost var q1 := stmt.quals;
        var f := GetValueType(from);
        ghost var q2 := stmt.quals;
        ClearedTwice(old(stmt.quals), q1, q2, rule.table, c => Sees(v, c), c => Sees(from, c), c => Sees(v, c) || Sees(from, c));
        var t := GetValueType(to);
        ClearedTwice(old(stmt.quals), q2, stmt.quals, rule.table, c => Sees(v, c) || Sees(from, c), c => Sees(to, c), c => Visits(p, c));
        if left == EidNode && f == ValueNode && t == ValueNode {
          r := GetTableIndexs(p);
          return;
        }
        return Ok(rule.subTables);
    }

    /** getTableIndexByBoolExpr: the sorted list of sub-tables a WHERE tree is sent to, the IN list to
        split, and the columns whose qualifier is dropped on the way. */
    method GetTableIndexByBoolExpr(p: Pred) returns (r: Result<seq<int>>)
      requires ValidRule(rule) && !rule.ruleType.DefaultRule?
      requires PredBelow(p, |stmt.quals|)
      modifies `InRightToReplace, `SubTableValueGroups, stmt`quals
      ensures r.Ok? <==> Plans(rule, p)
      ensures rule.subTables != [] && AllPlaceable(rule, TestsIn(rule.key, p)) ==> r.Ok?
      ensures r.Ok? ==> StrictlyAscending(r.value) && forall t :: t in r.value <==> Routes(rule, p, t)
      ensures r.Ok? ==> Records(p, old(InRightToReplace), old(SubTableValueGroups), InRightToReplace, SubTableValueGroups)
      ensures |stmt.quals| == |old(stmt.quals)|
      ensures r.Ok? ==> Cleared(old(stmt.quals), stmt.quals, rule.table, c => Visits(p, c))
      decreases p
    {
      PlaceableSucceeds(rule, p);
      match p
      case And(left, right) =>
        var l :- GetTableIndexByBoolExpr(left);
        ghost var mid := stmt.quals;
        var s :- GetTableIndexByBoolExpr(right);
        ClearedTwice(old(stmt.quals), mid, stmt.quals, rule.table, c => Visits(left, c), c => Visits(right, c), c => Visits(p, c));
        var l3 := InterList(l, s);
        assert forall t :: t in l3 <==> t in Elems(l3);
        return Ok(l3);
      case Or(left, right) =>
        var l :- GetTableIndexByBoolExpr(left);
        ghost var mid := stmt.quals;
        var s :- GetTableIndexByBoolExpr(right);
        ClearedTwice(old(stmt.quals), mid, stmt.quals, rule.table, c => Visits(left, c), c => Visits(right, c), c => Visits(p, c));
        var l3 := UnionList(l, s);
        assert forall t :: t in l3 <==> t in Elems(l3);
        return Ok(l3);
      case Paren(e) =>
        r := GetTableIndexByBoolExpr(e);
      case Cmp(_, _, _, _) => r := GetTableIndexByLeaf(p);
      case Range(_, _, _, _) => r := GetTableIndexByLeaf(p);
      case Not(_) => return Ok(rule.subTables);
      case OtherPred(_) => return Ok(rule.subTables);
    }
  }

  lemma GroupNext(shard: Shard, elems: seq<Val>, i: nat, t: int)
    requires i < |elems|
    ensures Group(shard, elems[..i + 1], t) ==
            Group(shard, elems[..i], t) + (if IndexOf(shard, elems[i]) == Ok(t) then [elems[i]] else [])
  {
    assert elems[..i + 1][..i] == elems[..i];
  }

  lemma GroupStep(shard: Shard, elems: seq<Val>, i: nat, index: int, groups: map<int, seq<Val>>)
    requires i < |elems| && IndexOf(shard, elems[i]) == Ok(index)
    requires IsGroups(shard, elems[..i], groups)
    ensures IsGroups(shard, elems[..i + 1], groups[index := PartAt(groups, index) + [elems[i]]])
  {
    var parts, more := PartsOf(shard, elems[..i]), PartsOf(shard, elems[..i + 1]);
    forall t
      ensures more(t) == parts(t) + (if t == index then [elems[i]] else [])
    {
      GroupNext(shard, elems, i, t);
    }
    HoldsNext(groups, parts, more, index, elems[i]);
  }

  predicate Indexed(shard: Shard, elems: seq<Val>) {
    forall i :: 0 <= i < |elems| ==> IndexOf(shard, elems[i]).Ok?
  }

  lemma IndexedNext(shard: Shard, elems: seq<Val>, i: nat)
    requires i < |elems| && Indexed(shard, elems[..i])
    ensures Indexed(shard, elems[..i + 1]) <==> IndexOf(shard, elems[i]).Ok?
    ensures Indexed(shard, elems) ==> Indexed(shard, elems[..i + 1])
  {
    assert elems[..i + 1] == elems[..i] + [elems[i]];
  }

  lemma NoGroups(shard: Shard)
    ensures IsGroups(shard, [], map[])
  {
  }

  /** The loop of getTableIndexsByTuple. */
  method GroupValues(shard: Shard, elems: seq<Val>) returns (r: Result<map<int, seq<Val>>>)
    ensures r.Ok? <==> Indexed(shard, elems)
    ensures r.Ok? ==> IsGroups(shard, elems, r.value)
  {
    var shardset: map<int, seq<Val>> := map[];
    NoGroups(shard);
    for i := 0 to |elems|
      invariant Indexed(shard, elems[..i])
      invariant IsGroups(shard, elems[..i], shardset)
    {
      IndexedNext(shard, elems, i);
      var found := IndexOf(shard, elems[i]);
      if found.Err? {
        return Err(found.error);
      }
      GroupStep(shard, elems, i, found.value, shardset);
      shardset := shardset[found.value := PartAt(shardset, found.value) + [elems[i]]];
    }
    assert elems[..|elems|] == elems;
    return Ok(shardset);
  }
}
