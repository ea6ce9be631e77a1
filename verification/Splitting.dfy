/** The IN list is cut into per-sub-table groups without changing what the WHERE tree means there
    (proxy/router/planbuilder.go, rewriteWhereIn and getTableIndexsByTuple). */
module Splitting {
  import opened Prelude
  import opened Text
  import opened Calendar
  import opened Shards
  import opened Rules
  import opened Where
  import opened Routing

  /** The list kept in groups is the list of the comparison that will be rewritten. */
  predicate SameNode(rule: Rule, p: Pred) {
    RecordedIn(rule, p).Some? ==>
      RecordedList(rule, p).Some? && RecordedList(rule, p).value.0 == RecordedIn(rule, p).value
  }

  /** In hash and range rules the recorded node and the recorded groups always belong together. */
  lemma {:induction false} SameNodeUnlessDate(rule: Rule, p: Pred)
    requires !rule.ruleType.DateRule?
    ensures SameNode(rule, p)
    ensures RecordedIn(rule, p).Some? <==> RecordedList(rule, p).Some?
  {
    match p
    case And(l, r) =>
      SameNodeUnlessDate(rule, l);
      SameNodeUnlessDate(rule, r);
    case Or(l, r) =>
      SameNodeUnlessDate(rule, l);
      SameNodeUnlessDate(rule, r);
    case Paren(e) => SameNodeUnlessDate(rule, e);
    case _ =>
  }

  /** Every comparison named `id` is the key IN over `elems`. */
  predicate OnlyIn(key: string, p: Pred, id: nat, elems: seq<Val>) {
    match p
    case And(l, r) => OnlyIn(key, l, id, elems) && OnlyIn(key, r, id, elems)
    case Or(l, r) => OnlyIn(key, l, id, elems) && OnlyIn(key, r, id, elems)
    case Not(e) => OnlyIn(key, e, id, elems)
    case Paren(e) => OnlyIn(key, e, id, elems)
    case Cmp(i, op, _, rhs) => i == id ==> op == In && KeyLeaf(key, p) && rhs == Tuple(elems)
    case _ => true
  }

  lemma {:induction false} AbsentId(key: string, p: Pred, id: nat, elems: seq<Val>)
    requires id !in Ids(p)
    ensures OnlyIn(key, p, id, elems)
  {
    match p
    case And(l, r) =>
      AbsentId(key, l, id, elems);
      AbsentId(key, r, id, elems);
    case Or(l, r) =>
      AbsentId(key, l, id, elems);
      AbsentId(key, r, id, elems);
    case Not(e) => AbsentId(key, e, id, elems);
    case Paren(e) => AbsentId(key, e, id, elems);
    case _ =>
  }

  /** The list of the comparison that will be rewritten. */
  function RecordedElems(rule: Rule, p: Pred): Option<seq<Val>> {
    match p
    case And(l, r) => if RecordedElems(rule, r).Some? then RecordedElems(rule, r) else RecordedElems(rule, l)
    case Or(l, r) => if RecordedElems(rule, r).Some? then RecordedElems(rule, r) else RecordedElems(rule, l)
    case Paren(e) => RecordedElems(rule, e)
    case Cmp(_, In, _, rhs) => if KeyLeaf(rule.key, p) then Some(rhs.elems) else None
    case _ => None
  }

  lemma {:induction false} RecordedIds(rule: Rule, p: Pred)
    ensures RecordedIn(rule, p).Some? <==> RecordedElems(rule, p).Some?
    ensures RecordedIn(rule, p).Some? ==> RecordedIn(rule, p).value in Ids(p) && RecordedList(rule, p).Some?
    ensures RecordedList(rule, p).Some? ==> RecordedList(rule, p).value.0 in Ids(p)
  {
    match p
    case And(l, r) =>
      RecordedIds(rule, l);
      RecordedIds(rule, r);
    case Or(l, r) =>
      RecordedIds(rule, l);
      RecordedIds(rule, r);
    case Paren(e) => RecordedIds(rule, e);
    case _ =>
  }

  lemma SplitIds(a: seq<nat>, b: seq<nat>)
    requires forall i, j :: 0 <= i < j < |a + b| ==> (a + b)[i] != (a + b)[j]
    ensures forall i, j :: 0 <= i < j < |a| ==> a[i] != a[j]
    ensures forall i, j :: 0 <= i < j < |b| ==> b[i] != b[j]
    ensures forall x :: x in a ==> x !in b
  {
    var c := a + b;
    assert forall i :: 0 <= i < |a| ==> a[i] == c[i];
    assert forall i :: 0 <= i < |b| ==> b[i] == c[|a| + i];
  }

  lemma {:induction false} RecordedIsIn(rule: Rule, p: Pred)
    requires DistinctIds(p) && RecordedIn(rule, p).Some? && RecordedElems(rule, p).Some?
    ensures OnlyIn(rule.key, p, RecordedIn(rule, p).value, RecordedElems(rule, p).value)
    decreases p, 1
  {
    match p
    case And(l, r) => RecordedInPair(rule, p, l, r);
    case Or(l, r) => RecordedInPair(rule, p, l, r);
    case Paren(e) =>
      assert Ids(p) == Ids(e);
      RecordedIsIn(rule, e);
    case _ =>
  }

  lemma {:induction false} RecordedInPair(rule: Rule, p: Pred, l: Pred, r: Pred)
    requires p == And(l, r) || p == Or(l, r)
    requires DistinctIds(p) && RecordedIn(rule, p).Some? && RecordedElems(rule, p).Some?
    ensures var id, elems := RecordedIn(rule, p).value, RecordedElems(rule, p).value;
            OnlyIn(rule.key, l, id, elems) && OnlyIn(rule.key, r, id, elems)
    decreases p, 0
  {
    assert Ids(p) == Ids(l) + Ids(r);
    SplitIds(Ids(l), Ids(r));
    RecordedIds(rule, l);
    RecordedIds(rule, r);
    var id, elems := RecordedIn(rule, p).value, RecordedElems(rule, p).value;
    if RecordedIn(rule, r).Some? {
      RecordedIsIn(rule, r);
      AbsentId(rule.key, l, id, elems);
    } else {
      RecordedIsIn(rule, l);
      AbsentId(rule.key, r, id, elems);
    }
  }

  /** If the recorded node and the recorded groups belong together, so do their lists. */
  lemma {:induction false} SameNodeSameList(rule: Rule, p: Pred)
    requires DistinctIds(p) && RecordedIn(rule, p).Some? && SameNode(rule, p)
    ensures RecordedElems(rule, p) == Some(RecordedList(rule, p).value.1)
    decreases p, 1
  {
    match p
    case And(l, r) => SameListPair(rule, p, l, r);
    case Or(l, r) => SameListPair(rule, p, l, r);
    case Paren(e) =>
      assert Ids(p) == Ids(e);
      SameNodeSameList(rule, e);
    case _ =>
  }

  lemma {:induction false} SameListPair(rule: Rule, p: Pred, l: Pred, r: Pred)
    requires p == And(l, r) || p == Or(l, r)
    requires DistinctIds(p) && RecordedIn(rule, p).Some? && SameNode(rule, p)
    ensures RecordedElems(rule, p) == Some(RecordedList(rule, p).value.1)
    decreases p, 0
  {
    assert Ids(p) == Ids(l) + Ids(r);
    SplitIds(Ids(l), Ids(r));
    RecordedIds(rule, l);
    RecordedIds(rule, r);
    if RecordedIn(rule, r).Some? {
      SameNodeSameList(rule, r);
    } else {
      SameNodeSameList(rule, l);
    }
  }

  lemma {:induction false} RecordedSpelled(rule: Rule, kind: ColumnKind, p: Pred)
    requires Plans(rule, p) && TreeOk(rule, kind, p) && RecordedList(rule, p).Some?
    ensures SpelledTest(rule, kind, Member(false, RecordedList(rule, p).value.1))
  {
    match p
    case And(l, r) =>
      if RecordedList(rule, r).Some? {
        RecordedSpelled(rule, kind, r);
      } else {
        RecordedSpelled(rule, kind, l);
      }
    case Or(l, r) =>
      if RecordedList(rule, r).Some? {
        RecordedSpelled(rule, kind, r);
      } else {
        RecordedSpelled(rule, kind, l);
      }
    case Paren(e) => RecordedSpelled(rule, kind, e);
    case _ =>
  }

  lemma {:induction false} ElemsSpelled(rule: Rule, kind: ColumnKind, p: Pred)
    requires Plans(rule, p) && TreeOk(rule, kind, p) && RecordedElems(rule, p).Some?
    ensures SpelledTest(rule, kind, Member(false, RecordedElems(rule, p).value))
  {
    match p
    case And(l, r) =>
      if RecordedElems(rule, r).Some? {
        ElemsSpelled(rule, kind, r);
      } else {
        ElemsSpelled(rule, kind, l);
      }
    case Or(l, r) =>
      if RecordedElems(rule, r).Some? {
        ElemsSpelled(rule, kind, r);
      } else {
        ElemsSpelled(rule, kind, l);
      }
    case Paren(e) => ElemsSpelled(rule, kind, e);
    case _ =>
  }

  // ---------------------------------------------------------------- exchanging one list for another's group

  /** Every literal of `a` placed in `t`, unless no value of the column equals it, equals one of `b`. */
  predicate Covers(rule: Rule, kind: ColumnKind, a: seq<Val>, b: seq<Val>, t: int) {
    forall i :: 0 <= i < |a| && IndexOf(rule.shard, a[i]) == Ok(t) && MayMatch(kind, a[i]) ==> EqualsSome(kind, a[i], b)
  }

  predicate MayMatch(kind: ColumnKind, v: Val) {
    Literal(kind, v).Some? && Matched(kind, Literal(kind, v).value)
  }

  predicate EqualsSome(kind: ColumnKind, v: Val, b: seq<Val>) {
    exists j :: 0 <= j < |b| && SameLiteral(kind, v, b[j])
  }

  predicate SameLiteral(kind: ColumnKind, v: Val, w: Val) {
    Literal(kind, v).Some? && Literal(kind, w).Some? && KeyEq(kind, Literal(kind, v).value, Literal(kind, w).value)
  }

  /** The two lists have the same literals in sub-table `t`. */
  predicate ListsAgree(rule: Rule, kind: ColumnKind, a: seq<Val>, b: seq<Val>, t: int) {
    Covers(rule, kind, a, b, t) && Covers(rule, kind, b, a, t)
  }

  /** What the tree for `t` is rewritten with does no harm: nothing is exchanged, or the list whose group
      is put in agrees on `t` with the list it replaces. */
  predicate ExchangeOk(rule: Rule, kind: ColumnKind, p: Pred, t: int) {
    match (RecordedElems(rule, p), RecordedList(rule, p))
    case (Some(a), Some(list)) => Group(rule.shard, list.1, t) == [] || ListsAgree(rule, kind, a, list.1, t)
    case _ => true
  }

  lemma ListAgreesWithItself(rule: Rule, kind: ColumnKind, a: seq<Val>, t: int)
    requires SpelledTest(rule, kind, Member(false, a))
    ensures ListsAgree(rule, kind, a, a, t)
  {
    forall i | 0 <= i < |a|
      ensures EqualsSome(kind, a[i], a)
    {
      KeyOrder(kind, Literal(kind, a[i]).value, Literal(kind, a[i]).value);
      assert SameLiteral(kind, a[i], a[i]);
    }
  }

  /** Node and groups that belong together are always fine. */
  lemma SameNodeOk(rule: Rule, kind: ColumnKind, p: Pred, t: int)
    requires Plans(rule, p) && TreeOk(rule, kind, p) && DistinctIds(p) && SameNode(rule, p)
    ensures ExchangeOk(rule, kind, p, t)
  {
    RecordedIds(rule, p);
    if RecordedIn(rule, p).Some? {
      SameNodeSameList(rule, p);
      ElemsSpelled(rule, kind, p);
      ListAgreesWithItself(rule, kind, RecordedElems(rule, p).value, t);
    }
  }

  lemma MemberOf(rule: Rule, kind: ColumnKind, a: seq<Val>, b: seq<Val>, k: KeyValue, t: int)
    requires ValidRule(rule) && KindFits(rule, kind) && ValidKey(kind, k) && FindForKey(rule.shard, k) == Ok(t)
    requires SpelledTest(rule, kind, Member(false, a)) && SpelledTest(rule, kind, Member(false, b))
    requires Covers(rule, kind, a, b, t) && Satisfies(kind, Member(false, a), k)
    ensures Satisfies(kind, Member(false, b), k)
  {
    var i :| 0 <= i < |a| && KeyEq(kind, k, Literal(kind, a[i]).value);
    MatchPlaced(rule, kind, a[i], k, t);
    var j :| 0 <= j < |b| && SameLiteral(kind, a[i], b[j]);
    KeyEqTransitive(kind, k, Literal(kind, a[i]).value, Literal(kind, b[j]).value);
  }

  /** A literal that equals a stored key is placed where the key is. */
  lemma MatchPlaced(rule: Rule, kind: ColumnKind, v: Val, k: KeyValue, t: int)
    requires ValidRule(rule) && KindFits(rule, kind) && ValidKey(kind, k) && FindForKey(rule.shard, k) == Ok(t)
    requires Spelled(rule, kind, v) && KeyEq(kind, k, Literal(kind, v).value)
    ensures IndexOf(rule.shard, v) == Ok(t) && MayMatch(kind, v)
  {
    SpelledIndex(rule, kind, v);
    PlaceEqual(rule, kind, k, Literal(kind, v).value);
    MatchedIf(kind, k, Literal(kind, v).value);
  }

  lemma KeyEqTransitive(kind: ColumnKind, a: KeyValue, b: KeyValue, c: KeyValue)
    requires Comparable(kind, a) && Comparable(kind, b) && Comparable(kind, c) && KeyEq(kind, a, b) && KeyEq(kind, b, c)
    ensures KeyEq(kind, a, c)
  {
  }

  lemma CoveredIfMember(rule: Rule, kind: ColumnKind, a: seq<Val>, b: seq<Val>, t: int)
    requires ValidRule(rule) && KindFits(rule, kind)
    requires SpelledTest(rule, kind, Member(false, a)) && SpelledTest(rule, kind, Member(false, b))
    requires forall k :: ValidKey(kind, k) && FindForKey(rule.shard, k) == Ok(t) && Satisfies(kind, Member(false, a), k) ==>
               Satisfies(kind, Member(false, b), k)
    ensures Covers(rule, kind, a, b, t)
  {
    forall i | 0 <= i < |a| && IndexOf(rule.shard, a[i]) == Ok(t) && MayMatch(kind, a[i])
      ensures EqualsSome(kind, a[i], b)
    {
      var k := Stored(kind, Literal(kind, a[i]).value);
      SpelledIndex(rule, kind, a[i]);
      StoredPlace(rule, kind, Literal(kind, a[i]).value);
      assert Satisfies(kind, Member(false, a), k);
      var j :| 0 <= j < |b| && KeyEq(kind, k, Literal(kind, b[j]).value);
      assert SameLiteral(kind, a[i], b[j]);
    }
  }

  /** Putting the group of list `b` for sub-table `t` in the place of list `a` decides alike for every key
      stored in `t` if and only if the two lists agree on `t`. */
  lemma ExchangeExact(rule: Rule, kind: ColumnKind, a: seq<Val>, b: seq<Val>, t: int)
    requires ValidRule(rule) && KindFits(rule, kind)
    requires SpelledTest(rule, kind, Member(false, a)) && SpelledTest(rule, kind, Member(false, b))
    ensures Denotes(kind, Member(false, Group(rule.shard, b, t)))
    ensures (forall k :: ValidKey(kind, k) && FindForKey(rule.shard, k) == Ok(t) ==>
               (Satisfies(kind, Member(false, a), k) <==> Satisfies(kind, Member(false, Group(rule.shard, b, t)), k)))
            <==> ListsAgree(rule, kind, a, b, t)
  {
    var g := Group(rule.shard, b, t);
    GroupDenotes(rule, kind, b, t);
    forall k | ValidKey(kind, k) && FindForKey(rule.shard, k) == Ok(t)
      ensures Satisfies(kind, Member(false, g), k) <==> Satisfies(kind, Member(false, b), k)
    {
      GroupDecides(rule, kind, b, k, t);
    }
    if ListsAgree(rule, kind, a, b, t) {
      forall k | ValidKey(kind, k) && FindForKey(rule.shard, k) == Ok(t)
        ensures Satisfies(kind, Member(false, a), k) <==> Satisfies(kind, Member(false, b), k)
      {
        if Satisfies(kind, Member(false, a), k) {
          MemberOf(rule, kind, a, b, k, t);
        }
        if Satisfies(kind, Member(false, b), k) {
          MemberOf(rule, kind, b, a, k, t);
        }
      }
    }
    if forall k :: ValidKey(kind, k) && FindForKey(rule.shard, k) == Ok(t) ==>
                     (Satisfies(kind, Member(false, a), k) <==> Satisfies(kind, Member(false, g), k)) {
      CoveredIfMember(rule, kind, a, b, t);
      CoveredIfMember(rule, kind, b, a, t);
    }
  }

  lemma GroupDenotes(rule: Rule, kind: ColumnKind, elems: seq<Val>, t: int)
    requires Denotes(kind, Member(false, elems))
    ensures Denotes(kind, Member(false, Group(rule.shard, elems, t)))
  {
    var g := Group(rule.shard, elems, t);
    forall j | 0 <= j < |g|
      ensures Literal(kind, g[j]).Some?
    {
      GroupMember(rule.shard, elems, t, g[j]);
    }
  }

  /** A key stored in `t` is in the list exactly when it is in the list's group for `t`. */
  lemma GroupDecides(rule: Rule, kind: ColumnKind, elems: seq<Val>, k: KeyValue, t: int)
    requires ValidRule(rule) && KindFits(rule, kind) && SpelledTest(rule, kind, Member(false, elems))
    requires ValidKey(kind, k) && FindForKey(rule.shard, k) == Ok(t)
    ensures var g := Group(rule.shard, elems, t);
            && Denotes(kind, Member(false, g))
            && (Satisfies(kind, Member(false, g), k) <==> Satisfies(kind, Member(false, elems), k))
  {
    var g := Group(rule.shard, elems, t);
    forall j | 0 <= j < |g|
      ensures exists i :: 0 <= i < |elems| && elems[i] == g[j]
    {
      GroupMember(rule.shard, elems, t, g[j]);
    }
    forall i | 0 <= i < |elems| && KeyEq(kind, k, Literal(kind, elems[i]).value)
      ensures elems[i] in g
    {
      SpelledIndex(rule, kind, elems[i]);
      PlaceEqual(rule, kind, k, Literal(kind, elems[i]).value);
      GroupMember(rule.shard, elems, t, elems[i]);
    }
  }

  /** A single IN is cut: what is sent to a routed sub-table is the same comparison with exactly those of its
      values that are placed there. */
  lemma InListCut(rule: Rule, id: nat, lhs: Val, elems: seq<Val>, t: int)
    requires var p := Cmp(id, In, lhs, Tuple(elems)); KeyLeaf(rule.key, p) && Plans(rule, p) && Routes(rule, p, t)
    ensures var p, g := Cmp(id, In, lhs, Tuple(elems)), Group(rule.shard, elems, t);
            && WhereFor(rule, p, t) == Cmp(id, In, lhs, Tuple(g)) && g != []
            && forall v :: v in g <==> v in elems && IndexOf(rule.shard, v) == Ok(t)
  {
    GroupMeets(rule.shard, elems, t);
    forall v
      ensures v in Group(rule.shard, elems, t) <==> v in elems && IndexOf(rule.shard, v) == Ok(t)
    {
      GroupMember(rule.shard, elems, t, v);
    }
  }

  /** Of several IN lists the one the planner comes to last is exchanged. */
  lemma LastInRecorded(rule: Rule, l: Pred, r: Pred)
    ensures RecordedIn(rule, r).Some? ==> RecordedIn(rule, And(l, r)) == RecordedIn(rule, Or(l, r)) == RecordedIn(rule, r)
    ensures RecordedIn(rule, r).None? ==> RecordedIn(rule, And(l, r)) == RecordedIn(rule, Or(l, r)) == RecordedIn(rule, l)
    ensures RecordedIn(rule, Not(l)).None? && RecordedIn(rule, Paren(l)) == RecordedIn(rule, l)
  {
  }

  lemma ReplacedLeaf(rule: Rule, m: Meaning, p: Pred, a: seq<Val>, b: seq<Val>, row: Row, t: int)
    requires ValidRule(rule) && m.key == rule.key && KindFits(rule, m.kind)
    requires p.Cmp? && OnlyIn(m.key, p, p.id, a) && ListsAgree(rule, m.kind, a, b, t)
    requires SpelledTest(rule, m.kind, Member(false, a)) && SpelledTest(rule, m.kind, Member(false, b))
    requires ValidKey(m.kind, row.key) && FindForKey(rule.shard, row.key) == Ok(t)
    ensures Eval(m, p.(rhs := Tuple(Group(rule.shard, b, t))), row) == Eval(m, p, row)
  {
    var g := Group(rule.shard, b, t);
    ExchangeExact(rule, m.kind, a, b, t);
    var q := p.(rhs := Tuple(g));
    forall j | 0 <= j < |g|
      ensures IsValue(g[j])
    {
      GroupMember(rule.shard, b, t, g[j]);
      assert Literal(m.kind, g[j]).Some?;
    }
    assert KeyLeaf(m.key, q);
    assert TestOf(m.key, q) == Member(false, g) && TestOf(m.key, p) == Member(false, a);
    LeafHoldsIsSatisfies(m.key, m.kind, p, row.key);
    LeafHoldsIsSatisfies(m.key, m.kind, q, row.key);
  }

  lemma {:induction false} ReplacedEval(
      rule: Rule, m: Meaning, p: Pred, id: nat, a: seq<Val>, b: seq<Val>, row: Row, t: int)
    requires ValidRule(rule) && m.key == rule.key && KindFits(rule, m.kind)
    requires OnlyIn(m.key, p, id, a) && ListsAgree(rule, m.kind, a, b, t)
    requires SpelledTest(rule, m.kind, Member(false, a)) && SpelledTest(rule, m.kind, Member(false, b))
    requires ValidKey(m.kind, row.key) && FindForKey(rule.shard, row.key) == Ok(t)
    ensures Eval(m, ReplaceRight(p, id, Tuple(Group(rule.shard, b, t))), row) == Eval(m, p, row)
  {
    match p
    case And(l, r) =>
      ReplacedEval(rule, m, l, id, a, b, row, t);
      ReplacedEval(rule, m, r, id, a, b, row, t);
    case Or(l, r) =>
      ReplacedEval(rule, m, l, id, a, b, row, t);
      ReplacedEval(rule, m, r, id, a, b, row, t);
    case Not(e) => ReplacedEval(rule, m, e, id, a, b, row, t);
    case Paren(e) => ReplacedEval(rule, m, e, id, a, b, row, t);
    case Cmp(i, op, lhs, rhs) =>
      if i == id {
        ReplacedLeaf(rule, m, p, a, b, row, t);
      }
    case _ =>
  }

  /** Rewriting for a sub-table keeps the truth value of the WHERE tree, in any boolean context, for
      every row stored there. */
  lemma WherePreserved(rule: Rule, m: Meaning, p: Pred, row: Row, t: int)
    requires ValidRule(rule) && m.key == rule.key && KindFits(rule, m.kind)
    requires Plans(rule, p) && TreeOk(rule, m.kind, p) && DistinctIds(p) && ExchangeOk(rule, m.kind, p, t)
    requires ValidKey(m.kind, row.key) && FindForKey(rule.shard, row.key) == Ok(t)
    ensures Eval(m, WhereFor(rule, p, t), row) == Eval(m, p, row)
  {
    RecordedIds(rule, p);
    if RecordedIn(rule, p).Some? && Group(rule.shard, RecordedList(rule, p).value.1, t) != [] {
      RecordedIsIn(rule, p);
      RecordedSpelled(rule, m.kind, p);
      ElemsSpelled(rule, m.kind, p);
      ReplacedEval(rule, m, p, RecordedIn(rule, p).value, RecordedElems(rule, p).value, RecordedList(rule, p).value.1, row, t);
    }
  }

  // ---------------------------------------------------------------- date rules and NOT IN

  /** d in (june) or (d not in (may) or other) */
  function Overwritten(may: string, june: string): Pred {
    Or(Leaf(0, In, june), Or(Leaf(1, NotIn, may), OtherPred(0)))
  }

  function Leaf(id: nat, op: CmpOp, s: string): Pred {
    Cmp(id, op, Col(id, "d"), Tuple([StrVal(s)]))
  }

  lemma KeyIn(id: nat, op: CmpOp, s: string)
    requires op == In || op == NotIn
    ensures KeyLeaf("d", Leaf(id, op, s)) && TestOf("d", Leaf(id, op, s)) == Member(op == NotIn, [StrVal(s)])
  {
    assert Lower("d") == "d";
  }

  ghost predicate DayRule(rule: Rule, may: string, june: string) {
    && ValidRule(rule) && rule.ruleType == DateRule(Day) && rule.key == "d"
    && IsBareDate(may) && IsBareDate(june) && may != june
    && DateIndex(Day, may) in rule.subTables
  }

  lemma MayListed(rule: Rule, may: string)
    requires rule.shard == DateShard(Day) && IsBareDate(may)
    ensures forall t :: SomeIndex(rule.shard, [StrVal(may)], t) ==> AllListed(DateColumn, Day, [StrVal(may)], t)
  {
    var list := [StrVal(may)];
    FindDateIndex(Day, may);
    forall t, n: nat | SomeIndex(rule.shard, list, t) && t >= 0 && InTable(false, Day, t, n)
      ensures Listed(DateColumn, list, n)
    {
      assert IndexOf(rule.shard, list[0]) == Ok(t);
      assert StampOf(Literal(DateColumn, list[0]).value) == n;
    }
  }

  lemma InRouted(rule: Rule, june: string)
    requires ValidRule(rule) && rule.ruleType == DateRule(Day) && rule.key == "d" && IsBareDate(june)
    ensures var l := Leaf(0, In, june);
            Plans(rule, l) && TreeOk(rule, DateColumn, l) && forall t :: Routes(rule, l, t) <==> t == DateIndex(Day, june)
  {
    FindDateIndex(Day, june);
    KeyIn(0, In, june);
    var list := [StrVal(june)];
    assert IndexOf(rule.shard, list[0]) == Ok(DateIndex(Day, june));
  }

  lemma NotInRouted(rule: Rule, may: string)
    requires ValidRule(rule) && rule.ruleType == DateRule(Day) && rule.key == "d" && IsBareDate(may)
    ensures var r := Leaf(1, NotIn, may);
            && Plans(rule, r) && TreeOk(rule, DateColumn, r)
            && forall t :: Routes(rule, r, t) <==> t in rule.subTables && t != DateIndex(Day, may)
  {
    FindDateIndex(Day, may);
    KeyIn(1, NotIn, may);
    MayListed(rule, may);
    var list := [StrVal(may)];
    assert IndexOf(rule.shard, list[0]) == Ok(DateIndex(Day, may));
  }

  lemma OverwrittenRouted(rule: Rule, may: string, june: string)
    requires DayRule(rule, may, june)
    ensures var p := Overwritten(may, june);
            Plans(rule, p) && TreeOk(rule, DateColumn, p) && Routes(rule, p, DateIndex(Day, may))
  {
    InRouted(rule, june);
    NotInRouted(rule, may);
    var inner := Or(Leaf(1, NotIn, may), OtherPred(0));
    assert Plans(rule, OtherPred(0)) && TreeOk(rule, DateColumn, OtherPred(0));
    assert Plans(rule, inner) && TreeOk(rule, DateColumn, inner);
    assert Routes(rule, OtherPred(0), DateIndex(Day, may));
  }

  lemma OverwrittenIds(may: string, june: string)
    ensures DistinctIds(Overwritten(may, june))
  {
    var first, second, inner := Leaf(0, In, june), Leaf(1, NotIn, may), Or(Leaf(1, NotIn, may), OtherPred(0));
    assert Ids(first) == [0] && Ids(second) == [1] && Ids(OtherPred(0)) == [];
    assert Ids(inner) == [1];
    assert Ids(Overwritten(may, june)) == [0, 1];
  }

  lemma OverwrittenRecords(rule: Rule, may: string, june: string)
    requires DayRule(rule, may, june)
    ensures RecordedIn(rule, Overwritten(may, june)) == Some(0)
    ensures RecordedList(rule, Overwritten(may, june)) == Some((1, [StrVal(may)]))
  {
    KeyIn(0, In, june);
    KeyIn(1, NotIn, may);
    var second, inner := Leaf(1, NotIn, may), Or(Leaf(1, NotIn, may), OtherPred(0));
    assert RecordedIn(rule, OtherPred(0)) == None && RecordedList(rule, OtherPred(0)) == None;
    assert RecordedIn(rule, second) == None && RecordedList(rule, second) == Some((1, [StrVal(may)]));
    assert RecordedIn(rule, inner) == None && RecordedList(rule, inner) == Some((1, [StrVal(may)]));
    assert RecordedIn(rule, Leaf(0, In, june)) == Some(0);
  }

  lemma OverwrittenRewrite(rule: Rule, may: string, june: string)
    requires DayRule(rule, may, june)
    ensures !SameNode(rule, Overwritten(may, june))
    ensures WhereFor(rule, Overwritten(may, june), DateIndex(Day, may)) ==
            Or(Leaf(0, In, may), Or(Leaf(1, NotIn, may), OtherPred(0)))
  {
    FindDateIndex(Day, may);
    OverwrittenRecords(rule, may, june);
    var list, t := [StrVal(may)], DateIndex(Day, may);
    assert IndexOf(rule.shard, list[0]) == Ok(t) && list[..0] == [];
    assert Group(rule.shard, list, t) == list;
    OverwrittenReplace(may, june);
  }

  lemma OverwrittenReplace(may: string, june: string)
    ensures ReplaceRight(Overwritten(may, june), 0, Tuple([StrVal(may)])) ==
            Or(Leaf(0, In, may), Or(Leaf(1, NotIn, may), OtherPred(0)))
  {
    var v, inner := Tuple([StrVal(may)]), Or(Leaf(1, NotIn, may), OtherPred(0));
    assert ReplaceRight(Leaf(1, NotIn, may), 0, v) == Leaf(1, NotIn, may) && ReplaceRight(OtherPred(0), 0, v) == OtherPred(0);
    assert ReplaceRight(inner, 0, v) == inner && ReplaceRight(Leaf(0, In, june), 0, v) == Leaf(0, In, may);
  }

  lemma OverwrittenMeaning(m: Meaning, may: string, june: string)
    requires m.key == "d" && m.kind == DateColumn && forall p, row :: m.atom(p, row) == False
    requires IsBareDate(may) && IsBareDate(june) && may != june
    ensures Eval(m, Overwritten(may, june), Row(TextKey(may), [])) == False
    ensures Eval(m, Or(Leaf(0, In, may), Or(Leaf(1, NotIn, may), OtherPred(0))), Row(TextKey(may), [])) == True
  {
    var k := TextKey(may);
    assert Normal(may)[..10] == may && Normal(june)[..10] == june;
    OneDay(m, 0, In, may, k);
    OneDay(m, 0, In, june, k);
    OneDay(m, 1, NotIn, may, k);
    var inner, row := Or(Leaf(1, NotIn, may), OtherPred(0)), Row(k, []);
    OtherIsFalse(m, row);
    EvalOr(m, Leaf(1, NotIn, may), OtherPred(0), row);
    EvalOr(m, Leaf(0, In, june), inner, row);
    EvalOr(m, Leaf(0, In, may), inner, row);
  }

  lemma OtherIsFalse(m: Meaning, row: Row)
    requires ValidKey(m.kind, row.key) && forall p, row :: m.atom(p, row) == False
    ensures Eval(m, OtherPred(0), row) == False
  {
  }

  lemma EvalOr(m: Meaning, l: Pred, r: Pred, row: Row)
    requires ValidKey(m.kind, row.key)
    ensures Eval(m, l, row) == True || Eval(m, r, row) == True ==> Eval(m, Or(l, r), row) == True
    ensures Eval(m, l, row) == False && Eval(m, r, row) == False ==> Eval(m, Or(l, r), row) == False
  {
  }

  lemma OneDay(m: Meaning, id: nat, op: CmpOp, day: string, k: KeyValue)
    requires m.key == "d" && m.kind == DateColumn && (op == In || op == NotIn) && IsBareDate(day) && ValidKey(m.kind, k)
    ensures Eval(m, Leaf(id, op, day), Row(k, [])) == ToTri((op == In) == (Normal(k.s) == Normal(day)))
  {
    KeyIn(id, op, day);
    var list := [StrVal(day)];
    assert Literal(DateColumn, list[0]) == Some(TextKey(day));
    assert KeyEq(DateColumn, k, Literal(DateColumn, list[0]).value) <==> Normal(k.s) == Normal(day);
  }

  /** In a date rule a NOT IN overwrites the groups of an earlier IN. Take a day rule and the tree
      above: the sub-table of the day excluded by NOT IN is routed, and a row there that does not
      satisfy the tree satisfies the rewritten one, whatever the two days are. */
  lemma NotInOverwritesGroups(rule: Rule, m: Meaning, may: string, june: string)
    requires DayRule(rule, may, june)
    requires m.key == "d" && m.kind == DateColumn && forall p, row :: m.atom(p, row) == False
    ensures var p, row, t := Overwritten(may, june), Row(TextKey(may), []), DateIndex(Day, may);
            && Plans(rule, p) && TreeOk(rule, m.kind, p) && DistinctIds(p) && !ExchangeOk(rule, m.kind, p, t)
            && FindForKey(rule.shard, row.key) == Ok(t) && Routes(rule, p, t)
            && Eval(m, p, row) == False
            && Eval(m, WhereFor(rule, p, t), row) == True
  {
    FindDateIndex(Day, may);
    OverwrittenRouted(rule, may, june);
    OverwrittenIds(may, june);
    OverwrittenRewrite(rule, may, june);
    OverwrittenMeaning(m, may, june);
    if ExchangeOk(rule, m.kind, Overwritten(may, june), DateIndex(Day, may)) {
      WherePreserved(rule, m, Overwritten(may, june), Row(TextKey(may), []), DateIndex(Day, may));
    }
  }
}
