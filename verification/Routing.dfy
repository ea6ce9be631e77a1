/** The routed sub-tables suffice: a row that satisfies the WHERE tree lies in one of them. For each
    key test the exact condition is given under which that is so. */
module Routing {
  import opened Prelude
  import opened Text
  import opened Calendar
  import opened Shards
  import opened Rules
  import opened Where

  // ---------------------------------------------------------------- premises on spelling

  predicate KindFits(rule: Rule, kind: ColumnKind) {
    match rule.ruleType
    case HashRule => kind == IntColumn || kind == TextColumn
    case RangeRule => kind == IntColumn
    case DateRule(_) => kind == DateTimeColumn || kind == DateColumn
    case DefaultRule => false
  }

  /** The literal denotes a key, and a hashed integer written as text is an unsigned numeral. */
  predicate Spelled(rule: Rule, kind: ColumnKind, v: Val) {
    && Literal(kind, v).Some?
    && (rule.ruleType.HashRule? && kind == IntColumn && v.StrVal? ==> ParseUint64(v.s).Some?)
  }

  predicate SpelledTest(rule: Rule, kind: ColumnKind, c: KeyTest) {
    match c
    case Compare(_, lit) => Spelled(rule, kind, lit)
    case Member(_, elems) => forall i :: 0 <= i < |elems| ==> Spelled(rule, kind, elems[i])
    case Between(_, from, to) => Spelled(rule, kind, from) && Spelled(rule, kind, to)
  }

  lemma SpelledDenotes(rule: Rule, kind: ColumnKind, c: KeyTest)
    requires SpelledTest(rule, kind, c)
    ensures Denotes(kind, c)
  {
  }

  lemma UnsignedReads(s: string)
    requires ParseUint64(s).Some? && ParseInt64(s).Some?
    ensures ParseInt64(s) == ParseUint64(s)
  {
    assert IsDigit(s[0]);
  }

  /** A numeral is placed like the number it spells. */
  lemma NumeralPlaced(shard: Shard, s: string)
    requires shard.HashShard? || shard.NumRangeShard?
    requires ParseInt64(s).Some? && (shard.HashShard? ==> ParseUint64(s).Some?)
    ensures FindForKey(shard, TextKey(s)) == FindForKey(shard, IntKey(ParseInt64(s).value))
  {
    if shard.HashShard? {
      UnsignedReads(s);
      var n := ParseUint64(s).value;
      assert n % TWO_64 == n;
    }
  }

  /** A well-spelled literal is routed to where its value is stored. */
  lemma SpelledIndex(rule: Rule, kind: ColumnKind, v: Val)
    requires ValidRule(rule) && KindFits(rule, kind) && Spelled(rule, kind, v)
    ensures IndexOf(rule.shard, v) == FindForKey(rule.shard, Literal(kind, v).value)
  {
    if kind == IntColumn && v.StrVal? {
      NumeralPlaced(rule.shard, v.s);
      assert BoundValue(v) == Ok(TextKey(v.s));
    } else {
      assert BoundValue(v) == Ok(Literal(kind, v).value);
    }
  }

  // ---------------------------------------------------------------- placement and key order

  lemma PlaceEqual(rule: Rule, kind: ColumnKind, a: KeyValue, b: KeyValue)
    requires ValidRule(rule) && KindFits(rule, kind)
    requires Comparable(kind, a) && Comparable(kind, b) && KeyEq(kind, a, b)
    ensures FindForKey(rule.shard, a) == FindForKey(rule.shard, b)
  {
    if rule.ruleType.DateRule? {
      var g := rule.ruleType.granularity;
      EqualDatesShareIndex(g, a.s, b.s);
      FindDateIndex(g, a.s);
      FindDateIndex(g, b.s);
    }
  }

  lemma PlaceMonotone(rule: Rule, kind: ColumnKind, a: KeyValue, b: KeyValue)
    requires ValidRule(rule) && KindFits(rule, kind) && !rule.ruleType.HashRule?
    requires Comparable(kind, a) && Comparable(kind, b) && !KeyLess(kind, b, a)
    requires FindForKey(rule.shard, a).Ok? && FindForKey(rule.shard, b).Ok?
    ensures FindForKey(rule.shard, a).value <= FindForKey(rule.shard, b).value
  {
    if rule.ruleType.DateRule? {
      var g := rule.ruleType.granularity;
      DateIndexMonotone(g, a.s, b.s);
      FindDateIndex(g, a.s);
      FindDateIndex(g, b.s);
    } else {
      RangeMonotone(rule.shard.ranges, a.v, b.v);
    }
  }

  lemma PlacedInTables(rule: Rule, kind: ColumnKind, k: KeyValue)
    requires ValidRule(rule) && KindFits(rule, kind) && !rule.ruleType.DateRule?
    requires ValidKey(kind, k) && FindForKey(rule.shard, k).Ok?
    ensures 0 <= FindForKey(rule.shard, k).value < |rule.subTables|
    ensures FindForKey(rule.shard, k).value in rule.subTables
  {
    var t := FindForKey(rule.shard, k).value;
    assert 0 <= t < |rule.subTables| && rule.subTables[t] == t;
  }

  // ---------------------------------------------------------------- dates by number

  predicate Timed(kind: ColumnKind) {
    kind == DateTimeColumn
  }

  /** The number of a date or date-time. */
  function StampOf(k: KeyValue): nat {
    if k.TextKey? && IsMoment(k.s) then Stamp(k.s) else 0
  }

  lemma CompareStamps(kind: ColumnKind, a: KeyValue, b: KeyValue)
    requires (kind == DateTimeColumn || kind == DateColumn) && Comparable(kind, a) && Comparable(kind, b)
    ensures KeyLess(kind, a, b) <==> StampOf(a) < StampOf(b)
    ensures KeyEq(kind, a, b) <==> StampOf(a) == StampOf(b)
  {
    StampOrder(a.s, b.s);
  }

  /** A stored date lies in sub-table `t` exactly when its number is one of `t`. */
  lemma KeyStamp(rule: Rule, kind: ColumnKind, k: KeyValue, t: int)
    requires ValidRule(rule) && KindFits(rule, kind) && rule.ruleType.DateRule? && ValidKey(kind, k)
    ensures FindForKey(rule.shard, k) == Ok(t) <==>
            t >= 0 && ValidIndex(rule.ruleType.granularity, t) && InTable(Timed(kind), rule.ruleType.granularity, t, StampOf(k))
  {
    var g := rule.ruleType.granularity;
    FindDateIndex(g, k.s);
    if t >= 0 {
      StampInTable(Timed(kind), g, k.s, t);
    }
  }

  /** Every number of a sub-table is that of a date the column may hold. */
  lemma StampedKey(rule: Rule, kind: ColumnKind, t: nat, n: nat) returns (k: KeyValue)
    requires ValidRule(rule) && KindFits(rule, kind) && rule.ruleType.DateRule?
    requires ValidIndex(rule.ruleType.granularity, t) && InTable(Timed(kind), rule.ruleType.granularity, t, n)
    ensures ValidKey(kind, k) && StampOf(k) == n && FindForKey(rule.shard, k) == Ok(t)
  {
    MomentTextIs(Timed(kind), n);
    k := TextKey(MomentText(Timed(kind), n));
    KeyStamp(rule, kind, k, t);
  }

  /** A literal is placed by its day, also where the column holds no value equal to it. */
  lemma LiteralIndex(rule: Rule, kind: ColumnKind, v: Val)
    requires ValidRule(rule) && KindFits(rule, kind) && rule.ruleType.DateRule? && Spelled(rule, kind, v)
    ensures var i := IndexOf(rule.shard, v);
            i.Ok? && i.value >= 0 && ValidIndex(rule.ruleType.granularity, i.value) && ValidStamp(true, StampOf(Literal(kind, v).value))
  {
    var g, s := rule.ruleType.granularity, Literal(kind, v).value.s;
    SpelledIndex(rule, kind, v);
    FindDateIndex(g, s);
    NormalStamp(s);
    StampInTable(true, g, Normal(s), DateIndex(g, s));
    StampIsValid(s);
  }

  /** A value is stored in the sub-table its literal is routed to. */
  lemma StoredPlace(rule: Rule, kind: ColumnKind, k: KeyValue)
    requires ValidRule(rule) && KindFits(rule, kind) && Comparable(kind, k)
    ensures FindForKey(rule.shard, Stored(kind, k)) == FindForKey(rule.shard, k)
  {
    if rule.ruleType.DateRule? {
      var g := rule.ruleType.granularity;
      FindDateIndex(g, k.s);
      FindDateIndex(g, Stored(kind, k).s);
      NormalStamp(k.s);
      DatePart(k.s);
    }
  }

  // ---------------------------------------------------------------- one key test

  predicate Listed(kind: ColumnKind, elems: seq<Val>, n: nat) {
    exists i :: 0 <= i < |elems| && Literal(kind, elems[i]).Some? && StampOf(Literal(kind, elems[i]).value) == n
  }

  /** Every date that sub-table `s` may hold is in the list. */
  ghost predicate AllListed(kind: ColumnKind, g: Granularity, elems: seq<Val>, s: int) {
    s >= 0 && forall n :: InTable(Timed(kind), g, s, n) ==> Listed(kind, elems, n)
  }

  /** The exact condition under which a key test is routed to every sub-table that may satisfy it. */
  ghost predicate TestOk(rule: Rule, kind: ColumnKind, c: KeyTest)
    requires PlansTest(rule, c) && Denotes(kind, c)
  {
    var shard, tables := rule.shard, rule.subTables;
    match rule.ruleType
    case RangeRule =>
      (match c
       case Between(true, from, to) =>
         || !KeyLess(kind, Literal(kind, to).value, Literal(kind, from).value)
         || NotBetweenEnds(shard, from, to).value.1 <= NotBetweenEnds(shard, from, to).value.0 + 1
       case _ => true)
    case DateRule(g) =>
      (match c
       case Compare(op, lit) =>
         var i := IndexOf(shard, lit).value;
         || i in tables
         || (op != Lt && op != Le && op != Gt && op != Ge)
         || ((op == Lt || op == Le) && forall s :: s in tables ==> i < s)
         || ((op == Gt || op == Ge) && forall s :: s in tables ==> s < i)
       case Member(negated, elems) =>
         || !negated
         || (forall s :: s in tables && SomeIndex(shard, elems, s) ==> AllListed(kind, g, elems, s))
       case Between(negated, from, to) =>
         var i, j := IndexOf(shard, from).value, IndexOf(shard, to).value;
         var lo, hi := StampOf(Literal(kind, from).value), StampOf(Literal(kind, to).value);
         if negated then
           || !(i in tables && j in tables)
           || (0 <= i && 0 <= j && lo <= hi && lo <= FirstStamp(g, i) && LastStamp(Timed(kind), g, j) <= hi)
         else
           || (i in tables && j in tables)
           || (forall s :: s in tables && s >= 0 ==> !MeetsTable(Timed(kind), g, s, lo, hi)))
    case _ => true
  }

  /** Every configured sub-table that can hold a key satisfying the test is routed. */
  ghost predicate Complete(rule: Rule, kind: ColumnKind, c: KeyTest)
    requires PlansTest(rule, c) && Denotes(kind, c)
  {
    forall k, t ::
      (ValidKey(kind, k) && FindForKey(rule.shard, k) == Ok(t) && t in rule.subTables && Satisfies(kind, c, k)) ==>
        RoutesTest(rule, c, t)
  }

  ghost predicate TestPremises(rule: Rule, kind: ColumnKind, c: KeyTest) {
    ValidRule(rule) && KindFits(rule, kind) && SpelledTest(rule, kind, c) && PlansTest(rule, c)
  }

  lemma CompareSound(rule: Rule, kind: ColumnKind, op: CmpOp, lit: Val, k: KeyValue, t: int)
    requires op in {Eq, Lt, Gt, Le, Ge, Nse}
    requires TestPremises(rule, kind, Compare(op, lit)) && TestOk(rule, kind, Compare(op, lit))
    requires ValidKey(kind, k) && FindForKey(rule.shard, k) == Ok(t) && t in rule.subTables
    requires Satisfies(kind, Compare(op, lit), k)
    ensures RoutesTest(rule, Compare(op, lit), t)
  {
    var b := Literal(kind, lit).value;
    SpelledIndex(rule, kind, lit);
    KeyOrder(kind, k, b);
    if op == Eq || op == Nse {
      PlaceEqual(rule, kind, k, b);
    } else if !rule.ruleType.HashRule? {
      if op == Lt || op == Le {
        PlaceMonotone(rule, kind, k, b);
      } else {
        PlaceMonotone(rule, kind, b, k);
      }
      if rule.ruleType.RangeRule? {
        PlacedInTables(rule, kind, k);
        if op == Lt {
          AdjustBound(rule, lit, k.v, t);
        }
      }
    }
  }

  /** A key below a literal lies at or before the adjusted index of the literal. */
  lemma AdjustBound(rule: Rule, lit: Val, v: int, t: int)
    requires ValidRule(rule) && rule.ruleType.RangeRule?
    requires Spelled(rule, IntColumn, lit) && IndexOf(rule.shard, lit).Ok?
    requires AdjustIndex(rule.shard, lit, IndexOf(rule.shard, lit).value).Ok?
    requires FindForKey(rule.shard, IntKey(v)) == Ok(t)
    ensures v < Literal(IntColumn, lit).value.v ==> t <= AdjustIndex(rule.shard, lit, IndexOf(rule.shard, lit).value).value
  {
    SpelledIndex(rule, IntColumn, lit);
    var b := Literal(IntColumn, lit).value.v;
    if v < b {
      RangeMonotone(rule.shard.ranges, v, b);
    }
  }

  lemma MemberSound(rule: Rule, kind: ColumnKind, negated: bool, elems: seq<Val>, k: KeyValue, t: int)
    requires TestPremises(rule, kind, Member(negated, elems)) && TestOk(rule, kind, Member(negated, elems))
    requires ValidKey(kind, k) && FindForKey(rule.shard, k) == Ok(t) && t in rule.subTables
    requires Satisfies(kind, Member(negated, elems), k)
    ensures RoutesTest(rule, Member(negated, elems), t)
  {
    if !negated {
      var i :| 0 <= i < |elems| && KeyEq(kind, k, Literal(kind, elems[i]).value);
      PlaceEqual(rule, kind, k, Literal(kind, elems[i]).value);
      SpelledIndex(rule, kind, elems[i]);
    } else if rule.ruleType.DateRule? && SomeIndex(rule.shard, elems, t) {
      var i :| 0 <= i < |elems| && IndexOf(rule.shard, elems[i]) == Ok(t);
      ListedKey(rule, kind, elems, k, t);
    }
  }

  /** A date of a sub-table whose dates are all listed is in the list. */
  lemma ListedKey(rule: Rule, kind: ColumnKind, elems: seq<Val>, k: KeyValue, t: int)
    requires ValidRule(rule) && KindFits(rule, kind) && rule.ruleType.DateRule?
    requires Denotes(kind, Member(true, elems)) && ValidKey(kind, k) && FindForKey(rule.shard, k) == Ok(t)
    requires AllListed(kind, rule.ruleType.granularity, elems, t)
    ensures !Satisfies(kind, Member(true, elems), k)
  {
    KeyStamp(rule, kind, k, t);
    assert Listed(kind, elems, StampOf(k));
    var i :| 0 <= i < |elems| && StampOf(Literal(kind, elems[i]).value) == StampOf(k);
    CompareStamps(kind, k, Literal(kind, elems[i]).value);
  }

  lemma BetweenSound(rule: Rule, kind: ColumnKind, negated: bool, from: Val, to: Val, k: KeyValue, t: int)
    requires TestPremises(rule, kind, Between(negated, from, to)) && TestOk(rule, kind, Between(negated, from, to))
    requires ValidKey(kind, k) && FindForKey(rule.shard, k) == Ok(t) && t in rule.subTables
    requires Satisfies(kind, Between(negated, from, to), k)
    ensures RoutesTest(rule, Between(negated, from, to), t)
  {
    match rule.ruleType
    case RangeRule => RangeBetweenSound(rule, kind, negated, from, to, k, t);
    case DateRule(_) => DateBetweenSound(rule, kind, negated, from, to, k, t);
    case _ =>
  }

  lemma RangeBetweenSound(rule: Rule, kind: ColumnKind, negated: bool, from: Val, to: Val, k: KeyValue, t: int)
    requires TestPremises(rule, kind, Between(negated, from, to)) && TestOk(rule, kind, Between(negated, from, to))
    requires ValidKey(kind, k) && FindForKey(rule.shard, k) == Ok(t) && rule.ruleType.RangeRule?
    requires Satisfies(kind, Between(negated, from, to), k)
    ensures RoutesTest(rule, Between(negated, from, to), t)
  {
    var a, b := Literal(kind, from).value, Literal(kind, to).value;
    SpelledIndex(rule, kind, from);
    SpelledIndex(rule, kind, to);
    PlaceOrder(rule, kind, a, b);
    PlaceOrder(rule, kind, a, k);
    PlaceOrder(rule, kind, k, b);
    PlacedInTables(rule, kind, k);
    if negated && !KeyLess(kind, b, a) {
      AdjustBound(rule, from, k.v, t);
    }
  }

  /** Places are ordered as keys are. */
  lemma PlaceOrder(rule: Rule, kind: ColumnKind, a: KeyValue, b: KeyValue)
    requires ValidRule(rule) && KindFits(rule, kind) && !rule.ruleType.HashRule?
    requires Comparable(kind, a) && Comparable(kind, b)
    requires FindForKey(rule.shard, a).Ok? && FindForKey(rule.shard, b).Ok?
    ensures !KeyLess(kind, b, a) ==> FindForKey(rule.shard, a).value <= FindForKey(rule.shard, b).value
    ensures !KeyLess(kind, a, b) ==> FindForKey(rule.shard, b).value <= FindForKey(rule.shard, a).value
  {
    if !KeyLess(kind, b, a) {
      PlaceMonotone(rule, kind, a, b);
    }
    if !KeyLess(kind, a, b) {
      PlaceMonotone(rule, kind, b, a);
    }
  }

  /** The sub-table of a date that the test is satisfied by is not one it drops: between the bounds, it
      meets them; outside them, it is before the first or behind the last one dropped. */
  lemma DateBetweenSound(rule: Rule, kind: ColumnKind, negated: bool, from: Val, to: Val, k: KeyValue, t: int)
    requires TestPremises(rule, kind, Between(negated, from, to)) && TestOk(rule, kind, Between(negated, from, to))
    requires ValidKey(kind, k) && FindForKey(rule.shard, k) == Ok(t) && rule.ruleType.DateRule? && t in rule.subTables
    requires Satisfies(kind, Between(negated, from, to), k)
    ensures RoutesTest(rule, Between(negated, from, to), t)
  {
    var g, a, b := rule.ruleType.granularity, Literal(kind, from).value, Literal(kind, to).value;
    SpelledIndex(rule, kind, from);
    SpelledIndex(rule, kind, to);
    CompareStamps(kind, k, a);
    CompareStamps(kind, b, k);
    KeyStamp(rule, kind, k, t);
    StampPlaces(rule, kind, a, k);
    StampPlaces(rule, kind, k, b);
    StampPlaces(rule, kind, a, b);
    var i, j := IndexOf(rule.shard, from).value, IndexOf(rule.shard, to).value;
    if !negated {
      MeetsIfBetween(Timed(kind), g, t, StampOf(a), StampOf(b), StampOf(k));
    } else if i in rule.subTables && j in rule.subTables {
      NotDropped(Timed(kind), g, i, j, t, StampOf(a), StampOf(b), StampOf(k));
    }
  }

  lemma NotDropped(timed: bool, g: Granularity, i: nat, j: nat, t: nat, lo: nat, hi: nat, n: nat)
    requires lo <= hi && lo <= FirstStamp(g, i) && LastStamp(timed, g, j) <= hi && i <= j
    requires InTable(timed, g, t, n) && (n < lo || hi < n)
    requires (n <= lo ==> t <= i) && (hi <= n ==> j <= t)
    ensures !Within(i, j, t)
  {
  }

  lemma StampPlaces(rule: Rule, kind: ColumnKind, a: KeyValue, b: KeyValue)
    requires ValidRule(rule) && KindFits(rule, kind) && rule.ruleType.DateRule?
    requires Comparable(kind, a) && Comparable(kind, b)
    requires FindForKey(rule.shard, a).Ok? && FindForKey(rule.shard, b).Ok?
    ensures StampOf(a) <= StampOf(b) ==> FindForKey(rule.shard, a).value <= FindForKey(rule.shard, b).value
    ensures StampOf(b) <= StampOf(a) ==> FindForKey(rule.shard, b).value <= FindForKey(rule.shard, a).value
  {
    CompareStamps(kind, a, b);
    CompareStamps(kind, b, a);
    PlaceOrder(rule, kind, a, b);
  }

  /** The condition suffices. */
  lemma TestSound(rule: Rule, kind: ColumnKind, c: KeyTest, k: KeyValue, t: int)
    requires c.Compare? ==> c.op in {Eq, Lt, Gt, Le, Ge, Nse}
    requires TestPremises(rule, kind, c) && TestOk(rule, kind, c)
    requires ValidKey(kind, k) && FindForKey(rule.shard, k) == Ok(t) && t in rule.subTables
    requires Satisfies(kind, c, k)
    ensures RoutesTest(rule, c, t)
  {
    match c
    case Compare(op, lit) => CompareSound(rule, kind, op, lit, k, t);
    case Member(negated, elems) => MemberSound(rule, kind, negated, elems, k, t);
    case Between(negated, from, to) => BetweenSound(rule, kind, negated, from, to, k, t);
  }

  // ---------------------------------------------------------------- ... and is needed

  predicate CalendarIndex(g: Granularity, s: int) {
    s >= 0 && ValidIndex(g, s)
  }

  /** Every configured index of a date rule is one that days of the calendar have. */
  ghost predicate Realizable(rule: Rule) {
    rule.ruleType.DateRule? ==>
      forall s :: s in rule.subTables ==> CalendarIndex(rule.ruleType.granularity, s)
  }

  lemma RealizableAt(rule: Rule, t: int)
    requires Realizable(rule) && rule.ruleType.DateRule? && t in rule.subTables
    ensures t >= 0 && ValidIndex(rule.ruleType.granularity, t)
  {
    var tables := rule.subTables;
    assert t in tables;
  }

  /** A date in a sub-table that has listed and unlisted ones, and is dropped for the listed. */
  lemma MemberGap(rule: Rule, kind: ColumnKind, elems: seq<Val>) returns (k: KeyValue, t: int)
    requires TestPremises(rule, kind, Member(true, elems)) && rule.ruleType.DateRule?
    requires !TestOk(rule, kind, Member(true, elems))
    ensures ValidKey(kind, k) && FindForKey(rule.shard, k) == Ok(t) && t in rule.subTables
    ensures Satisfies(kind, Member(true, elems), k) && !RoutesTest(rule, Member(true, elems), t)
  {
    var g := rule.ruleType.granularity;
    t :| t in rule.subTables && SomeIndex(rule.shard, elems, t) && !AllListed(kind, g, elems, t);
    k := UnlistedKey(rule, kind, elems, t);
  }

  lemma UnlistedKey(rule: Rule, kind: ColumnKind, elems: seq<Val>, t: int) returns (k: KeyValue)
    requires ValidRule(rule) && KindFits(rule, kind) && rule.ruleType.DateRule? && SpelledTest(rule, kind, Member(true, elems))
    requires SomeIndex(rule.shard, elems, t) && !AllListed(kind, rule.ruleType.granularity, elems, t)
    ensures ValidKey(kind, k) && FindForKey(rule.shard, k) == Ok(t) && Satisfies(kind, Member(true, elems), k)
  {
    var g := rule.ruleType.granularity;
    var i :| 0 <= i < |elems| && IndexOf(rule.shard, elems[i]) == Ok(t);
    LiteralIndex(rule, kind, elems[i]);
    var n: nat :| InTable(Timed(kind), g, t, n) && !Listed(kind, elems, n);
    k := StampedKey(rule, kind, t, n);
    NotListed(kind, elems, k);
  }

  lemma NotListed(kind: ColumnKind, elems: seq<Val>, k: KeyValue)
    requires (kind == DateTimeColumn || kind == DateColumn) && ValidKey(kind, k) && Denotes(kind, Member(true, elems))
    requires !Listed(kind, elems, StampOf(k))
    ensures Satisfies(kind, Member(true, elems), k)
  {
    forall j | 0 <= j < |elems|
      ensures !KeyEq(kind, k, Literal(kind, elems[j]).value)
    {
      CompareStamps(kind, k, Literal(kind, elems[j]).value);
    }
  }

  /** Some key of the column lies in sub-table `t`. */
  lemma SampleKey(rule: Rule, kind: ColumnKind, t: int) returns (k: KeyValue)
    requires ValidRule(rule) && KindFits(rule, kind) && Realizable(rule) && rule.ruleType.DateRule? && t in rule.subTables
    ensures ValidKey(kind, k) && FindForKey(rule.shard, k) == Ok(t)
  {
    var g := rule.ruleType.granularity;
    RealizableAt(rule, t);
    EndsValid(Timed(kind), g, t);
    k := StampedKey(rule, kind, t, FirstStamp(g, t));
  }

  /** A key in an earlier sub-table is a smaller key. */
  lemma EarlierIsLess(rule: Rule, kind: ColumnKind, a: KeyValue, b: KeyValue)
    requires ValidRule(rule) && KindFits(rule, kind) && rule.ruleType.DateRule?
    requires Comparable(kind, a) && Comparable(kind, b)
    requires FindForKey(rule.shard, a).Ok? && FindForKey(rule.shard, b).Ok?
    requires FindForKey(rule.shard, a).value < FindForKey(rule.shard, b).value
    ensures KeyLess(kind, a, b) && !KeyLess(kind, b, a)
  {
    KeyOrder(kind, a, b);
    if !KeyLess(kind, a, b) {
      PlaceMonotone(rule, kind, b, a);
    }
  }

  /** A sub-table on the side asked for, the literal's own not being configured. */
  lemma MissedSide(rule: Rule, kind: ColumnKind, op: CmpOp, lit: Val) returns (t: int)
    requires PlansTest(rule, Compare(op, lit)) && Denotes(kind, Compare(op, lit)) && rule.ruleType.DateRule?
    requires !TestOk(rule, kind, Compare(op, lit))
    ensures IndexOf(rule.shard, lit).Ok? && t in rule.subTables && op in {Lt, Le, Gt, Ge}
    ensures op == Lt || op == Le ==> t < IndexOf(rule.shard, lit).value
    ensures op == Gt || op == Ge ==> IndexOf(rule.shard, lit).value < t
    ensures !RoutesTest(rule, Compare(op, lit), t)
  {
    var i := IndexOf(rule.shard, lit).value;
    if op == Lt || op == Le {
      t :| t in rule.subTables && t <= i;
    } else {
      t :| t in rule.subTables && i <= t;
    }
  }

  lemma CompareGap(rule: Rule, kind: ColumnKind, op: CmpOp, lit: Val) returns (k: KeyValue, t: int)
    requires TestPremises(rule, kind, Compare(op, lit)) && Realizable(rule) && rule.ruleType.DateRule?
    requires !TestOk(rule, kind, Compare(op, lit))
    ensures ValidKey(kind, k) && FindForKey(rule.shard, k) == Ok(t) && t in rule.subTables
    ensures Satisfies(kind, Compare(op, lit), k) && !RoutesTest(rule, Compare(op, lit), t)
  {
    SpelledIndex(rule, kind, lit);
    t := MissedSide(rule, kind, op, lit);
    k := SampleKey(rule, kind, t);
    if op == Lt || op == Le {
      EarlierIsLess(rule, kind, k, Literal(kind, lit).value);
    } else {
      EarlierIsLess(rule, kind, Literal(kind, lit).value, k);
    }
  }

  lemma BetweenGap(rule: Rule, kind: ColumnKind, from: Val, to: Val) returns (k: KeyValue, t: int)
    requires TestPremises(rule, kind, Between(false, from, to)) && Realizable(rule) && rule.ruleType.DateRule?
    requires !TestOk(rule, kind, Between(false, from, to))
    ensures ValidKey(kind, k) && FindForKey(rule.shard, k) == Ok(t) && t in rule.subTables
    ensures Satisfies(kind, Between(false, from, to), k) && !RoutesTest(rule, Between(false, from, to), t)
  {
    var g, a, b := rule.ruleType.granularity, Literal(kind, from).value, Literal(kind, to).value;
    LiteralIndex(rule, kind, from);
    LiteralIndex(rule, kind, to);
    t :| t in rule.subTables && t >= 0 && MeetsTable(Timed(kind), g, t, StampOf(a), StampOf(b));
    MeetingIs(Timed(kind), g, t, StampOf(a), StampOf(b));
    k := StampedKey(rule, kind, t, Meeting(Timed(kind), g, t, StampOf(a), StampOf(b)));
    CompareStamps(kind, k, a);
    CompareStamps(kind, b, k);
  }

  /** The first date of the table of the lower bound, or the last one of that of the upper. */
  lemma NotBetweenGap(rule: Rule, kind: ColumnKind, from: Val, to: Val) returns (k: KeyValue, t: int)
    requires TestPremises(rule, kind, Between(true, from, to)) && rule.ruleType.DateRule?
    requires !TestOk(rule, kind, Between(true, from, to))
    ensures ValidKey(kind, k) && FindForKey(rule.shard, k) == Ok(t) && t in rule.subTables
    ensures Satisfies(kind, Between(true, from, to), k) && !RoutesTest(rule, Between(true, from, to), t)
  {
    var g, a, b := rule.ruleType.granularity, Literal(kind, from).value, Literal(kind, to).value;
    LiteralIndex(rule, kind, from);
    LiteralIndex(rule, kind, to);
    var i, j := IndexOf(rule.shard, from).value, IndexOf(rule.shard, to).value;
    EndsValid(Timed(kind), g, i);
    EndsValid(Timed(kind), g, j);
    if StampOf(b) < StampOf(a) || FirstStamp(g, i) < StampOf(a) {
      t := i;
      k := StampedKey(rule, kind, t, FirstStamp(g, t));
    } else {
      t := j;
      k := StampedKey(rule, kind, t, LastStamp(Timed(kind), g, t));
    }
    CompareStamps(kind, k, a);
    CompareStamps(kind, b, k);
  }

  /** NOT BETWEEN the first date of one sub-table and the last of a later one is routed as it should be,
      such as one that excludes a whole calendar month, or a whole day of a DATETIME column. */
  lemma WholeTables(rule: Rule, kind: ColumnKind, i: nat, j: nat)
    requires ValidRule(rule) && KindFits(rule, kind) && rule.ruleType.DateRule?
    requires ValidIndex(rule.ruleType.granularity, i) && ValidIndex(rule.ruleType.granularity, j) && i <= j
    ensures var g, timed := rule.ruleType.granularity, Timed(kind);
            var c := Between(true, StrVal(MomentText(timed, FirstStamp(g, i))), StrVal(MomentText(timed, LastStamp(timed, g, j))));
            TestPremises(rule, kind, c) && TestOk(rule, kind, c)
  {
    var g, timed := rule.ruleType.granularity, Timed(kind);
    EndsValid(timed, g, i);
    EndsValid(timed, g, j);
    NumberedLiteral(rule, kind, i, FirstStamp(g, i));
    NumberedLiteral(rule, kind, j, LastStamp(timed, g, j));
    DaysAscend(g, i, j);
  }

  lemma NumberedLiteral(rule: Rule, kind: ColumnKind, t: nat, n: nat)
    requires ValidRule(rule) && KindFits(rule, kind) && rule.ruleType.DateRule?
    requires ValidIndex(rule.ruleType.granularity, t) && InTable(Timed(kind), rule.ruleType.granularity, t, n)
    ensures var v := StrVal(MomentText(Timed(kind), n));
            Spelled(rule, kind, v) && IndexOf(rule.shard, v) == Ok(t) && StampOf(Literal(kind, v).value) == n
  {
    MomentTextIs(Timed(kind), n);
    var v := StrVal(MomentText(Timed(kind), n));
    KeyStamp(rule, kind, TextKey(v.s), t);
    SpelledIndex(rule, kind, v);
  }

  lemma RangeNotBetweenGap(rule: Rule, from: Val, to: Val) returns (k: KeyValue, t: int)
    requires TestPremises(rule, IntColumn, Between(true, from, to)) && rule.ruleType.RangeRule?
    requires !TestOk(rule, IntColumn, Between(true, from, to))
    ensures ValidKey(IntColumn, k) && FindForKey(rule.shard, k) == Ok(t) && t in rule.subTables
    ensures Satisfies(IntColumn, Between(true, from, to), k) && !RoutesTest(rule, Between(true, from, to), t)
  {
    var ends := NotBetweenEnds(rule.shard, from, to).value;
    SpelledIndex(rule, IntColumn, from);
    SpelledIndex(rule, IntColumn, to);
    t := ends.0 + 1;
    var ranges := rule.shard.ranges;
    assert 0 <= t < |ranges|;
    k := IntKey(ranges[t].start);
    UniqueRange(ranges, k.v, t);
    assert rule.subTables[t] == t;
  }

  /** A key test reaches every sub-table it may be satisfied in exactly when its condition holds. */
  lemma TestExact(rule: Rule, kind: ColumnKind, c: KeyTest)
    requires c.Compare? ==> c.op in {Eq, Lt, Gt, Le, Ge, Nse}
    requires TestPremises(rule, kind, c) && Realizable(rule)
    ensures Complete(rule, kind, c) <==> TestOk(rule, kind, c)
  {
    if TestOk(rule, kind, c) {
      forall k, t | ValidKey(kind, k) && FindForKey(rule.shard, k) == Ok(t) && t in rule.subTables &&
                    Satisfies(kind, c, k)
        ensures RoutesTest(rule, c, t)
      {
        TestSound(rule, kind, c, k, t);
      }
    } else {
      var k, t;
      match c
      case Compare(op, lit) => k, t := CompareGap(rule, kind, op, lit);
      case Member(_, elems) => k, t := MemberGap(rule, kind, elems);
      case Between(negated, from, to) =>
        if rule.ruleType.RangeRule? {
          k, t := RangeNotBetweenGap(rule, from, to);
        } else if negated {
          k, t := NotBetweenGap(rule, kind, from, to);
        } else {
          k, t := BetweenGap(rule, kind, from, to);
        }
    }
  }

  // ---------------------------------------------------------------- whole trees

  /** The conditions of every key test the planner looks at. */
  ghost predicate TreeOk(rule: Rule, kind: ColumnKind, p: Pred)
    requires Plans(rule, p)
  {
    match p
    case And(l, r) => TreeOk(rule, kind, l) && TreeOk(rule, kind, r)
    case Or(l, r) => TreeOk(rule, kind, l) && TreeOk(rule, kind, r)
    case Paren(e) => TreeOk(rule, kind, e)
    case _ => LeafOk(rule, kind, p)
  }

  /** Tests whose literals routing does not look at go to every sub-table and need no condition. */
  ghost predicate LeafOk(rule: Rule, kind: ColumnKind, p: Pred)
    requires PlansLeaf(rule, p)
  {
    KeyLeaf(rule.key, p) && ReadsLiterals(rule, TestOf(rule.key, p)) ==>
      var c := TestOf(rule.key, p);
      SpelledTest(rule, kind, c) && (SpelledDenotes(rule, kind, c); TestOk(rule, kind, c))
  }

  /** Routing the test depends on where its literals are placed. */
  predicate ReadsLiterals(rule: Rule, c: KeyTest) {
    match c
    case Compare(op, _) => !rule.ruleType.HashRule? || op == Eq || op == Nse
    case Member(negated, _) => !negated || rule.ruleType.DateRule?
    case Between(_, _, _) => !rule.ruleType.HashRule?
  }

  lemma UnreadGoesEverywhere(rule: Rule, c: KeyTest, t: int)
    requires PlansTest(rule, c) && !ReadsLiterals(rule, c)
    ensures RoutesTest(rule, c, t) <==> t in rule.subTables
  {
  }

  /** Routing soundness: a row that makes the WHERE tree true lies in a routed sub-table. */
  lemma {:induction false} RoutingSound(rule: Rule, m: Meaning, p: Pred, row: Row, t: int)
    requires ValidRule(rule) && m.key == rule.key && KindFits(rule, m.kind)
    requires Plans(rule, p) && TreeOk(rule, m.kind, p)
    requires ValidKey(m.kind, row.key) && FindForKey(rule.shard, row.key) == Ok(t) && t in rule.subTables
    requires Eval(m, p, row) == True
    ensures Routes(rule, p, t)
  {
    match p
    case And(l, r) =>
      RoutingSound(rule, m, l, row, t);
      RoutingSound(rule, m, r, row, t);
    case Or(l, r) =>
      if Eval(m, l, row) == True {
        RoutingSound(rule, m, l, row, t);
      } else {
        RoutingSound(rule, m, r, row, t);
      }
    case Paren(e) => RoutingSound(rule, m, e, row, t);
    case Not(_) =>
    case _ => LeafSound(rule, m, p, row, t);
  }

  lemma LeafSound(rule: Rule, m: Meaning, p: Pred, row: Row, t: int)
    requires ValidRule(rule) && m.key == rule.key && KindFits(rule, m.kind)
    requires PlansLeaf(rule, p) && LeafOk(rule, m.kind, p)
    requires ValidKey(m.kind, row.key) && FindForKey(rule.shard, row.key) == Ok(t) && t in rule.subTables
    requires EvalLeaf(m, p, row) == True
    ensures RoutesLeaf(rule, p, t)
  {
    if KeyLeaf(rule.key, p) {
      var c := TestOf(rule.key, p);
      if ReadsLiterals(rule, c) {
        SpelledDenotes(rule, m.kind, c);
        LeafHoldsIsSatisfies(rule.key, m.kind, p, row.key);
        TestSound(rule, m.kind, c, row.key, t);
      } else {
        UnreadGoesEverywhere(rule, c, t);
      }
    }
  }
}
