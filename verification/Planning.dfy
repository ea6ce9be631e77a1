/** When the planner gives a list rather than an error, and that its list is no longer than it need be
    (proxy/router/planbuilder.go). */
module Planning {
  import opened Prelude
  import opened Text
  import opened Calendar
  import opened Shards
  import opened Rules
  import opened Where
  import opened Routing

  // ---------------------------------------------------------------- which leaves are key tests

  predicate IsKey(key: string, v: Val) {
    v.Col? && Lower(v.name) == key
  }

  /** A comparison of the sharding key with a value is a key test, whichever side the key is on. */
  lemma KeyComparison(key: string, id: nat, op: CmpOp, k: Val, v: Val)
    requires IsKey(key, k) && (v.StrVal? || v.NumVal? || v.ValArg?)
    requires op == Eq || op == Nse || op == Lt || op == Le || op == Gt || op == Ge
    ensures KeyLeaf(key, Cmp(id, op, k, v)) && TestOf(key, Cmp(id, op, k, v)) == Compare(op, v)
    ensures KeyLeaf(key, Cmp(id, op, v, k))
    ensures TestOf(key, Cmp(id, op, v, k)) ==
            Compare(if op == Lt then Gt else if op == Le then Ge else if op == Gt then Lt else if op == Ge then Le else op, v)
  {
  }

  /** So are IN, NOT IN, BETWEEN and NOT BETWEEN of the key and values. */
  lemma KeyLists(key: string, id: nat, k: Val, elems: seq<Val>, from: Val, to: Val, negated: bool)
    requires IsKey(key, k) && forall i :: 0 <= i < |elems| ==> IsValue(elems[i])
    requires IsValue(from) && IsValue(to)
    ensures KeyLeaf(key, Cmp(id, In, k, Tuple(elems))) && TestOf(key, Cmp(id, In, k, Tuple(elems))) == Member(false, elems)
    ensures KeyLeaf(key, Cmp(id, NotIn, k, Tuple(elems))) && TestOf(key, Cmp(id, NotIn, k, Tuple(elems))) == Member(true, elems)
    ensures KeyLeaf(key, Range(negated, k, from, to)) && TestOf(key, Range(negated, k, from, to)) == Between(negated, from, to)
  {
  }

  /** A number is the key it spells and a text is itself; in an integer column a text is the number it spells. */
  lemma LiteralReads(rule: Rule, n: int, s: string)
    requires IsInt64(n)
    ensures Literal(IntColumn, NumVal(FormatInt(n))) == Literal(IntColumn, StrVal(FormatInt(n))) == Some(IntKey(n))
    ensures Literal(TextColumn, StrVal(s)) == Some(TextKey(s))
    ensures IndexOf(rule.shard, NumVal(FormatInt(n))) == FindForKey(rule.shard, IntKey(n))
    ensures IndexOf(rule.shard, StrVal(s)) == FindForKey(rule.shard, TextKey(s))
  {
    FormatParse(n);
  }

  /** What tests of an integer key say, in numbers. */
  lemma TestReads(key: string, id: nat, op: CmpOp, k: Val, a: int, v: int)
    requires IsKey(key, k) && IsInt64(a) && IsInt64(v) && op in {Eq, Nse, Lt, Le, Gt, Ge}
    ensures var left, right := Cmp(id, op, k, NumVal(FormatInt(a))), Cmp(id, op, NumVal(FormatInt(a)), k);
            && KeyLeaf(key, left) && Denotes(IntColumn, TestOf(key, left))
            && KeyLeaf(key, right) && Denotes(IntColumn, TestOf(key, right))
            && (LeafHolds(key, IntColumn, left, IntKey(v)) <==>
                  match op case Lt => v < a case Le => v <= a case Gt => v > a case Ge => v >= a case _ => v == a)
            && (LeafHolds(key, IntColumn, right, IntKey(v)) <==>
                  match op case Lt => a < v case Le => a <= v case Gt => a > v case Ge => a >= v case _ => v == a)
  {
    FormatParse(a);
    KeyComparison(key, id, op, k, NumVal(FormatInt(a)));
  }

  /** What one of a text key says: byte order. */
  lemma TextReads(key: string, id: nat, op: CmpOp, k: Val, a: string, s: string)
    requires IsKey(key, k) && op in {Eq, Nse, Lt, Le, Gt, Ge}
    ensures var left, right := Cmp(id, op, k, StrVal(a)), Cmp(id, op, StrVal(a), k);
            && KeyLeaf(key, left) && Denotes(TextColumn, TestOf(key, left))
            && KeyLeaf(key, right) && Denotes(TextColumn, TestOf(key, right))
            && (LeafHolds(key, TextColumn, left, TextKey(s)) <==>
                  match op case Lt => LexLess(s, a) case Le => s == a || LexLess(s, a)
                           case Gt => LexLess(a, s) case Ge => s == a || LexLess(a, s) case _ => s == a)
            && (LeafHolds(key, TextColumn, right, TextKey(s)) <==>
                  match op case Lt => LexLess(a, s) case Le => s == a || LexLess(a, s)
                           case Gt => LexLess(s, a) case Ge => s == a || LexLess(s, a) case _ => s == a)
  {
    KeyComparison(key, id, op, k, StrVal(a));
    LexTotal(s, a);
  }

  /** And of BETWEEN and its negation. */
  lemma RangeReads(key: string, k: Val, a: int, b: int, v: int)
    requires IsKey(key, k) && IsInt64(a) && IsInt64(b) && IsInt64(v)
    ensures var low, high := NumVal(FormatInt(a)), NumVal(FormatInt(b));
            var inside, outside := Range(false, k, low, high), Range(true, k, low, high);
            && KeyLeaf(key, inside) && Denotes(IntColumn, TestOf(key, inside))
            && KeyLeaf(key, outside) && Denotes(IntColumn, TestOf(key, outside))
            && (LeafHolds(key, IntColumn, inside, IntKey(v)) <==> a <= v <= b)
            && (LeafHolds(key, IntColumn, outside, IntKey(v)) <==> v < a || b < v)
  {
    FormatParse(a);
    FormatParse(b);
  }

  /** And of IN and its negation. */
  lemma MemberReads(key: string, id: nat, k: Val, numbers: seq<int>, elems: seq<Val>, v: int)
    requires IsKey(key, k) && IsInt64(v) && |elems| == |numbers|
    requires forall i :: 0 <= i < |elems| ==> IsInt64(numbers[i]) && elems[i] == NumVal(FormatInt(numbers[i]))
    ensures var member, other := Cmp(id, In, k, Tuple(elems)), Cmp(id, NotIn, k, Tuple(elems));
            && KeyLeaf(key, member) && Denotes(IntColumn, TestOf(key, member))
            && KeyLeaf(key, other) && Denotes(IntColumn, TestOf(key, other))
            && (LeafHolds(key, IntColumn, member, IntKey(v)) <==> v in numbers)
            && (LeafHolds(key, IntColumn, other, IntKey(v)) <==> v !in numbers)
  {
    forall i | 0 <= i < |elems|
      ensures IsValue(elems[i]) && Literal(IntColumn, elems[i]) == Some(IntKey(numbers[i]))
    {
      FormatParse(numbers[i]);
    }
    KeyLists(key, id, k, elems, NumVal("0"), NumVal("0"), false);
  }

  // ---------------------------------------------------------------- when a key test plans

  /** The planner can make a key of the literal. */
  predicate Readable(v: Val) {
    v.StrVal? || (v.NumVal? && ParseInt64(v.text).Some?)
  }

  predicate SixOps(c: KeyTest) {
    c.Compare? ==> c.op in {Eq, Lt, Gt, Le, Ge, Nse}
  }

  /** The literals of a test are values, as the planner finds them. */
  predicate OfValues(c: KeyTest) {
    match c
    case Compare(_, lit) => IsValue(lit)
    case Member(_, elems) => forall i :: 0 <= i < |elems| ==> IsValue(elems[i])
    case Between(_, from, to) => IsValue(from) && IsValue(to)
  }

  lemma HashIndex(rule: Rule, v: Val)
    requires ValidRule(rule) && rule.ruleType.HashRule? && IsValue(v)
    ensures IndexOf(rule.shard, v).Ok? <==> Readable(v) && rule.subTables != []
  {
  }

  /** In hash rules comparisons other than equality, BETWEEN and NOT IN always plan; equality and IN plan
      exactly if their literals can be read. */
  lemma HashPlans(rule: Rule, c: KeyTest)
    requires ValidRule(rule) && rule.ruleType.HashRule? && rule.subTables != [] && SixOps(c) && OfValues(c)
    ensures c.Compare? ==> (PlansTest(rule, c) <==> c.op in {Lt, Le, Gt, Ge} || Readable(c.lit))
    ensures c.Member? ==> (PlansTest(rule, c) <==> c.negated || forall i :: 0 <= i < |c.elems| ==> Readable(c.elems[i]))
    ensures c.Between? ==> PlansTest(rule, c)
  {
    match c
    case Compare(_, lit) => HashIndex(rule, lit);
    case Member(_, elems) =>
      forall i | 0 <= i < |elems|
        ensures IndexOf(rule.shard, elems[i]).Ok? <==> Readable(elems[i])
      {
        HashIndex(rule, elems[i]);
      }
    case Between(_, _, _) =>
  }

  /** The number a literal spells. */
  function NumberOf(v: Val): Option<int> {
    match v
    case StrVal(s) => ParseInt64(s)
    case NumVal(text) => ParseInt64(text)
    case _ => None
  }

  predicate InSpace(rule: Rule, v: Val)
    requires rule.shard.NumRangeShard?
  {
    NumberOf(v).Some? && exists i :: 0 <= i < |rule.shard.ranges| && rule.shard.ranges[i].Contains(NumberOf(v).value)
  }

  lemma RangeIndex(rule: Rule, v: Val)
    requires ValidRule(rule) && rule.ruleType.RangeRule? && IsValue(v)
    ensures IndexOf(rule.shard, v).Ok? <==> InSpace(rule, v)
    ensures InSpace(rule, v) ==>
              var i := IndexOf(rule.shard, v).value;
              0 <= i < |rule.shard.ranges| && rule.shard.ranges[i].Contains(NumberOf(v).value)
  {
    if InSpace(rule, v) {
      var i :| 0 <= i < |rule.shard.ranges| && rule.shard.ranges[i].Contains(NumberOf(v).value);
      UniqueRange(rule.shard.ranges, NumberOf(v).value, i);
    }
  }

  /** The adjustment fails for the first key of the space, and only there. */
  lemma AdjustPlans(rule: Rule, v: Val)
    requires ValidRule(rule) && rule.ruleType.RangeRule? && IsValue(v) && InSpace(rule, v)
    ensures IndexOf(rule.shard, v).Ok?
    ensures AdjustIndex(rule.shard, v, IndexOf(rule.shard, v).value).Ok? <==> NumberOf(v).value != 0
  {
    RangeIndex(rule, v);
    var ranges, i, n := rule.shard.ranges, IndexOf(rule.shard, v).value, NumberOf(v).value;
    if i > 0 {
      assert ranges[0].end <= ranges[i].start;
    }
  }

  /** In range rules a test plans exactly if its literals lie in the key space; less-than excludes the first
      key of the space. NOT IN always plans. */
  lemma RangePlans(rule: Rule, c: KeyTest)
    requires ValidRule(rule) && rule.ruleType.RangeRule? && SixOps(c) && OfValues(c)
    ensures c.Compare? ==> (PlansTest(rule, c) <==> InSpace(rule, c.lit) && (c.op == Lt ==> NumberOf(c.lit) != Some(0)))
    ensures c.Member? ==> (PlansTest(rule, c) <==> c.negated || forall i :: 0 <= i < |c.elems| ==> InSpace(rule, c.elems[i]))
    ensures c.Between? && !c.negated ==> (PlansTest(rule, c) <==> InSpace(rule, c.from) && InSpace(rule, c.to))
  {
    match c
    case Compare(_, lit) =>
      RangeIndex(rule, lit);
      if InSpace(rule, lit) {
        AdjustPlans(rule, lit);
      }
    case Member(_, elems) =>
      forall i | 0 <= i < |elems|
        ensures IndexOf(rule.shard, elems[i]).Ok? <==> InSpace(rule, elems[i])
      {
        RangeIndex(rule, elems[i]);
      }
    case Between(_, from, to) =>
      RangeIndex(rule, from);
      RangeIndex(rule, to);
  }

  /** NOT BETWEEN adjusts its lower end, which must not be the first key of the space: that is `from`, or
      `to` if it lies in an earlier range. */
  lemma NotBetweenPlans(rule: Rule, from: Val, to: Val)
    requires ValidRule(rule) && rule.ruleType.RangeRule? && IsValue(from) && IsValue(to)
    ensures PlansTest(rule, Between(true, from, to)) <==>
              && InSpace(rule, from) && InSpace(rule, to) && NumberOf(from) != Some(0)
              && (NumberOf(to) == Some(0) ==> rule.shard.ranges[0].Contains(NumberOf(from).value))
  {
    RangeIndex(rule, from);
    RangeIndex(rule, to);
    if InSpace(rule, from) && InSpace(rule, to) {
      AdjustPlans(rule, from);
      AdjustPlans(rule, to);
      FirstRange(rule, from);
      FirstRange(rule, to);
    }
  }

  lemma FirstRange(rule: Rule, v: Val)
    requires ValidRule(rule) && rule.ruleType.RangeRule? && IsValue(v) && InSpace(rule, v)
    ensures IndexOf(rule.shard, v).Ok? && rule.shard.ranges != []
    ensures IndexOf(rule.shard, v).value == 0 <==> rule.shard.ranges[0].Contains(NumberOf(v).value)
    ensures NumberOf(v) == Some(0) ==> IndexOf(rule.shard, v).value == 0
  {
    RangeIndex(rule, v);
    var ranges, n := rule.shard.ranges, NumberOf(v).value;
    if ranges[0].Contains(n) {
      UniqueRange(ranges, n, 0);
    }
  }

  /** In date rules a test plans exactly if every literal is a text with numerals where its year, month and
      day belong; every date and date-time is one. */
  predicate DateReadable(g: Granularity, v: Val) {
    && v.StrVal?
    && match g
       case Year => |v.s| >= 4 && ParseInt64(v.s[..4]).Some?
       case Month => |v.s| >= 10 && ParseInt64(v.s[..4] + v.s[5..7]).Some?
       case Day => |v.s| >= 10 && ParseInt64(v.s[..4] + v.s[5..7] + v.s[8..10]).Some?
  }

  lemma DateIndexed(rule: Rule, v: Val)
    requires ValidRule(rule) && rule.ruleType.DateRule? && IsValue(v)
    ensures IndexOf(rule.shard, v).Ok? <==> DateReadable(rule.ruleType.granularity, v)
    ensures v.StrVal? && IsMoment(v.s) ==> DateReadable(rule.ruleType.granularity, v)
  {
    if v.StrVal? && IsMoment(v.s) {
      CompactDigits(rule.ruleType.granularity, v.s);
    }
  }

  lemma DatePlans(rule: Rule, c: KeyTest)
    requires ValidRule(rule) && rule.ruleType.DateRule? && SixOps(c) && OfValues(c)
    ensures var g := rule.ruleType.granularity;
            && (c.Compare? ==> (PlansTest(rule, c) <==> DateReadable(g, c.lit)))
            && (c.Member? ==> (PlansTest(rule, c) <==> forall i :: 0 <= i < |c.elems| ==> DateReadable(g, c.elems[i])))
            && (c.Between? ==> (PlansTest(rule, c) <==> DateReadable(g, c.from) && DateReadable(g, c.to)))
  {
    match c
    case Compare(_, lit) => DateIndexed(rule, lit);
    case Member(_, elems) =>
      forall i | 0 <= i < |elems|
        ensures IndexOf(rule.shard, elems[i]).Ok? <==> DateReadable(rule.ruleType.granularity, elems[i])
      {
        DateIndexed(rule, elems[i]);
      }
    case Between(_, from, to) =>
      DateIndexed(rule, from);
      DateIndexed(rule, to);
  }

  // ---------------------------------------------------------------- when a tree plans

  /** The key tests the planner comes to: it does not look into negations. */
  function TestsIn(key: string, p: Pred): seq<KeyTest> {
    match p
    case And(l, r) => TestsIn(key, l) + TestsIn(key, r)
    case Or(l, r) => TestsIn(key, l) + TestsIn(key, r)
    case Paren(e) => TestsIn(key, e)
    case _ => if KeyLeaf(key, p) then [TestOf(key, p)] else []
  }

  predicate AllPlan(rule: Rule, tests: seq<KeyTest>) {
    forall i :: 0 <= i < |tests| ==> PlansTest(rule, tests[i])
  }

  lemma AllPlanBoth(rule: Rule, a: seq<KeyTest>, b: seq<KeyTest>)
    ensures AllPlan(rule, a + b) <==> AllPlan(rule, a) && AllPlan(rule, b)
  {
    var c := a + b;
    assert forall i :: 0 <= i < |a| ==> a[i] == c[i];
    assert forall i :: 0 <= i < |b| ==> b[i] == c[|a| + i];
  }

  /** A tree plans exactly if all its key tests do. */
  lemma {:induction false} TreePlans(rule: Rule, p: Pred)
    ensures Plans(rule, p) <==> AllPlan(rule, TestsIn(rule.key, p))
  {
    match p
    case And(l, r) =>
      TreePlans(rule, l);
      TreePlans(rule, r);
      AllPlanBoth(rule, TestsIn(rule.key, l), TestsIn(rule.key, r));
    case Or(l, r) =>
      TreePlans(rule, l);
      TreePlans(rule, r);
      AllPlanBoth(rule, TestsIn(rule.key, l), TestsIn(rule.key, r));
    case Paren(e) => TreePlans(rule, e);
    case _ => LeafPlans(rule, p, TestsIn(rule.key, p));
  }

  lemma LeafPlans(rule: Rule, p: Pred, tests: seq<KeyTest>)
    requires tests == if KeyLeaf(rule.key, p) then [TestOf(rule.key, p)] else []
    ensures PlansLeaf(rule, p) <==> AllPlan(rule, tests)
  {
    if KeyLeaf(rule.key, p) {
      assert tests[0] == TestOf(rule.key, p);
    }
  }

  lemma LeafOfValues(key: string, p: Pred)
    requires KeyLeaf(key, p)
    ensures OfValues(TestOf(key, p)) && SixOps(TestOf(key, p))
  {
  }

  /** What a caller must see to: literals whose placement matters can be read, those of range rules lie in
      the key space and are not its first key. */
  predicate Placeable(rule: Rule, c: KeyTest) {
    match rule.ruleType
    case HashRule =>
      (match c
       case Compare(op, lit) => op in {Lt, Le, Gt, Ge} || Readable(lit)
       case Member(negated, elems) => negated || forall i :: 0 <= i < |elems| ==> Readable(elems[i])
       case Between(_, _, _) => true)
    case RangeRule =>
      rule.shard.NumRangeShard? &&
      (match c
       case Compare(_, lit) => InSpace(rule, lit) && NumberOf(lit) != Some(0)
       case Member(negated, elems) => negated || forall i :: 0 <= i < |elems| ==> InSpace(rule, elems[i])
       case Between(_, from, to) => InSpace(rule, from) && InSpace(rule, to) && NumberOf(from) != Some(0) && NumberOf(to) != Some(0))
    case DateRule(_) =>
      (match c
       case Compare(_, lit) => lit.StrVal? && IsMoment(lit.s)
       case Member(_, elems) => forall i :: 0 <= i < |elems| ==> elems[i].StrVal? && IsMoment(elems[i].s)
       case Between(_, from, to) => from.StrVal? && IsMoment(from.s) && to.StrVal? && IsMoment(to.s))
    case DefaultRule => false
  }

  lemma PlaceablePlans(rule: Rule, c: KeyTest)
    requires ValidRule(rule) && rule.subTables != [] && SixOps(c) && OfValues(c) && Placeable(rule, c)
    ensures PlansTest(rule, c)
  {
    match rule.ruleType
    case HashRule => HashPlans(rule, c);
    case RangeRule =>
      RangePlans(rule, c);
      if c.Between? {
        NotBetweenPlans(rule, c.from, c.to);
      }
    case DateRule(_) =>
      DatePlans(rule, c);
      DateLiterals(rule, c);
  }

  lemma DateLiterals(rule: Rule, c: KeyTest)
    requires ValidRule(rule) && rule.ruleType.DateRule? && OfValues(c) && Placeable(rule, c)
    ensures var g := rule.ruleType.granularity;
            && (c.Compare? ==> DateReadable(g, c.lit))
            && (c.Member? ==> forall i :: 0 <= i < |c.elems| ==> DateReadable(g, c.elems[i]))
            && (c.Between? ==> DateReadable(g, c.from) && DateReadable(g, c.to))
  {
    match c
    case Compare(_, lit) => DateIndexed(rule, lit);
    case Member(_, elems) =>
      forall i | 0 <= i < |elems|
        ensures DateReadable(rule.ruleType.granularity, elems[i])
      {
        DateIndexed(rule, elems[i]);
      }
    case Between(_, from, to) =>
      DateIndexed(rule, from);
      DateIndexed(rule, to);
  }

  predicate AllPlaceable(rule: Rule, tests: seq<KeyTest>) {
    forall i :: 0 <= i < |tests| ==> Placeable(rule, tests[i])
  }

  predicate AllOfValues(tests: seq<KeyTest>) {
    forall i :: 0 <= i < |tests| ==> OfValues(tests[i]) && SixOps(tests[i])
  }

  lemma {:induction false} TestsOfValues(key: string, p: Pred)
    ensures AllOfValues(TestsIn(key, p))
  {
    match p
    case And(l, r) =>
      TestsOfValues(key, l);
      TestsOfValues(key, r);
    case Or(l, r) =>
      TestsOfValues(key, l);
      TestsOfValues(key, r);
    case Paren(e) => TestsOfValues(key, e);
    case _ =>
      if KeyLeaf(key, p) {
        LeafOfValues(key, p);
      }
  }

  /** Planning succeeds on every tree of such tests, whatever else is in it. */
  lemma PlaceableTree(rule: Rule, p: Pred)
    requires ValidRule(rule) && rule.subTables != [] && AllPlaceable(rule, TestsIn(rule.key, p))
    ensures Plans(rule, p)
  {
    var tests := TestsIn(rule.key, p);
    TreePlans(rule, p);
    TestsOfValues(rule.key, p);
    forall i | 0 <= i < |tests|
      ensures PlansTest(rule, tests[i])
    {
      PlaceablePlans(rule, tests[i]);
    }
  }

  lemma PlaceableSucceeds(rule: Rule, p: Pred)
    requires ValidRule(rule)
    ensures rule.subTables != [] && AllPlaceable(rule, TestsIn(rule.key, p)) ==> Plans(rule, p)
  {
    if rule.subTables != [] && AllPlaceable(rule, TestsIn(rule.key, p)) {
      PlaceableTree(rule, p);
    }
  }

  // ---------------------------------------------------------------- no more than needed

  /** Equality is routed to the one sub-table its key is stored in, IN to those of its keys. */
  lemma EqualityRoutes(rule: Rule, kind: ColumnKind, op: CmpOp, lit: Val, elems: seq<Val>, t: int)
    requires ValidRule(rule) && KindFits(rule, kind) && (op == Eq || op == Nse)
    requires Spelled(rule, kind, lit) && PlansTest(rule, Compare(op, lit))
    requires SpelledTest(rule, kind, Member(false, elems)) && PlansTest(rule, Member(false, elems))
    ensures RoutesTest(rule, Compare(op, lit), t) <==> FindForKey(rule.shard, Literal(kind, lit).value) == Ok(t)
    ensures RoutesTest(rule, Member(false, elems), t) <==>
            exists i :: 0 <= i < |elems| && FindForKey(rule.shard, Literal(kind, elems[i]).value) == Ok(t)
  {
    SpelledIndex(rule, kind, lit);
    forall i | 0 <= i < |elems|
      ensures IndexOf(rule.shard, elems[i]) == FindForKey(rule.shard, Literal(kind, elems[i]).value)
    {
      SpelledIndex(rule, kind, elems[i]);
    }
  }

  /** Some key of sub-table `t` lies between the two, inclusively. */
  ghost predicate HasKey(rule: Rule, t: int, low: int, high: int) {
    exists k :: IsInt64(k) && low <= k <= high && FindForKey(rule.shard, IntKey(k)) == Ok(t)
  }

  lemma FirstKey(rule: Rule, t: int)
    requires ValidRule(rule) && rule.ruleType.RangeRule? && 0 <= t < |rule.shard.ranges|
    ensures FindForKey(rule.shard, IntKey(rule.shard.ranges[t].start)) == Ok(t) && IsInt64(rule.shard.ranges[t].start)
  {
    UniqueRange(rule.shard.ranges, rule.shard.ranges[t].start, t);
  }

  /** The sub-tables up to that of `n` are those with a key of at most `n`, those from it on those with a key
      of at least `n`. */
  lemma KeysUpTo(rule: Rule, n: int, i: int, t: int)
    requires ValidRule(rule) && rule.ruleType.RangeRule? && IsInt64(n) && FindForKey(rule.shard, IntKey(n)) == Ok(i)
    ensures 0 <= t <= i <==> HasKey(rule, t, -TWO_63, n)
    ensures i <= t < |rule.shard.ranges| <==> HasKey(rule, t, n, MAX_INT64)
  {
    var ranges := rule.shard.ranges;
    if 0 <= t < |ranges| {
      FirstKey(rule, t);
      assert t < i ==> ranges[t].end <= ranges[i].start;
      assert i < t ==> ranges[i].end <= ranges[t].start;
    }
    forall k | IsInt64(k) && FindForKey(rule.shard, IntKey(k)) == Ok(t)
      ensures k <= n ==> 0 <= t <= i
      ensures n <= k ==> i <= t < |ranges|
    {
      if k <= n {
        RangeMonotone(ranges, k, n);
      }
      if n <= k {
        RangeMonotone(ranges, n, k);
      }
    }
  }

  /** With the adjustment, those with a key below `n`. */
  lemma KeysBelow(rule: Rule, lit: Val, t: int)
    requires ValidRule(rule) && rule.ruleType.RangeRule? && IsValue(lit) && InSpace(rule, lit)
    requires IndexOf(rule.shard, lit).Ok? && AdjustIndex(rule.shard, lit, IndexOf(rule.shard, lit).value).Ok?
    ensures 0 <= t <= AdjustIndex(rule.shard, lit, IndexOf(rule.shard, lit).value).value <==>
            HasKey(rule, t, -TWO_63, NumberOf(lit).value - 1)
  {
    RangeIndex(rule, lit);
    var ranges, n, i := rule.shard.ranges, NumberOf(lit).value, IndexOf(rule.shard, lit).value;
    if 0 <= t < |ranges| {
      FirstKey(rule, t);
      assert t < i ==> ranges[t].end <= ranges[i].start;
    }
    forall k | IsInt64(k) && k < n && FindForKey(rule.shard, IntKey(k)) == Ok(t)
      ensures 0 <= t <= i && (t == i ==> ranges[i].start < n)
    {
      UniqueRange(ranges, n, i);
      RangeMonotone(ranges, k, n);
    }
  }

  /** In range rules a comparison is routed to exactly the sub-tables that have a key satisfying it, but for
      greater-than, which also goes to the sub-table of the literal. */
  lemma RangeTight(rule: Rule, op: CmpOp, lit: Val, t: int)
    requires ValidRule(rule) && rule.ruleType.RangeRule? && IsValue(lit) && op in {Eq, Lt, Gt, Le, Ge, Nse}
    requires PlansTest(rule, Compare(op, lit))
    ensures InSpace(rule, lit)
    ensures var n := NumberOf(lit).value;
            RoutesTest(rule, Compare(op, lit), t) <==>
              match op
              case Lt => HasKey(rule, t, -TWO_63, n - 1)
              case Le => HasKey(rule, t, -TWO_63, n)
              case Gt => HasKey(rule, t, n, MAX_INT64)
              case Ge => HasKey(rule, t, n, MAX_INT64)
              case _ => HasKey(rule, t, n, n)
  {
    RangePlans(rule, Compare(op, lit));
    RangeIndex(rule, lit);
    var n, i := NumberOf(lit).value, IndexOf(rule.shard, lit).value;
    UniqueRange(rule.shard.ranges, n, i);
    KeysUpTo(rule, n, i, t);
    if op == Lt {
      KeysBelow(rule, lit, t);
    }
  }

  /** BETWEEN is routed to exactly the sub-tables that have a key between the bounds, taken in their order;
      NOT BETWEEN to those with a key below the lower bound, or at the upper one and above. */
  lemma BetweenTight(rule: Rule, negated: bool, from: Val, to: Val, t: int)
    requires ValidRule(rule) && rule.ruleType.RangeRule? && IsValue(from) && IsValue(to)
    requires PlansTest(rule, Between(negated, from, to))
    ensures InSpace(rule, from) && InSpace(rule, to)
    ensures var a, b := NumberOf(from).value, NumberOf(to).value;
            var low, high := if b < a then b else a, if b < a then a else b;
            RoutesTest(rule, Between(negated, from, to), t) <==>
              if negated then HasKey(rule, t, -TWO_63, low - 1) || HasKey(rule, t, high, MAX_INT64)
              else HasKey(rule, t, low, high)
  {
    if negated {
      NotBetweenPlans(rule, from, to);
    } else {
      RangePlans(rule, Between(negated, from, to));
    }
    var first, second := if NumberOf(to).value < NumberOf(from).value then to else from,
                         if NumberOf(to).value < NumberOf(from).value then from else to;
    if negated {
      OutsideBoth(rule, from, to, first, second, t);
    } else {
      InsideTight(rule, from, to, first, second, t);
    }
  }

  lemma KeysBetween(rule: Rule, n: int, i: int, m: int, j: int, t: int)
    requires ValidRule(rule) && rule.ruleType.RangeRule? && IsInt64(n) && IsInt64(m) && n <= m
    requires FindForKey(rule.shard, IntKey(n)) == Ok(i) && FindForKey(rule.shard, IntKey(m)) == Ok(j)
    ensures i <= j
    ensures i <= t <= j <==> HasKey(rule, t, n, m)
  {
    var ranges := rule.shard.ranges;
    RangeMonotone(ranges, n, m);
    KeysUpTo(rule, n, i, t);
    KeysUpTo(rule, m, j, t);
    if i < t < j {
      FirstKey(rule, t);
      assert ranges[i].end <= ranges[t].start < ranges[t].end <= ranges[j].start;
    }
  }

  lemma InsideTight(rule: Rule, from: Val, to: Val, first: Val, second: Val, t: int)
    requires ValidRule(rule) && rule.ruleType.RangeRule? && IsValue(from) && IsValue(to)
    requires InSpace(rule, from) && InSpace(rule, to) && PlansTest(rule, Between(false, from, to))
    requires if NumberOf(to).value < NumberOf(from).value then first == to && second == from else first == from && second == to
    ensures RoutesTest(rule, Between(false, from, to), t) <==> HasKey(rule, t, NumberOf(first).value, NumberOf(second).value)
  {
    NumberPlace(rule, first);
    NumberPlace(rule, second);
    KeysBetween(rule, NumberOf(first).value, IndexOf(rule.shard, first).value,
                NumberOf(second).value, IndexOf(rule.shard, second).value, t);
  }

  lemma OutsideBoth(rule: Rule, from: Val, to: Val, first: Val, second: Val, t: int)
    requires ValidRule(rule) && rule.ruleType.RangeRule? && IsValue(from) && IsValue(to)
    requires InSpace(rule, from) && InSpace(rule, to) && PlansTest(rule, Between(true, from, to))
    requires if NumberOf(to).value < NumberOf(from).value then first == to && second == from else first == from && second == to
    ensures RoutesTest(rule, Between(true, from, to), t) <==>
              HasKey(rule, t, -TWO_63, NumberOf(first).value - 1) || HasKey(rule, t, NumberOf(second).value, MAX_INT64)
  {
    NumberPlace(rule, first);
    NumberPlace(rule, second);
    var n, m, i, j := NumberOf(first).value, NumberOf(second).value, IndexOf(rule.shard, first).value, IndexOf(rule.shard, second).value;
    RangeMonotone(rule.shard.ranges, n, m);
    KeysUpTo(rule, m, j, t);
    OutsideTight(rule, from, to, first, second, t);
    EndsAre(rule, from, to, first, second);
    RoutedOutside(rule, from, to, t);
    LowKeys(rule, n, i, t);
    var ends := NotBetweenEnds(rule.shard, from, to).value;
    OutsideCases(t, i, j, ends.0, |rule.shard.ranges|, RoutesTest(rule, Between(true, from, to), t),
                 HasKey(rule, t, -TWO_63, n - 1), HasKey(rule, t, m, MAX_INT64));
  }

  lemma LowKeys(rule: Rule, n: int, i: int, t: int)
    requires ValidRule(rule) && rule.ruleType.RangeRule? && IsInt64(n) && FindForKey(rule.shard, IntKey(n)) == Ok(i)
    ensures HasKey(rule, t, -TWO_63, n - 1) ==> 0 <= t <= i
  {
    KeysUpTo(rule, n, i, t);
  }

  lemma OutsideCases(t: int, i: int, j: int, end: int, n: int, routed: bool, low: bool, high: bool)
    requires 0 <= i <= j < n && end <= j
    requires routed <==> 0 <= t <= end || j <= t < n
    requires t < j ==> (0 <= t <= end <==> low)
    requires (high <==> j <= t < n) && (low ==> 0 <= t <= i)
    ensures routed <==> low || high
  {
  }

  lemma RoutedOutside(rule: Rule, from: Val, to: Val, t: int)
    requires ValidRule(rule) && rule.ruleType.RangeRule? && PlansTest(rule, Between(true, from, to))
    ensures var ends := NotBetweenEnds(rule.shard, from, to).value;
            RoutesTest(rule, Between(true, from, to), t) <==> 0 <= t <= ends.0 || ends.1 <= t < |rule.shard.ranges|
  {
  }

  lemma NumberPlace(rule: Rule, v: Val)
    requires ValidRule(rule) && rule.ruleType.RangeRule? && IsValue(v) && InSpace(rule, v)
    ensures IsInt64(NumberOf(v).value) && IndexOf(rule.shard, v).Ok?
    ensures FindForKey(rule.shard, IntKey(NumberOf(v).value)) == IndexOf(rule.shard, v)
  {
    RangeIndex(rule, v);
    UniqueRange(rule.shard.ranges, NumberOf(v).value, IndexOf(rule.shard, v).value);
  }

  /** The lower half of NOT BETWEEN; where both bounds lie in one range, the upper half has that range. */
  lemma OutsideTight(rule: Rule, from: Val, to: Val, first: Val, second: Val, t: int)
    requires ValidRule(rule) && rule.ruleType.RangeRule? && IsValue(from) && IsValue(to)
    requires InSpace(rule, from) && InSpace(rule, to) && PlansTest(rule, Between(true, from, to))
    requires if NumberOf(to).value < NumberOf(from).value then first == to && second == from else first == from && second == to
    requires IndexOf(rule.shard, first).value <= IndexOf(rule.shard, second).value
    ensures var ends := NotBetweenEnds(rule.shard, from, to).value;
            && ends.1 == IndexOf(rule.shard, second).value
            && (t < ends.1 ==> (0 <= t <= ends.0 <==> HasKey(rule, t, -TWO_63, NumberOf(first).value - 1)))
  {
    NumberPlace(rule, first);
    NumberPlace(rule, second);
    EndsAre(rule, from, to, first, second);
    var n, i, j := NumberOf(first).value, IndexOf(rule.shard, first).value, IndexOf(rule.shard, second).value;
    if i < j {
      KeysBelow(rule, first, t);
    } else {
      KeysInFront(rule, n, i, t);
    }
  }

  lemma EndsAre(rule: Rule, from: Val, to: Val, first: Val, second: Val)
    requires ValidRule(rule) && rule.ruleType.RangeRule? && PlansTest(rule, Between(true, from, to))
    requires (first == from && second == to) || (first == to && second == from)
    requires IndexOf(rule.shard, first).Ok? && IndexOf(rule.shard, second).Ok?
    requires IndexOf(rule.shard, first).value <= IndexOf(rule.shard, second).value
    ensures var ends, i, j := NotBetweenEnds(rule.shard, from, to).value, IndexOf(rule.shard, first).value, IndexOf(rule.shard, second).value;
            && ends.1 == j
            && (i < j ==> AdjustIndex(rule.shard, first, i) == Ok(ends.0))
            && (i == j ==> i - 1 <= ends.0 <= i) && ends.0 <= j
  {
  }

  /** All keys of an earlier range are below one of a later. */
  lemma KeysInFront(rule: Rule, n: int, i: int, t: int)
    requires ValidRule(rule) && rule.ruleType.RangeRule? && IsInt64(n) && FindForKey(rule.shard, IntKey(n)) == Ok(i)
    ensures t < i ==> (0 <= t <==> HasKey(rule, t, -TWO_63, n - 1))
  {
    KeysUpTo(rule, n, i, t);
    if 0 <= t < i {
      FirstKey(rule, t);
      assert rule.shard.ranges[t].end <= rule.shard.ranges[i].start;
    }
  }

  /** A literal of the test is placed in sub-table `t`. */
  predicate PlacesLiteral(rule: Rule, c: KeyTest, t: int) {
    match c
    case Compare(_, lit) => IndexOf(rule.shard, lit) == Ok(t)
    case Member(_, elems) => SomeIndex(rule.shard, elems, t)
    case Between(_, from, to) => IndexOf(rule.shard, from) == Ok(t) || IndexOf(rule.shard, to) == Ok(t)
  }

  /** Every sub-table a literal of the test is placed in is configured. */
  predicate LiteralsConfigured(rule: Rule, c: KeyTest) {
    match c
    case Compare(_, lit) => IndexOf(rule.shard, lit).Ok? && IndexOf(rule.shard, lit).value in rule.subTables
    case Member(_, _) => true
    case Between(_, from, to) =>
      && IndexOf(rule.shard, from).Ok? && IndexOf(rule.shard, from).value in rule.subTables
      && IndexOf(rule.shard, to).Ok? && IndexOf(rule.shard, to).value in rule.subTables
  }

  ghost predicate InOrder(kind: ColumnKind, c: KeyTest)
    requires Denotes(kind, c)
  {
    c.Between? ==> !KeyLess(kind, Literal(kind, c.to).value, Literal(kind, c.from).value)
  }

  /** In date rules, with the literals' sub-tables configured and bounds in order, a test is routed to a
      sub-table only if a literal is placed there or some date there satisfies it. */
  lemma DateTight(rule: Rule, kind: ColumnKind, c: KeyTest, t: int) returns (k: KeyValue)
    requires TestPremises(rule, kind, c) && Realizable(rule) && rule.ruleType.DateRule? && SixOps(c)
    requires LiteralsConfigured(rule, c) && InOrder(kind, c)
    requires t in rule.subTables && RoutesTest(rule, c, t) && !PlacesLiteral(rule, c, t)
    ensures ValidKey(kind, k) && FindForKey(rule.shard, k) == Ok(t) && Satisfies(kind, c, k)
  {
    k := SampleKey(rule, kind, t);
    match c
    case Compare(_, lit) =>
      SpelledIndex(rule, kind, lit);
      Apart(rule, kind, k, Literal(kind, lit).value);
    case Member(_, elems) =>
      forall i | 0 <= i < |elems|
        ensures !KeyEq(kind, k, Literal(kind, elems[i]).value)
      {
        SpelledIndex(rule, kind, elems[i]);
        DateIndexed(rule, elems[i]);
        Apart(rule, kind, k, Literal(kind, elems[i]).value);
      }
    case Between(_, from, to) =>
      var a, b := Literal(kind, from).value, Literal(kind, to).value;
      SpelledIndex(rule, kind, from);
      SpelledIndex(rule, kind, to);
      Apart(rule, kind, k, a);
      Apart(rule, kind, k, b);
      PlaceMonotone(rule, kind, a, b);
  }

  /** Dates in different sub-tables are ordered as these are. */
  lemma Apart(rule: Rule, kind: ColumnKind, a: KeyValue, b: KeyValue)
    requires ValidRule(rule) && KindFits(rule, kind) && rule.ruleType.DateRule? && Comparable(kind, a) && Comparable(kind, b)
    requires FindForKey(rule.shard, a).Ok? && FindForKey(rule.shard, b).Ok?
    requires FindForKey(rule.shard, a).value != FindForKey(rule.shard, b).value
    ensures KeyLess(kind, a, b) <==> FindForKey(rule.shard, a).value < FindForKey(rule.shard, b).value
    ensures KeyLess(kind, b, a) <==> FindForKey(rule.shard, b).value < FindForKey(rule.shard, a).value
    ensures !KeyEq(kind, a, b)
  {
    if FindForKey(rule.shard, a).value < FindForKey(rule.shard, b).value {
      EarlierIsLess(rule, kind, a, b);
    } else {
      EarlierIsLess(rule, kind, b, a);
    }
    KeyOrder(kind, a, b);
  }

}
