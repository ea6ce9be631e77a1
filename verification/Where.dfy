/** WHERE trees: what they mean, and which sub-tables the planner sends them to
    (sqlparser/ast.go, proxy/router/planbuilder.go).

    Nodes the proxy writes to carry an identity: a comparison has an `id`, a column reference has an
    `id`. Their changing parts (right operands, qualifiers) are kept by `Planner`. */
module Where {
  import opened Prelude
  import opened Text
  import opened Calendar
  import opened Shards
  import opened Rules

  datatype Val =
    | StrVal(s: string)
    | NumVal(text: string)
    | ValArg
    | Col(col: nat, name: string)
    | Tuple(elems: seq<Val>)
    | OtherVal(other: nat)

  datatype CmpOp = Eq | Lt | Gt | Le | Ge | Ne | Nse | In | NotIn | Like | NotLike

  datatype Pred =
    | And(left: Pred, right: Pred)
    | Or(left: Pred, right: Pred)
    | Not(inner: Pred)
    | Paren(inner: Pred)
    | Cmp(id: nat, op: CmpOp, lhs: Val, rhs: Val)
    | Range(negated: bool, operand: Val, from: Val, to: Val)
    | OtherPred(other: nat)

  // ---------------------------------------------------------------- node types

  datatype NodeType = EidNode | ValueNode | ListNode | OtherNode

  predicate IsValue(v: Val) {
    v.StrVal? || v.NumVal? || v.ValArg?
  }

  /** getValueType, without its effect on qualifiers. */
  function ValueType(key: string, v: Val): NodeType {
    match v
    case StrVal(_) => ValueNode
    case NumVal(_) => ValueNode
    case ValArg => ValueNode
    case Col(_, name) => if Lower(name) == key then EidNode else OtherNode
    case Tuple(elems) =>
      if forall i :: 0 <= i < |elems| ==> IsValue(elems[i]) then ListNode else OtherNode
    case OtherVal(_) => OtherNode
  }

  predicate IsOrderOp(op: CmpOp) {
    op in {Eq, Lt, Gt, Le, Ge, Nse}
  }

  /** A leaf that the planner routes by the sharding key; every other leaf goes to all sub-tables. */
  predicate KeyLeaf(key: string, p: Pred) {
    match p
    case Cmp(_, op, lhs, rhs) =>
      var l, r := ValueType(key, lhs), ValueType(key, rhs);
      || (IsOrderOp(op) && ((l == EidNode && r == ValueNode) || (l == ValueNode && r == EidNode)))
      || ((op == In || op == NotIn) && l == EidNode && r == ListNode)
    case Range(_, v, from, to) =>
      ValueType(key, v) == EidNode && ValueType(key, from) == ValueNode && ValueType(key, to) == ValueNode
    case _ => false
  }

  function Flip(op: CmpOp): CmpOp {
    match op
    case Lt => Gt
    case Gt => Lt
    case Le => Ge
    case Ge => Le
    case _ => op
  }

  /** How a key leaf constrains the key, whichever side of the operator the key is on. */
  datatype KeyTest =
    | Compare(op: CmpOp, lit: Val)
    | Member(negated: bool, elems: seq<Val>)
    | Between(negated: bool, from: Val, to: Val)

  function TestOf(key: string, p: Pred): (c: KeyTest)
    requires KeyLeaf(key, p)
    ensures c.Compare? ==> c.op in {Eq, Lt, Gt, Le, Ge, Nse}
  {
    match p
    case Cmp(_, op, lhs, rhs) =>
      if op == In || op == NotIn then Member(op == NotIn, rhs.elems)
      else if ValueType(key, lhs) == EidNode then Compare(op, rhs)
      else Compare(Flip(op), lhs)
    case Range(negated, _, from, to) => Between(negated, from, to)
  }

  // ---------------------------------------------------------------- meaning

  datatype ColumnKind = IntColumn | TextColumn | DateTimeColumn | DateColumn

  datatype Cell = Null | IntCell(i: int) | TextCell(t: string)

  datatype Row = Row(key: KeyValue, cells: seq<Cell>)

  datatype Tri = True | False | Unknown

  function ToTri(b: bool): Tri {
    if b then True else False
  }

  /** A value a column of the given kind may hold: dates are days of the calendar. */
  predicate ValidKey(kind: ColumnKind, k: KeyValue) {
    match kind
    case IntColumn => k.IntKey? && IsInt64(k.v)
    case TextColumn => k.TextKey?
    case DateTimeColumn => k.TextKey? && IsDateTime(k.s)
    case DateColumn => k.TextKey? && IsBareDate(k.s)
  }

  /** A value it may be compared with: dates and date-times compare with each other. */
  predicate Comparable(kind: ColumnKind, k: KeyValue) {
    match kind
    case IntColumn => k.IntKey? && IsInt64(k.v)
    case TextColumn => k.TextKey?
    case _ => k.TextKey? && IsMoment(k.s)
  }

  /** What the column holds after such a value is written to it: a date becomes its midnight, and a DATE
      column drops the time of day. */
  function Stored(kind: ColumnKind, k: KeyValue): (r: KeyValue)
    requires Comparable(kind, k)
    ensures ValidKey(kind, r)
  {
    match kind
    case DateTimeColumn =>
      NormalStamp(k.s);
      TextKey(Normal(k.s))
    case DateColumn =>
      DatePart(k.s);
      TextKey(k.s[..10])
    case _ => k
  }

  /** The key value a literal denotes when compared with a column of the given kind. */
  function Literal(kind: ColumnKind, v: Val): (r: Option<KeyValue>)
    ensures r.Some? ==> Comparable(kind, r.value)
  {
    match v
    case NumVal(text) =>
      if kind == IntColumn && ParseInt64(text).Some? then Some(IntKey(ParseInt64(text).value)) else None
    case StrVal(s) =>
      if kind == IntColumn then
        if ParseInt64(s).Some? then Some(IntKey(ParseInt64(s).value)) else None
      else if Comparable(kind, TextKey(s)) then Some(TextKey(s)) else None
    case _ => None
  }

  predicate KeyEq(kind: ColumnKind, a: KeyValue, b: KeyValue)
    requires Comparable(kind, a) && Comparable(kind, b)
  {
    match kind
    case IntColumn => a.v == b.v
    case TextColumn => a.s == b.s
    case _ => Normal(a.s) == Normal(b.s)
  }

  predicate KeyLess(kind: ColumnKind, a: KeyValue, b: KeyValue)
    requires Comparable(kind, a) && Comparable(kind, b)
  {
    match kind
    case IntColumn => a.v < b.v
    case TextColumn => LexLess(a.s, b.s)
    case _ => DateLess(a.s, b.s)
  }

  lemma KeyOrder(kind: ColumnKind, a: KeyValue, b: KeyValue)
    requires Comparable(kind, a) && Comparable(kind, b)
    ensures KeyEq(kind, a, b) || KeyLess(kind, a, b) || KeyLess(kind, b, a)
    ensures !(KeyLess(kind, a, b) && KeyLess(kind, b, a))
    ensures KeyEq(kind, a, b) ==> !KeyLess(kind, a, b)
    ensures KeyEq(kind, a, b) <==> KeyEq(kind, b, a)
  {
    match kind
    case IntColumn =>
    case TextColumn => LexTotal(a.s, b.s);
    case _ => LexTotal(Normal(a.s), Normal(b.s));
  }

  /** Some value of the column equals `k`. */
  predicate Matched(kind: ColumnKind, k: KeyValue)
    requires Comparable(kind, k)
  {
    KeyEq(kind, Stored(kind, k), k)
  }

  lemma MatchedIf(kind: ColumnKind, x: KeyValue, k: KeyValue)
    requires ValidKey(kind, x) && Comparable(kind, k) && KeyEq(kind, x, k)
    ensures Matched(kind, k)
  {
    if kind == DateColumn {
      StampOrder(x.s, k.s);
      StampIsValid(x.s);
      StampIsValid(k.s);
      DatePart(k.s);
      StampOrder(k.s[..10], k.s);
    }
  }

  /** Every literal of a key test denotes a key value. */
  predicate Denotes(kind: ColumnKind, c: KeyTest) {
    match c
    case Compare(_, lit) => Literal(kind, lit).Some?
    case Member(_, elems) => forall i :: 0 <= i < |elems| ==> Literal(kind, elems[i]).Some?
    case Between(_, from, to) => Literal(kind, from).Some? && Literal(kind, to).Some?
  }

  predicate Satisfies(kind: ColumnKind, c: KeyTest, k: KeyValue)
    requires ValidKey(kind, k) && Denotes(kind, c)
  {
    match c
    case Compare(op, lit) =>
      var b := Literal(kind, lit).value;
      (match op
       case Lt => KeyLess(kind, k, b)
       case Gt => KeyLess(kind, b, k)
       case Le => !KeyLess(kind, b, k)
       case Ge => !KeyLess(kind, k, b)
       case _ => KeyEq(kind, k, b))
    case Member(negated, elems) =>
      negated != exists i :: 0 <= i < |elems| && KeyEq(kind, k, Literal(kind, elems[i]).value)
    case Between(negated, from, to) =>
      negated != (!KeyLess(kind, k, Literal(kind, from).value) && !KeyLess(kind, Literal(kind, to).value, k))
  }

  /** `atom` decides everything that is not a comparison of the key with literals. */
  datatype Meaning = Meaning(key: string, kind: ColumnKind, atom: (Pred, Row) -> Tri)

  /** a op b */
  predicate CompareKeys(kind: ColumnKind, op: CmpOp, a: KeyValue, b: KeyValue)
    requires Comparable(kind, a) && Comparable(kind, b)
  {
    match op
    case Lt => KeyLess(kind, a, b)
    case Gt => KeyLess(kind, b, a)
    case Le => !KeyLess(kind, b, a)
    case Ge => !KeyLess(kind, a, b)
    case _ => KeyEq(kind, a, b)
  }

  /** What a key leaf says of a key, read as written: the operands in their order. */
  predicate LeafHolds(key: string, kind: ColumnKind, p: Pred, k: KeyValue)
    requires KeyLeaf(key, p) && Denotes(kind, TestOf(key, p)) && ValidKey(kind, k)
  {
    match p
    case Cmp(_, op, lhs, rhs) =>
      if op == In then exists i :: 0 <= i < |rhs.elems| && KeyEq(kind, k, Literal(kind, rhs.elems[i]).value)
      else if op == NotIn then forall i :: 0 <= i < |rhs.elems| ==> !KeyEq(kind, k, Literal(kind, rhs.elems[i]).value)
      else if ValueType(key, lhs) == EidNode then CompareKeys(kind, op, k, Literal(kind, rhs).value)
      else CompareKeys(kind, op, Literal(kind, lhs).value, k)
    case Range(negated, _, from, to) =>
      var a, b := Literal(kind, from).value, Literal(kind, to).value;
      if negated then KeyLess(kind, k, a) || KeyLess(kind, b, k) else !KeyLess(kind, k, a) && !KeyLess(kind, b, k)
  }

  /** Turning a comparison round so that the key stands on the left keeps what it says. */
  lemma LeafHoldsIsSatisfies(key: string, kind: ColumnKind, p: Pred, k: KeyValue)
    requires KeyLeaf(key, p) && Denotes(kind, TestOf(key, p)) && ValidKey(kind, k)
    ensures LeafHolds(key, kind, p, k) <==> Satisfies(kind, TestOf(key, p), k)
  {
    if p.Cmp? && p.op != In && p.op != NotIn && ValueType(key, p.lhs) != EidNode {
      TurnedRound(kind, p.op, Literal(kind, p.lhs).value, k);
    }
  }

  lemma TurnedRound(kind: ColumnKind, op: CmpOp, a: KeyValue, b: KeyValue)
    requires Comparable(kind, a) && Comparable(kind, b)
    ensures CompareKeys(kind, op, a, b) <==> CompareKeys(kind, Flip(op), b, a)
  {
    KeyOrder(kind, a, b);
  }

  function EvalLeaf(m: Meaning, p: Pred, row: Row): Tri
    requires ValidKey(m.kind, row.key)
  {
    if KeyLeaf(m.key, p) && Denotes(m.kind, TestOf(m.key, p))
    then ToTri(LeafHolds(m.key, m.kind, p, row.key))
    else m.atom(p, row)
  }

  /** Three-valued truth of a WHERE tree for a row. */
  function Eval(m: Meaning, p: Pred, row: Row): Tri
    requires ValidKey(m.kind, row.key)
  {
    match p
    case And(l, r) =>
      var a, b := Eval(m, l, row), Eval(m, r, row);
      if a == False || b == False then False else if a == True && b == True then True else Unknown
    case Or(l, r) =>
      var a, b := Eval(m, l, row), Eval(m, r, row);
      if a == True || b == True then True else if a == False && b == False then False else Unknown
    case Not(e) =>
      (match Eval(m, e, row) case True => False case False => True case Unknown => Unknown)
    case Paren(e) => Eval(m, e, row)
    case _ => EvalLeaf(m, p, row)
  }

  // ---------------------------------------------------------------- routing

  /** getBoundValue */
  function BoundValue(v: Val): Result<KeyValue> {
    match v
    case StrVal(s) => Ok(TextKey(s))
    case NumVal(text) => (match ParseInt64(text) case Some(n) => Ok(IntKey(n)) case None => Err(Panicked))
    case Tuple(elems) => if |elems| == 1 then BoundValue(elems[0]) else Err(Panicked)
    case _ => Err(Panicked)
  }

  /** getTableIndexByValue */
  function IndexOf(shard: Shard, v: Val): Result<int> {
    var k :- BoundValue(v);
    FindForKey(shard, k)
  }

  /** adjustShardIndex: a bound equal to the start of its range excludes that range. */
  function AdjustIndex(shard: Shard, v: Val, index: int): Result<int> {
    if !shard.NumRangeShard? then Ok(index)
    else
      var k :- BoundValue(v);
      var n :- NumValue(k);
      if !(0 <= index < |shard.ranges|) then Err(Panicked)
      else if shard.ranges[index].start == n then
        if index == 0 then Err(Panicked) else Ok(index - 1)
      else Ok(index)
  }

  /** The two ends of `not between` in a range rule: routed are [0, first] and [second, n). */
  function NotBetweenEnds(shard: Shard, from: Val, to: Val): Result<(int, int)> {
    var start :- IndexOf(shard, from);
    var last :- IndexOf(shard, to);
    if last < start then
      var first :- AdjustIndex(shard, to, last);
      Ok((first, start))
    else
      var first :- AdjustIndex(shard, from, start);
      Ok((first, last))
  }

  /** The planner gives a list for this key test rather than an error. */
  predicate PlansTest(rule: Rule, c: KeyTest) {
    match c
    case Compare(op, lit) =>
      if rule.ruleType.HashRule? && !(op == Eq || op == Nse) then true
      else if rule.ruleType.RangeRule? && op == Lt then
        IndexOf(rule.shard, lit).Ok? && AdjustIndex(rule.shard, lit, IndexOf(rule.shard, lit).value).Ok?
      else IndexOf(rule.shard, lit).Ok?
    case Member(negated, elems) =>
      if negated && !rule.ruleType.DateRule? then true
      else forall i :: 0 <= i < |elems| ==> IndexOf(rule.shard, elems[i]).Ok?
    case Between(negated, from, to) =>
      if rule.ruleType.HashRule? then true
      else if rule.ruleType.RangeRule? && negated then NotBetweenEnds(rule.shard, from, to).Ok?
      else IndexOf(rule.shard, from).Ok? && IndexOf(rule.shard, to).Ok?
  }

  predicate SomeIndex(shard: Shard, elems: seq<Val>, t: int) {
    exists i :: 0 <= i < |elems| && IndexOf(shard, elems[i]) == Ok(t)
  }

  predicate Within(a: int, b: int, t: int) {
    a <= t <= b || b <= t <= a
  }

  /** Sub-table `t` is in the list the planner gives for this key test. */
  predicate RoutesTest(rule: Rule, c: KeyTest, t: int)
    requires PlansTest(rule, c)
  {
    var shard, tables := rule.shard, rule.subTables;
    match c
    case Compare(op, lit) =>
      if rule.ruleType.HashRule? && !(op == Eq || op == Nse) then t in tables
      else
        var i := IndexOf(shard, lit).value;
        (match op
         case Lt =>
           if rule.ruleType.RangeRule? then 0 <= t <= AdjustIndex(shard, lit, i).value
           else i in tables && t in tables && t <= i
         case Le =>
           if rule.ruleType.RangeRule? then 0 <= t <= i else i in tables && t in tables && t <= i
         case Gt =>
           if rule.ruleType.RangeRule? then i <= t < |tables| else i in tables && t in tables && i <= t
         case Ge =>
           if rule.ruleType.RangeRule? then i <= t < |tables| else i in tables && t in tables && i <= t
         case _ => t == i)
    case Member(negated, elems) =>
      if !negated then SomeIndex(shard, elems, t)
      else t in tables && (rule.ruleType.DateRule? ==> !SomeIndex(shard, elems, t))
    case Between(negated, from, to) =>
      if rule.ruleType.HashRule? then t in tables
      else if rule.ruleType.RangeRule? then
        if negated then
          var ends := NotBetweenEnds(shard, from, to).value;
          0 <= t <= ends.0 || ends.1 <= t < |tables|
        else Within(IndexOf(shard, from).value, IndexOf(shard, to).value, t)
      else
        var i, j := IndexOf(shard, from).value, IndexOf(shard, to).value;
        t in tables && (negated != (i in tables && j in tables && Within(i, j, t)))
  }

  predicate PlansLeaf(rule: Rule, p: Pred) {
    KeyLeaf(rule.key, p) ==> PlansTest(rule, TestOf(rule.key, p))
  }

  predicate RoutesLeaf(rule: Rule, p: Pred, t: int)
    requires PlansLeaf(rule, p)
  {
    if KeyLeaf(rule.key, p) then RoutesTest(rule, TestOf(rule.key, p), t) else t in rule.subTables
  }

  /** getTableIndexByBoolExpr succeeds. Negations and other leaves are not looked into. */
  predicate Plans(rule: Rule, p: Pred) {
    match p
    case And(l, r) => Plans(rule, l) && Plans(rule, r)
    case Or(l, r) => Plans(rule, l) && Plans(rule, r)
    case Paren(e) => Plans(rule, e)
    case _ => PlansLeaf(rule, p)
  }

  predicate Routes(rule: Rule, p: Pred, t: int)
    requires Plans(rule, p)
  {
    match p
    case And(l, r) => Routes(rule, l, t) && Routes(rule, r, t)
    case Or(l, r) => Routes(rule, l, t) || Routes(rule, r, t)
    case Paren(e) => Routes(rule, e, t)
    case _ => RoutesLeaf(rule, p, t)
  }

  // ---------------------------------------------------------------- the IN list to split

  /** The comparison whose list is exchanged per sub-table: the last key IN visited. */
  function RecordedIn(rule: Rule, p: Pred): Option<nat> {
    match p
    case And(l, r) => if RecordedIn(rule, r).Some? then RecordedIn(rule, r) else RecordedIn(rule, l)
    case Or(l, r) => if RecordedIn(rule, r).Some? then RecordedIn(rule, r) else RecordedIn(rule, l)
    case Paren(e) => RecordedIn(rule, e)
    case Cmp(id, In, _, _) => if KeyLeaf(rule.key, p) then Some(id) else None
    case _ => None
  }

  /** The list whose value groups are kept: in date rules a NOT IN overwrites them as well. */
  function RecordedList(rule: Rule, p: Pred): Option<(nat, seq<Val>)> {
    match p
    case And(l, r) => if RecordedList(rule, r).Some? then RecordedList(rule, r) else RecordedList(rule, l)
    case Or(l, r) => if RecordedList(rule, r).Some? then RecordedList(rule, r) else RecordedList(rule, l)
    case Paren(e) => RecordedList(rule, e)
    case Cmp(id, op, _, rhs) =>
      if KeyLeaf(rule.key, p) && (op == In || (op == NotIn && rule.ruleType.DateRule?))
      then Some((id, rhs.elems)) else None
    case _ => None
  }

  /** The values of a list that belong to sub-table `t`, in their order. */
  function Group(shard: Shard, elems: seq<Val>, t: int): seq<Val> {
    if elems == [] then []
    else
      var n := |elems| - 1;
      Group(shard, elems[..n], t) + (if IndexOf(shard, elems[n]) == Ok(t) then [elems[n]] else [])
  }

  lemma {:induction false} GroupMember(shard: Shard, elems: seq<Val>, t: int, v: Val)
    ensures v in Group(shard, elems, t) <==> v in elems && IndexOf(shard, v) == Ok(t)
  {
    if elems != [] {
      var n := |elems| - 1;
      GroupMember(shard, elems[..n], t, v);
      assert elems == elems[..n] + [elems[n]];
    }
  }

  lemma GroupMeets(shard: Shard, elems: seq<Val>, t: int)
    ensures SomeIndex(shard, elems, t) <==> Group(shard, elems, t) != []
  {
    if SomeIndex(shard, elems, t) {
      var i :| 0 <= i < |elems| && IndexOf(shard, elems[i]) == Ok(t);
      GroupMember(shard, elems, t, elems[i]);
    }
    if Group(shard, elems, t) != [] {
      var v := Group(shard, elems, t)[0];
      GroupMember(shard, elems, t, v);
      var i :| 0 <= i < |elems| && elems[i] == v;
    }
  }

  function ReplaceRight(p: Pred, id: nat, v: Val): Pred {
    match p
    case And(l, r) => And(ReplaceRight(l, id, v), ReplaceRight(r, id, v))
    case Or(l, r) => Or(ReplaceRight(l, id, v), ReplaceRight(r, id, v))
    case Not(e) => Not(ReplaceRight(e, id, v))
    case Paren(e) => Paren(ReplaceRight(e, id, v))
    case Cmp(i, op, lhs, rhs) => if i == id then Cmp(i, op, lhs, v) else p
    case _ => p
  }

  /** The WHERE tree sent to sub-table `t`. */
  function WhereFor(rule: Rule, p: Pred, t: int): Pred {
    match (RecordedIn(rule, p), RecordedList(rule, p))
    case (Some(id), Some(list)) =>
      var g := Group(rule.shard, list.1, t);
      if g == [] then p else ReplaceRight(p, id, Tuple(g))
    case _ => p
  }

  function Ids(p: Pred): seq<nat> {
    match p
    case And(l, r) => Ids(l) + Ids(r)
    case Or(l, r) => Ids(l) + Ids(r)
    case Not(e) => Ids(e)
    case Paren(e) => Ids(e)
    case Cmp(id, _, _, _) => [id]
    case _ => []
  }

  /** Every comparison is a node of its own, as the parser builds them. */
  predicate DistinctIds(p: Pred) {
    forall i, j :: 0 <= i < j < |Ids(p)| ==> Ids(p)[i] != Ids(p)[j]
  }
}
