/** The map key under which the rows of a group are merged (proxy/server/conn_select.go,
    generateMapKey; proxy/server/conn_resultset.go, formatValue). */
module GroupKeys {
  import opened Text

  /** A value of a result row. Floating-point values are carried as reals, without rounding. */
  datatype Value = Null | Int(v: int) | Uint(u: nat) | Float(x: real) | Text(s: string) | Bytes(s: string)

  /** The decimals of a fraction, as many as a float64 can have. */
  function Decimals(fraction: real, fuel: nat): string
    requires 0.0 <= fraction < 1.0
    decreases fuel
  {
    if fraction == 0.0 || fuel == 0 then ""
    else
      var d := (fraction * 10.0).Floor;
      [DigitChar(d)] + Decimals(fraction * 10.0 - d as real, fuel - 1)
  }

  /** strconv.FormatFloat(x, 'f', -1, 64) */
  function FormatFloat(x: real): string {
    var size := if x < 0.0 then -x else x;
    var whole := size.Floor;
    var decimals := Decimals(size - whole as real, 1074);
    (if x < 0.0 then "-" else "") + FormatNat(whole) + (if decimals == "" then "" else "." + decimals)
  }

  /** formatValue */
  function Format(v: Value): string {
    match v
    case Null => "NULL"
    case Int(n) => FormatInt(n)
    case Uint(n) => FormatNat(n)
    case Float(x) => FormatFloat(x)
    case Text(s) => s
    case Bytes(s) => s
  }

  function MapKey(group: seq<Value>): string {
    if group == [] then "" else Format(group[0]) + "+" + MapKey(group[1..])
  }

  method GenerateMapKey(group: seq<Value>) returns (key: string)
    ensures key == MapKey(group)
  {
    key := "";
    for i := 0 to |group|
      invariant key + MapKey(group[i..]) == MapKey(group)
    {
      assert group[i..][0] == group[i] && group[i..][1..] == group[i + 1..];
      key := key + Format(group[i]) + "+";
    }
    assert group[|group|..] == [];
  }

  /** Whole numbers print without a point, fractions with as many decimals as they have. */
  lemma FloatReads(n: int)
    ensures Format(Float(n as real)) == FormatInt(n)
    ensures Format(Float(0.5)) == "0.5" && Format(Float(0.25)) == "0.25"
  {
    NoDecimals(1074);
    HalfDecimals(1074);
    assert n < 0 ==> (-(n as real)).Floor == -n;
    assert FormatNat(0) == "0" && 0.5.Floor == 0 && 0.25.Floor == 0;
  }

  lemma NoDecimals(fuel: nat)
    ensures Decimals(0.0, fuel) == ""
  {
  }

  lemma HalfDecimals(fuel: nat)
    requires fuel > 2
    ensures Decimals(0.5, fuel) == "5" && Decimals(0.25, fuel) == "25"
  {
    assert (0.5 * 10.0).Floor == 5 && (0.25 * 10.0).Floor == 2;
    NoDecimals(fuel - 1);
    NoDecimals(fuel - 2);
    assert Decimals(0.5, fuel - 1) == "5";
  }

  // ---------------------------------------------------------------- when keys tell groups apart

  lemma NoPlus(n: int)
    ensures '+' !in FormatInt(n) && FormatInt(n) != "NULL"
  {
    if n < 0 {
      assert FormatInt(n) == "-" + FormatNat(-n);
    } else {
      assert IsDigit(FormatInt(n)[0]);
    }
  }

  lemma FormatIntInjective(a: int, b: int)
    requires FormatInt(a) == FormatInt(b)
    ensures a == b
  {
    assert a < 0 ==> FormatInt(a)[0] == '-' && FormatInt(a)[1..] == FormatNat(-a);
    assert b < 0 ==> FormatInt(b)[0] == '-' && FormatInt(b)[1..] == FormatNat(-b);
    assert a >= 0 ==> IsDigit(FormatInt(a)[0]);
    assert b >= 0 ==> IsDigit(FormatInt(b)[0]);
    NumOfFormat(if a < 0 then -a else a);
    NumOfFormat(if b < 0 then -b else b);
  }

  lemma CutAtPlus(a: string, a': string, b: string, b': string)
    requires '+' !in a && '+' !in b
    requires a + "+" + a' == b + "+" + b'
    ensures a == b && a' == b'
  {
    var s := a + "+" + a';
    assert s[|a|] == '+' && s[|b|] == '+';
    assert forall i :: 0 <= i < |a| ==> s[i] == a[i];
    assert forall i :: 0 <= i < |b| ==> s[i] == b[i];
    assert |a| == |b|;
    assert a == s[..|a|] && b == s[..|b|] && a' == s[|a| + 1..] && b' == s[|b| + 1..];
  }

  /** What a group column may hold for keys to tell groups apart: signed or unsigned integers, with or
      without NULL; texts or byte strings without the separator; or, if there are NULLs, such texts or byte
      strings other than the text a NULL prints as. */
  datatype ColumnType = Ints | Uints | Texts | NullableTexts | Blobs | NullableBlobs

  predicate Holds(c: ColumnType, v: Value) {
    match c
    case Ints => v.Int? || v.Null?
    case Uints => v.Uint? || v.Null?
    case Texts => v.Text? && '+' !in v.s
    case NullableTexts => v.Null? || (v.Text? && '+' !in v.s && v.s != "NULL")
    case Blobs => v.Bytes? && '+' !in v.s
    case NullableBlobs => v.Null? || (v.Bytes? && '+' !in v.s && v.s != "NULL")
  }

  predicate Typed(group: seq<Value>, types: seq<ColumnType>) {
    |group| == |types| && forall i :: 0 <= i < |group| ==> Holds(types[i], group[i])
  }

  lemma FormatInjective(c: ColumnType, a: Value, b: Value)
    requires Holds(c, a) && Holds(c, b)
    ensures '+' !in Format(a) && '+' !in Format(b)
    ensures Format(a) == Format(b) ==> a == b
  {
    if a.Int? {
      NoPlus(a.v);
    }
    if b.Int? {
      NoPlus(b.v);
    }
    if a.Uint? {
      NoPlus(a.u);
    }
    if b.Uint? {
      NoPlus(b.u);
    }
    if a.Int? && b.Int? && Format(a) == Format(b) {
      FormatIntInjective(a.v, b.v);
    }
    if a.Uint? && b.Uint? && Format(a) == Format(b) {
      FormatIntInjective(a.u, b.u);
    }
  }

  /** Distinct groups over such columns have distinct map keys. */
  lemma {:induction false} MapKeyInjective(a: seq<Value>, b: seq<Value>, types: seq<ColumnType>)
    requires Typed(a, types) && Typed(b, types) && MapKey(a) == MapKey(b)
    ensures a == b
  {
    if a != [] {
      FormatInjective(types[0], a[0], b[0]);
      CutAtPlus(Format(a[0]), MapKey(a[1..]), Format(b[0]), MapKey(b[1..]));
      MapKeyInjective(a[1..], b[1..], types[1..]);
      assert a == [a[0]] + a[1..] && b == [b[0]] + b[1..];
    }
  }

  // ---------------------------------------------------------------- when they do not

  lemma {:induction false} MapKeyAppend(a: seq<Value>, b: seq<Value>)
    ensures MapKey(a + b) == MapKey(a) + MapKey(b)
  {
    if a == [] {
      assert a + b == b;
    } else {
      assert (a + b)[0] == a[0] && (a + b)[1..] == a[1..] + b;
      MapKeyAppend(a[1..], b);
      assert Format(a[0]) + "+" + (MapKey(a[1..]) + MapKey(b)) == Format(a[0]) + "+" + MapKey(a[1..]) + MapKey(b);
    }
  }

  lemma MapKeyOne(v: Value)
    ensures MapKey([v]) == Format(v) + "+"
  {
    assert [v][1..] == [];
  }

  /** A NULL collides with the text it prints as, in any group. */
  lemma NullCollides(group: seq<Value>, i: nat)
    requires i < |group| && group[i] == Null
    ensures MapKey(group[i := Text("NULL")]) == MapKey(group)
  {
    var front, back, other := group[..i], group[i + 1..], group[i := Text("NULL")];
    assert group == front + ([Null] + back) && other == front + ([Text("NULL")] + back);
    MapKeyAppend(front, [Null] + back);
    MapKeyAppend([Null], back);
    MapKeyAppend(front, [Text("NULL")] + back);
    MapKeyAppend([Text("NULL")], back);
    MapKeyOne(Null);
    MapKeyOne(Text("NULL"));
  }

  predicate AllText(group: seq<Value>) {
    forall i :: 0 <= i < |group| ==> group[i].Text?
  }

  /** A separator can be moved from the end of one text into the next. */
  lemma PairShares(u: string, v: string, w: string)
    ensures MapKey([Text(u), Text(v + "+" + w)]) == MapKey([Text(u + "+" + v), Text(w)])
  {
    assert [Text(u), Text(v + "+" + w)] == [Text(u)] + [Text(v + "+" + w)];
    assert [Text(u + "+" + v), Text(w)] == [Text(u + "+" + v)] + [Text(w)];
    MapKeyAppend([Text(u)], [Text(v + "+" + w)]);
    MapKeyAppend([Text(u + "+" + v)], [Text(w)]);
    MapKeyOne(Text(u));
    MapKeyOne(Text(v + "+" + w));
    MapKeyOne(Text(u + "+" + v));
    MapKeyOne(Text(w));
    assert u + "+" + (v + "+" + w + "+") == u + "+" + v + "+" + (w + "+");
  }

  lemma ReplacedPair(group: seq<Value>, j: nat, a: Value, b: Value) returns (other: seq<Value>)
    requires j + 1 < |group| && MapKey([a, b]) == MapKey([group[j], group[j + 1]])
    requires AllText(group) && a.Text? && b.Text? && a != group[j]
    ensures AllText(other) && |other| == |group| && other != group && MapKey(other) == MapKey(group)
  {
    var front, pair, back := group[..j], [group[j], group[j + 1]], group[j + 2..];
    other := front + ([a, b] + back);
    assert group == front + (pair + back);
    MapKeyAppend(front, pair + back);
    MapKeyAppend(pair, back);
    MapKeyAppend(front, [a, b] + back);
    MapKeyAppend([a, b], back);
    assert other[j] == a;
  }

  lemma SplitPlus(s: string) returns (u: string, v: string)
    requires '+' in s
    ensures s == u + "+" + v
  {
    var i :| 0 <= i < |s| && s[i] == '+';
    u, v := s[..i], s[i + 1..];
  }

  lemma SharedKey(group: seq<Value>, i: nat) returns (other: seq<Value>)
    requires AllText(group) && |group| >= 2 && i < |group| && '+' in group[i].s
    ensures AllText(other) && |other| == |group| && other != group && MapKey(other) == MapKey(group)
  {
    var u, v := SplitPlus(group[i].s);
    if i + 1 < |group| {
      var w := group[i + 1].s;
      PairShares(u, v, w);
      assert Text(u).s != group[i].s by {
        assert |u| < |group[i].s|;
      }
      other := ReplacedPair(group, i, Text(u), Text(v + "+" + w));
    } else {
      var w := group[i - 1].s;
      PairShares(w, u, v);
      assert Text(w + "+" + u).s != group[i - 1].s by {
        assert |w + "+" + u| > |w|;
      }
      other := ReplacedPair(group, i - 1, Text(w + "+" + u), Text(v));
    }
  }

  function Pluses(s: string): nat {
    if s == "" then 0 else Pluses(s[..|s| - 1]) + (if s[|s| - 1] == '+' then 1 else 0)
  }

  lemma {:induction false} PlusesAppend(a: string, b: string)
    ensures Pluses(a + b) == Pluses(a) + Pluses(b)
  {
    if b == "" {
      assert a + b == a;
    } else {
      var n := |b| - 1;
      PlusesAppend(a, b[..n]);
      assert (a + b)[..|a + b| - 1] == a + b[..n];
    }
  }

  lemma {:induction false} NoPluses(s: string)
    ensures Pluses(s) == 0 <==> '+' !in s
  {
    if s != "" {
      NoPluses(s[..|s| - 1]);
      assert s == s[..|s| - 1] + [s[|s| - 1]];
    }
  }

  function TextPluses(group: seq<Value>): nat
    requires AllText(group)
  {
    if group == [] then 0 else Pluses(group[0].s) + TextPluses(group[1..])
  }

  lemma {:induction false} KeyPluses(group: seq<Value>)
    requires AllText(group)
    ensures Pluses(MapKey(group)) == |group| + TextPluses(group)
    ensures TextPluses(group) == 0 <==> forall i :: 0 <= i < |group| ==> '+' !in group[i].s
  {
    if group != [] {
      var s, rest := group[0].s, group[1..];
      KeyPluses(rest);
      NoPluses(s);
      PlusesAppend(s + "+", MapKey(rest));
      PlusesAppend(s, "+");
      assert "+"[..0] == "" && Pluses("+") == 1;
      assert forall i :: 0 < i < |group| ==> group[i] == rest[i - 1];
    }
  }

  lemma TextKeysApart(a: seq<Value>, b: seq<Value>)
    requires AllText(a) && AllText(b) && |a| == |b| && MapKey(a) == MapKey(b)
    requires forall i :: 0 <= i < |a| ==> '+' !in a[i].s
    ensures a == b
  {
    KeyPluses(a);
    KeyPluses(b);
    MapKeyInjective(a, b, seq(|a|, _ => Texts));
  }

  /** A group of at least two texts shares its key with another such group if and only if some text
      contains the separator. */
  lemma TextKeysShared(group: seq<Value>)
    requires AllText(group) && |group| >= 2
    ensures (exists other :: AllText(other) && |other| == |group| && other != group && MapKey(other) == MapKey(group)) <==>
            (exists i :: 0 <= i < |group| && '+' in group[i].s)
  {
    if i :| 0 <= i < |group| && '+' in group[i].s {
      var other := SharedKey(group, i);
    } else {
      forall other | AllText(other) && |other| == |group| && MapKey(other) == MapKey(group)
        ensures other == group
      {
        TextKeysApart(group, other);
      }
    }
  }
}
