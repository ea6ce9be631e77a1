/** Outcomes shared by every component of the model. */
module Prelude {

  datatype Option<+T> = None | Some(value: T)

  /** The error returns of the proxy. `Panicked` stands for a Go run-time panic. */
  datatype Failure =
    | Panicked
    | KeyOutOfRange
    | InvalidDateFormat
    | UnmodelledTimestamp
    | InvalidNumber
    | LocationsCount
    | DateRangeCount
    | DateRangeIllegal
    | DateIllegal
    | RangeSpaceMismatch
    | SumColumnType
    | NoCriteria
    | NoSuchTable
    | UnknownColumn
    | ColsLenNotMatch
    | NoShardingKey
    | LimitNotNumber
    | InvalidLimit

  datatype Result<+T> = Ok(value: T) | Err(error: Failure) {
    predicate IsFailure() {
      Err?
    }
    function PropagateFailure<U>(): Result<U>
      requires Err?
    {
      Err(error)
    }
    function Extract(): T
      requires Ok?
    {
      value
    }
  }

  const TWO_63: int := 0x8000_0000_0000_0000
  const TWO_64: int := 0x1_0000_0000_0000_0000
  const MAX_INT64: int := TWO_63 - 1

  predicate IsInt64(v: int) {
    -TWO_63 <= v < TWO_63
  }

  /** What a 64-bit signed machine integer holds after overflow: the representative of `v`. */
  function Wrap64(v: int): (r: int)
    ensures IsInt64(r)
    ensures (r - v) % TWO_64 == 0
    ensures IsInt64(v) ==> r == v
  {
    (v + TWO_63) % TWO_64 - TWO_63
  }

  lemma WrapShift(v: int, q: int)
    ensures Wrap64(v + q * TWO_64) == Wrap64(v)
  {
    var x := v + TWO_63;
    assert (x + q * TWO_64) % TWO_64 == x % TWO_64 by {
      assert x + q * TWO_64 == (x / TWO_64 + q) * TWO_64 + x % TWO_64;
    }
  }

  /** Wrapping early or late makes no difference to a sum. */
  lemma WrapAdd(a: int, b: int)
    ensures Wrap64(Wrap64(a) + b) == Wrap64(a + b)
    ensures Wrap64(b + Wrap64(a)) == Wrap64(a + b)
  {
    WrapShift(a + b, -((a + TWO_63) / TWO_64));
  }

  // ---------------------------------------------------------------- sets and sequences

  lemma SameMembers(a: set<int>, b: set<int>)
    requires forall k :: k in a <==> k in b
    ensures a == b
  {
    assert forall k :: k in a <==> k in b;
  }

  lemma HasMember(s: set<int>)
    requires s != {}
    ensures exists k :: k in s
  {
    if forall k :: k !in s {
      SameMembers(s, {});
    }
  }

  /** All parts one after another. */
  function Flatten<T>(parts: seq<seq<T>>): seq<T> {
    if parts == [] then [] else Flatten(parts[..|parts| - 1]) + parts[|parts| - 1]
  }

  lemma FlattenNext<T>(parts: seq<seq<T>>, n: nat)
    requires n < |parts|
    ensures Flatten(parts[..n + 1]) == Flatten(parts[..n]) + parts[n]
  {
    assert parts[..n + 1][..n] == parts[..n];
  }

  lemma RemoveFromBoth<T>(a: seq<T>, front: seq<T>, x: T, back: seq<T>)
    requires multiset(a + [x]) == multiset(front + [x] + back)
    ensures multiset(a) == multiset(front + back)
  {
    assert multiset(a) == multiset(a + [x]) - multiset{x};
    assert multiset(front + back) == multiset(front + [x] + back) - multiset{x};
  }

  lemma {:induction false} FlattenAppend<T>(a: seq<seq<T>>, b: seq<seq<T>>)
    ensures Flatten(a + b) == Flatten(a) + Flatten(b)
  {
    if b == [] {
      assert a + b == a;
    } else {
      var n := |b| - 1;
      FlattenAppend(a, b[..n]);
      assert (a + b)[..|a + b| - 1] == a + b[..n];
    }
  }

  /** One part grows by one element. */
  lemma {:induction false} FlattenGrows<T>(parts: seq<seq<T>>, k: nat, x: T)
    requires k < |parts|
    ensures multiset(Flatten(parts[k := parts[k] + [x]])) == multiset(Flatten(parts)) + multiset{x}
  {
    var n, more := |parts| - 1, parts[k := parts[k] + [x]];
    if k == n {
      assert more[..n] == parts[..n];
      assert Flatten(more) == Flatten(parts) + [x];
    } else {
      FlattenGrows(parts[..n], k, x);
      assert more[..n] == parts[..n][k := parts[k] + [x]];
    }
  }

  function Mapping<S, T>(f: S -> T, s: seq<S>): (r: seq<T>)
    ensures |r| == |s| && forall i :: 0 <= i < |s| ==> r[i] == f(s[i])
  {
    seq(|s|, i requires 0 <= i < |s| => f(s[i]))
  }

  lemma MappingAppend<S, T>(f: S -> T, a: seq<S>, b: seq<S>)
    ensures Mapping(f, a + b) == Mapping(f, a) + Mapping(f, b)
  {
  }

  lemma PulledOut<T>(front: seq<T>, x: T, back: seq<T>)
    ensures multiset(front + [x] + back) == multiset(front + back) + multiset{x}
  {
  }

  /** Permuted sequences have permuted images. */
  lemma {:induction false} MappingPermuted<S, T>(f: S -> T, a: seq<S>, b: seq<S>)
    requires multiset(a) == multiset(b)
    ensures multiset(Mapping(f, a)) == multiset(Mapping(f, b))
  {
    if a == [] {
      assert |b| == |multiset(b)| == |multiset(a)| == 0;
    } else {
      var n := |a| - 1;
      var x := a[n];
      assert x in multiset(b);
      var i :| 0 <= i < |b| && b[i] == x;
      var front, back := b[..i], b[i + 1..];
      assert a == a[..n] + [x] && b == front + [x] + back;
      RemoveFromBoth(a[..n], front, x, back);
      MappingPermuted(f, a[..n], front + back);
      MappingCount(f, a[..n], x, []);
      MappingCount(f, front, x, back);
      assert a[..n] + [x] + [] == a && a[..n] + [] == a[..n];
    }
  }

  lemma MappingCount<S, T>(f: S -> T, front: seq<S>, x: S, back: seq<S>)
    ensures multiset(Mapping(f, front + [x] + back)) == multiset(Mapping(f, front + back)) + multiset{f(x)}
  {
    MappingAppend(f, front + [x], back);
    MappingAppend(f, front, [x]);
    MappingAppend(f, front, back);
    assert Mapping(f, [x]) == [f(x)];
    PulledOut(Mapping(f, front), f(x), Mapping(f, back));
  }

  predicate AllDifferent<T(==)>(s: seq<T>) {
    forall i, j :: 0 <= i < j < |s| ==> s[i] != s[j]
  }

  lemma {:induction false} DifferentCounts<T>(s: seq<T>)
    ensures AllDifferent(s) <==> forall x :: multiset(s)[x] <= 1
  {
    if s != [] {
      var n := |s| - 1;
      DifferentCounts(s[..n]);
      assert s == s[..n] + [s[n]];
      assert forall x :: multiset(s)[x] == multiset(s[..n])[x] + if x == s[n] then 1 else 0;
      assert s[n] in s[..n] <==> multiset(s[..n])[s[n]] > 0;
      assert AllDifferent(s) <==> AllDifferent(s[..n]) && s[n] !in s[..n];
    }
  }

  lemma DifferentPermuted<T>(a: seq<T>, b: seq<T>)
    requires AllDifferent(a) && multiset(a) == multiset(b)
    ensures AllDifferent(b)
  {
    DifferentCounts(a);
    DifferentCounts(b);
  }
}
