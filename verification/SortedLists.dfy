/** The sub-table index lists of the planner, and their merge loops.

    A list that is strictly ascending is a set written down in order, so the contracts say which
    set the result is; together with `StrictlyAscending` that determines the list itself
    (`AscendingListIsUnique`). */
module SortedLists {
  import opened Prelude

  predicate StrictlyAscending(l: seq<int>) {
    forall i, j :: 0 <= i < j < |l| ==> l[i] < l[j]
  }

  predicate Distinct(l: seq<int>) {
    forall i, j :: 0 <= i < j < |l| ==> l[i] != l[j]
  }

  function Elems(l: seq<int>): set<int> {
    set x | x in l
  }

  /** Nothing in a strictly ascending list is left unsaid by its set of elements. */
  lemma {:induction false} AscendingListIsUnique(a: seq<int>, b: seq<int>)
    requires StrictlyAscending(a) && StrictlyAscending(b)
    requires Elems(a) == Elems(b)
    ensures a == b
  {
    assert |a| > 0 ==> a[0] in Elems(b);
    assert |b| > 0 ==> b[0] in Elems(a);
    if a != [] && b != [] {
      var n, m := |a| - 1, |b| - 1;
      assert a[n] in Elems(b) && b[m] in Elems(a);
      assert a[n] == b[m];
      forall x
        ensures x in Elems(a[..n]) <==> x in Elems(b[..m])
      {
        assert x in Elems(a) <==> x in Elems(a[..n]) || x == a[n];
        assert x in Elems(b) <==> x in Elems(b[..m]) || x == b[m];
      }
      AscendingListIsUnique(a[..n], b[..m]);
    }
  }

  lemma PartAscends(l: seq<int>, a: nat, b: nat)
    requires StrictlyAscending(l) && a < b <= |l|
    ensures StrictlyAscending(l[a..b])
    ensures forall x :: x in l[a..b] <==> x in l && l[a] <= x <= l[b - 1]
  {
    forall x
      ensures x in l[a..b] <==> x in l && l[a] <= x <= l[b - 1]
    {
      if x in l && l[a] <= x <= l[b - 1] {
        var i :| 0 <= i < |l| && l[i] == x;
        assert a <= i < b;
        assert l[a..b][i - a] == x;
      }
    }
  }

  lemma JoinAscends(a: seq<int>, b: seq<int>)
    requires StrictlyAscending(a) && StrictlyAscending(b)
    requires forall i, j :: 0 <= i < |a| && 0 <= j < |b| ==> a[i] < b[j]
    ensures StrictlyAscending(a + b)
    ensures forall x :: x in a + b <==> x in a || x in b
  {
  }

  /** [start, end) written out. */
  method MakeList(start: int, end: int) returns (list: seq<int>)
    requires start <= end
    ensures StrictlyAscending(list)
    ensures forall x :: x in list <==> start <= x < end
  {
    list := [];
    for i := start to end
      invariant |list| == i - start
      invariant forall k :: 0 <= k < |list| ==> list[k] == start + k
    {
      list := list + [i];
    }
    forall x | start <= x < end
      ensures x in list
    {
      assert list[x - start] == x;
    }
  }

  /** The configured indexes up to `value`, or nothing when `value` itself is not configured. */
  method MakeLeList(value: int, indexes: seq<int>) returns (list: seq<int>)
    requires StrictlyAscending(indexes)
    ensures StrictlyAscending(list)
    ensures forall x :: x in list <==> value in indexes && x in indexes && x <= value
  {
    for k := 0 to |indexes|
      invariant value !in indexes[..k]
    {
      if indexes[k] == value {
        return indexes[..k + 1];
      }
    }
    list := [];
  }

  /** The configured indexes from `value` on, or nothing when `value` itself is not configured. */
  method MakeGeList(value: int, indexes: seq<int>) returns (list: seq<int>)
    requires StrictlyAscending(indexes)
    ensures StrictlyAscending(list)
    ensures forall x :: x in list <==> value in indexes && x in indexes && value <= x
  {
    for k := 0 to |indexes|
      invariant value !in indexes[..k]
    {
      if indexes[k] == value {
        return indexes[k..];
      }
    }
    list := [];
  }

  /** The configured indexes between two configured ends (in either order), else nothing. */
  method MakeBetweenList(from: int, to: int, indexes: seq<int>) returns (list: seq<int>)
    requires StrictlyAscending(indexes)
    ensures StrictlyAscending(list)
    ensures forall x :: x in list <==>
              from in indexes && to in indexes && x in indexes && (from <= x <= to || to <= x <= from)
  {
    var start, end := from, to;
    if end < start {
      start, end := end, start;
    }
    var startIndex, endIndex, setStart := 0, 0, false;
    for k := 0 to |indexes|
      invariant setStart ==> 0 <= startIndex < k && indexes[startIndex] == start
      invariant !setStart ==> forall j :: 0 <= j < k ==> indexes[j] != start
      invariant setStart ==> forall j :: 0 <= j < k ==> indexes[j] != end
    {
      if indexes[k] == start {
        startIndex, setStart := k, true;
      }
      if indexes[k] == end {
        endIndex := k;
        if setStart {
          PartAscends(indexes, startIndex, endIndex + 1);
          return indexes[startIndex..endIndex + 1];
        }
      }
    }
    assert start !in indexes || end !in indexes;
    list := [];
  }

  /** l1 & l2 */
  method InterList(l1: seq<int>, l2: seq<int>) returns (l3: seq<int>)
    requires StrictlyAscending(l1) && StrictlyAscending(l2)
    ensures StrictlyAscending(l3)
    ensures Elems(l3) == Elems(l1) * Elems(l2)
  {
    if |l1| == 0 || |l2| == 0 {
      return [];
    }
    l3 := [];
    var i, j := 0, 0;
    while i < |l1| && j < |l2|
      invariant 0 <= i <= |l1| && 0 <= j <= |l2|
      invariant StrictlyAscending(l3)
      invariant forall x :: x in l3 <==> x in l1[..i] && x in l2[..j]
      invariant forall c, a :: 0 <= c < |l3| && i <= a < |l1| ==> l3[c] < l1[a]
      invariant forall a, b :: 0 <= a < i && j <= b < |l2| ==> l1[a] < l2[b]
      invariant forall a, b :: i <= a < |l1| && 0 <= b < j ==> l2[b] < l1[a]
      decreases |l1| - i + |l2| - j
    {
      if l1[i] == l2[j] {
        l3 := l3 + [l1[i]];
        i, j := i + 1, j + 1;
      } else if l1[i] < l2[j] {
        i := i + 1;
      } else {
        j := j + 1;
      }
    }
    assert l1 == l1[..i] + l1[i..] && l2 == l2[..j] + l2[j..];
    assert forall x :: x in l3 <==> x in l1 && x in l2;
  }

  /** l1 | l2 */
  method UnionList(l1: seq<int>, l2: seq<int>) returns (l3: seq<int>)
    requires StrictlyAscending(l1) && StrictlyAscending(l2)
    ensures StrictlyAscending(l3)
    ensures Elems(l3) == Elems(l1) + Elems(l2)
  {
    if |l1| == 0 {
      return l2;
    } else if |l2| == 0 {
      return l1;
    }
    l3 := [];
    var i, j := 0, 0;
    while i < |l1| && j < |l2|
      invariant 0 <= i <= |l1| && 0 <= j <= |l2|
      invariant StrictlyAscending(l3)
      invariant forall x :: x in l3 <==> x in l1[..i] || x in l2[..j]
      invariant forall c, a :: 0 <= c < |l3| && i <= a < |l1| ==> l3[c] < l1[a]
      invariant forall c, b :: 0 <= c < |l3| && j <= b < |l2| ==> l3[c] < l2[b]
      decreases |l1| - i + |l2| - j
    {
      if l1[i] < l2[j] {
        l3 := l3 + [l1[i]];
        i := i + 1;
      } else if l1[i] > l2[j] {
        l3 := l3 + [l2[j]];
        j := j + 1;
      } else {
        l3 := l3 + [l1[i]];
        i, j := i + 1, j + 1;
      }
    }
    assert l1[..|l1|] == l1 && l2[..|l2|] == l2;
    if i != |l1| {
      UnionTail(l1, l2, l3, i);
      l3 := l3 + l1[i..];
    } else if j != |l2| {
      UnionTail(l2, l1, l3, j);
      l3 := l3 + l2[j..];
    } else {
      assert forall x :: x in l3 <==> x in l1 || x in l2;
    }
  }

  /** What is left when a list has run out. */
  lemma DifferenceTail(l1: seq<int>, l2: seq<int>, l3: seq<int>, i: nat, j: nat)
    requires StrictlyAscending(l1) && i <= |l1| && j <= |l2| && (i == |l1| || j == |l2|)
    requires StrictlyAscending(l3) && forall x :: x in l3 <==> x in l1[..i] && x !in l2
    requires forall c, a :: 0 <= c < |l3| && i <= a < |l1| ==> l3[c] < l1[a]
    requires forall a, b :: i <= a < |l1| && 0 <= b < j ==> l2[b] < l1[a]
    ensures StrictlyAscending(l3 + l1[i..]) && Elems(l3 + l1[i..]) == Elems(l1) - Elems(l2)
    ensures i == |l1| ==> l3 + l1[i..] == l3
  {
    JoinAscends(l3, l1[i..]);
    assert l1 == l1[..i] + l1[i..];
    assert forall x :: x in l1[i..] ==> x !in l2;
    assert forall x :: x in l3 + l1[i..] <==> x in l1 && x !in l2;
  }

  lemma UnionTail(l1: seq<int>, l2: seq<int>, l3: seq<int>, i: nat)
    requires StrictlyAscending(l1) && i <= |l1|
    requires StrictlyAscending(l3) && forall x :: x in l3 <==> x in l1[..i] || x in l2
    requires forall c, a :: 0 <= c < |l3| && i <= a < |l1| ==> l3[c] < l1[a]
    ensures StrictlyAscending(l3 + l1[i..]) && Elems(l3 + l1[i..]) == Elems(l1) + Elems(l2)
  {
    JoinAscends(l3, l1[i..]);
    assert l1 == l1[..i] + l1[i..];
    assert forall x :: x in l3 + l1[i..] <==> x in l1 || x in l2;
  }

  /** l1 - l2 */
  method DifferentList(l1: seq<int>, l2: seq<int>) returns (l3: seq<int>)
    requires StrictlyAscending(l1) && StrictlyAscending(l2)
    ensures StrictlyAscending(l3)
    ensures Elems(l3) == Elems(l1) - Elems(l2)
  {
    if |l1| == 0 {
      return [];
    } else if |l2| == 0 {
      return l1;
    }
    l3 := [];
    var i, j := 0, 0;
    while i < |l1| && j < |l2|
      invariant 0 <= i <= |l1| && 0 <= j <= |l2|
      invariant StrictlyAscending(l3)
      invariant forall x :: x in l3 <==> x in l1[..i] && x !in l2
      invariant forall c, a :: 0 <= c < |l3| && i <= a < |l1| ==> l3[c] < l1[a]
      invariant forall a, b :: i <= a < |l1| && 0 <= b < j ==> l2[b] < l1[a]
      decreases |l1| - i + |l2| - j
    {
      if l1[i] < l2[j] {
        l3 := l3 + [l1[i]];
        i := i + 1;
      } else if l1[i] > l2[j] {
        j := j + 1;
      } else {
        i, j := i + 1, j + 1;
      }
    }
    DifferenceTail(l1, l2, l3, i, j);
    if i != |l1| {
      l3 := l3 + l1[i..];
    }
  }

  /** Duplicates removed; the order of the result is whatever the map iteration gives. */
  method CleanList(l: seq<int>) returns (l2: seq<int>)
    ensures Elems(l2) == Elems(l)
    ensures Distinct(l2)
  {
    var s: set<int> := {};
    for i := 0 to |l|
      invariant forall x :: x in s <==> x in l[..i]
    {
      s := s + {l[i]};
    }
    assert l[..|l|] == l;
    l2 := [];
    var todo := s;
    while todo != {}
      invariant todo <= s
      invariant forall x :: x in l2 <==> x in s && x !in todo
      invariant Distinct(l2)
    {
      HasMember(todo);
      var k :| k in todo;
      l2 := l2 + [k];
      todo := todo - {k};
    }
    assert forall x :: x in l2 <==> x in l;
    SameMembers(Elems(l), s);
  }

  /** sort.Ints on a list without duplicates: the elements in ascending order. */
  method SortedKeys(keys: set<int>) returns (list: seq<int>)
    ensures StrictlyAscending(list)
    ensures Elems(list) == keys
  {
    list := [];
    var todo := keys;
    while todo != {}
      invariant todo <= keys && StrictlyAscending(list)
      invariant forall x :: x in list <==> x in keys && x !in todo
    {
      HasMember(todo);
      var k :| k in todo;
      list := InsertSorted(list, k);
      todo := todo - {k};
    }
    SameMembers(Elems(list), keys);
  }

  lemma InsertedAt(l: seq<int>, i: nat, k: int)
    requires StrictlyAscending(l) && i <= |l| && k !in l
    requires forall a :: 0 <= a < i ==> l[a] < k
    requires i < |l| ==> k <= l[i]
    ensures StrictlyAscending(l[..i] + [k] + l[i..])
    ensures forall x :: x in l[..i] + [k] + l[i..] <==> x in l || x == k
  {
    assert i < |l| ==> l[i] in l;
    JoinAscends(l[..i], [k]);
    JoinAscends(l[..i] + [k], l[i..]);
    assert l == l[..i] + l[i..];
  }

  method InsertSorted(l: seq<int>, k: int) returns (list: seq<int>)
    requires StrictlyAscending(l) && k !in l
    ensures StrictlyAscending(list)
    ensures forall x :: x in list <==> x in l || x == k
  {
    var i := 0;
    while i < |l| && l[i] < k
      invariant 0 <= i <= |l|
      invariant forall a :: 0 <= a < i ==> l[a] < k
    {
      i := i + 1;
    }
    InsertedAt(l, i, k);
    list := l[..i] + [k] + l[i..];
  }
}
