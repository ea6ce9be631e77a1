/** Merging ordered answers: the comparison of rows (mysql/resultset_sort.go) and the pushed-down limit
    (proxy/server/conn_select.go). */
module Sorting {
  import opened Prelude
  import opened Text
  import opened Where
  import opened Limits

  datatype SortKey = SortKey(column: nat, desc: bool)

  function Sign(less: bool, more: bool): int {
    if less then -1 else if more then 1 else 0
  }

  /** cmpValue: NULL first, then by value. Cells of different types, which the proxy refuses to
      compare, are put in a fixed order so that the comparison is total. */
  function CmpValue(a: Cell, b: Cell): int {
    match (a, b)
    case (Null, Null) => 0
    case (Null, _) => -1
    case (_, Null) => 1
    case (IntCell(x), IntCell(y)) => Sign(x < y, y < x)
    case (TextCell(x), TextCell(y)) => Sign(LexLess(x, y), LexLess(y, x))
    case (IntCell(_), TextCell(_)) => -1
    case (TextCell(_), IntCell(_)) => 1
  }

  lemma CmpValueOrder(a: Cell, b: Cell, c: Cell)
    ensures CmpValue(a, b) == -CmpValue(b, a)
    ensures CmpValue(a, b) <= 0 && CmpValue(b, c) <= 0 ==>
              CmpValue(a, c) <= 0 && (CmpValue(a, c) == 0 ==> CmpValue(a, b) == 0 && CmpValue(b, c) == 0)
  {
    if a.TextCell? && b.TextCell? {
      LexTotal(a.t, b.t);
      if c.TextCell? {
        LexTotal(b.t, c.t);
        LexTotal(a.t, c.t);
        if LexLess(a.t, b.t) && LexLess(b.t, c.t) {
          LexTransitive(a.t, b.t, c.t);
        }
      }
    }
  }

  function CellAt(row: Row, column: nat): Cell {
    if column < |row.cells| then row.cells[column] else Null
  }

  function CmpKey(k: SortKey, a: Row, b: Row): int {
    var v := CmpValue(CellAt(a, k.column), CellAt(b, k.column));
    if k.desc then -v else v
  }

  /** Rows compared by a list of sort keys, the first that differs deciding. */
  function Cmp3(keys: seq<SortKey>, a: Row, b: Row): int {
    if keys == [] then 0
    else if CmpKey(keys[0], a, b) != 0 then CmpKey(keys[0], a, b)
    else Cmp3(keys[1..], a, b)
  }

  /** The loop of resultsetSorter.Less. */
  method Less(keys: seq<SortKey>, a: Row, b: Row) returns (less: bool)
    ensures less <==> Cmp3(keys, a, b) < 0
    ensures less <==> exists p :: 0 <= p < |keys| && DecidesAt(keys, a, b, p)
  {
    LessCells(keys, a, b);
    for i := 0 to |keys|
      invariant Cmp3(keys, a, b) == Cmp3(keys[i..], a, b)
    {
      var v := CmpKey(keys[i], a, b);
      assert keys[i..][0] == keys[i] && keys[i..][1..] == keys[i + 1..];
      if v < 0 {
        return true;
      } else if v > 0 {
        return false;
      }
    }
    return false;
  }

  /** Comparing by sort keys is a total preorder. */
  lemma {:induction false} Cmp3Order(keys: seq<SortKey>, a: Row, b: Row, c: Row)
    ensures Cmp3(keys, a, b) == -Cmp3(keys, b, a)
    ensures Cmp3(keys, a, b) <= 0 && Cmp3(keys, b, c) <= 0 ==>
              Cmp3(keys, a, c) <= 0 && (Cmp3(keys, a, c) == 0 ==> Cmp3(keys, a, b) == 0 && Cmp3(keys, b, c) == 0)
  {
    if keys != [] {
      var col := keys[0].column;
      var x, y, z := CellAt(a, col), CellAt(b, col), CellAt(c, col);
      CmpValueOrder(x, y, z);
      CmpValueOrder(z, y, x);
      CmpValueOrder(x, z, y);
      CmpValueOrder(y, z, x);
      Cmp3Order(keys[1..], a, b, c);
    }
  }

  ghost predicate Sorted(keys: seq<SortKey>, rows: seq<Row>) {
    forall i, j {:trigger Cmp3(keys, rows[i], rows[j])} :: 0 <= i < j < |rows| ==> Cmp3(keys, rows[i], rows[j]) <= 0
  }

  /** `out` is `rows` in order; ties may come in any order. */
  ghost predicate IsSort(keys: seq<SortKey>, out: seq<Row>, rows: seq<Row>) {
    multiset(out) == multiset(rows) && Sorted(keys, out)
  }

  // ---------------------------------------------------------------- the order, cell by cell

  /** NULL stands first, integers by value, texts in byte order; integers in front of texts. */
  predicate Precedes(a: Cell, b: Cell) {
    match b
    case Null => false
    case IntCell(y) => a.Null? || (a.IntCell? && a.i < y)
    case TextCell(y) => a.Null? || a.IntCell? || (a.TextCell? && LexLess(a.t, y))
  }

  /** The rows have the same cells in the columns of the first `p` keys. */
  predicate SameUpTo(keys: seq<SortKey>, a: Row, b: Row, p: nat)
    requires p <= |keys|
  {
    forall q :: 0 <= q < p ==> CellAt(a, keys[q].column) == CellAt(b, keys[q].column)
  }

  /** Key `p` is the first to tell the rows apart, and puts `a` in front. */
  predicate DecidesAt(keys: seq<SortKey>, a: Row, b: Row, p: nat)
    requires p < |keys|
  {
    && SameUpTo(keys, a, b, p)
    && if keys[p].desc then Precedes(CellAt(b, keys[p].column), CellAt(a, keys[p].column))
       else Precedes(CellAt(a, keys[p].column), CellAt(b, keys[p].column))
  }

  lemma CmpValueIs(a: Cell, b: Cell)
    ensures CmpValue(a, b) < 0 <==> Precedes(a, b)
    ensures CmpValue(a, b) > 0 <==> Precedes(b, a)
    ensures CmpValue(a, b) == 0 <==> a == b
  {
    if a.TextCell? && b.TextCell? {
      LexTotal(a.t, b.t);
    }
  }

  /** A row is less than another exactly when some key tells them apart first and puts it in front, in the
      direction asked for. */
  lemma {:induction false} LessCells(keys: seq<SortKey>, a: Row, b: Row)
    ensures Cmp3(keys, a, b) < 0 <==> exists p :: 0 <= p < |keys| && DecidesAt(keys, a, b, p)
  {
    if keys != [] {
      var k, rest := keys[0], keys[1..];
      CmpValueIs(CellAt(a, k.column), CellAt(b, k.column));
      LessCells(rest, a, b);
      if CmpKey(k, a, b) < 0 {
        assert DecidesAt(keys, a, b, 0);
      } else if CmpKey(k, a, b) == 0 {
        LaterKey(keys, a, b);
      } else {
        assert !SameUpTo(keys, a, b, 1);
        assert forall p :: 0 < p < |keys| ==> !SameUpTo(keys, a, b, p) by {
          assert CellAt(a, keys[0].column) != CellAt(b, keys[0].column);
        }
      }
    }
  }

  /** Rows with the same cell for the first key are told apart by the others. */
  lemma LaterKey(keys: seq<SortKey>, a: Row, b: Row)
    requires keys != [] && CellAt(a, keys[0].column) == CellAt(b, keys[0].column)
    ensures (exists p :: 0 <= p < |keys| && DecidesAt(keys, a, b, p)) <==>
            (exists p :: 0 <= p < |keys[1..]| && DecidesAt(keys[1..], a, b, p))
  {
    var rest := keys[1..];
    forall p | 0 <= p < |rest|
      ensures DecidesAt(keys, a, b, p + 1) <==> DecidesAt(rest, a, b, p)
    {
      assert SameUpTo(keys, a, b, p + 1) <==> SameUpTo(rest, a, b, p) by {
        assert forall q :: 0 <= q < p ==> rest[q] == keys[q + 1];
        assert forall q :: 0 < q < p + 1 ==> keys[q] == rest[q - 1];
      }
    }
    CmpValueIs(CellAt(a, keys[0].column), CellAt(a, keys[0].column));
    assert !DecidesAt(keys, a, b, 0);
    if p :| 0 <= p < |keys| && DecidesAt(keys, a, b, p) {
      assert DecidesAt(rest, a, b, p - 1);
    }
    if p :| 0 <= p < |rest| && DecidesAt(rest, a, b, p) {
      assert DecidesAt(keys, a, b, p + 1);
    }
  }

  /** Among rows that no earlier key tells apart, the cells of a key stand in its direction. */
  ghost predicate CellsInOrder(keys: seq<SortKey>, rows: seq<Row>) {
    forall i, j, p :: 0 <= i < j < |rows| && 0 <= p < |keys| ==> !DecidesAt(keys, rows[j], rows[i], p)
  }

  lemma SortedCells(keys: seq<SortKey>, rows: seq<Row>)
    ensures Sorted(keys, rows) <==> CellsInOrder(keys, rows)
  {
    forall i, j | 0 <= i < j < |rows|
      ensures Cmp3(keys, rows[i], rows[j]) <= 0 <==> forall p :: 0 <= p < |keys| ==> !DecidesAt(keys, rows[j], rows[i], p)
    {
      LessCells(keys, rows[j], rows[i]);
      Cmp3Order(keys, rows[i], rows[j], rows[i]);
    }
  }

  /** A sort by one column. Ascending: NULLs first, integers not decreasing, texts in byte order. Descending:
      the reverse. */
  lemma SortedColumn(column: nat, desc: bool, rows: seq<Row>, i: nat, j: nat)
    requires Sorted([SortKey(column, desc)], rows) && i < j < |rows|
    requires column < |rows[i].cells| && column < |rows[j].cells|
    ensures var a, b := rows[i].cells[column], rows[j].cells[column];
            && (!desc ==>
                  && (b == Null ==> a == Null)
                  && (a.IntCell? && b.IntCell? ==> a.i <= b.i)
                  && (a.TextCell? && b.TextCell? ==> !LexLess(b.t, a.t)))
            && (desc ==>
                  && (a == Null ==> b == Null)
                  && (a.IntCell? && b.IntCell? ==> b.i <= a.i)
                  && (a.TextCell? && b.TextCell? ==> !LexLess(a.t, b.t)))
  {
    var keys := [SortKey(column, desc)];
    SortedCells(keys, rows);
    assert SameUpTo(keys, rows[j], rows[i], 0);
    assert !DecidesAt(keys, rows[j], rows[i], 0);
  }

  /** A second column orders the rows that have the same cell in the first. */
  lemma SortedSecond(first: SortKey, column: nat, desc: bool, rows: seq<Row>, i: nat, j: nat)
    requires Sorted([first, SortKey(column, desc)], rows) && i < j < |rows|
    requires first.column < |rows[i].cells| && first.column < |rows[j].cells|
    requires column < |rows[i].cells| && column < |rows[j].cells|
    requires rows[i].cells[first.column] == rows[j].cells[first.column]
    ensures var a, b := rows[i].cells[column], rows[j].cells[column];
            a.IntCell? && b.IntCell? ==> if desc then b.i <= a.i else a.i <= b.i
  {
    var keys := [first, SortKey(column, desc)];
    SortedCells(keys, rows);
    assert SameUpTo(keys, rows[j], rows[i], 1);
    assert !DecidesAt(keys, rows[j], rows[i], 1);
  }

  function Insert(keys: seq<SortKey>, r: Row, rows: seq<Row>): (out: seq<Row>)
    ensures multiset(out) == multiset(rows) + multiset{r}
    ensures Sorted(keys, rows) ==> Sorted(keys, out)
  {
    if rows == [] then [r]
    else
      assert rows == [rows[0]] + rows[1..];
      if Cmp3(keys, r, rows[0]) <= 0 then
        InsertFirst(keys, r, rows);
        [r] + rows
      else
        var rest := Insert(keys, r, rows[1..]);
        InsertLater(keys, r, rows, rest);
        [rows[0]] + rest
  }

  lemma InsertFirst(keys: seq<SortKey>, r: Row, rows: seq<Row>)
    requires rows != [] && Cmp3(keys, r, rows[0]) <= 0
    ensures Sorted(keys, rows) ==> Sorted(keys, [r] + rows)
  {
    forall j | 0 <= j < |rows| && Sorted(keys, rows)
      ensures Cmp3(keys, r, rows[j]) <= 0
    {
      Cmp3Order(keys, r, rows[0], rows[j]);
    }
  }

  lemma InsertLater(keys: seq<SortKey>, r: Row, rows: seq<Row>, rest: seq<Row>)
    requires rows != [] && Cmp3(keys, r, rows[0]) > 0
    requires multiset(rest) == multiset(rows[1..]) + multiset{r}
    requires Sorted(keys, rows[1..]) ==> Sorted(keys, rest)
    ensures Sorted(keys, rows) ==> Sorted(keys, [rows[0]] + rest)
  {
    if Sorted(keys, rows) {
      Cmp3Order(keys, r, rows[0], r);
      forall j | 0 <= j < |rest|
        ensures Cmp3(keys, rows[0], rest[j]) <= 0
      {
        assert rest[j] in multiset(rest);
        if rest[j] != r {
          assert rest[j] in rows[1..];
        }
      }
    }
  }

  /** One way to sort; the claims below hold for every result that is a sort. */
  function SortRows(keys: seq<SortKey>, rows: seq<Row>): (out: seq<Row>)
    ensures IsSort(keys, out, rows)
  {
    if rows == [] then []
    else
      assert rows == [rows[0]] + rows[1..];
      Insert(keys, rows[0], SortRows(keys, rows[1..]))
  }

  // ---------------------------------------------------------------- top-k

  function Take(rows: seq<Row>, k: nat): seq<Row> {
    if |rows| <= k then rows else rows[..k]
  }

  function Drop(rows: seq<Row>, k: nat): seq<Row> {
    if |rows| <= k then [] else rows[k..]
  }

  /** What the shards answer when each sends the first `k` of its rows in its own order. */
  function Prefixes(sorted: seq<seq<Row>>, k: nat): seq<seq<Row>> {
    seq(|sorted|, i requires 0 <= i < |sorted| => Take(sorted[i], k))
  }

  function Rests(sorted: seq<seq<Row>>, k: nat): seq<seq<Row>> {
    seq(|sorted|, i requires 0 <= i < |sorted| => Drop(sorted[i], k))
  }

  /** Rows strictly below position `n` of a sorted list are at most `n`. */
  lemma FewBelow(keys: seq<SortKey>, low: seq<Row>, whole: seq<Row>, n: nat)
    requires Sorted(keys, whole) && n < |whole|
    requires multiset(low) <= multiset(whole)
    requires forall x :: x in low ==> Cmp3(keys, x, whole[n]) < 0
    ensures |low| <= n
  {
    var front, back := whole[..n], whole[n..];
    assert whole == front + back;
    Cmp3Order(keys, whole[n], whole[n], whole[n]);
    forall y | y in back
      ensures Cmp3(keys, y, whole[n]) >= 0
    {
      var j :| n <= j < |whole| && whole[j] == y;
      Cmp3Order(keys, y, whole[n], y);
    }
    forall x | x in multiset(low)
      ensures multiset(low)[x] <= multiset(front)[x]
    {
      assert x in low;
      assert x !in back;
      assert multiset(whole)[x] == multiset(front)[x] + multiset(back)[x];
    }
    SubsetSize(multiset(low), multiset(front));
  }

  lemma SubsetSize(a: multiset<Row>, b: multiset<Row>)
    requires forall x :: x in a ==> a[x] <= b[x]
    ensures |a| <= |b|
  {
    assert b == a + (b - a);
  }

  /** Sorted permutations of the same rows agree up to ties. */
  lemma SortsAgree(keys: seq<SortKey>, a: seq<Row>, b: seq<Row>, i: nat)
    requires Sorted(keys, a) && Sorted(keys, b) && multiset(a) == multiset(b) && i < |a|
    ensures |a| == |b| && Cmp3(keys, a[i], b[i]) == 0
  {
    assert |a| == |multiset(a)| == |multiset(b)| == |b|;
    Cmp3Order(keys, a[i], b[i], a[i]);
    if Cmp3(keys, a[i], b[i]) < 0 {
      NotBefore(keys, a, b, i);
    } else if Cmp3(keys, b[i], a[i]) < 0 {
      NotBefore(keys, b, a, i);
    }
  }

  lemma NotBefore(keys: seq<SortKey>, a: seq<Row>, b: seq<Row>, i: nat)
    requires Sorted(keys, a) && Sorted(keys, b) && multiset(a) == multiset(b) && i < |a| == |b|
    ensures Cmp3(keys, a[i], b[i]) >= 0
  {
    if Cmp3(keys, a[i], b[i]) < 0 {
      var low := a[..i + 1];
      assert a == low + a[i + 1..];
      forall x | x in low
        ensures Cmp3(keys, x, b[i]) < 0
      {
        var j :| 0 <= j <= i && a[j] == x;
        Cmp3Order(keys, x, a[i], b[i]);
      }
      FewBelow(keys, low, b, i);
    }
  }

  lemma {:induction false} ConcatParts(sorted: seq<seq<Row>>, k: nat)
    ensures multiset(Flatten(sorted)) == multiset(Flatten(Prefixes(sorted, k))) + multiset(Flatten(Rests(sorted, k)))
  {
    if sorted != [] {
      var n := |sorted| - 1;
      ConcatParts(sorted[..n], k);
      PrefixesLast(sorted, k);
      assert sorted[n] == Take(sorted[n], k) + Drop(sorted[n], k);
    }
  }

  lemma PrefixesLast(sorted: seq<seq<Row>>, k: nat)
    requires sorted != []
    ensures var n := |sorted| - 1;
            && Flatten(Prefixes(sorted, k)) == Flatten(Prefixes(sorted[..n], k)) + Take(sorted[n], k)
            && Flatten(Rests(sorted, k)) == Flatten(Rests(sorted[..n], k)) + Drop(sorted[n], k)
  {
    var n := |sorted| - 1;
    assert Prefixes(sorted, k)[..n] == Prefixes(sorted[..n], k);
    assert Rests(sorted, k)[..n] == Rests(sorted[..n], k);
  }

  lemma {:induction false} PartInConcat(parts: seq<seq<Row>>, i: nat)
    requires i < |parts|
    ensures multiset(parts[i]) <= multiset(Flatten(parts))
  {
    var n := |parts| - 1;
    if i < n {
      PartInConcat(parts[..n], i);
    }
  }

  lemma {:induction false} InSomePart(parts: seq<seq<Row>>, r: Row) returns (i: nat)
    requires r in Flatten(parts)
    ensures i < |parts| && r in parts[i]
  {
    var n := |parts| - 1;
    if r in parts[n] {
      i := n;
    } else {
      i := InSomePart(parts[..n], r);
    }
  }

  /** A row no shard sent comes after the first `k` rows that were sent. */
  lemma DroppedLater(keys: seq<SortKey>, sorted: seq<seq<Row>>, k: nat, merged: seq<Row>, d: Row)
    requires forall i :: 0 <= i < |sorted| ==> Sorted(keys, sorted[i])
    requires IsSort(keys, merged, Flatten(Prefixes(sorted, k)))
    requires d in Flatten(Rests(sorted, k))
    ensures k <= |merged| && (k > 0 ==> Cmp3(keys, merged[k - 1], d) <= 0)
  {
    var i := InSomePart(Rests(sorted, k), d);
    var s := sorted[i];
    var sent := s[..k];
    assert Prefixes(sorted, k)[i] == sent;
    PartInConcat(Prefixes(sorted, k), i);
    SubsetSize(multiset(sent), multiset(merged));
    assert |multiset(sent)| == k && |multiset(merged)| == |merged|;
    if k > 0 {
      assert d in s[k..];
      LaterInPart(keys, s, k, merged, d);
    }
  }

  lemma LaterInPart(keys: seq<SortKey>, s: seq<Row>, k: nat, merged: seq<Row>, d: Row)
    requires Sorted(keys, s) && Sorted(keys, merged) && 0 < k <= |s| && k <= |merged| && d in s[k..]
    requires multiset(s[..k]) <= multiset(merged)
    ensures Cmp3(keys, merged[k - 1], d) <= 0
  {
    var j :| k <= j < |s| && s[j] == d;
    Cmp3Order(keys, merged[k - 1], d, d);
    if Cmp3(keys, d, merged[k - 1]) < 0 {
      forall x | x in s[..k]
        ensures Cmp3(keys, x, merged[k - 1]) < 0
      {
        var q :| 0 <= q < k && s[q] == x;
        Cmp3Order(keys, x, d, merged[k - 1]);
      }
      FewBelow(keys, s[..k], merged, k - 1);
    }
  }

  lemma SortedJoin(keys: seq<SortKey>, front: seq<Row>, back: seq<Row>)
    requires Sorted(keys, front) && Sorted(keys, back)
    requires front != [] ==> forall y :: y in back ==> Cmp3(keys, front[|front| - 1], y) <= 0
    ensures Sorted(keys, front + back)
  {
    forall i, j | 0 <= i < |front| && 0 <= j < |back|
      ensures Cmp3(keys, front[i], back[j]) <= 0
    {
      assert back[j] in back;
      var last := front[|front| - 1];
      if i < |front| - 1 {
        Cmp3Order(keys, front[i], last, back[j]);
      }
    }
  }

  /** LIMIT pushdown is a correct top-k. Each shard sends the first `k` rows of some sort of its own
      rows; whatever sort of these the proxy makes, its first `k` rows are the first `k` rows of some
      sort of all rows. */
  lemma TopK(keys: seq<SortKey>, sorted: seq<seq<Row>>, k: nat, merged: seq<Row>) returns (full: seq<Row>)
    requires forall i :: 0 <= i < |sorted| ==> Sorted(keys, sorted[i])
    requires IsSort(keys, merged, Flatten(Prefixes(sorted, k)))
    ensures IsSort(keys, full, Flatten(sorted))
    ensures Take(full, k) == Take(merged, k)
  {
    var back := SortRows(keys, Drop(merged, k) + Flatten(Rests(sorted, k)));
    full := Take(merged, k) + back;
    TopKRows(sorted, k, merged, back);
    TopKOrder(keys, sorted, k, merged, back);
  }

  lemma TopKRows(sorted: seq<seq<Row>>, k: nat, merged: seq<Row>, back: seq<Row>)
    requires multiset(merged) == multiset(Flatten(Prefixes(sorted, k)))
    requires multiset(back) == multiset(Drop(merged, k) + Flatten(Rests(sorted, k)))
    ensures multiset(Take(merged, k) + back) == multiset(Flatten(sorted))
  {
    ConcatParts(sorted, k);
    assert merged == Take(merged, k) + Drop(merged, k);
  }

  lemma TopKOrder(keys: seq<SortKey>, sorted: seq<seq<Row>>, k: nat, merged: seq<Row>, back: seq<Row>)
    requires forall i :: 0 <= i < |sorted| ==> Sorted(keys, sorted[i])
    requires IsSort(keys, merged, Flatten(Prefixes(sorted, k)))
    requires IsSort(keys, back, Drop(merged, k) + Flatten(Rests(sorted, k)))
    ensures Sorted(keys, Take(merged, k) + back)
    ensures Take(Take(merged, k) + back, k) == Take(merged, k)
  {
    var front := Take(merged, k);
    forall y | y in back
      ensures k <= |merged| && (front != [] ==> Cmp3(keys, front[|front| - 1], y) <= 0)
    {
      LaterThanFront(keys, sorted, k, merged, back, y);
    }
    SortedTake(keys, merged, k);
    SortedJoin(keys, front, back);
    if back != [] {
      assert back[0] in back;
    }
    TakeJoin(front, back, k);
  }

  lemma SortedTake(keys: seq<SortKey>, rows: seq<Row>, k: nat)
    requires Sorted(keys, rows)
    ensures Sorted(keys, Take(rows, k))
  {
  }

  lemma TakeJoin(front: seq<Row>, back: seq<Row>, k: nat)
    requires |front| == k || (|front| < k && back == [])
    ensures Take(front + back, k) == front
  {
  }

  lemma LaterThanFront(keys: seq<SortKey>, sorted: seq<seq<Row>>, k: nat, merged: seq<Row>, back: seq<Row>, y: Row)
    requires forall i :: 0 <= i < |sorted| ==> Sorted(keys, sorted[i])
    requires IsSort(keys, merged, Flatten(Prefixes(sorted, k)))
    requires multiset(back) == multiset(Drop(merged, k) + Flatten(Rests(sorted, k))) && y in back
    ensures k <= |merged|
    ensures k > 0 ==> Cmp3(keys, merged[k - 1], y) <= 0
  {
    assert y in multiset(back);
    assert y in Drop(merged, k) + Flatten(Rests(sorted, k));
    if y in Drop(merged, k) {
      var j :| k <= j < |merged| && merged[j] == y;
    } else {
      DroppedLater(keys, sorted, k, merged, y);
    }
  }

  /** ... so slicing [offset, offset + count) of the merged rows answers the query over all rows. */
  lemma TopKSlice(keys: seq<SortKey>, sorted: seq<seq<Row>>, offset: nat, count: nat, merged: seq<Row>) returns (full: seq<Row>)
    requires forall i :: 0 <= i < |sorted| ==> Sorted(keys, sorted[i])
    requires IsSort(keys, merged, Flatten(Prefixes(sorted, offset + count)))
    ensures IsSort(keys, full, Flatten(sorted))
    ensures Slice(merged, offset, count) == Slice(full, offset, count)
  {
    full := TopK(keys, sorted, offset + count, merged);
    SliceOfTake(full, offset, count);
    SliceOfTake(merged, offset, count);
  }

  lemma SliceOfTake(rows: seq<Row>, offset: nat, count: nat)
    ensures Slice(rows, offset, count) == Slice(Take(rows, offset + count), offset, count)
  {
  }

  // ---------------------------------------------------------------- the merge

  /** buildSelectOnlyResult without functions: all answers one after another. */
  method ConcatResults(rs: seq<seq<Row>>) returns (rows: seq<Row>)
    ensures rows == Flatten(rs)
  {
    rows := [];
    for i := 0 to |rs|
      invariant rows == Flatten(rs[..i])
    {
      assert rs[..i + 1][..i] == rs[..i];
      ghost var before := rows;
      for j := 0 to |rs[i]|
        invariant rows == before + rs[i][..j]
      {
        rows := rows + [rs[i][j]];
      }
      assert rs[i][..|rs[i]|] == rs[i];
    }
    assert rs[..|rs|] == rs;
  }

  datatype Order = Order(name: string, desc: bool)

  /** newResultsetSorter: every ORDER BY name must be a column of the result. */
  function SortKeys(fields: map<string, nat>, orderBy: seq<Order>): (r: Option<seq<SortKey>>)
    ensures r.Some? <==> forall i :: 0 <= i < |orderBy| ==> orderBy[i].name in fields
    ensures r.Some? ==>
              && |r.value| == |orderBy|
              && forall i :: 0 <= i < |orderBy| ==>
                   r.value[i].column == fields[orderBy[i].name] && r.value[i].desc == orderBy[i].desc
  {
    if orderBy == [] then Some([])
    else if orderBy[0].name !in fields then None
    else
      match SortKeys(fields, orderBy[1..])
      case None => None
      case Some(ks) => Some([SortKey(fields[orderBy[0].name], orderBy[0].desc)] + ks)
  }

  /** mergeSelectResult without GROUP BY. Without ORDER BY, and if a sort fails, the rows stay as they
      came. */
  method MergeSelectResult(rs: seq<seq<Row>>, fields: map<string, nat>, orderBy: seq<Order>, limit: Option<Limit>)
    returns (r: Result<seq<Row>>)
    requires |Flatten(rs)| <= MAX_INT64
    ensures exists merged ::
              && r == Limited(merged, limit)
              && (orderBy == [] ==> merged == Flatten(rs))
              && match SortKeys(fields, orderBy)
                 case Some(keys) => IsSort(keys, merged, Flatten(rs)) && CellsInOrder(keys, merged)
                 case None => merged == Flatten(rs)
  {
    var rows := ConcatResults(rs);
    var keys := SortKeys(fields, orderBy);
    assert orderBy == [] && keys.Some? ==> keys.value == [];
    if orderBy != [] && keys.Some? {
      rows := SortRows(keys.value, rows);
      SortedCells(keys.value, rows);
      assert |rows| == |multiset(rows)| == |multiset(Flatten(rs))| == |Flatten(rs)|;
    }
    r := LimitSelectResult(rows, limit);
  }

  /** Offset and count are numbers, not negative, and their sum is no overflow. */
  predicate SliceLimit(l: Limit) {
    && Offset(l).Ok? && Number(l.rowcount).Ok?
    && Offset(l).value >= 0 && Number(l.rowcount).value >= 0
    && Offset(l).value + Number(l.rowcount).value <= MAX_INT64
  }
}
