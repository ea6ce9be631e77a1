/** Placement of a key in a sub-table (proxy/router/shard.go, proxy/router/numkey.go). */
module Shards {
  import opened Prelude
  import opened Text

  /** A key or literal as the router sees it: an int64 or a string. */
  datatype KeyValue = IntKey(v: int) | TextKey(s: string)

  /** [start, end) */
  datatype NumKeyRange = NumKeyRange(start: int, end: int) {
    predicate Contains(i: int) {
      start <= i && (end == MAX_INT64 || i < end)
    }
  }

  /** `crc` is the checksum of texts that are not unsigned numerals. */
  datatype Shard =
    | HashShard(shardNum: nat, crc: string -> nat)
    | NumRangeShard(ranges: seq<NumKeyRange>)
    | DateShard(granularity: Granularity)
    | DefaultShard

  // ---------------------------------------------------------------- hash

  function HashValue(key: KeyValue, crc: string -> nat): nat {
    match key
    case IntKey(v) => v % TWO_64
    case TextKey(s) => match ParseUint64(s) case Some(n) => n case None => crc(s)
  }

  // ---------------------------------------------------------------- number ranges

  function NumValue(key: KeyValue): Result<int> {
    match key
    case IntKey(v) => Ok(v)
    case TextKey(s) => match ParseInt64(s) case Some(v) => Ok(v) case None => Err(Panicked)
  }

  /** The first range from `i` on that contains `v`. */
  function ScanFrom(ranges: seq<NumKeyRange>, v: int, i: nat): (r: Result<int>)
    requires i <= |ranges|
    ensures r.Ok? ==>
              i <= r.value < |ranges| && ranges[r.value].Contains(v) &&
              forall j :: i <= j < r.value ==> !ranges[j].Contains(v)
    ensures r.Err? ==>
              r.error == KeyOutOfRange && forall j :: i <= j < |ranges| ==> !ranges[j].Contains(v)
    decreases |ranges| - i
  {
    if i == |ranges| then Err(KeyOutOfRange)
    else if ranges[i].Contains(v) then Ok(i)
    else ScanFrom(ranges, v, i + 1)
  }

  method FindInRanges(ranges: seq<NumKeyRange>, key: KeyValue) returns (r: Result<int>)
    ensures r == FindForKey(NumRangeShard(ranges), key)
  {
    var v :- NumValue(key);
    for i := 0 to |ranges|
      invariant ScanFrom(ranges, v, 0) == ScanFrom(ranges, v, i)
    {
      if ranges[i].Contains(v) {
        return Ok(i);
      }
    }
    return Err(KeyOutOfRange);
  }

  /** The key space of a range rule: non-empty ranges in order, each ending where the next starts. */
  predicate Contiguous(ranges: seq<NumKeyRange>) {
    && (forall i :: 0 <= i < |ranges| ==> 0 <= ranges[i].start < ranges[i].end <= MAX_INT64)
    && (forall i, j :: 0 <= i < j < |ranges| ==> ranges[i].end <= ranges[j].start)
    && (forall i :: 0 <= i < |ranges| - 1 ==> ranges[i].end == ranges[i + 1].start)
    && (|ranges| > 0 ==> ranges[0].start == 0)
  }

  function RangeTable(n: nat, limit: int): seq<NumKeyRange> {
    seq(n, i => NumKeyRange(Wrap64(i * limit), Wrap64((i + 1) * limit)))
  }

  function Sum(l: seq<int>): int {
    if l == [] then 0 else Sum(l[..|l| - 1]) + l[|l| - 1]
  }

  method ParseNumSharding(locations: seq<int>, limit: int) returns (r: Result<seq<NumKeyRange>>)
    ensures r == if Sum(locations) < 0 then Err(Panicked) else Ok(RangeTable(Sum(locations), limit))
  {
    var tableCount := 0;
    for i := 0 to |locations|
      invariant tableCount == Sum(locations[..i])
    {
      assert locations[..i + 1][..i] == locations[..i];
      tableCount := tableCount + locations[i];
    }
    assert locations[..|locations|] == locations;
    if tableCount < 0 {
      return Err(Panicked);
    }
    var ranges: seq<NumKeyRange> := [];
    for i := 0 to tableCount
      invariant ranges == RangeTable(i, limit)
    {
      ranges := ranges + [NumKeyRange(Wrap64(i * limit), Wrap64((i + 1) * limit))];
    }
    return Ok(ranges);
  }

  lemma RangeTableAt(n: nat, limit: int, i: nat)
    requires limit > 0 && n * limit <= MAX_INT64 && i < n
    ensures RangeTable(n, limit)[i] == NumKeyRange(i * limit, (i + 1) * limit)
    ensures 0 <= i * limit < (i + 1) * limit <= n * limit
  {
    MulMonotone(i + 1, n, limit);
    MulMonotone(0, i, limit);
    var a, b := i * limit, (i + 1) * limit;
    assert b == a + limit;
    assert Wrap64(a) == a && Wrap64(b) == b;
  }

  lemma RangeTableContiguous(n: nat, limit: int)
    requires limit > 0 && n * limit <= MAX_INT64
    ensures Contiguous(RangeTable(n, limit))
  {
    var ranges := RangeTable(n, limit);
    forall i, j | 0 <= i <= j < n
      ensures 0 <= ranges[i].start < ranges[i].end <= MAX_INT64
      ensures j == i + 1 ==> ranges[i].end == ranges[j].start
      ensures i < j ==> ranges[i].end <= ranges[j].start
    {
      RangeTableAt(n, limit, i);
      RangeTableAt(n, limit, j);
      if i < j {
        MulMonotone(i + 1, j, limit);
      }
    }
    assert n > 0 ==> ranges[0].start == 0;
  }

  /** The linear scan over the configured ranges is a division, inside the key space and only there.
      The sentinel end makes one exception: a space ending exactly at the largest int64 also takes
      that last key. */
  lemma RangeScanIsQuotient(n: nat, limit: int, v: int)
    requires limit > 0 && n * limit <= MAX_INT64 && IsInt64(v)
    ensures FindForKey(NumRangeShard(RangeTable(n, limit)), IntKey(v)) ==
            if 0 <= v < n * limit then Ok(v / limit)
            else if v == MAX_INT64 == n * limit then Ok(n - 1)
            else Err(KeyOutOfRange)
  {
    var ranges := RangeTable(n, limit);
    RangeTableContiguous(n, limit);
    if 0 <= v < n * limit {
      var q := v / limit;
      QuotientBound(n, limit, v);
      RangeTableAt(n, limit, q);
      UniqueRange(ranges, v, q);
    } else if v == MAX_INT64 && n * limit == MAX_INT64 {
      RangeTableAt(n, limit, n - 1);
      UniqueRange(ranges, v, n - 1);
    } else {
      forall i | 0 <= i < n
        ensures !ranges[i].Contains(v)
      {
        RangeTableAt(n, limit, i);
      }
    }
  }

  lemma QuotientBound(n: nat, limit: int, v: int)
    requires limit > 0 && 0 <= v < n * limit
    ensures 0 <= v / limit < n
    ensures v / limit * limit <= v < (v / limit + 1) * limit
  {
    var q := v / limit;
    assert v == q * limit + v % limit;
    assert (q + 1) * limit == q * limit + limit;
    if q >= n {
      MulMonotone(n, q, limit);
    }
  }

  lemma UniqueRange(ranges: seq<NumKeyRange>, v: int, i: nat)
    requires Contiguous(ranges) && i < |ranges| && ranges[i].Contains(v)
    ensures ScanFrom(ranges, v, 0) == Ok(i)
  {
    assert forall k :: 0 <= k < i ==> ranges[k].end <= ranges[i].start < MAX_INT64;
  }

  /** Larger keys never lie in earlier ranges. */
  lemma RangeMonotone(ranges: seq<NumKeyRange>, a: int, b: int)
    requires Contiguous(ranges) && a <= b
    requires ScanFrom(ranges, a, 0).Ok? && ScanFrom(ranges, b, 0).Ok?
    ensures ScanFrom(ranges, a, 0).value <= ScanFrom(ranges, b, 0).value
  {
    var i := ScanFrom(ranges, a, 0).value;
    assert forall k :: 0 <= k < i ==> ranges[k].end <= ranges[i].start < MAX_INT64;
  }

  // ---------------------------------------------------------------- dates

  function FindDate(g: Granularity, key: KeyValue): Result<int> {
    match key
    case IntKey(_) => Err(UnmodelledTimestamp)
    case TextKey(s) =>
      if g == Year then
        if |s| < 4 then Err(Panicked)
        else match ParseInt64(s[..4]) case Some(v) => Ok(v) case None => Err(Panicked)
      else
        if |s| < 10 then Err(InvalidDateFormat)
        else match ParseInt64(Compact(g, s)) case Some(v) => Ok(v) case None => Err(InvalidDateFormat)
  }

  lemma FindDateIndex(g: Granularity, s: string)
    requires IsDate(s)
    ensures FindDate(g, TextKey(s)) == Ok(DateIndex(g, s))
  {
    CompactDigits(g, s);
  }

  // ---------------------------------------------------------------- the dispatch

  function FindForKey(shard: Shard, key: KeyValue): Result<int> {
    match shard
    case HashShard(num, crc) => if num == 0 then Err(Panicked) else Ok(HashValue(key, crc) % num)
    case NumRangeShard(ranges) => var v :- NumValue(key); ScanFrom(ranges, v, 0)
    case DateShard(g) => FindDate(g, key)
    case DefaultShard => Ok(0)
  }

  /** Where a hash rule puts a key: a number that is not negative, and the text of any unsigned number, at its
      remainder; a negative number at that of its unsigned 64-bit reading; any other text at that of its
      checksum. */
  lemma HashPlaces(num: nat, crc: string -> nat, v: int, n: nat, s: string)
    requires num > 0 && IsInt64(v) && n < TWO_64 && ParseUint64(s).None?
    ensures FindForKey(HashShard(num, crc), IntKey(v)) == Ok((if v < 0 then v + TWO_64 else v) % num)
    ensures FindForKey(HashShard(num, crc), TextKey(FormatNat(n))) == Ok(n % num)
    ensures FindForKey(HashShard(num, crc), TextKey(s)) == Ok(crc(s) % num)
  {
    NumOfFormat(n);
    assert v % TWO_64 == if v < 0 then v + TWO_64 else v;
  }

  /** A hash key spelled as a number and as its decimal text go to the same sub-table, whatever the
      checksum is, exactly when the number is not negative. */
  lemma HashSpellings(v: int, num: nat)
    requires IsInt64(v) && num > 1
    ensures (forall crc :: FindForKey(HashShard(num, crc), IntKey(v)) ==
                           FindForKey(HashShard(num, crc), TextKey(FormatInt(v)))) <==> 0 <= v
  {
    if v < 0 {
      var crc := SpellingsDiffer(v, num);
      assert FindForKey(HashShard(num, crc), IntKey(v)) != FindForKey(HashShard(num, crc), TextKey(FormatInt(v)));
    } else {
      forall crc: string -> nat
        ensures FindForKey(HashShard(num, crc), IntKey(v)) == FindForKey(HashShard(num, crc), TextKey(FormatInt(v)))
      {
        SpellingsAgree(v, num, crc);
      }
    }
  }

  lemma SpellingsAgree(v: int, num: nat, crc: string -> nat)
    requires IsInt64(v) && num > 1 && 0 <= v
    ensures FindForKey(HashShard(num, crc), IntKey(v)) == FindForKey(HashShard(num, crc), TextKey(FormatInt(v)))
  {
    FormatParse(v);
    assert v % TWO_64 == v;
  }

  lemma SpellingsDiffer(v: int, num: nat) returns (crc: string -> nat)
    requires IsInt64(v) && num > 1 && v < 0
    ensures FindForKey(HashShard(num, crc), IntKey(v)) != FindForKey(HashShard(num, crc), TextKey(FormatInt(v)))
  {
    FormatParse(v);
    var h := (v % TWO_64) % num;
    var other: nat := if h == 0 then 1 else 0;
    crc := _ => other;
    SmallRemainder(other, num);
    assert FindForKey(HashShard(num, crc), TextKey(FormatInt(v))) == Ok(other);
    assert FindForKey(HashShard(num, crc), IntKey(v)) == Ok(h);
  }

  lemma SmallRemainder(x: nat, n: nat)
    requires x < n
    ensures x % n == x
  {
  }
}
