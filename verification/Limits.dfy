/** LIMIT clauses: pushed down to the shards and applied to the merged rows
    (sqlparser/ast.go, RewriteLimit; proxy/server/conn_select.go, limitSelectResult). */
module Limits {
  import opened Prelude
  import opened Text
  import opened Where

  datatype Limit = Limit(offset: Option<Val>, rowcount: Val)

  function Number(v: Val): Result<int> {
    if !v.NumVal? then Err(LimitNotNumber)
    else match ParseInt64(v.text) case Some(n) => Ok(n) case None => Err(LimitNotNumber)
  }

  function Offset(l: Limit): Result<int> {
    match l.offset case None => Ok(0) case Some(v) => Number(v)
  }

  /** The limit sent to every shard: the first offset + count rows. */
  function RewriteLimit(l: Limit): Result<Limit> {
    var offset :- Offset(l);
    var count :- Number(l.rowcount);
    Ok(Limit(None, NumVal(FormatInt(Wrap64(offset + count)))))
  }

  /** limitSelectResult: rows [offset, offset + count) of the merged rows, clipped to their number, unless
      the offset is negative or the sum overflows, which ends in an index panic. */
  method LimitSelectResult<T>(rows: seq<T>, limit: Option<Limit>) returns (r: Result<seq<T>>)
    requires |rows| <= MAX_INT64
    ensures r == Limited(rows, limit)
  {
    if limit.None? {
      return Ok(rows);
    }
    var offset :- Offset(limit.value);
    var count :- Number(limit.value.rowcount);
    if count < 0 {
      return Err(InvalidLimit);
    }
    if offset > |rows| {
      return Ok([]);
    }
    if Wrap64(offset + count) > |rows| {
      count := |rows| - offset;
    }
    if offset < 0 || Wrap64(offset + count) < offset || Wrap64(offset + count) > |rows| {
      return Err(Panicked);
    }
    return Ok(rows[offset..Wrap64(offset + count)]);
  }

  /** What a limit leaves of the rows. */
  function Limited<T>(rows: seq<T>, limit: Option<Limit>): Result<seq<T>> {
    match limit
    case None => Ok(rows)
    case Some(l) =>
      var offset :- Offset(l);
      var count :- Number(l.rowcount);
      if count < 0 then Err(InvalidLimit)
      else if offset >= 0 && (offset > |rows| || offset + count <= MAX_INT64) then Ok(Slice(rows, offset, count))
      else Err(Panicked)
  }

  /** Rows [offset, offset + count) of those that exist. */
  function Slice<T>(rows: seq<T>, offset: nat, count: nat): seq<T> {
    if offset > |rows| then [] else rows[offset..if offset + count > |rows| then |rows| else offset + count]
  }

  /** What a backend with the rewritten limit returns of its rows. */
  lemma RewrittenLimit(l: Limit)
    requires Offset(l).Ok? && Number(l.rowcount).Ok?
    requires Offset(l).value >= 0 && Number(l.rowcount).value >= 0
    requires Offset(l).value + Number(l.rowcount).value <= MAX_INT64
    ensures RewriteLimit(l).Ok?
    ensures Offset(RewriteLimit(l).value) == Ok(0)
    ensures Number(RewriteLimit(l).value.rowcount) == Ok(Offset(l).value + Number(l.rowcount).value)
  {
    FormatParse(Offset(l).value + Number(l.rowcount).value);
  }

  lemma SliceIs<T>(rows: seq<T>, offset: nat, count: nat)
    ensures var r := Slice(rows, offset, count);
            && |r| == (if offset >= |rows| then 0 else if |rows| - offset < count then |rows| - offset else count)
            && forall i :: 0 <= i < |r| ==> r[i] == rows[offset + i]
  {
  }

  /** LIMIT written with numerals: the rows from `offset` on, `count` of them or as many as there are. */
  lemma LimitReads<T>(rows: seq<T>, offset: nat, count: nat)
    requires offset <= MAX_INT64 && count <= MAX_INT64
    ensures var o, c := NumVal(FormatInt(offset)), NumVal(FormatInt(count));
            && Offset(Limit(Some(o), c)) == Ok(offset) && Offset(Limit(None, c)) == Ok(0) && Number(c) == Ok(count)
            && Limited(rows, Some(Limit(None, c))) == Ok(Slice(rows, 0, count))
            && (offset > |rows| || offset + count <= MAX_INT64 ==>
                  Limited(rows, Some(Limit(Some(o), c))) == Ok(Slice(rows, offset, count)))
  {
    NumeralRead(offset);
    NumeralRead(count);
    assert Offset(Limit(None, NumVal(FormatInt(count)))) == Ok(0);
  }

  lemma NumeralRead(n: int)
    requires IsInt64(n)
    ensures Number(NumVal(FormatInt(n))) == Ok(n)
  {
    FormatParse(n);
  }

  /** A count that is negative is an error, an offset that is negative a panic. */
  lemma LimitNegative<T>(rows: seq<T>, offset: int, count: int)
    requires IsInt64(offset) && IsInt64(count)
    ensures var limit := Limit(Some(NumVal(FormatInt(offset))), NumVal(FormatInt(count)));
            && (count < 0 ==> Limited(rows, Some(limit)) == Err(InvalidLimit))
            && (offset < 0 <= count ==> Limited(rows, Some(limit)) == Err(Panicked))
  {
    NumeralRead(offset);
    NumeralRead(count);
  }

}
