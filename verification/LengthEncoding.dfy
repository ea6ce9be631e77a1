/** Length-encoded integers and strings (mysql/util.go; section 14.1.1 of the MySQL Internals Manual). */
module LengthEncoding {
  import opened Prelude
  import opened Bytes

  /** PutLengthEncodedInt, on uint64 values */
  function PutInt(n: nat): (b: bytes)
    ensures |b| > 0
  {
    if n <= 250 then [Low(n)]
    else if n <= 0xffff then [0xfc] + LittleEndian(n, 2)
    else if n <= 0xff_ffff then [0xfd] + LittleEndian(n, 3)
    else [0xfe] + LittleEndian(n, 8)
  }

  /** The number, whether it is NULL, and the bytes it takes. Too few bytes are an index panic. */
  function GetInt(b: bytes): (r: Result<(nat, bool, nat)>)
    ensures r.Ok? ==> 1 <= r.value.2 <= |b|
  {
    if b == [] then Err(Panicked)
    else if b[0] == 0xfb then Ok((0, true, 1))
    else
      var width := if b[0] == 0xfc then 2 else if b[0] == 0xfd then 3 else if b[0] == 0xfe then 8 else 0;
      if width == 0 then Ok((b[0] as int, false, 1))
      else if |b| < 1 + width then Err(Panicked)
      else Ok((FromLittleEndian(b[1..1 + width]), false, 1 + width))
  }

  lemma Pow256Values()
    ensures Pow256(1) == 256 && Pow256(2) == 0x1_0000 && Pow256(3) == 0x100_0000
    ensures Pow256(4) == 0x1_0000_0000 && Pow256(8) == TWO_64
  {
    assert Pow256(0) == 1 && Pow256(5) == 256 * Pow256(4) && Pow256(6) == 256 * Pow256(5) && Pow256(7) == 256 * Pow256(6);
  }

  /** Every uint64 is read back, with the bytes after it left over. */
  lemma IntRoundTrip(n: nat, rest: bytes)
    requires n < TWO_64
    ensures GetInt(PutInt(n) + rest) == Ok((n, false, |PutInt(n)|))
  {
    Pow256Values();
    var b := PutInt(n) + rest;
    if n > 250 {
      var width := if n <= 0xffff then 2 else if n <= 0xff_ffff then 3 else 8;
      LittleEndianRoundTrip(n, width);
      assert b[1..1 + width] == LittleEndian(n, width);
      assert n % Pow256(width) == n;
    }
  }

  /** The four forms and their lengths; 0xfb alone is NULL. */
  lemma IntForms(n: nat, rest: bytes)
    ensures n <= 250 ==> PutInt(n) == [Low(n)]
    ensures 250 < n <= 0xffff ==> PutInt(n) == [0xfc, Low(n), Low(n / 256)]
    ensures 0xffff < n <= 0xff_ffff ==> PutInt(n) == [0xfd, Low(n), Low(n / 256), Low(n / 65536)]
    ensures 0xff_ffff < n ==> |PutInt(n)| == 9 && PutInt(n)[0] == 0xfe && forall i :: 0 <= i < 8 ==> PutInt(n)[i + 1] as int == (n / Pow256(i)) % 256
    ensures GetInt([0xfb] + rest) == Ok((0, true, 1))
  {
    assert n / 256 / 256 == n / 65536;
    assert LittleEndian(n, 2) == [Low(n)] + LittleEndian(n / 256, 1) && LittleEndian(n / 256, 1) == [Low(n / 256)] + LittleEndian(n / 256 / 256, 0);
    assert LittleEndian(n, 3) == [Low(n)] + LittleEndian(n / 256, 2);
    assert LittleEndian(n / 256, 2) == [Low(n / 256)] + LittleEndian(n / 256 / 256, 1);
    assert LittleEndian(n / 256 / 256, 1) == [Low(n / 256 / 256)] + LittleEndian(n / 256 / 256 / 256, 0);
    forall i | 0 <= i < 8
      ensures 0xff_ffff < n ==> PutInt(n)[i + 1] as int == (n / Pow256(i)) % 256
    {
      LittleEndianAt(n, 8, i);
    }
  }

  /** LengthEnodedString: the text, whether it is NULL, and the bytes it takes. */
  function GetString(b: bytes): Result<(bytes, bool, nat)> {
    var head :- GetInt(b);
    var (num, isNull, n) := head;
    if num < 1 then Ok(([], isNull, n))
    else if num > MAX_INT64 - n then Err(Panicked)
    else if |b| >= n + num then Ok((b[n..n + num], false, n + num))
    else Err(InvalidNumber)
  }

  /** NULL is no text at all; a text cut short is refused. */
  lemma StringForms(n: nat, s: bytes, rest: bytes)
    requires |s| < n <= MAX_INT64 - 9
    ensures GetString([0xfb] + rest) == Ok(([], true, 1)) && GetString([0] + rest) == Ok(([], false, 1))
    ensures GetString(PutInt(n) + s) == Err(InvalidNumber) && GetString([]) == Err(Panicked)
  {
    IntForms(0, rest);
    IntRoundTrip(n, s);
    assert GetInt([0] + rest) == Ok((0, false, 1));
    assert |PutInt(n)| <= 9;
  }

  lemma StringRoundTrip(s: bytes, rest: bytes)
    requires |s| <= MAX_INT64 - 9
    ensures GetString(PutInt(|s|) + s + rest) == Ok((s, false, |PutInt(|s|)| + |s|))
  {
    IntRoundTrip(|s|, s + rest);
    var n := |PutInt(|s|)|;
    var b := PutInt(|s|) + s + rest;
    assert b == PutInt(|s|) + (s + rest);
    assert b[n..n + |s|] == s;
    assert n <= 9;
  }

  /** PutLengthEncodedString: whatever is sent after it, the string is read back and nothing more taken. */
  method PutLengthEncodedString(s: bytes) returns (data: bytes)
    requires |s| <= MAX_INT64 - 9
    ensures forall rest :: GetString(data + rest) == Ok((s, false, |data|))
  {
    data := [];
    data := data + PutInt(|s|);
    data := data + s;
    assert data == PutInt(|s|) + s;
    forall rest
      ensures GetString(data + rest) == Ok((s, false, |data|))
    {
      StringRoundTrip(s, rest);
    }
  }
}
