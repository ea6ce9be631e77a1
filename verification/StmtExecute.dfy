/** COM_STMT_EXECUTE: the parameter block that the backend connection encodes and the proxy front end
    decodes (backend/stmt.go, proxy/server/conn_stmt.go; section 14.7.6 of the MySQL Internals Manual). */
module StmtExecute {
  import opened Prelude
  import opened Bytes
  import opened LengthEncoding

  const COM_STMT_EXECUTE: byte := 23

  const TYPE_TINY: byte := 1
  const TYPE_SHORT: byte := 2
  const TYPE_LONG: byte := 3
  const TYPE_FLOAT: byte := 4
  const TYPE_DOUBLE: byte := 5
  const TYPE_NULL: byte := 6
  const TYPE_LONGLONG: byte := 8
  const TYPE_INT24: byte := 9
  const TYPE_YEAR: byte := 13
  const TYPE_STRING: byte := 0xfe

  /** A bound argument. Floating-point values are carried by their bit patterns. */
  datatype Arg =
    | Nil
    | Int8(v: int) | Int16(v: int) | Int32(v: int) | Int(v: int) | Int64(v: int)
    | Uint8(v: int) | Uint16(v: int) | Uint32(v: int) | Uint(v: int) | Uint64(v: int)
    | Bool(b: bool)
    | Float32(bits: int) | Float64(bits: int)
    | Str(text: bytes) | Binary(text: bytes)
    | Unsupported

  /** The value is one of its Go type. */
  predicate InRange(a: Arg) {
    match a
    case Int8(v) => -0x80 <= v < 0x80
    case Int16(v) => -0x8000 <= v < 0x8000
    case Int32(v) => -0x8000_0000 <= v < 0x8000_0000
    case Int(v) => IsInt64(v)
    case Int64(v) => IsInt64(v)
    case Uint8(v) => 0 <= v < 0x100
    case Uint16(v) => 0 <= v < 0x1_0000
    case Uint32(v) => 0 <= v < 0x1_0000_0000
    case Uint(v) => 0 <= v < TWO_64
    case Uint64(v) => 0 <= v < TWO_64
    case Float32(bits) => 0 <= bits < 0x1_0000_0000
    case Float64(bits) => 0 <= bits < TWO_64
    case Str(text) => |text| <= MAX_INT64 - 9
    case Binary(text) => |text| <= MAX_INT64 - 9
    case _ => true
  }

  /** The type under which an argument arrives at the other end. */
  function Canonical(a: Arg): Arg {
    match a
    case Int(v) => Int64(v)
    case Uint(v) => Uint64(v)
    case Bool(b) => Int8(if b then 1 else 0)
    case Str(text) => Binary(text)
    case _ => a
  }

  // ---------------------------------------------------------------- encoding

  function TypeOf(a: Arg): byte {
    match a
    case Nil => TYPE_NULL
    case Int8(_) => TYPE_TINY
    case Uint8(_) => TYPE_TINY
    case Bool(_) => TYPE_TINY
    case Int16(_) => TYPE_SHORT
    case Uint16(_) => TYPE_SHORT
    case Int32(_) => TYPE_LONG
    case Uint32(_) => TYPE_LONG
    case Float32(_) => TYPE_FLOAT
    case Float64(_) => TYPE_DOUBLE
    case Str(_) => TYPE_STRING
    case Binary(_) => TYPE_STRING
    case _ => TYPE_LONGLONG
  }

  function SignOf(a: Arg): byte {
    if a.Uint8? || a.Uint16? || a.Uint32? || a.Uint? || a.Uint64? then 0x80 else 0
  }

  function Payload(a: Arg): bytes {
    match a
    case Nil => []
    case Unsupported => []
    case Int8(v) => [Low(v)]
    case Uint8(v) => [Low(v)]
    case Bool(b) => [if b then 1 else 0]
    case Int16(v) => LittleEndian(v, 2)
    case Uint16(v) => LittleEndian(v, 2)
    case Int32(v) => LittleEndian(v, 4)
    case Uint32(v) => LittleEndian(v, 4)
    case Float32(bits) => LittleEndian(bits, 4)
    case Int(v) => LittleEndian(v, 8)
    case Int64(v) => LittleEndian(v, 8)
    case Uint(v) => LittleEndian(v, 8)
    case Uint64(v) => LittleEndian(v, 8)
    case Float64(bits) => LittleEndian(bits, 8)
    case Str(text) => PutInt(|text|) + text
    case Binary(text) => PutInt(|text|) + text
  }

  /** What each argument contributes, one after the other. */
  function Spread(args: seq<Arg>, part: Arg -> bytes): bytes {
    if args == [] then [] else Spread(args[..|args| - 1], part) + part(args[|args| - 1])
  }

  function Values(args: seq<Arg>): bytes {
    Spread(args, Payload)
  }

  function TypeBytes(a: Arg): bytes {
    [TypeOf(a), SignOf(a)]
  }

  function Types(args: seq<Arg>): bytes {
    Spread(args, TypeBytes)
  }

  lemma SpreadNext(args: seq<Arg>, part: Arg -> bytes, i: nat)
    requires i < |args|
    ensures Spread(args[..i + 1], part) == Spread(args[..i], part) + part(args[i])
  {
    assert args[..i + 1][..i] == args[..i];
  }

  lemma {:induction false} SpreadAppend(a: seq<Arg>, b: seq<Arg>, part: Arg -> bytes)
    ensures Spread(a + b, part) == Spread(a, part) + Spread(b, part)
  {
    if b == [] {
      assert a + b == a;
    } else {
      var n := |b| - 1;
      SpreadAppend(a, b[..n], part);
      assert (a + b)[..|a + b| - 1] == a + b[..n];
      assert (a + b)[|a + b| - 1] == b[n];
    }
  }

  lemma {:induction false} TypesLength(args: seq<Arg>)
    ensures |Types(args)| == 2 * |args|
  {
    if args != [] {
      TypesLength(args[..|args| - 1]);
    }
  }

  lemma {:induction false} TypesAt(args: seq<Arg>, i: nat)
    requires i < |args|
    ensures |Types(args)| == 2 * |args|
    ensures Types(args)[2 * i] == TypeOf(args[i]) && Types(args)[2 * i + 1] == SignOf(args[i])
  {
    var n := |args| - 1;
    TypesLength(args);
    TypesLength(args[..n]);
    assert Types(args) == Types(args[..n]) + TypeBytes(args[n]);
    if i < n {
      TypesAt(args[..n], i);
    }
  }

  function Power2(k: nat): (p: int)
    requires k < 8
    ensures 1 <= p <= 128
  {
    [1, 2, 4, 8, 16, 32, 64, 128][k]
  }

  predicate Bit(b: byte, k: nat)
    requires k < 8
  {
    (b as int / Power2(k)) % 2 == 1
  }

  /** The byte with the given bits, least significant first. */
  function Value(bits: seq<bool>): int {
    if bits == [] then 0 else (if bits[0] then 1 else 0) + 2 * Value(bits[1..])
  }

  function Pow2(k: nat): int {
    if k == 0 then 1 else 2 * Pow2(k - 1)
  }

  lemma {:induction false} ValueBound(bits: seq<bool>)
    ensures 0 <= Value(bits) < Pow2(|bits|)
  {
    if bits != [] {
      ValueBound(bits[1..]);
    }
  }

  lemma Power2IsPow2(k: nat)
    requires k < 8
    ensures Power2(k) == Pow2(k) && Pow2(8) == 256
  {
    assert Pow2(0) == 1 && Pow2(1) == 2 && Pow2(2) == 4 && Pow2(3) == 8;
    assert Pow2(4) == 16 && Pow2(5) == 32 && Pow2(6) == 64 && Pow2(7) == 128;
  }

  lemma {:induction false} ValueBit(bits: seq<bool>, k: nat)
    requires k < |bits|
    ensures Pow2(k) > 0
    ensures (Value(bits) / Pow2(k)) % 2 == (if bits[k] then 1 else 0)
  {
    if k > 0 {
      ValueBit(bits[1..], k - 1);
      HalfDivision(Value(bits[1..]), if bits[0] then 1 else 0, Pow2(k - 1));
    }
  }

  lemma HalfDivision(n: int, bit: int, p: int)
    requires p > 0 && 0 <= bit <= 1
    ensures (bit + 2 * n) / (2 * p) == n / p
  {
    var q, r := n / p, n % p;
    assert n == p * q + r;
    var m := bit + 2 * n;
    assert m == (2 * p) * q + (bit + 2 * r);
    ModUnique(m, 2 * p, q, bit + 2 * r);
    assert m == (2 * p) * (m / (2 * p)) + (bit + 2 * r);
    Distribute(2 * p, q, m / (2 * p));
    Bounded(2 * p, q - m / (2 * p));
  }

  lemma {:induction false} ValueSet(bits: seq<bool>, k: nat)
    requires k < |bits|
    ensures Value(bits[k := true]) == if bits[k] then Value(bits) else Value(bits) + Pow2(k)
  {
    if k == 0 {
      assert bits[0 := true][1..] == bits[1..];
    } else {
      ValueSet(bits[1..], k - 1);
      assert bits[k := true][1..] == bits[1..][k - 1 := true];
    }
    assert bits[k] ==> bits[k := true] == bits;
  }

  /** b | 1 << k, on a byte whose bits are known */
  function SetBit(b: byte, k: nat): byte
    requires k < 8
  {
    if Bit(b, k) then b else ((b as int + Power2(k)) % 256) as byte
  }

  lemma SetBitBits(b: byte, bits: seq<bool>, k: nat)
    requires k < 8 && |bits| == 8 && b as int == Value(bits)
    ensures SetBit(b, k) as int == Value(bits[k := true])
  {
    Power2IsPow2(k);
    ValueBit(bits, k);
    ValueSet(bits, k);
    ValueBound(bits[k := true]);
  }

  // ---------------------------------------------------------------- the NULL bitmap

  /** The bits of byte `q` of the bitmap once the first `n` arguments have been seen. */
  function NullBits(args: seq<Arg>, n: nat, q: nat): (bits: seq<bool>)
    ensures |bits| == 8
  {
    seq(8, k requires 0 <= k < 8 => 8 * q + k < n && 8 * q + k < |args| && args[8 * q + k].Nil?)
  }

  lemma NullBitsStep(args: seq<Arg>, i: nat, q: nat)
    requires i < |args|
    ensures NullBits(args, i + 1, q) ==
            if q == i / 8 && args[i].Nil? then NullBits(args, i, q)[i % 8 := true] else NullBits(args, i, q)
  {
  }

  /** The bitmap marks exactly the NULL arguments. */
  ghost predicate IsBitmap(bitmap: bytes, args: seq<Arg>, n: nat) {
    && |bitmap| == (|args| + 7) / 8
    && forall q :: 0 <= q < |bitmap| ==> bitmap[q] as int == Value(NullBits(args, n, q))
  }

  lemma BitmapBit(bitmap: bytes, args: seq<Arg>, i: nat)
    requires IsBitmap(bitmap, args, |args|) && i < |args|
    ensures Bit(bitmap[i / 8], i % 8) <==> args[i].Nil?
  {
    Power2IsPow2(i % 8);
    ValueBit(NullBits(args, |args|, i / 8), i % 8);
    assert NullBits(args, |args|, i / 8)[i % 8] <==> args[i].Nil?;
  }

  /** nullBitmap[i / 8] |= 1 << (i % 8) */
  function MarkNull(bitmap: bytes, i: nat): bytes
    requires i / 8 < |bitmap|
  {
    bitmap[i / 8 := SetBit(bitmap[i / 8], i % 8)]
  }

  lemma BitmapStep(bitmap: bytes, args: seq<Arg>, i: nat)
    requires IsBitmap(bitmap, args, i) && i < |args|
    ensures i / 8 < |bitmap|
    ensures IsBitmap(if args[i].Nil? then MarkNull(bitmap, i) else bitmap, args, i + 1)
  {
    forall q | 0 <= q < |bitmap|
      ensures q == i / 8 && args[i].Nil? ==> SetBit(bitmap[q], i % 8) as int == Value(NullBits(args, i + 1, q))
      ensures !(q == i / 8 && args[i].Nil?) ==> bitmap[q] as int == Value(NullBits(args, i + 1, q))
    {
      NullBitsStep(args, i, q);
      SetBitBits(bitmap[q], NullBits(args, i, q), i % 8);
    }
  }

  lemma {:induction false} NoBits(bits: seq<bool>)
    requires forall i :: 0 <= i < |bits| ==> !bits[i]
    ensures Value(bits) == 0
  {
    if bits != [] {
      NoBits(bits[1..]);
    }
  }

  // ---------------------------------------------------------------- Stmt.write

  /** Everything after the command byte; `bound` is the new-params-bound flag. */
  function Block(id: int, bitmap: bytes, bound: bool, args: seq<Arg>): bytes {
    LittleEndian(id, 4) + [0] + [1, 0, 0, 0] +
    (if args == [] then []
     else bitmap + (if bound then [1] + Types(args) + Values(args) else [0]))
  }

  predicate AllNil(args: seq<Arg>) {
    forall i :: 0 <= i < |args| ==> args[i].Nil?
  }

  lemma AllNilNext(args: seq<Arg>, i: nat)
    requires i < |args|
    ensures AllNil(args[..i + 1]) <==> AllNil(args[..i]) && args[i].Nil?
  {
    assert args[..i + 1] == args[..i] + [args[i]];
  }

  /** The bit of one argument. */
  method MarkArg(bitmap: bytes, args: seq<Arg>, i: nat) returns (marked: bytes)
    requires i < |args| && IsBitmap(bitmap, args, i)
    ensures IsBitmap(marked, args, i + 1)
  {
    BitmapStep(bitmap, args, i);
    marked := if args[i].Nil? then MarkNull(bitmap, i) else bitmap;
  }

  /** The type and the value of one argument. */
  method AppendArg(types: bytes, values: bytes, args: seq<Arg>, i: nat) returns (t: bytes, v: bytes)
    requires i < |args| && types == Types(args[..i]) && values == Values(args[..i])
    ensures t == Types(args[..i + 1]) && v == Values(args[..i + 1])
  {
    SpreadNext(args, TypeBytes, i);
    SpreadNext(args, Payload, i);
    t := types + TypeBytes(args[i]);
    v := values + Payload(args[i]);
  }

  /** The loop of Stmt.write over the arguments. */
  method Scan(args: seq<Arg>) returns (ok: bool, nullBitmap: bytes, bound: bool, types: bytes, values: bytes)
    ensures ok <==> forall i :: 0 <= i < |args| ==> !args[i].Unsupported?
    ensures ok ==> IsBitmap(nullBitmap, args, |args|) && (bound <==> !AllNil(args))
    ensures ok ==> types == Types(args) && values == Values(args)
  {
    types, values, bound := [], [], false;
    nullBitmap := seq((|args| + 7) / 8, _ => 0);
    EmptyBitmap(nullBitmap, args);
    for i := 0 to |args|
      invariant forall j :: 0 <= j < i ==> !args[j].Unsupported?
      invariant IsBitmap(nullBitmap, args, i)
      invariant bound <==> !AllNil(args[..i])
      invariant types == Types(args[..i]) && values == Values(args[..i])
    {
      AllNilNext(args, i);
      nullBitmap := MarkArg(nullBitmap, args, i);
      if !args[i].Nil? {
        bound := true;
        if args[i].Unsupported? {
          return false, nullBitmap, bound, types, values;
        }
      }
      types, values := AppendArg(types, values, args, i);
    }
    assert args[..|args|] == args;
    ok := true;
  }

  lemma EmptyBitmap(bitmap: bytes, args: seq<Arg>)
    requires |bitmap| == (|args| + 7) / 8 && forall q :: 0 <= q < |bitmap| ==> bitmap[q] == 0
    ensures IsBitmap(bitmap, args, 0)
  {
    forall q | 0 <= q < |bitmap|
      ensures Value(NullBits(args, 0, q)) == 0
    {
      NoBits(NullBits(args, 0, q));
    }
  }

  /** Stmt.write: the packet without its header, or an error for a wrong number or type of arguments. */
  method Write(id: int, params: nat, args: seq<Arg>) returns (r: Result<bytes>, ghost bitmap: bytes)
    ensures r.Ok? <==> |args| == params && forall i :: 0 <= i < |args| ==> !args[i].Unsupported?
    ensures r.Ok? ==> IsBitmap(bitmap, args, |args|)
    ensures r.Ok? ==> r.value == [COM_STMT_EXECUTE] + Block(id, bitmap, !AllNil(args), args)
  {
    bitmap := [];
    if |args| != params {
      return Err(ColsLenNotMatch), [];
    }
    var ok, nullBitmap, bound, types, values := Scan(args);
    if !ok {
      return Err(InvalidNumber), [];
    }
    var data: bytes := LittleEndian(id, 4) + [0] + [1, 0, 0, 0];
    if params > 0 {
      data := data + (nullBitmap + (if bound then [1] + types + values else [0]));
    }
    return Ok([COM_STMT_EXECUTE] + data), nullBitmap;
  }

  // ---------------------------------------------------------------- bindStmtArgs

  predicate IsText(tp: byte) {
    tp == 0 || tp == 7 || tp == 10 || tp == 11 || tp == 12 || tp == 14 || tp == 15 || tp == 16 || tp >= 0xf6
  }

  function Fixed(values: bytes, k: nat): Result<(int, nat)> {
    if |values| < k then Err(InvalidNumber) else Ok((FromLittleEndian(values[..k]), k))
  }

  /** One argument from the front of the values, and the bytes it takes. */
  function DecodeOne(tp: byte, unsigned: bool, values: bytes): (r: Result<(Arg, nat)>)
    ensures r.Ok? && !IsText(tp) ==> r.value.1 <= |values|
  {
    if tp == TYPE_NULL then Ok((Nil, 0))
    else if tp == TYPE_TINY then
      var (u, n) :- Fixed(values, 1);
      Ok((if unsigned then Uint8(u) else Int8(Signed(u, 1)), n))
    else if tp == TYPE_SHORT || tp == TYPE_YEAR then
      var (u, n) :- Fixed(values, 2);
      Ok((if unsigned then Uint16(u) else Int16(Signed(u, 2)), n))
    else if tp == TYPE_INT24 || tp == TYPE_LONG then
      var (u, n) :- Fixed(values, 4);
      Ok((if unsigned then Uint32(u) else Int32(Signed(u, 4)), n))
    else if tp == TYPE_LONGLONG then
      var (u, n) :- Fixed(values, 8);
      Ok((if unsigned then Uint64(u) else Int64(Signed(u, 8)), n))
    else if tp == TYPE_FLOAT then
      var (u, n) :- Fixed(values, 4);
      Ok((Float32(u), n))
    else if tp == TYPE_DOUBLE then
      var (u, n) :- Fixed(values, 8);
      Ok((Float64(u), n))
    else if IsText(tp) then
      if |values| < 1 then Err(InvalidNumber)
      else
        var (text, isNull, n) :- GetString(values);
        Ok((if isNull then Nil else Binary(text), n))
    else Err(InvalidNumber)
  }

  lemma FixedPayload(v: int, k: nat, rest: bytes)
    ensures Fixed(LittleEndian(v, k) + rest, k) == Ok((v % Pow256(k), k))
  {
    LittleEndianRoundTrip(v, k);
    assert (LittleEndian(v, k) + rest)[..k] == LittleEndian(v, k);
  }

  /** An encoded argument is read back under its canonical type, whatever follows it. */
  lemma DecodePayload(a: Arg, rest: bytes)
    requires InRange(a) && !a.Unsupported?
    ensures DecodeOne(TypeOf(a), SignOf(a) == 0x80, Payload(a) + rest) == Ok((Canonical(a), |Payload(a)|))
  {
    Pow256Values();
    match a
    case Nil =>
    case Unsupported =>
    case Str(text) => StringRoundTrip(text, rest);
    case Binary(text) => StringRoundTrip(text, rest);
    case Bool(b) => DecodeInteger(if b then 1 else 0, 1, rest);
    case Float32(bits) => DecodeInteger(bits, 4, rest);
    case Float64(bits) => DecodeInteger(bits, 8, rest);
    case Int8(_) => DecodeTiny(a, rest);
    case Uint8(_) => DecodeTiny(a, rest);
    case Int16(_) => DecodeShort(a, rest);
    case Uint16(_) => DecodeShort(a, rest);
    case Int32(_) => DecodeLong(a, rest);
    case Uint32(_) => DecodeLong(a, rest);
    case _ => DecodeLongLong(a, rest);
  }

  lemma DecodeTiny(a: Arg, rest: bytes)
    requires (a.Int8? || a.Uint8?) && InRange(a)
    ensures DecodeOne(TypeOf(a), SignOf(a) == 0x80, Payload(a) + rest) == Ok((Canonical(a), |Payload(a)|))
  {
    Pow256Values();
    DecodeInteger(a.v, 1, rest);
  }

  lemma DecodeShort(a: Arg, rest: bytes)
    requires (a.Int16? || a.Uint16?) && InRange(a)
    ensures DecodeOne(TypeOf(a), SignOf(a) == 0x80, Payload(a) + rest) == Ok((Canonical(a), |Payload(a)|))
  {
    Pow256Values();
    DecodeInteger(a.v, 2, rest);
  }

  lemma DecodeLong(a: Arg, rest: bytes)
    requires (a.Int32? || a.Uint32?) && InRange(a)
    ensures DecodeOne(TypeOf(a), SignOf(a) == 0x80, Payload(a) + rest) == Ok((Canonical(a), |Payload(a)|))
  {
    Pow256Values();
    DecodeInteger(a.v, 4, rest);
  }

  lemma DecodeLongLong(a: Arg, rest: bytes)
    requires (a.Int? || a.Int64? || a.Uint? || a.Uint64?) && InRange(a)
    ensures DecodeOne(TypeOf(a), SignOf(a) == 0x80, Payload(a) + rest) == Ok((Canonical(a), |Payload(a)|))
  {
    Pow256Values();
    DecodeInteger(a.v, 8, rest);
  }

  lemma DecodeInteger(v: int, k: nat, rest: bytes)
    requires k == 1 || k == 2 || k == 4 || k == 8
    ensures LittleEndian(v, 1) == [Low(v)]
    ensures Fixed(LittleEndian(v, k) + rest, k) == Ok((v % Pow256(k), k))
    ensures -Pow256(k) <= 2 * v < Pow256(k) ==> Signed(v % Pow256(k), k) == v
    ensures 0 <= v < Pow256(k) ==> v % Pow256(k) == v
  {
    FixedPayload(v, k, rest);
    assert LittleEndian(v, 1) == [Low(v)] + LittleEndian(v / 256, 0);
    if -Pow256(k) <= 2 * v < Pow256(k) {
      SignedRoundTrip(v, k);
    }
    if 0 <= v < Pow256(k) {
      ModUnique(v, Pow256(k), 0, v);
    }
  }

  function Prepend(front: seq<Arg>, r: Result<seq<Arg>>): Result<seq<Arg>> {
    if r.Err? then r else Ok(front + r.value)
  }

  lemma PrependTwice(a: seq<Arg>, b: seq<Arg>, r: Result<seq<Arg>>)
    ensures Prepend(a, Prepend(b, r)) == Prepend(a + b, r)
  {
    if r.Ok? {
      assert a + (b + r.value) == a + b + r.value;
    }
  }

  /** Argument number `i`, its value starting at `pos`, and the bytes it takes. */
  function ArgAt(i: nat, pos: nat, bitmap: bytes, types: bytes, values: bytes): Result<(Arg, nat)> {
    if i / 8 >= |bitmap| then Err(Panicked)
    else if Bit(bitmap[i / 8], i % 8) then Ok((Nil, 0))
    else if |types| < 2 * i + 2 || pos > |values| then Err(Panicked)
    else DecodeOne(types[2 * i], types[2 * i + 1] >= 0x80, values[pos..])
  }

  /** How to read argument `i` at `pos`. */
  type Reader = (nat, nat) -> Result<(Arg, nat)>

  function ReaderOf(bitmap: bytes, types: bytes, values: bytes): Reader {
    (i, pos) => ArgAt(i, pos, bitmap, types, values)
  }

  /** The arguments from number `i` on, their values starting at `pos`. */
  function DecodeFrom(params: nat, i: nat, pos: nat, read: Reader): Result<seq<Arg>>
    requires i <= params
    decreases params - i
  {
    if i == params then Ok([])
    else
      var (a, n) :- read(i, pos);
      Prepend([a], DecodeFrom(params, i + 1, pos + n, read))
  }

  function Decode(params: nat, bitmap: bytes, types: bytes, values: bytes): Result<seq<Arg>> {
    DecodeFrom(params, 0, 0, ReaderOf(bitmap, types, values))
  }

  lemma DecodeNext(params: nat, i: nat, pos: nat, read: Reader, done: seq<Arg>)
    requires i < params
    ensures read(i, pos).Err? ==> Prepend(done, DecodeFrom(params, i, pos, read)).Err?
    ensures read(i, pos).Ok? ==>
              Prepend(done, DecodeFrom(params, i, pos, read)) ==
              Prepend(done + [read(i, pos).value.0], DecodeFrom(params, i + 1, pos + read(i, pos).value.1, read))
  {
    if read(i, pos).Ok? {
      var (a, n) := read(i, pos).value;
      PrependTwice(done, [a], DecodeFrom(params, i + 1, pos + n, read));
    }
  }

  lemma PrefixUpdated(args: seq<Arg>, i: nat, a: Arg)
    requires i < |args|
    ensures args[i := a][..i + 1] == args[..i] + [a]
  {
  }

  lemma PrependEnds(args: seq<Arg>, r: Result<seq<Arg>>)
    ensures Prepend(args[..0], r) == r
    ensures Prepend(args[..|args|], Ok([])) == Ok(args)
  {
    assert args[..0] == [] && args[..|args|] + [] == args;
    if r.Ok? {
      assert [] + r.value == r.value;
    }
  }

  /** `read` reads these bytes. */
  ghost predicate Reads(read: Reader, bitmap: bytes, types: bytes, values: bytes) {
    forall i: nat, pos: nat {:trigger ArgAt(i, pos, bitmap, types, values)} ::
      read(i, pos) == ArgAt(i, pos, bitmap, types, values)
  }

  /** One turn of bindStmtArgs. */
  method ReadArg(i: nat, pos: nat, bitmap: bytes, types: bytes, values: bytes, ghost read: Reader)
    returns (one: Result<(Arg, nat)>)
    requires Reads(read, bitmap, types, values)
    ensures one == read(i, pos)
  {
    one := ArgAt(i, pos, bitmap, types, values);
  }

  class Stmt {
    const params: nat
    var args: seq<Arg>

    constructor (params: nat)
      ensures this.params == params && |args| == params
    {
      this.params := params;
      args := seq(params, _ => Nil);
    }

    /** bindStmtArgs: the arguments that `Decode` reads. */
    method BindStmtArgs(bitmap: bytes, types: bytes, values: bytes) returns (ok: bool)
      requires |args| == params
      modifies `args
      ensures |args| == params
      ensures ok <==> Decode(params, bitmap, types, values).Ok?
      ensures ok ==> args == Decode(params, bitmap, types, values).value
    {
      ok := BindLoop(bitmap, types, values, ReaderOf(bitmap, types, values));
    }

    method BindLoop(bitmap: bytes, types: bytes, values: bytes, ghost read: Reader) returns (ok: bool)
      requires |args| == params && Reads(read, bitmap, types, values)
      modifies `args
      ensures |args| == params
      ensures ok <==> DecodeFrom(params, 0, 0, read).Ok?
      ensures ok ==> args == DecodeFrom(params, 0, 0, read).value
    {
      var pos := 0;
      PrependEnds(args, DecodeFrom(params, 0, 0, read));
      for i := 0 to params
        invariant |args| == params && 0 <= pos
        invariant DecodeFrom(params, 0, 0, read) == Prepend(args[..i], DecodeFrom(params, i, pos, read))
      {
        DecodeNext(params, i, pos, read, args[..i]);
        var one := ReadArg(i, pos, bitmap, types, values, read);
        if one.Err? {
          return false;
        }
        PrefixUpdated(args, i, one.value.0);
        args := args[i := one.value.0];
        pos := pos + one.value.1;
      }
      PrependEnds(args, Ok([]));
      return true;
    }
  }

  /** The parameter block of handleStmtExecute: bitmap, flag, types, values. */
  function HandleStmtExecute(params: nat, data: bytes): Result<seq<Arg>> {
    var n := (params + 7) / 8;
    if |data| < 9 then Err(InvalidNumber)
    else if data[4] != 0 then Err(InvalidNumber)
    else if params == 0 then Ok([])
    else if |data| < 9 + n + 1 then Err(InvalidNumber)
    else
      var bitmap := data[9..9 + n];
      if data[9 + n] == 1 then
        if |data| < 9 + n + 1 + 2 * params then Err(InvalidNumber)
        else Decode(params, bitmap, data[9 + n + 1..9 + n + 1 + 2 * params], data[9 + n + 1 + 2 * params..])
      else Decode(params, bitmap, [], [])
  }

  function CanonicalAll(args: seq<Arg>): (r: seq<Arg>)
    ensures |r| == |args|
  {
    seq(|args|, i requires 0 <= i < |args| => Canonical(args[i]))
  }

  predicate Encodable(args: seq<Arg>) {
    forall i :: 0 <= i < |args| ==> InRange(args[i]) && !args[i].Unsupported?
  }

  lemma SpreadFrom(args: seq<Arg>, part: Arg -> bytes, i: nat)
    requires i < |args|
    ensures |Spread(args[..i + 1], part)| == |Spread(args[..i], part)| + |part(args[i])| <= |Spread(args, part)|
    ensures Spread(args, part)[|Spread(args[..i], part)|..] == part(args[i]) + Spread(args[i + 1..], part)
  {
    SpreadNext(args, part, i);
    assert args == args[..i + 1] + args[i + 1..];
    SpreadAppend(args[..i + 1], args[i + 1..], part);
    AfterPrefix(Spread(args[..i], part), part(args[i]), Spread(args[i + 1..], part));
  }

  lemma AfterPrefix(a: bytes, b: bytes, c: bytes)
    ensures (a + b + c)[|a|..] == b + c
  {
  }

  /** Argument `i` is read from its place under its canonical type. */
  lemma ArgAtPlace(args: seq<Arg>, i: nat, pos: nat, bitmap: bytes, types: bytes, values: bytes, rest: bytes)
    requires i < |args| && InRange(args[i]) && !args[i].Unsupported? && IsBitmap(bitmap, args, |args|)
    requires args[i].Nil? || (types == Types(args) && pos <= |values| && values[pos..] == Payload(args[i]) + rest)
    ensures ArgAt(i, pos, bitmap, types, values) == Ok((Canonical(args[i]), |Payload(args[i])|))
  {
    BitmapBit(bitmap, args, i);
    if !args[i].Nil? {
      TypesAt(args, i);
      DecodePayload(args[i], rest);
    }
  }

  /** Each argument is found where the one before it ends. */
  ghost predicate InPlace(read: Reader, places: seq<nat>, out: seq<Arg>, k: nat)
    requires k < |out| && |places| == |out| + 1
  {
    places[k] <= places[k + 1] && read(k, places[k]) == Ok((out[k], places[k + 1] - places[k]))
  }

  /** If each argument is found where the one before it ends, all of them are decoded. */
  lemma {:induction false} DecodeChain(i: nat, places: seq<nat>, out: seq<Arg>, read: Reader)
    requires i <= |out| && |places| == |out| + 1
    requires forall k :: 0 <= k < |out| ==> InPlace(read, places, out, k)
    ensures DecodeFrom(|out|, i, places[i], read) == Ok(out[i..])
    decreases |out| - i
  {
    if i == |out| {
      assert out[i..] == [];
    } else {
      assert InPlace(read, places, out, i);
      DecodeChain(i + 1, places, out, read);
      assert out[i..] == [out[i]] + out[i + 1..];
    }
  }

  /** Where the value of each argument starts, and where the last one ends. */
  function Places(args: seq<Arg>): (places: seq<nat>)
    ensures |places| == |args| + 1
  {
    seq(|args| + 1, k requires 0 <= k <= |args| => |Values(args[..k])|)
  }

  lemma ArgInPlace(args: seq<Arg>, k: nat, bitmap: bytes)
    requires k < |args| && Encodable(args) && IsBitmap(bitmap, args, |args|)
    ensures InPlace(ReaderOf(bitmap, Types(args), Values(args)), Places(args), CanonicalAll(args), k)
  {
    SpreadFrom(args, Payload, k);
    ArgAtPlace(args, k, |Values(args[..k])|, bitmap, Types(args), Values(args), Values(args[k + 1..]));
  }

  lemma DecodeValues(args: seq<Arg>, bitmap: bytes)
    requires Encodable(args) && IsBitmap(bitmap, args, |args|)
    ensures Decode(|args|, bitmap, Types(args), Values(args)) == Ok(CanonicalAll(args))
  {
    var read, places, out := ReaderOf(bitmap, Types(args), Values(args)), Places(args), CanonicalAll(args);
    forall k | 0 <= k < |args|
      ensures InPlace(read, places, out, k)
    {
      ArgInPlace(args, k, bitmap);
    }
    NothingBefore(args);
    assert out[0..] == out;
    DecodeChain(0, places, out, read);
  }

  lemma NothingBefore(args: seq<Arg>)
    ensures Places(args)[0] == 0
  {
    assert args[..0] == [];
  }

  lemma DecodeNulls(args: seq<Arg>, bitmap: bytes)
    requires AllNil(args) && IsBitmap(bitmap, args, |args|)
    ensures Decode(|args|, bitmap, [], []) == Ok(CanonicalAll(args))
  {
    var read, out := ReaderOf(bitmap, [], []), CanonicalAll(args);
    var places: seq<nat> := seq(|args| + 1, _ => 0);
    forall k | 0 <= k < |args|
      ensures InPlace(read, places, out, k)
    {
      ArgAtPlace(args, k, 0, bitmap, [], [], []);
    }
    assert out[0..] == out;
    DecodeChain(0, places, out, read);
  }

  lemma HandleBound(params: nat, head: bytes, bitmap: bytes, t: bytes, v: bytes)
    requires params > 0 && |head| == 9 && head[4] == 0 && |bitmap| == (params + 7) / 8 && |t| == 2 * params
    ensures HandleStmtExecute(params, head + (bitmap + ([1] + t + v))) == Decode(params, bitmap, t, v)
  {
    var data, n := head + (bitmap + ([1] + t + v)), |bitmap|;
    assert data[4] == 0 && data[9 + n] == 1;
    assert data[9..9 + n] == bitmap;
    assert data[9 + n + 1..9 + n + 1 + 2 * params] == t;
    assert data[9 + n + 1 + 2 * params..] == v;
  }

  lemma HandleUnbound(params: nat, head: bytes, bitmap: bytes)
    requires params > 0 && |head| == 9 && head[4] == 0 && |bitmap| == (params + 7) / 8
    ensures HandleStmtExecute(params, head + (bitmap + [0])) == Decode(params, bitmap, [], [])
  {
    var data, n := head + (bitmap + [0]), |bitmap|;
    assert data[4] == 0 && data[9 + n] == 0;
    assert data[9..9 + n] == bitmap;
  }

  /** COM_STMT_EXECUTE round trip: for every list of supported arguments with any pattern of NULLs, the
      front end decodes from the encoded block the same arguments, under their canonical types. */
  lemma ExecuteRoundTrip(id: int, args: seq<Arg>, bitmap: bytes)
    requires Encodable(args) && IsBitmap(bitmap, args, |args|)
    ensures HandleStmtExecute(|args|, Block(id, bitmap, !AllNil(args), args)) == Ok(CanonicalAll(args))
  {
    var head := LittleEndian(id, 4) + [0] + [1, 0, 0, 0];
    assert |head| == 9 && head[4] == 0;
    if args == [] {
      assert (head + [])[4] == 0;
    } else if AllNil(args) {
      HandleUnbound(|args|, head, bitmap);
      DecodeNulls(args, bitmap);
    } else {
      TypesLength(args);
      HandleBound(|args|, head, bitmap, Types(args), Values(args));
      DecodeValues(args, bitmap);
    }
  }

  /** The statement the packet is for. */
  function StmtId(data: bytes): Result<int> {
    if |data| < 9 then Err(InvalidNumber) else Ok(FromLittleEndian(data[..4]))
  }

  /** The front end reads back the number of the statement, and finds no cursor asked for and one iteration. */
  lemma HeadRoundTrip(id: int, args: seq<Arg>, bitmap: bytes, bound: bool)
    requires 0 <= id < 0x1_0000_0000
    ensures var data := Block(id, bitmap, bound, args);
            StmtId(data) == Ok(id) && data[4] == 0 && data[5..9] == [1, 0, 0, 0]
  {
    Pow256Values();
    LittleEndianRoundTrip(id, 4);
    var data := Block(id, bitmap, bound, args);
    assert data[..4] == LittleEndian(id, 4);
    assert id % Pow256(4) == id;
  }

  /** The type codes of the protocol, and the flag of unsigned types. */
  lemma TypeCodes(v: int, b: bool, text: bytes)
    ensures TypeBytes(Int8(v)) == [1, 0] && TypeBytes(Int16(v)) == [2, 0] && TypeBytes(Int32(v)) == [3, 0]
    ensures TypeBytes(Int(v)) == TypeBytes(Int64(v)) == [8, 0] && TypeBytes(Bool(b)) == [1, 0] && TypeBytes(Nil) == [6, 0]
    ensures TypeBytes(Uint8(v)) == [1, 0x80] && TypeBytes(Uint16(v)) == [2, 0x80] && TypeBytes(Uint32(v)) == [3, 0x80]
    ensures TypeBytes(Uint(v)) == TypeBytes(Uint64(v)) == [8, 0x80]
    ensures TypeBytes(Float32(v)) == [4, 0] && TypeBytes(Float64(v)) == [5, 0]
    ensures TypeBytes(Str(text)) == TypeBytes(Binary(text)) == [0xfe, 0]
    ensures COM_STMT_EXECUTE == 23
  {
  }

  /** The canonical type keeps the value: numbers, bit patterns and bytes, and truth as one and zero. */
  lemma CanonicalKeeps(v: int, text: bytes)
    ensures Canonical(Int(v)) == Canonical(Int64(v)) == Int64(v) && Canonical(Uint(v)) == Canonical(Uint64(v)) == Uint64(v)
    ensures Canonical(Int8(v)) == Int8(v) && Canonical(Int16(v)) == Int16(v) && Canonical(Int32(v)) == Int32(v)
    ensures Canonical(Uint8(v)) == Uint8(v) && Canonical(Uint16(v)) == Uint16(v) && Canonical(Uint32(v)) == Uint32(v)
    ensures Canonical(Bool(true)) == Int8(1) && Canonical(Bool(false)) == Int8(0) && Canonical(Nil) == Nil
    ensures Canonical(Float32(v)) == Float32(v) && Canonical(Float64(v)) == Float64(v)
    ensures Canonical(Str(text)) == Canonical(Binary(text)) == Binary(text)
  {
  }

  /** The first argument is the lowest bit of the first byte, the ninth that of the second. */
  lemma BitmapBytes(a: Arg, b: bytes)
    requires !a.Nil?
    ensures IsBitmap(b, [Nil], 1) ==> b == [1]
    ensures IsBitmap(b, [a, Nil], 2) ==> b == [2]
    ensures IsBitmap(b, [a, a, a, a, a, a, a, a, Nil], 9) ==> b == [0, 1]
  {
    BitsAre(NullBits([Nil], 1, 0), 0);
    BitsAre(NullBits([a, Nil], 2, 0), 1);
    var nine := [a, a, a, a, a, a, a, a, Nil];
    NoBits(NullBits(nine, 9, 0));
    BitsAre(NullBits(nine, 9, 1), 0);
    Power2IsPow2(0);
    Power2IsPow2(1);
  }

  /** A single bit has its power of two. */
  lemma BitsAre(bits: seq<bool>, k: nat)
    requires |bits| == 8 && k < 8 && forall i :: 0 <= i < 8 ==> (bits[i] <==> i == k)
    ensures Value(bits) == Pow2(k)
  {
    var none := seq(8, _ => false);
    NoBits(none);
    ValueSet(none, k);
    assert none[k := true] == bits;
  }

  /** What other clients send: years as two bytes, medium integers as four, and decimals, dates, times and
      strings of all kinds as length-encoded text. */
  lemma OtherTypes(tp: byte, u: int, text: bytes, rest: bytes)
    requires 0 <= u < 0x8000 && |text| <= MAX_INT64 - 9
    ensures DecodeOne(13, true, LittleEndian(u, 2) + rest) == Ok((Uint16(u), 2))
    ensures DecodeOne(9, false, LittleEndian(u, 4) + rest) == Ok((Int32(u), 4))
    ensures DecodeOne(9, true, LittleEndian(u, 4) + rest) == Ok((Uint32(u), 4))
    ensures tp in [0, 7, 10, 11, 12, 14, 15, 16] || tp >= 246 ==>
              DecodeOne(tp, false, PutInt(|text|) + text + rest) == Ok((Binary(text), |PutInt(|text|)| + |text|))
    ensures tp == 17 || tp == 100 ==> DecodeOne(tp, false, rest).Err?
  {
    Pow256Values();
    DecodeInteger(u, 2, rest);
    DecodeInteger(u, 4, rest);
    StringRoundTrip(text, rest);
  }

}
