/** SQL string literals: the printer (sqltypes/sqltypes.go) and the scanner (sqlparser/token.go). */
module SqlLiteral {
  import opened Bytes

  const DONTESCAPE: byte := 255
  const EOFCHAR: int := 0x100
  const QUOTE: byte := 39
  const BACKSLASH: byte := 92

  /** encodeRef: the letter written after a backslash for a special byte. */
  const ENCODE_REF: map<byte, byte> :=
    map[0 := 48, 39 := 39, 34 := 34, 8 := 98, 10 := 110, 13 := 114, 9 := 116, 26 := 90, 92 := 92]

  function EncodeChar(c: byte): byte {
    if c in ENCODE_REF then ENCODE_REF[c] else DONTESCAPE
  }

  function DecodeChar(c: byte): byte {
    if c == 48 then 0 else if c == 39 then 39 else if c == 34 then 34 else if c == 98 then 8
    else if c == 110 then 10 else if c == 114 then 13 else if c == 116 then 9 else if c == 90 then 26
    else if c == 92 then 92 else DONTESCAPE
  }

  lemma DecodeEncoded(c: byte)
    requires EncodeChar(c) != DONTESCAPE
    ensures DecodeChar(EncodeChar(c)) == c && c != DONTESCAPE
  {
  }

  /** init: the two tables are filled from the one reference map. */
  method InitMaps() returns (encode: bytes, decode: bytes)
    ensures |encode| == |decode| == 256
    ensures forall i :: 0 <= i < 256 ==> encode[i] == EncodeChar(i as byte) && decode[i] == DecodeChar(i as byte)
  {
    encode := seq(256, _ => DONTESCAPE);
    decode := seq(256, _ => DONTESCAPE);
    for i := 0 to 256
      invariant |encode| == |decode| == 256
      invariant forall k :: 0 <= k < 256 ==> encode[k] == if k < i then EncodeChar(k as byte) else DONTESCAPE
      invariant forall k :: 0 <= k < 256 ==>
                  decode[k] == if (DecodeChar(k as byte) as int) < i then DecodeChar(k as byte) else DONTESCAPE
    {
      var c := i as byte;
      if c in ENCODE_REF {
        var to := ENCODE_REF[c];
        encode := encode[i := to];
        decode := decode[to as int := c];
      }
    }
  }

  /** The nine bytes that are escaped, and their letters: NUL 0, quotes, backspace b, newline n, return r,
      tab t, Ctrl-Z Z, backslash. */
  lemma EscapeLetters(c: byte)
    ensures EncodeChar(0) == '0' as int as byte && EncodeChar(8) == 'b' as int as byte && EncodeChar(9) == 't' as int as byte
    ensures EncodeChar(10) == 'n' as int as byte && EncodeChar(13) == 'r' as int as byte && EncodeChar(26) == 'Z' as int as byte
    ensures EncodeChar(34) == 34 && EncodeChar(39) == 39 && EncodeChar(92) == 92
    ensures c !in [0, 8, 9, 10, 13, 26, 34, 39, 92] ==> EncodeChar(c) == DONTESCAPE
    ensures QUOTE == 39 && BACKSLASH == 92
  {
  }

  /** The bytes between the quotes. */
  function Escaped(s: bytes): bytes {
    if s == [] then []
    else EscapedOne(s[0]) + Escaped(s[1..])
  }

  function EscapedOne(c: byte): bytes {
    if EncodeChar(c) == DONTESCAPE then [c] else [BACKSLASH, EncodeChar(c)]
  }

  method EncodeSql(s: bytes) returns (b: bytes)
    ensures b == [QUOTE] + Escaped(s) + [QUOTE]
  {
    b := [QUOTE];
    for i := 0 to |s|
      invariant b + Escaped(s[i..]) == [QUOTE] + Escaped(s)
    {
      assert s[i..][0] == s[i] && s[i..][1..] == s[i + 1..];
      assert Escaped(s[i..]) == EscapedOne(s[i]) + Escaped(s[i + 1..]);
      ghost var before := b;
      var c := EncodeChar(s[i]);
      if c == DONTESCAPE {
        b := b + [s[i]];
      } else {
        b := b + [BACKSLASH];
        b := b + [c];
      }
      assert b == before + EscapedOne(s[i]);
    }
    assert s[|s|..] == [];
    b := b + [QUOTE];
  }

  // ---------------------------------------------------------------- scanning

  datatype Scanned = Token(text: bytes, rest: bytes) | LexError

  function Prepend(front: bytes, r: Scanned): Scanned {
    if r.LexError? then LexError else r.(text := front + r.text)
  }

  /** The token whose opening quote has just been read. */
  function Scan(delim: byte, s: bytes): Scanned {
    if s == [] then LexError
    else if s[0] == delim then
      if |s| > 1 && s[1] == delim then Prepend([delim], Scan(delim, s[2..])) else Token([], s[1..])
    else if s[0] == BACKSLASH then
      if |s| == 1 then LexError
      else Prepend([if DecodeChar(s[1]) == DONTESCAPE then s[1] else DecodeChar(s[1])], Scan(delim, s[2..]))
    else Prepend([s[0]], Scan(delim, s[1..]))
  }

  /** An escaped byte is scanned back whatever follows. */
  lemma EscapedByte(c: byte, more: bytes)
    ensures Scan(QUOTE, EscapedOne(c) + more) == Prepend([c], Scan(QUOTE, more))
  {
    var all := EscapedOne(c) + more;
    if EncodeChar(c) == DONTESCAPE {
      assert c != QUOTE && c != BACKSLASH;
      assert all[1..] == more;
    } else {
      DecodeEncoded(c);
      assert all[2..] == more;
    }
  }

  lemma OneMoreByte(c: byte, more: bytes, rest: bytes, r: Scanned, all: bytes)
    requires all == EscapedOne(c) + more && Scan(QUOTE, more) == Prepend(rest, r)
    ensures Scan(QUOTE, all) == Prepend([c] + rest, r)
  {
    EscapedByte(c, more);
    PrependTwice([c], rest, r);
  }

  lemma JoinThree(a: bytes, b: bytes, c: bytes)
    ensures a + b + c == a + (b + c)
  {
  }

  lemma EscapedSplit(s: bytes, tail: bytes)
    requires s != []
    ensures Escaped(s) + tail == EscapedOne(s[0]) + (Escaped(s[1..]) + tail)
    ensures s == [s[0]] + s[1..]
  {
    var first, more := EscapedOne(s[0]), Escaped(s[1..]);
    assert Escaped(s) == first + more;
    JoinThree(first, more, tail);
  }

  lemma {:induction false} ScanEscaped(s: bytes, tail: bytes)
    ensures Scan(QUOTE, Escaped(s) + tail) == Prepend(s, Scan(QUOTE, tail))
  {
    if s == [] {
      assert Escaped(s) + tail == tail;
    } else {
      ScanEscaped(s[1..], tail);
      EscapedSplit(s, tail);
      OneMoreByte(s[0], Escaped(s[1..]) + tail, s[1..], Scan(QUOTE, tail), Escaped(s) + tail);
    }
  }

  lemma PrependTwice(a: bytes, b: bytes, r: Scanned)
    ensures Prepend(a, Prepend(b, r)) == Prepend(a + b, r)
  {
    if r.Token? {
      assert a + (b + r.text) == a + b + r.text;
    }
  }

  /** A quote followed by another is not the end. */
  lemma ClosingQuote(rest: bytes)
    ensures rest == [] || rest[0] != QUOTE ==> Scan(QUOTE, [QUOTE] + rest) == Token([], rest)
    ensures rest != [] && rest[0] == QUOTE ==>
              Scan(QUOTE, [QUOTE] + rest).LexError? || Scan(QUOTE, [QUOTE] + rest).text != []
  {
    var tail := [QUOTE] + rest;
    assert tail[1..] == rest;
    assert rest != [] ==> tail[1] == rest[0];
  }

  /** SQL literal round trip: every byte string is scanned back from its literal, stopping just past
      the closing quote, exactly when no further quote follows. */
  lemma LiteralRoundTrip(s: bytes, rest: bytes)
    ensures Scan(QUOTE, Escaped(s) + [QUOTE] + rest) == Token(s, rest) <==> (rest == [] || rest[0] != QUOTE)
  {
    JoinThree(Escaped(s), [QUOTE], rest);
    ScanEscaped(s, [QUOTE] + rest);
    ClosingQuote(rest);
    assert s + [] == s;
    var last := Scan(QUOTE, [QUOTE] + rest);
    assert last.Token? && last.text != [] ==> |s + last.text| > |s|;
  }

  /** How a literal is read: a doubled quote is one quote, a backslash in front of a byte without a meaning of
      its own gives that byte, and a literal without its closing quote is an error. */
  lemma ScanReads(delim: byte, c: byte, rest: bytes)
    requires delim != BACKSLASH
    ensures rest == [] || rest[0] != delim ==> Scan(delim, [delim] + rest) == Token([], rest)
    ensures Scan(delim, [delim, delim] + rest) == Prepend([delim], Scan(delim, rest))
    ensures c != delim && c != BACKSLASH ==> Scan(delim, [c] + rest) == Prepend([c], Scan(delim, rest))
    ensures DecodeChar(c) == DONTESCAPE ==> Scan(delim, [BACKSLASH, c] + rest) == Prepend([c], Scan(delim, rest))
    ensures Scan(delim, []) == LexError && Scan(delim, [BACKSLASH]) == LexError
  {
    var one, two, back := [delim] + rest, [delim, delim] + rest, [BACKSLASH, c] + rest;
    assert one[1..] == rest && two[2..] == rest && back[2..] == rest;
    assert ([c] + rest)[1..] == rest;
  }

  class Tokenizer {
    var InStream: bytes
    var lastChar: int
    var Position: nat

    /** One character of lookahead; the end of input is only reached once. */
    ghost predicate Valid()
      reads this
    {
      0 <= lastChar <= EOFCHAR && (lastChar == EOFCHAR ==> InStream == [])
    }

    ghost function Remaining(): bytes
      requires Valid()
      reads this
    {
      if lastChar == EOFCHAR then [] else [lastChar as byte] + InStream
    }

    constructor (input: bytes)
      ensures Valid() && Remaining() == input
    {
      Position := 1;
      if input == [] {
        lastChar, InStream := EOFCHAR, [];
      } else {
        lastChar, InStream := input[0] as int, input[1..];
      }
    }

    method Next()
      requires Valid()
      modifies this
      ensures Valid() && Position == old(Position) + 1
      ensures Remaining() == if old(Remaining()) == [] then [] else old(Remaining())[1..]
    {
      if InStream == [] {
        lastChar := EOFCHAR;
      } else {
        lastChar, InStream := InStream[0] as int, InStream[1..];
      }
      Position := Position + 1;
    }

    /** scanString ends on every input, with the token that `Scan` describes. */
    method ScanString(delim: byte) returns (ok: bool, buffer: bytes)
      requires Valid()
      modifies this
      ensures Valid()
      ensures ok <==> Scan(delim, old(Remaining())).Token?
      ensures ok ==> Token(buffer, Remaining()) == Scan(delim, old(Remaining()))
    {
      buffer := [];
      ghost var whole := Scan(delim, Remaining());
      assert whole == Prepend([], whole);
      while true
        invariant Valid()
        invariant whole == Prepend(buffer, Scan(delim, Remaining()))
        decreases |Remaining()|
      {
        ghost var s, done := Remaining(), buffer;
        var ch := lastChar;
        Next();
        if ch == delim as int {
          if lastChar == delim as int {
            Next();
          } else {
            break;
          }
        } else if ch == BACKSLASH as int {
          if lastChar == EOFCHAR {
            return false, buffer;
          }
          var decoded := DecodeChar(lastChar as byte);
          ch := if decoded == DONTESCAPE then lastChar else decoded as int;
          Next();
        }
        if ch == EOFCHAR {
          return false, buffer;
        }
        buffer := buffer + [ch as byte];
        assert Scan(delim, s) == Prepend([ch as byte], Scan(delim, Remaining()));
        PrependTwice(done, [ch as byte], Scan(delim, Remaining()));
      }
      ok := true;
    }
  }
}
