/** MySQL packets: payloads are cut into chunks, each under a 4-byte header that is written over the
    caller's buffer (mysql/packetio.go; section 14.1.2 of the MySQL Internals Manual). */
module PacketIO {
  import opened Bytes

  const MAX_PAYLOAD_LEN: int := 0xff_ffff

  /** uint8 arithmetic */
  function Next(sequence: byte): byte {
    ((sequence as int + 1) % 256) as byte
  }

  /** Three length bytes and the sequence number. */
  function Header(length: int, sequence: byte): bytes {
    [Low(length), Low(length / 256), Low(length / 65536), sequence]
  }

  function Length(header: bytes): int
    requires |header| >= 3
  {
    header[0] as int + header[1] as int * 256 + header[2] as int * 65536
  }

  lemma HeaderLength(n: int, sequence: byte)
    requires 0 <= n <= MAX_PAYLOAD_LEN
    ensures Length(Header(n, sequence)) == n
  {
  }

  /** The bytes on the wire for a payload. */
  function Frames(payload: bytes, sequence: byte): bytes
    decreases |payload|
  {
    if |payload| >= MAX_PAYLOAD_LEN
    then [255, 255, 255, sequence] + payload[..MAX_PAYLOAD_LEN] + Frames(payload[MAX_PAYLOAD_LEN..], Next(sequence))
    else Header(|payload|, sequence) + payload
  }

  /** The sequence number after them. */
  function After(payload: bytes, sequence: byte): byte
    decreases |payload|
  {
    if |payload| >= MAX_PAYLOAD_LEN then After(payload[MAX_PAYLOAD_LEN..], Next(sequence)) else Next(sequence)
  }

  /** A packet that fits one chunk: its length in three bytes, least significant first, the sequence number,
      and the payload. The sequence number counts modulo 256. */
  lemma FrameBytes(payload: bytes, sequence: byte)
    requires |payload| < MAX_PAYLOAD_LEN
    ensures var b, n := Frames(payload, sequence), |payload|;
            && |b| == n + 4 && b[4..] == payload && b[3] == sequence
            && b[0] as int == n % 256 && b[1] as int == n / 256 % 256 && b[2] as int == n / 65536
    ensures After(payload, sequence) as int == if sequence == 255 then 0 else sequence as int + 1
  {
    var n := |payload|;
    assert n / 65536 < 256;
  }

  datatype ReadResult = Packet(payload: bytes, rest: bytes, sequence: byte) | BadPacket

  function Prepend(data: bytes, r: ReadResult): ReadResult {
    if r.BadPacket? then BadPacket else r.(payload := data + r.payload)
  }

  /** ReadPacket, on the bytes that are still to be read. */
  function Read(stream: bytes, sequence: byte): ReadResult
    decreases |stream|
  {
    if |stream| < 4 then BadPacket
    else
      var length := Length(stream[..4]);
      if length < 1 || stream[3] != sequence || |stream| < 4 + length then BadPacket
      else
        var data, rest := stream[4..4 + length], stream[4 + length..];
        if length < MAX_PAYLOAD_LEN then Packet(data, rest, Next(sequence))
        else Prepend(data, Read(rest, Next(sequence)))
  }

  lemma ReadFrame(header: bytes, data: bytes, rest: bytes, sequence: byte)
    requires |header| == 4 && header[3] == sequence && Length(header) == |data|
    ensures Read(header + data + rest, sequence) ==
            if |data| < 1 then BadPacket
            else if |data| < MAX_PAYLOAD_LEN then Packet(data, rest, Next(sequence))
            else Prepend(data, Read(rest, Next(sequence)))
  {
    var stream := header + data + rest;
    assert stream[..4] == header;
    assert |stream| >= 4 + |data|;
    assert stream[4..4 + |data|] == data && stream[4 + |data|..] == rest;
  }

  /** Packet round trip: reading what was written gives back the payload, leaves the rest of the stream
      and brings both sequence counters to the same value, exactly when the length is not a multiple of
      the largest chunk; otherwise the empty closing chunk is refused. */
  lemma {:induction false} PacketRoundTrip(payload: bytes, sequence: byte, rest: bytes)
    ensures Read(Frames(payload, sequence) + rest, sequence) ==
            if |payload| % MAX_PAYLOAD_LEN != 0 then Packet(payload, rest, After(payload, sequence)) else BadPacket
    decreases |payload|
  {
    if |payload| >= MAX_PAYLOAD_LEN {
      var chunk, more := payload[..MAX_PAYLOAD_LEN], payload[MAX_PAYLOAD_LEN..];
      PacketRoundTrip(more, Next(sequence), rest);
      OneChunkLess(|payload|);
      FirstFrame(payload, sequence, rest);
      ReadFrame([255, 255, 255, sequence], chunk, Frames(more, Next(sequence)) + rest, sequence);
      assert chunk + more == payload;
    } else {
      HeaderLength(|payload|, sequence);
      assert Frames(payload, sequence) + rest == Header(|payload|, sequence) + payload + rest;
      ReadFrame(Header(|payload|, sequence), payload, rest, sequence);
      assert |payload| % MAX_PAYLOAD_LEN == |payload|;
    }
  }

  lemma OneChunkLess(n: int)
    requires n >= MAX_PAYLOAD_LEN
    ensures (n - MAX_PAYLOAD_LEN) % MAX_PAYLOAD_LEN == n % MAX_PAYLOAD_LEN
  {
  }

  lemma FirstFrame(payload: bytes, sequence: byte, rest: bytes)
    requires |payload| >= MAX_PAYLOAD_LEN
    ensures Frames(payload, sequence) + rest ==
            [255, 255, 255, sequence] + payload[..MAX_PAYLOAD_LEN] +
            (Frames(payload[MAX_PAYLOAD_LEN..], Next(sequence)) + rest)
  {
    var a, b, c := [255, 255, 255, sequence], payload[..MAX_PAYLOAD_LEN], Frames(payload[MAX_PAYLOAD_LEN..], Next(sequence));
    assert a + b + c + rest == a + b + (c + rest);
  }

  // ---------------------------------------------------------------- the connection

  class Conn {
    var Sequence: byte
    /** what has been written */
    var wire: bytes
    /** what can still be read */
    var inbox: bytes

    constructor (inbox: bytes)
      ensures Sequence == 0 && wire == [] && this.inbox == inbox
    {
      Sequence, wire, this.inbox := 0, [], inbox;
    }

    /** WritePacket: `data` has room for a header in front of the payload. Each later header overwrites
        the last bytes of the chunk just sent; what goes out is the framing of the payload as it was. */
    method WritePacket(data: array<byte>)
      requires data.Length >= 4
      modifies this`Sequence, this`wire, data
      ensures wire == old(wire) + Frames(old(data[4..]), old(Sequence))
      ensures Sequence == After(old(data[4..]), old(Sequence))
    {
      ghost var payload := data[4..];
      var off, length := 0, data.Length - 4;
      while length >= MAX_PAYLOAD_LEN
        invariant 0 <= off && 0 <= length && off + length == |payload| && off + 4 + length == data.Length
        invariant data[off + 4..] == payload[off..]
        invariant wire + Frames(payload[off..], Sequence) == old(wire) + Frames(payload, old(Sequence))
        invariant After(payload[off..], Sequence) == After(payload, old(Sequence))
      {
        ghost var before, sent := wire, payload[off..][..MAX_PAYLOAD_LEN];
        WriteHeader(data, off, MAX_PAYLOAD_LEN, Sequence);
        HeaderAndChunk(data[..], off, MAX_PAYLOAD_LEN);
        wire := wire + data[off..off + 4 + MAX_PAYLOAD_LEN];
        ChunkStep(payload, off, before, Sequence);
        Sequence := Next(Sequence);
        length := length - MAX_PAYLOAD_LEN;
        off := off + MAX_PAYLOAD_LEN;
        assert data[off + 4..] == data[off - MAX_PAYLOAD_LEN + 4..][MAX_PAYLOAD_LEN..];
        assert payload[off..] == payload[off - MAX_PAYLOAD_LEN..][MAX_PAYLOAD_LEN..];
      }
      WriteHeader(data, off, length, Sequence);
      assert data[off..] == data[off..off + 4] + data[off + 4..];
      wire := wire + data[off..];
      Sequence := Next(Sequence);
    }

    /** WritePacketBatch without flushing: the frames are collected in `total`. */
    method Collect(total: bytes, data: array<byte>) returns (all: bytes)
      requires data.Length >= 4
      modifies this`Sequence, data
      ensures all == total + Frames(old(data[4..]), old(Sequence))
      ensures Sequence == After(old(data[4..]), old(Sequence))
    {
      ghost var payload := data[4..];
      var off, length := 0, data.Length - 4;
      all := total;
      while length >= MAX_PAYLOAD_LEN
        invariant 0 <= off && 0 <= length && off + length == |payload| && off + 4 + length == data.Length
        invariant data[off + 4..] == payload[off..]
        invariant all + Frames(payload[off..], Sequence) == total + Frames(payload, old(Sequence))
        invariant After(payload[off..], Sequence) == After(payload, old(Sequence))
      {
        ghost var before := all;
        WriteHeader(data, off, MAX_PAYLOAD_LEN, Sequence);
        HeaderAndChunk(data[..], off, MAX_PAYLOAD_LEN);
        all := all + data[off..off + 4 + MAX_PAYLOAD_LEN];
        ChunkStep(payload, off, before, Sequence);
        Sequence := Next(Sequence);
        length := length - MAX_PAYLOAD_LEN;
        off := off + MAX_PAYLOAD_LEN;
        assert data[off + 4..] == data[off - MAX_PAYLOAD_LEN + 4..][MAX_PAYLOAD_LEN..];
        assert payload[off..] == payload[off - MAX_PAYLOAD_LEN..][MAX_PAYLOAD_LEN..];
      }
      WriteHeader(data, off, length, Sequence);
      assert data[off..] == data[off..off + 4] + data[off + 4..];
      all := all + data[off..];
      Sequence := Next(Sequence);
    }

    /** WritePacketBatch; no data means that only the collected bytes are flushed. */
    method WritePacketBatch(total: bytes, data: array?<byte>, direct: bool) returns (all: bytes)
      requires data != null ==> data.Length >= 4
      modifies this`Sequence, this`wire, data
      ensures data == null ==> all == total && Sequence == old(Sequence)
      ensures data != null ==>
                && all == total + Frames(old(data[4..]), old(Sequence))
                && Sequence == After(old(data[4..]), old(Sequence))
      ensures wire == if direct then old(wire) + all else old(wire)
    {
      all := total;
      if data != null {
        all := Collect(total, data);
      }
      if direct {
        wire := wire + all;
      }
    }

    /** ReadPacket. A refused packet leaves the connection unusable: nothing is said about it. */
    method ReadPacket() returns (r: ReadResult)
      modifies this`Sequence, this`inbox
      ensures r.Packet? <==> Read(old(inbox), old(Sequence)).Packet?
      ensures r.Packet? ==> r == Read(old(inbox), old(Sequence)) && inbox == r.rest && Sequence == r.sequence
      decreases |inbox|
    {
      if |inbox| < 4 {
        return BadPacket;
      }
      var header := inbox[..4];
      var length := Length(header);
      if length < 1 {
        return BadPacket;
      }
      if header[3] != Sequence {
        return BadPacket;
      }
      Sequence := Next(Sequence);
      if |inbox| < 4 + length {
        return BadPacket;
      }
      var data := inbox[4..4 + length];
      inbox := inbox[4 + length..];
      if length < MAX_PAYLOAD_LEN {
        return Packet(data, inbox, Sequence);
      }
      var more := ReadPacket();
      if more.BadPacket? {
        return BadPacket;
      }
      return Packet(data + more.payload, inbox, Sequence);
    }
  }

  lemma HeaderAndChunk(data: bytes, off: nat, n: nat)
    requires off + 4 + n <= |data|
    ensures data[off..off + 4 + n] == data[off..off + 4] + data[off + 4..][..n]
  {
  }

  method WriteHeader(data: array<byte>, off: nat, length: int, sequence: byte)
    requires off + 4 <= data.Length
    modifies data
    ensures data[off..off + 4] == Header(length, sequence)
    ensures data[off + 4..] == old(data[off + 4..])
  {
    data[off] := Low(length);
    data[off + 1] := Low(length / 256);
    data[off + 2] := Low(length / 65536);
    data[off + 3] := sequence;
  }

  /** Sending one full chunk moves it from the frames to come to the bytes sent. */
  lemma ChunkStep(payload: bytes, off: nat, before: bytes, sequence: byte)
    requires off + MAX_PAYLOAD_LEN <= |payload|
    ensures var next := off + MAX_PAYLOAD_LEN;
            && before + Frames(payload[off..], sequence) ==
               before + (Header(MAX_PAYLOAD_LEN, sequence) + payload[off..][..MAX_PAYLOAD_LEN]) + Frames(payload[next..], Next(sequence))
            && After(payload[off..], sequence) == After(payload[next..], Next(sequence))
  {
    assert Header(MAX_PAYLOAD_LEN, sequence) == [255, 255, 255, sequence];
    assert payload[off..][MAX_PAYLOAD_LEN..] == payload[off + MAX_PAYLOAD_LEN..];
  }

  // ---------------------------------------------------------------- batches

  /** Packets written one by one. */
  function Written(payloads: seq<bytes>, sequence: byte): (bytes, byte) {
    if payloads == [] then ([], sequence)
    else
      var rest := Written(payloads[1..], After(payloads[0], sequence));
      (Frames(payloads[0], sequence) + rest.0, rest.1)
  }

  /** Packets collected one after another on top of `total`, to be flushed at the end. */
  function Batched(total: bytes, payloads: seq<bytes>, sequence: byte): (bytes, byte) {
    if payloads == [] then (total, sequence)
    else
      var n := |payloads| - 1;
      var before := Batched(total, payloads[..n], sequence);
      (before.0 + Frames(payloads[n], before.1), After(payloads[n], before.1))
  }

  /** Collecting any list of packets and flushing once puts the same bytes on the wire, and leaves the
      same sequence number, as writing each packet separately. */
  lemma {:induction false} BatchRefinesWrite(total: bytes, payloads: seq<bytes>, sequence: byte)
    ensures Batched(total, payloads, sequence) ==
            (total + Written(payloads, sequence).0, Written(payloads, sequence).1)
  {
    if payloads == [] {
      assert total + [] == total;
    } else {
      var n := |payloads| - 1;
      BatchRefinesWrite(total, payloads[..n], sequence);
      WrittenSnoc(payloads[..n], payloads[n], sequence);
      assert payloads == payloads[..n] + [payloads[n]];
      var w := Written(payloads[..n], sequence);
      assert total + w.0 + Frames(payloads[n], w.1) == total + (w.0 + Frames(payloads[n], w.1));
    }
  }

  lemma {:induction false} WrittenSnoc(payloads: seq<bytes>, last: bytes, sequence: byte)
    ensures var w := Written(payloads, sequence);
            Written(payloads + [last], sequence) == (w.0 + Frames(last, w.1), After(last, w.1))
  {
    var all := payloads + [last];
    if payloads == [] {
      assert all[1..] == [];
      assert Written(all[1..], After(last, sequence)) == ([], After(last, sequence));
      assert Frames(last, sequence) + [] == [] + Frames(last, sequence);
    } else {
      assert all[1..] == payloads[1..] + [last];
      WrittenSnoc(payloads[1..], last, After(payloads[0], sequence));
      var w := Written(payloads[1..], After(payloads[0], sequence));
      var first := Frames(payloads[0], sequence);
      assert first + (w.0 + Frames(last, w.1)) == first + w.0 + Frames(last, w.1);
    }
  }
}
