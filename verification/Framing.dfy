/**
 The packet layer: MakeSendBuffer prints a payload as [size(2)][id(2)][data...] and
 PacketSession::OnRecv splits a byte stream back into packets.
 Both sides run on little-endian machines, so a uint16 is stored low byte first.
 */
module Framing {
  newtype byte = x: int | 0 <= x < 256
  type Bytes = seq<byte>

  const HEADER_SIZE := 4
  const UINT16_RANGE := 0x1_0000
  const MAX_PAYLOAD := UINT16_RANGE - 1 - HEADER_SIZE

  // ---------------------------------------------------------------- printing

  function LowByte(n: nat): byte { (n % 256) as byte }

  function HighByte(n: nat): byte { (n / 256 % 256) as byte }

  function Header(size: nat, id: nat): Bytes {
    [LowByte(size), HighByte(size), LowByte(id), HighByte(id)]
  }

  /** The frame a receiver is meant to see for a payload. */
  function Frame(id: nat, payload: Bytes): Bytes {
    Header(|payload| + HEADER_SIZE, id) + payload
  }

  /** How MakeSendBuffer can end: its assert on SerializeToArray is taken as executed, and a header
      written into a buffer shorter than the header is a write out of bounds. */
  datatype SendOutcome = Framed(bytes: Bytes) | SerializeAssertFailed | HeaderOutOfBounds

  /** The buffer MakeSendBuffer fills when the frame fits: header fields first, then the serialized payload. */
  method FillBuffer(payload: Bytes, id: nat) returns (bytes: Bytes)
    ensures bytes == Frame(id, payload)
  {
    hide LowByte, HighByte;
    var packetSize := |payload| + HEADER_SIZE;
    var buffer := new byte[packetSize](_ => 0);
    buffer[0], buffer[1] := LowByte(packetSize), HighByte(packetSize);
    buffer[2], buffer[3] := LowByte(id), HighByte(id);
    for i := 0 to |payload|
      invariant buffer[..HEADER_SIZE + i] == Header(packetSize, id) + payload[..i]
    {
      buffer[HEADER_SIZE + i] := payload[i];
      assert buffer[..HEADER_SIZE + i + 1] == buffer[..HEADER_SIZE + i] + [payload[i]];
    }
    assert payload[..|payload|] == payload;
    bytes := buffer[..];
  }

  /** MakeSendBuffer with its two uint16 truncations. It yields the intended frame exactly for the payloads
      whose frame size still fits the 16-bit size field. */
  method MakeSendBuffer(payload: Bytes, id: nat) returns (r: SendOutcome)
    requires id < UINT16_RANGE
    ensures r.Framed? <==> |payload| <= MAX_PAYLOAD
    ensures r.Framed? ==> r.bytes == Frame(id, payload)
    ensures r.HeaderOutOfBounds? <==> |payload| % UINT16_RANGE > MAX_PAYLOAD
  {
    hide Frame;
    var dataSize := |payload| % UINT16_RANGE;
    var packetSize := (dataSize + HEADER_SIZE) % UINT16_RANGE;
    if packetSize < HEADER_SIZE {
      return HeaderOutOfBounds;
    }
    if dataSize < |payload| {
      return SerializeAssertFailed;
    }
    assert packetSize == |payload| + HEADER_SIZE;
    var bytes := FillBuffer(payload, id);
    r := Framed(bytes);
  }

  // ---------------------------------------------------------------- parsing

  /** The size field of the header at the front of the stream. */
  function SizeField(s: Bytes): nat
    requires |s| >= HEADER_SIZE
  {
    s[0] as int + 256 * s[1] as int
  }

  /** The loop of OnRecv delivers a packet and moves on. */
  predicate Complete(s: Bytes) {
    |s| >= HEADER_SIZE && 0 < SizeField(s) <= |s|
  }

  /** The loop of OnRecv reaches a header whose size field is zero; from there it never advances again. */
  predicate Stalls(s: Bytes)
    decreases |s|
  {
    |s| >= HEADER_SIZE && (SizeField(s) == 0 || (SizeField(s) <= |s| && Stalls(s[SizeField(s)..])))
  }

  /** The packets OnRecv delivers from a stream. */
  function Packets(s: Bytes): seq<Bytes>
    decreases |s|
  {
    if Complete(s) then [s[..SizeField(s)]] + Packets(s[SizeField(s)..]) else []
  }

  /** The bytes OnRecv leaves unparsed. */
  function Tail(s: Bytes): Bytes
    decreases |s|
  {
    if Complete(s) then Tail(s[SizeField(s)..]) else s
  }

  function Concat(parts: seq<Bytes>): Bytes {
    if parts == [] then [] else parts[0] + Concat(parts[1..])
  }

  lemma ParseOne(s: Bytes)
    requires !Stalls(s) && HEADER_SIZE <= |s| && SizeField(s) <= |s|
    ensures SizeField(s) > 0 && !Stalls(s[SizeField(s)..])
    ensures Packets(s) == [s[..SizeField(s)]] + Packets(s[SizeField(s)..])
    ensures Tail(s) == Tail(s[SizeField(s)..])
  {
  }

  lemma ParseNone(s: Bytes)
    requires |s| < HEADER_SIZE || |s| < SizeField(s)
    ensures Packets(s) == [] && Tail(s) == s
  {
  }

  /** PacketSession::OnRecv over buffer[off..off+len]; OnRecvPacket is recorded in packets. */
  method OnRecv(buffer: array<byte>, off: nat, len: nat) returns (processLen: nat, packets: seq<Bytes>)
    requires off + len <= buffer.Length
    requires !Stalls(buffer[off..off + len])
    ensures processLen == len - |Tail(buffer[off..off + len])|
    ensures buffer[off + processLen..off + len] == Tail(buffer[off..off + len])
    ensures packets == Packets(buffer[off..off + len])
  {
    hide Packets, Tail, Stalls;
    processLen, packets := 0, [];
    ghost var s := buffer[off..off + len];
    while true
      invariant 0 <= processLen <= len
      invariant !Stalls(buffer[off + processLen..off + len])
      invariant Packets(s) == packets + Packets(buffer[off + processLen..off + len])
      invariant Tail(s) == Tail(buffer[off + processLen..off + len])
      decreases len - processLen
    {
      ghost var rest := buffer[off + processLen..off + len];
      var dataSize := len - processLen;
      if dataSize < HEADER_SIZE {
        ParseNone(rest);
        break;
      }
      var at := off + processLen;
      var size := buffer[at] as int + 256 * buffer[at + 1] as int;
      assert size == SizeField(rest);
      if dataSize < size {
        ParseNone(rest);
        break;
      }
      ParseOne(rest);
      packets := packets + [buffer[at..at + size]];
      processLen := processLen + size;
      assert rest[..size] == buffer[at..at + size];
      assert rest[size..] == buffer[off + processLen..off + len];
    }
  }

  // ---------------------------------------------------------------- when the loop ends

  /** The loop, started on s, breaks within k iterations. */
  predicate ExitsWithin(s: Bytes, k: nat)
    decreases k
  {
    k > 0 && (|s| < HEADER_SIZE || |s| < SizeField(s) || ExitsWithin(s[SizeField(s)..], k - 1))
  }

  /** A stream that reaches a zero size field keeps the loop going for ever. */
  lemma {:induction false} StalledNeverExits(s: Bytes, k: nat)
    requires Stalls(s)
    ensures !ExitsWithin(s, k)
    decreases k
  {
    if k > 0 {
      StalledNeverExits(s[SizeField(s)..], k - 1);
    }
  }

  lemma {:induction false} UnstalledExits(s: Bytes)
    requires !Stalls(s)
    ensures ExitsWithin(s, |s| + 1)
    decreases |s|
  {
    if Complete(s) {
      UnstalledExits(s[SizeField(s)..]);
      ExitsLater(s[SizeField(s)..], |s| - SizeField(s) + 1, |s|);
    }
  }

  lemma {:induction false} ExitsLater(s: Bytes, k: nat, k': nat)
    requires ExitsWithin(s, k) && k <= k'
    ensures ExitsWithin(s, k')
    decreases k
  {
    if !(|s| < HEADER_SIZE || |s| < SizeField(s)) {
      ExitsLater(s[SizeField(s)..], k - 1, k' - 1);
    }
  }

  ghost predicate Returns(s: Bytes) {
    exists k: nat :: ExitsWithin(s, k)
  }

  /** OnRecv returns on exactly the streams in which no reached header has a zero size field. */
  lemma OnRecvReturnsIff(s: Bytes)
    ensures Returns(s) <==> !Stalls(s)
  {
    if Returns(s) {
      var k: nat :| ExitsWithin(s, k);
      if Stalls(s) {
        StalledNeverExits(s, k);
      }
    }
    if !Stalls(s) {
      UnstalledExits(s);
    }
  }

  // ---------------------------------------------------------------- the splitter does not depend on chunking

  /** Nothing is lost or reordered: packets and tail are the stream. */
  lemma {:induction false} PacketsPartitionStream(s: Bytes)
    ensures Concat(Packets(s)) + Tail(s) == s
    decreases |s|
  {
    if Complete(s) {
      PacketsPartitionStream(s[SizeField(s)..]);
      var first := s[..SizeField(s)];
      assert Packets(s)[1..] == Packets(s[SizeField(s)..]);
      assert s == first + s[SizeField(s)..];
    }
  }

  /** Whatever arrives, the bytes left over are fewer than the largest frame. */
  lemma {:induction false} TailBound(s: Bytes)
    requires !Stalls(s)
    ensures |Tail(s)| < UINT16_RANGE - 1
    ensures !Complete(Tail(s)) && !Stalls(Tail(s))
    ensures Packets(Tail(s)) == [] && Tail(Tail(s)) == Tail(s)
    decreases |s|
  {
    if Complete(s) {
      TailBound(s[SizeField(s)..]);
    }
  }

  /** Parsing what arrived first, and later the leftover together with the rest, is parsing everything at once. */
  lemma {:induction false} ParseIncrementally(a: Bytes, b: Bytes)
    requires !Stalls(a + b)
    ensures !Stalls(a) && !Stalls(Tail(a) + b)
    ensures Packets(a + b) == Packets(a) + Packets(Tail(a) + b)
    ensures Tail(a + b) == Tail(Tail(a) + b)
    decreases |a|
  {
    if |a| >= HEADER_SIZE {
      assert SizeField(a + b) == SizeField(a);
      if Complete(a) {
        var n := SizeField(a);
        assert (a + b)[n..] == a[n..] + b;
        assert (a + b)[..n] == a[..n];
        ParseIncrementally(a[n..], b);
        assert Packets(a + b) == [a[..n]] + (Packets(a[n..]) + Packets(Tail(a[n..]) + b));
      }
    }
  }

  // ---------------------------------------------------------------- printing and parsing are inverse

  datatype Message = Message(id: nat, payload: Bytes)

  predicate Sendable(m: Message) {
    m.id < UINT16_RANGE && |m.payload| <= MAX_PAYLOAD
  }

  predicate AllSendable(ms: seq<Message>) {
    forall m :: m in ms ==> Sendable(m)
  }

  function Frames(ms: seq<Message>): seq<Bytes> {
    if ms == [] then [] else [Frame(ms[0].id, ms[0].payload)] + Frames(ms[1..])
  }

  /** The id and payload a handler reads out of a delivered packet. */
  function Unframe(packet: Bytes): Message
    requires |packet| >= HEADER_SIZE
  {
    Message(packet[2] as int + 256 * packet[3] as int, packet[HEADER_SIZE..])
  }

  lemma FrameShape(m: Message)
    requires Sendable(m)
    ensures var f := Frame(m.id, m.payload);
            Complete(f) && SizeField(f) == |f| == |m.payload| + HEADER_SIZE && Unframe(f) == m
  {
    var n := |m.payload| + HEADER_SIZE;
    assert n / 256 % 256 == n / 256;
    assert m.id / 256 % 256 == m.id / 256;
  }

  /** The bytes on the wire: two little-endian 16-bit numbers, the length of the whole frame and the id, then the
      payload; and where OnRecv looks for the length. */
  lemma WireFormat(m: Message)
    requires m.id < 65536 && |m.payload| <= 65531
    ensures var f := Frame(m.id, m.payload);
            && |f| == |m.payload| + 4 && f[4..] == m.payload
            && f[0] as int + 256 * f[1] as int == |f| == SizeField(f)
            && f[2] as int + 256 * f[3] as int == m.id
  {
    FrameShape(m);
  }

  /** The stream of any list of sendable messages parses back into exactly their frames, with nothing left. */
  lemma {:induction false} FramesRoundTrip(ms: seq<Message>)
    requires AllSendable(ms)
    ensures !Stalls(Concat(Frames(ms)))
    ensures Packets(Concat(Frames(ms))) == Frames(ms)
    ensures Tail(Concat(Frames(ms))) == []
  {
    if ms != [] {
      FrameShape(ms[0]);
      FramesRoundTrip(ms[1..]);
      var f := Frame(ms[0].id, ms[0].payload);
      var rest := Concat(Frames(ms[1..]));
      var s := Concat(Frames(ms));
      assert Frames(ms)[1..] == Frames(ms[1..]);
      assert s == f + rest;
      assert SizeField(s) == SizeField(f);
      assert s[|f|..] == rest;
      assert s[..|f|] == f;
    }
  }

  /** Each delivered packet carries the id and payload that were sent, in order. */
  lemma {:induction false} FramesDecode(ms: seq<Message>)
    requires AllSendable(ms)
    ensures |Frames(ms)| == |ms|
    ensures forall i :: 0 <= i < |ms| ==>
              |Frames(ms)[i]| >= HEADER_SIZE && Unframe(Frames(ms)[i]) == ms[i]
  {
    if ms != [] {
      FrameShape(ms[0]);
      FramesDecode(ms[1..]);
    }
  }
}
