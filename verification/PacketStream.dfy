/** The client's drain loop as a function: what a byte stream decodes to, independently of how it is cut. */
module PacketStream {
  import opened Bytes
  import opened ProtocolCodec

  /** The packets taken from a buffer, and the bytes left waiting for more. */
  datatype Drained = Drained(packets: seq<Packet>, rest: seq<byte>)

  /** The bytes a packet occupies. */
  function Extent(p: Packet): nat {
    HEADER_SIZE + p.header.payloadSize
  }

  function Drain(buffer: seq<byte>): Drained
    decreases |buffer|
  {
    if |buffer| < HEADER_SIZE then Drained([], buffer)
    else match Decode(buffer)
      case Parsed(p) =>
        var tail := Drain(buffer[Extent(p)..]);
        Drained([p] + tail.packets, tail.rest)
      case Failed(_) =>
        if Decode(buffer).Incomplete() then Drained([], buffer) else Drain(buffer[1..])
  }

  /** One pass of the loop. */
  lemma DrainStep(buffer: seq<byte>)
    ensures |buffer| < HEADER_SIZE || Decode(buffer).Incomplete() ==> Drain(buffer) == Drained([], buffer)
    ensures |buffer| >= HEADER_SIZE && Decode(buffer).Failed? && !Decode(buffer).Incomplete() ==>
              Drain(buffer) == Drain(buffer[1..])
    ensures Decode(buffer).Parsed? ==>
              var p := Decode(buffer).packet;
              && HEADER_SIZE <= Extent(p) <= |buffer|
              && Drain(buffer) == Drained([p] + Drain(buffer[Extent(p)..]).packets, Drain(buffer[Extent(p)..]).rest)
  {
    hide Decode;
    if Decode(buffer).Parsed? {
      ParsedFits(buffer, Decode(buffer).packet);
    }
  }

  // ---------- segmentation ----------

  /** Draining a stream is draining a first part, and then what that left together with the second. */
  lemma {:induction false} DrainAppend(a: seq<byte>, b: seq<byte>)
    ensures var first := Drain(a);
            var second := Drain(first.rest + b);
            Drain(a + b) == Drained(first.packets + second.packets, second.rest)
    decreases |a|
  {
    hide Decode;
    if |a| < HEADER_SIZE || Decode(a).Incomplete() {
      assert [] + Drain(a + b).packets == Drain(a + b).packets;
    } else {
      DecodeStable(a, b);
      match Decode(a)
      case Parsed(p) =>
        ParsedFits(a, p);
        var n := Extent(p);
        assert (a + b)[n..] == a[n..] + b;
        DrainAppend(a[n..], b);
        var first := Drain(a[n..]);
        var second := Drain(first.rest + b);
        assert [p] + (first.packets + second.packets) == ([p] + first.packets) + second.packets;
      case Failed(_) =>
        assert (a + b)[1..] == a[1..] + b;
        DrainAppend(a[1..], b);
    }
  }

  lemma ParsedFits(data: seq<byte>, p: Packet)
    requires Decode(data) == Parsed(p)
    ensures Extent(p) <= |data|
  {
    hide FromLE;
  }

  /** What is left over holds nothing more to take. */
  lemma {:induction false} RestIsSettled(buffer: seq<byte>)
    ensures Drain(Drain(buffer).rest) == Drained([], Drain(buffer).rest)
    decreases |buffer|
  {
    hide Decode;
    if |buffer| < HEADER_SIZE || Decode(buffer).Incomplete() {
    } else {
      match Decode(buffer)
      case Parsed(p) =>
        ParsedFits(buffer, p);
        RestIsSettled(buffer[Extent(p)..]);
      case Failed(_) =>
        RestIsSettled(buffer[1..]);
    }
  }

  /** Feeding reads one by one, each appended to what the one before left. */
  function Reads(buffer: seq<byte>, chunks: seq<seq<byte>>): Drained
    decreases |chunks|
  {
    if chunks == [] then Drained([], buffer)
    else
      var first := Drain(buffer + chunks[0]);
      var later := Reads(first.rest, chunks[1..]);
      Drained(first.packets + later.packets, later.rest)
  }

  /** However the stream is cut, the packets and the leftover are those of the whole stream. */
  lemma {:induction false} SegmentationIndependence(buffer: seq<byte>, chunks: seq<seq<byte>>)
    requires Drain(buffer) == Drained([], buffer)
    ensures Reads(buffer, chunks) == Drain(buffer + Flatten(chunks))
    decreases |chunks|
  {
    hide Drain;
    if chunks == [] {
      assert buffer + Flatten(chunks) == buffer;
    } else {
      var first := Drain(buffer + chunks[0]);
      RestIsSettled(buffer + chunks[0]);
      SegmentationIndependence(first.rest, chunks[1..]);
      DrainAppend(buffer + chunks[0], Flatten(chunks[1..]));
      assert buffer + Flatten(chunks) == (buffer + chunks[0]) + Flatten(chunks[1..]);
    }
  }

  // ---------- packets in, packets out ----------

  predicate AllWellFormed(packets: seq<Packet>) {
    forall p :: p in packets ==> WellFormed(p)
  }

  function EncodeAll(packets: seq<Packet>): seq<byte>
    requires AllWellFormed(packets)
  {
    if packets == [] then [] else EncodePacket(packets[0]) + EncodeAll(packets[1..])
  }

  lemma {:induction false} EncodeAllAppend(a: seq<Packet>, b: seq<Packet>)
    requires AllWellFormed(a) && AllWellFormed(b)
    ensures AllWellFormed(a + b)
    ensures EncodeAll(a + b) == EncodeAll(a) + EncodeAll(b)
  {
    hide EncodePacket;
    if a == [] {
      assert a + b == b;
    } else {
      assert (a + b)[1..] == a[1..] + b;
      EncodeAllAppend(a[1..], b);
    }
  }

  /** A stream that starts with encoded packets yields those packets first. */
  lemma {:induction false} DrainEncoded(packets: seq<Packet>, tail: seq<byte>)
    requires AllWellFormed(packets)
    ensures Drain(EncodeAll(packets) + tail) == Drained(packets + Drain(tail).packets, Drain(tail).rest)
    decreases |packets|
  {
    hide Decode, EncodePacket;
    if packets == [] {
      assert EncodeAll(packets) + tail == tail;
      assert packets + Drain(tail).packets == Drain(tail).packets;
    } else {
      var p := packets[0];
      var stream := EncodeAll(packets) + tail;
      var later := EncodeAll(packets[1..]) + tail;
      assert stream == EncodePacket(p) + later;
      assert EncodePacket(p) <= stream;
      DecodeIff(stream, p);
      assert stream[Extent(p)..] == later;
      DrainEncoded(packets[1..], tail);
      assert [p] + (packets[1..] + Drain(tail).packets) == packets + Drain(tail).packets;
    }
  }

  /** Everything taken from a stream was in it: the packets' encodings and the leftover account for
      no more bytes than arrived, and every packet is well formed. */
  lemma {:induction false} DrainAccounts(buffer: seq<byte>)
    ensures AllWellFormed(Drain(buffer).packets)
    ensures |EncodeAll(Drain(buffer).packets)| + |Drain(buffer).rest| <= |buffer|
    decreases |buffer|
  {
    hide Decode, EncodePacket;
    if |buffer| < HEADER_SIZE || Decode(buffer).Incomplete() {
    } else {
      match Decode(buffer)
      case Parsed(p) =>
        DecodeIff(buffer, p);
        ParsedFits(buffer, p);
        var tail := Drain(buffer[Extent(p)..]);
        DrainAccounts(buffer[Extent(p)..]);
        assert ([p] + tail.packets)[1..] == tail.packets;
      case Failed(_) =>
        DrainAccounts(buffer[1..]);
    }
  }

  // ---------- resynchronisation ----------

  /** The magic number and version stand at position `i`. */
  predicate SyncAt(stream: seq<byte>, i: nat) {
    i + 6 <= |stream| && U32At(stream, i) == MAGIC_HEADER && U16At(stream, i + 4) == PROTOCOL_VERSION
  }

  /** How many bytes the loop drops one at a time before it accepts a header or waits. */
  function Skipped(stream: seq<byte>): (n: nat)
    ensures n <= |stream|
  {
    if |stream| < HEADER_SIZE then 0
    else match Decode(stream)
      case Parsed(_) => 0
      case Failed(_) => if Decode(stream).Incomplete() then 0 else 1 + Skipped(stream[1..])
  }

  lemma HeaderErrorIff(stream: seq<byte>)
    requires |stream| >= HEADER_SIZE
    ensures (Decode(stream).Failed? && !Decode(stream).Incomplete()) <==> !SyncAt(stream, 0)
  {
    hide FromLE;
  }

  lemma SyncShift(stream: seq<byte>, i: nat)
    requires i < |stream|
    ensures SyncAt(stream, i + 1) <==> SyncAt(stream[1..], i)
  {
    hide FromLE;
    if i + 7 <= |stream| {
      assert stream[i + 1..i + 5] == stream[1..][i..i + 4];
      assert stream[i + 5..i + 7] == stream[1..][i + 4..i + 6];
    }
  }

  /** The loop steps byte by byte over the first `n` bytes exactly when the magic number and
      version stand at none of those positions. */
  lemma {:induction false} SkipsExactlyGarbage(stream: seq<byte>, n: nat)
    requires n + HEADER_SIZE - 1 <= |stream|
    ensures Skipped(stream) >= n <==> forall i :: 0 <= i < n ==> !SyncAt(stream, i)
    decreases n
  {
    hide Decode, SyncAt;
    if n == 0 {
    } else {
      HeaderErrorIff(stream);
      if !SyncAt(stream, 0) {
        SkipsExactlyGarbage(stream[1..], n - 1);
        forall i | 0 <= i < n - 1
          ensures SyncAt(stream, i + 1) <==> SyncAt(stream[1..], i)
        {
          SyncShift(stream, i);
        }
        forall i | 0 <= i < n
          ensures SyncAt(stream, i) <==> i > 0 && SyncAt(stream[1..], i - 1)
        {
          if i > 0 { SyncShift(stream, i - 1); }
        }
      }
    }
  }

  lemma {:induction false} DrainAfterSkip(stream: seq<byte>, n: nat)
    requires n <= Skipped(stream)
    ensures Drain(stream) == Drain(stream[n..])
    decreases n
  {
    hide Decode;
    if n == 0 {
      assert stream[0..] == stream;
    } else {
      DrainAfterSkip(stream[1..], n - 1);
      assert stream[1..][n - 1..] == stream[n..];
    }
  }

  /** Garbage with no magic number and version in the combined stream is skipped whole,
      and exactly the packets encoded after it come out. */
  lemma Resynchronises(garbage: seq<byte>, packets: seq<Packet>, tail: seq<byte>)
    requires AllWellFormed(packets) && packets != []
    requires forall i :: 0 <= i < |garbage| ==> !SyncAt(garbage + (EncodeAll(packets) + tail), i)
    ensures Drain(garbage + (EncodeAll(packets) + tail))
            == Drained(packets + Drain(tail).packets, Drain(tail).rest)
  {
    hide Drain, SyncAt, Skipped, EncodePacket;
    var clean := EncodeAll(packets) + tail;
    SkipsExactlyGarbage(garbage + clean, |garbage|);
    DrainAfterSkip(garbage + clean, |garbage|);
    assert (garbage + clean)[|garbage|..] == clean;
    DrainEncoded(packets, tail);
  }

  // ---------- the loop's own arithmetic ----------

  /** `28 + packet.header.payloadSize` in 32-bit arithmetic. */
  function TotalPacketSize(p: Packet): u32 {
    ToU32(HEADER_SIZE + p.header.payloadSize)
  }

  /** The 32-bit sum is the packet's extent exactly when the payload is under 2^32 - 28 bytes, and
      the loop removes nothing, and so never ends, exactly when it is 2^32 - 28 bytes. */
  lemma TotalPacketSizeIff(p: Packet)
    ensures TotalPacketSize(p) == Extent(p) <==> p.header.payloadSize < TWO32 - HEADER_SIZE
    ensures TotalPacketSize(p) == 0 <==> p.header.payloadSize == TWO32 - HEADER_SIZE
  {
    var n := HEADER_SIZE + p.header.payloadSize;
    if n >= TWO32 {
      assert ToU32(n) == ToU32(n - TWO32) == n - TWO32;
    }
  }

  /** Every packet the loop meets in `buffer` is one whose extent the 32-bit sum gets right. */
  ghost predicate Drainable(buffer: seq<byte>) {
    forall p :: p in Drain(buffer).packets ==> p.header.payloadSize < TWO32 - HEADER_SIZE
  }

  /** A buffer under 2^32 bytes always is drainable. */
  lemma SmallIsDrainable(buffer: seq<byte>)
    requires |buffer| < TWO32
    ensures Drainable(buffer)
  {
    hide Drain, EncodePacket;
    DrainAccounts(buffer);
    forall p | p in Drain(buffer).packets
      ensures p.header.payloadSize < TWO32 - HEADER_SIZE
    {
      MemberExtent(Drain(buffer).packets, p);
    }
  }

  lemma {:induction false} MemberExtent(packets: seq<Packet>, p: Packet)
    requires AllWellFormed(packets) && p in packets
    ensures Extent(p) <= |EncodeAll(packets)|
  {
    hide EncodePacket;
    if p == packets[0] {
    } else {
      MemberExtent(packets[1..], p);
    }
  }
}
