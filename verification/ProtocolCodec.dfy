/** The binary framing of libs/protocol: a 28-byte header followed by the payload. */
module ProtocolCodec {
  import opened Bytes

  const MAGIC_HEADER: u32 := 0x52415030
  const PROTOCOL_VERSION: u16 := 1
  const HEADER_SIZE: nat := 28

  // Payload types; the C++ decoder accepts any 16-bit value.
  const FRAME_HEADER: u16 := 3
  const INPUT_EVENT: u16 := 4
  const CLIPBOARD_DATA: u16 := 6
  const AUTH_REQUEST: u16 := 13
  const AUTH_RESPONSE: u16 := 14
  const SESSION_CONTROL: u16 := 15
  const AUDIO_FRAME: u16 := 16
  const TERMINAL_DATA: u16 := 17

  datatype PacketHeader = PacketHeader(
    magic: u32,
    version: u16,
    payloadType: u16,
    sequenceNumber: u64,
    timestampMs: u64,
    payloadSize: u32)

  datatype Packet = Packet(header: PacketHeader, payload: seq<byte>)

  datatype ParseError = InvalidMagicHeader | UnsupportedVersion | IncompleteHeader | IncompletePayload

  datatype ParseResult = Parsed(packet: Packet) | Failed(error: ParseError) {
    /** The two outcomes that more input may change. */
    predicate Incomplete() {
      this == Failed(IncompleteHeader) || this == Failed(IncompletePayload)
    }
  }

  // ---------- specification ----------

  function HeaderBytes(h: PacketHeader): (s: seq<byte>)
    ensures |s| == HEADER_SIZE
  {
    LE(h.magic, 4) + LE(h.version, 2) + LE(h.payloadType, 2) +
    LE(h.sequenceNumber, 8) + LE(h.timestampMs, 8) + LE(h.payloadSize, 4)
  }

  function MakeHeader(payloadType: u16, sequenceNumber: u64, timestampMs: u64, payloadSize: u32): PacketHeader {
    PacketHeader(MAGIC_HEADER, PROTOCOL_VERSION, payloadType, sequenceNumber, timestampMs, payloadSize)
  }

  /** The wire form. The payload length is cast to 32 bits, and only that many bytes are copied. */
  function Encode(payloadType: u16, sequenceNumber: u64, timestampMs: u64, payload: seq<byte>): (s: seq<byte>)
    ensures |s| == HEADER_SIZE + ToU32(|payload|)
  {
    var payloadSize := ToU32(|payload|);
    HeaderBytes(MakeHeader(payloadType, sequenceNumber, timestampMs, payloadSize)) + payload[..payloadSize]
  }

  function MakePacket(payloadType: u16, sequenceNumber: u64, timestampMs: u64, payload: seq<byte>): Packet
    requires |payload| < TWO32
  {
    Packet(MakeHeader(payloadType, sequenceNumber, timestampMs, |payload|), payload)
  }

  /** A packet whose header fields are the ones the encoder writes for it. */
  predicate WellFormed(p: Packet) {
    && p.header.magic == MAGIC_HEADER
    && p.header.version == PROTOCOL_VERSION
    && p.header.payloadSize == |p.payload|
  }

  function EncodePacket(p: Packet): (s: seq<byte>)
    requires WellFormed(p)
    ensures |s| == HEADER_SIZE + |p.payload|
  {
    Encode(p.header.payloadType, p.header.sequenceNumber, p.header.timestampMs, p.payload)
  }

  function HeaderAt(data: seq<byte>): PacketHeader
    requires |data| >= HEADER_SIZE
  {
    PacketHeader(U32At(data, 0), U16At(data, 4), U16At(data, 6), U64At(data, 8), U64At(data, 16), U32At(data, 24))
  }

  function Decode(data: seq<byte>): ParseResult {
    if |data| < HEADER_SIZE then Failed(IncompleteHeader)
    else
      var h := HeaderAt(data);
      if h.magic != MAGIC_HEADER then Failed(InvalidMagicHeader)
      else if h.version != PROTOCOL_VERSION then Failed(UnsupportedVersion)
      else if |data| < HEADER_SIZE + h.payloadSize then Failed(IncompletePayload)
      else Parsed(Packet(h, data[HEADER_SIZE..HEADER_SIZE + h.payloadSize]))
  }

  // ---------- the buffer algorithms ----------

  /** `encode`: an advancing pointer writes the fields and then the payload into a zeroed buffer. */
  method EncodeBuffer(payloadType: u16, sequenceNumber: u64, timestampMs: u64, payload: seq<byte>)
    returns (buffer: array<byte>)
    ensures fresh(buffer)
    ensures buffer[..] == Encode(payloadType, sequenceNumber, timestampMs, payload)
  {
    hide LE, HeaderBytes;
    var payloadSize := ToU32(|payload|);
    buffer := new byte[HEADER_SIZE + payloadSize](_ => 0);
    var header := MakeHeader(payloadType, sequenceNumber, timestampMs, payloadSize);
    var ptr := WriteHeader(buffer, header);
    ghost var front := buffer[..ptr];
    if |payload| != 0 {
      MemCpy(buffer, ptr, payload[..payloadSize]);
    }
    assert buffer[..] == front + payload[..payloadSize];
  }

  method WriteHeader(buffer: array<byte>, header: PacketHeader) returns (ptr: nat)
    requires buffer.Length >= HEADER_SIZE
    modifies buffer
    ensures ptr == HEADER_SIZE
    ensures buffer[..ptr] == HeaderBytes(header)
  {
    hide LE;
    ptr := 0;
    ptr := Append(buffer, ptr, LE(header.magic, 4));
    ptr := Append(buffer, ptr, LE(header.version, 2));
    ptr := Append(buffer, ptr, LE(header.payloadType, 2));
    ptr := Append(buffer, ptr, LE(header.sequenceNumber, 8));
    ptr := Append(buffer, ptr, LE(header.timestampMs, 8));
    ptr := Append(buffer, ptr, LE(header.payloadSize, 4));
  }

  /** One `memcpy` at the pointer, then the pointer's advance. */
  method Append(buffer: array<byte>, ptr: nat, field: seq<byte>) returns (next: nat)
    requires ptr + |field| <= buffer.Length
    modifies buffer
    ensures next == ptr + |field|
    ensures buffer[..next] == old(buffer[..ptr]) + field
  {
    MemCpy(buffer, ptr, field);
    next := ptr + |field|;
  }

  /** `decode`: the same pointer walk, reading, with the source's early returns. */
  method DecodeBuffer(data: array<byte>) returns (result: ParseResult)
    ensures result == Decode(data[..])
  {
    hide FromLE;
    var size := data.Length;
    if size < HEADER_SIZE {
      return Failed(IncompleteHeader);
    }
    var ptr := 0;
    var magic := U32At(data[..], ptr);
    ptr := ptr + 4;
    if magic != MAGIC_HEADER {
      return Failed(InvalidMagicHeader);
    }
    var version := U16At(data[..], ptr);
    ptr := ptr + 2;
    if version != PROTOCOL_VERSION {
      return Failed(UnsupportedVersion);
    }
    var typeVal := U16At(data[..], ptr);
    ptr := ptr + 2;
    var sequenceNumber := U64At(data[..], ptr);
    ptr := ptr + 8;
    var timestampMs := U64At(data[..], ptr);
    ptr := ptr + 8;
    var payloadSize := U32At(data[..], ptr);
    ptr := ptr + 4;
    if size < HEADER_SIZE + payloadSize {
      return Failed(IncompletePayload);
    }
    var payload := [];
    if payloadSize > 0 {
      payload := data[ptr..ptr + payloadSize];
    }
    return Parsed(Packet(PacketHeader(magic, version, typeVal, sequenceNumber, timestampMs, payloadSize), payload));
  }

  // ---------- properties ----------

  /** Reading the header fields gives `h` exactly when `h`'s encoding stands at the front. */
  lemma HeaderIff(data: seq<byte>, h: PacketHeader)
    requires |data| >= HEADER_SIZE
    ensures HeaderAt(data) == h <==> HeaderBytes(h) <= data
  {
    hide LE, FromLE;
    U32Field(data, 0, h.magic);
    U16Field(data, 4, h.version);
    U16Field(data, 6, h.payloadType);
    U64Field(data, 8, h.sequenceNumber);
    U64Field(data, 16, h.timestampMs);
    U32Field(data, 24, h.payloadSize);
    SixFields(data, LE(h.magic, 4), LE(h.version, 2), LE(h.payloadType, 2),
              LE(h.sequenceNumber, 8), LE(h.timestampMs, 8), LE(h.payloadSize, 4));
  }

  lemma SixFields(data: seq<byte>, a: seq<byte>, b: seq<byte>, c: seq<byte>, d: seq<byte>, e: seq<byte>, f: seq<byte>)
    requires |data| >= HEADER_SIZE
    requires |a| == 4 && |b| == 2 && |c| == 2 && |d| == 8 && |e| == 8 && |f| == 4
    ensures a + b + c + d + e + f <= data <==>
            data[0..4] == a && data[4..6] == b && data[6..8] == c &&
            data[8..16] == d && data[16..24] == e && data[24..28] == f
  {
    var all := a + b + c + d + e + f;
    assert all[0..4] == a && all[4..6] == b && all[6..8] == c && all[8..16] == d && all[16..24] == e && all[24..28] == f;
    if all <= data {
      assert forall i :: 0 <= i < |all| ==> data[i] == all[i];
    }
    if data[0..4] == a && data[4..6] == b && data[6..8] == c && data[8..16] == d && data[16..24] == e && data[24..28] == f {
      assert data[..28] == data[0..4] + data[4..6] + data[6..8] + data[8..16] + data[16..24] + data[24..28];
    }
  }

  /** Both directions of the codec at once: the decoder returns packet `p` exactly when the data
      starts with `p`'s own encoding. Decoding inverts encoding, reads nothing past the packet,
      and accepts no second spelling of a packet. */
  lemma DecodeIff(data: seq<byte>, p: Packet)
    ensures Decode(data) == Parsed(p) <==> WellFormed(p) && EncodePacket(p) <= data
  {
    hide LE, FromLE, HeaderBytes;
    if |data| >= HEADER_SIZE {
      HeaderIff(data, p.header);
    }
    if WellFormed(p) {
      var hb := HeaderBytes(p.header);
      EncodePacketParts(p);
      if hb + p.payload <= data {
        assert hb <= data;
        assert data[HEADER_SIZE..HEADER_SIZE + |p.payload|] == p.payload;
      }
      if Decode(data) == Parsed(p) {
        assert data[..HEADER_SIZE + |p.payload|] == data[..HEADER_SIZE] + data[HEADER_SIZE..HEADER_SIZE + |p.payload|];
      }
    }
  }

  lemma EncodePacketParts(p: Packet)
    requires WellFormed(p)
    ensures EncodePacket(p) == HeaderBytes(p.header) + p.payload
  {
    hide LE, HeaderBytes;
    assert p.header == MakeHeader(p.header.payloadType, p.header.sequenceNumber, p.header.timestampMs, |p.payload|);
    assert p.payload[..ToU32(|p.payload|)] == p.payload;
  }

  /** Data that starts with an encoding decodes to what was encoded, cut to the length field's 32 bits,
      and so to the payload itself exactly when its length fits them. */
  lemma RoundTripIff(payloadType: u16, sequenceNumber: u64, timestampMs: u64, payload: seq<byte>, data: seq<byte>)
    requires Encode(payloadType, sequenceNumber, timestampMs, payload) <= data
    ensures Decode(data) == Parsed(MakePacket(payloadType, sequenceNumber, timestampMs, payload[..ToU32(|payload|)]))
    ensures Decode(data).packet.payload == payload <==> |payload| < TWO32
  {
    hide LE, FromLE, HeaderBytes;
    var p := MakePacket(payloadType, sequenceNumber, timestampMs, payload[..ToU32(|payload|)]);
    EncodePacketParts(p);
    assert EncodePacket(p) == Encode(payloadType, sequenceNumber, timestampMs, payload);
    DecodeIff(data, p);
  }

  /** A packet or a header error is final; only the two incomplete results can change as bytes arrive. */
  lemma DecodeStable(data: seq<byte>, more: seq<byte>)
    requires !Decode(data).Incomplete()
    ensures Decode(data + more) == Decode(data)
  {
    hide LE, FromLE;
    var both := data + more;
    match Decode(data)
    case Parsed(p) =>
      DecodeIff(data, p);
      assert data <= both;
      DecodeIff(both, p);
    case Failed(_) =>
      assert both[0..4] == data[0..4] && both[4..6] == data[4..6];
  }

  /** An incomplete payload is exactly a cut packet: at least a header, and some continuation decodes. */
  lemma IncompletePayloadIff(data: seq<byte>)
    ensures Decode(data) == Failed(IncompletePayload) <==>
            |data| >= HEADER_SIZE && exists p: Packet :: WellFormed(p) && data < EncodePacket(p)
  {
    hide LE, FromLE, HeaderBytes;
    if Decode(data) == Failed(IncompletePayload) {
      var h := HeaderAt(data);
      HeaderIff(data, h);
      var missing := HEADER_SIZE + h.payloadSize - |data|;
      var p := Packet(h, data[HEADER_SIZE..] + seq(missing, _ => 0 as byte));
      EncodePacketParts(p);
      assert data == HeaderBytes(h) + data[HEADER_SIZE..];
      assert EncodePacket(p) == data + seq(missing, _ => 0 as byte);
    }
    if |data| >= HEADER_SIZE {
      forall p: Packet | WellFormed(p) && data < EncodePacket(p)
        ensures Decode(data) == Failed(IncompletePayload)
      {
        EncodePacketParts(p);
        assert HeaderBytes(p.header) <= data;
        HeaderIff(data, p.header);
      }
    }
  }

  /** No packet's encoding is a proper prefix of another's, so a stream splits in one way only. */
  lemma PrefixFree(p: Packet, q: Packet, data: seq<byte>)
    requires WellFormed(p) && WellFormed(q)
    requires EncodePacket(p) <= data && EncodePacket(q) <= data
    ensures p == q
  {
    hide Decode, EncodePacket;
    DecodeIff(data, p);
    DecodeIff(data, q);
  }

  // ---------- the wire, byte by byte ----------

  /** The first six bytes of every packet: the magic number and version 1, least significant byte first. */
  lemma SyncBytes()
    ensures LE(MAGIC_HEADER, 4) == [0x30, 0x50, 0x41, 0x52] && LE(PROTOCOL_VERSION, 2) == [0x01, 0x00]
  {
    hide ToByte;
    SyncByteValues();
  }

  lemma SyncByteValues()
    ensures ToByte(0x52) == 0x52 && ToByte(0x5241) == 0x41 && ToByte(0x524150) == 0x50 && ToByte(0x52415030) == 0x30
    ensures ToByte(0) == 0 && ToByte(1) == 1
  {
    hide ToByte;
    ToByteIs(0x52, 0x52);
    ToByteIs(0x5241, 0x41);
    ToByteIs(0x524150, 0x50);
    ToByteIs(0x52415030, 0x30);
    ToByteIs(0, 0);
    ToByteIs(1, 1);
  }

  /** The whole header on the wire: those six bytes, then two for the type, eight for the sequence number,
      eight for the time and four for the payload size, each number least significant byte first. */
  lemma HeaderOnWire(b: seq<byte>)
    requires |b| == 22
    ensures FromLE(b[..2]) < 0x1_0000 && FromLE(b[2..10]) < TWO64 && FromLE(b[10..18]) < TWO64 && FromLE(b[18..]) < TWO32
    ensures HeaderBytes(PacketHeader(0x52415030, 1, FromLE(b[..2]), FromLE(b[2..10]), FromLE(b[10..18]), FromLE(b[18..])))
            == [0x30, 0x50, 0x41, 0x52, 0x01, 0x00] + b
  {
    SyncBytes();
    Pow256Values();
    hide LE, FromLE;
    LEOfFromLE(b[..2]);
    LEOfFromLE(b[2..10]);
    LEOfFromLE(b[10..18]);
    LEOfFromLE(b[18..]);
    assert b == b[..2] + b[2..10] + b[10..18] + b[18..];
  }

  /** What each refusal means, in bytes. */
  lemma DecodeErrorsIff(data: seq<byte>)
    ensures Decode(data) == Failed(IncompleteHeader) <==> |data| < 28
    ensures Decode(data) == Failed(InvalidMagicHeader) <==> |data| >= 28 && data[..4] != [0x30, 0x50, 0x41, 0x52]
    ensures Decode(data) == Failed(UnsupportedVersion) <==>
            |data| >= 28 && data[..4] == [0x30, 0x50, 0x41, 0x52] && data[4..6] != [0x01, 0x00]
    ensures Decode(data) == Failed(IncompletePayload) <==>
            |data| >= 28 && data[..6] == [0x30, 0x50, 0x41, 0x52, 0x01, 0x00] && |data| < 28 + FromLE(data[24..28])
  {
    SyncBytes();
    hide LE, FromLE;
    if |data| >= 28 {
      U32Field(data, 0, MAGIC_HEADER);
      U16Field(data, 4, PROTOCOL_VERSION);
      assert data[..4] == data[0..4];
      assert data[..6] == data[..4] + data[4..6];
      SixBytes(data[..4], data[4..6]);
    }
  }

  lemma SixBytes(s: seq<byte>, t: seq<byte>)
    requires |s| == 4 && |t| == 2
    ensures s + t == [0x30, 0x50, 0x41, 0x52, 0x01, 0x00] <==> s == [0x30, 0x50, 0x41, 0x52] && t == [0x01, 0x00]
  {
    assert (s + t)[..4] == s && (s + t)[4..] == t;
  }

  /** A packet is accepted exactly when those six bytes and the whole payload are there. */
  lemma DecodesIff(data: seq<byte>)
    ensures Decode(data).Parsed? <==>
            |data| >= 28 && data[..6] == [0x30, 0x50, 0x41, 0x52, 0x01, 0x00] && |data| >= 28 + FromLE(data[24..28])
  {
    hide FromLE, LE;
    DecodeErrorsIff(data);
    if |data| >= 28 {
      SixBytes(data[..4], data[4..6]);
      assert data[..6] == data[..4] + data[4..6];
    }
  }
}
