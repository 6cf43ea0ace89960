/** The Rust twin of the codec, services/shared/src/protocol.rs, and its agreement with the C++ one. */
module RustPacket {
  import opened Bytes
  import Cpp = ProtocolCodec

  datatype PayloadType =
    | Unspecified | HandshakeReq | HandshakeResp | FrameHeader | InputEvent | Heartbeat | ClipboardData
    | FileTransferRequest | FileTransferResponse | FileChunkPayload | FileTransferControl
    | DirectoryListRequest | DirectoryListResponse

  datatype ProtocolError =
    | IncompleteHeader
    | InvalidMagicHeader
    | UnsupportedVersion(version: u16)
    | UnknownPayloadType(value: u16)
    | IncompletePayload

  datatype PacketHeader = PacketHeader(
    magic: u32,
    version: u16,
    payloadType: PayloadType,
    sequenceNumber: u64,
    timestampMs: u64,
    payloadSize: u32)

  datatype Packet = Packet(header: PacketHeader, payload: seq<byte>)

  datatype Result<T> = Ok(value: T) | Err(error: ProtocolError) {
    predicate IsFailure() { Err? }
    function PropagateFailure<U>(): Result<U> requires Err? { Err(error) }
    function Extract(): T requires Ok? { value }
  }

  /** `payload_type as u16` */
  function Discriminant(t: PayloadType): u16 {
    match t
    case Unspecified => 0
    case HandshakeReq => 1
    case HandshakeResp => 2
    case FrameHeader => 3
    case InputEvent => 4
    case Heartbeat => 5
    case ClipboardData => 6
    case FileTransferRequest => 7
    case FileTransferResponse => 8
    case FileChunkPayload => 9
    case FileTransferControl => 10
    case DirectoryListRequest => 11
    case DirectoryListResponse => 12
  }

  /** `PayloadType::try_from`: the partial inverse of `Discriminant`. */
  function TryFrom(val: u16): (r: Result<PayloadType>)
    ensures forall t: PayloadType :: r == Ok(t) <==> Discriminant(t) == val
    ensures r.Err? <==> val > 12
    ensures r.Err? ==> r.error == UnknownPayloadType(val)
  {
    match val
    case 0 => Ok(Unspecified)
    case 1 => Ok(HandshakeReq)
    case 2 => Ok(HandshakeResp)
    case 3 => Ok(FrameHeader)
    case 4 => Ok(InputEvent)
    case 5 => Ok(Heartbeat)
    case 6 => Ok(ClipboardData)
    case 7 => Ok(FileTransferRequest)
    case 8 => Ok(FileTransferResponse)
    case 9 => Ok(FileChunkPayload)
    case 10 => Ok(FileTransferControl)
    case 11 => Ok(DirectoryListRequest)
    case 12 => Ok(DirectoryListResponse)
    case _ => Err(UnknownPayloadType(val))
  }

  /** The numbers on the wire, in order; those both programs know are the same. */
  lemma Discriminants()
    ensures var types := [Unspecified, HandshakeReq, HandshakeResp, FrameHeader, InputEvent, Heartbeat, ClipboardData,
                          FileTransferRequest, FileTransferResponse, FileChunkPayload, FileTransferControl,
                          DirectoryListRequest, DirectoryListResponse];
            |types| == 13 && forall i :: 0 <= i < 13 ==> Discriminant(types[i]) == i
    ensures Discriminant(FrameHeader) == Cpp.FRAME_HEADER && Discriminant(InputEvent) == Cpp.INPUT_EVENT
    ensures Discriminant(ClipboardData) == Cpp.CLIPBOARD_DATA
  {
  }

  /** What `Packet::encode` appends: the whole payload, behind a length cast to 32 bits. */
  function Encode(payloadType: PayloadType, sequenceNumber: u64, timestampMs: u64, payload: seq<byte>): seq<byte> {
    Cpp.HeaderBytes(Cpp.MakeHeader(Discriminant(payloadType), sequenceNumber, timestampMs, ToU32(|payload|))) + payload
  }

  method EncodeVec(payloadType: PayloadType, sequenceNumber: u64, timestampMs: u64, payload: seq<byte>)
    returns (buf: seq<byte>)
    ensures buf == Encode(payloadType, sequenceNumber, timestampMs, payload)
  {
    hide LE;
    var payloadSize := ToU32(|payload|);
    buf := [];
    buf := buf + LE(Cpp.MAGIC_HEADER, 4);
    buf := buf + LE(Cpp.PROTOCOL_VERSION, 2);
    buf := buf + LE(Discriminant(payloadType), 2);
    buf := buf + LE(sequenceNumber, 8);
    buf := buf + LE(timestampMs, 8);
    buf := buf + LE(payloadSize, 4);
    buf := buf + payload;
  }

  function Decode(data: seq<byte>): Result<Packet> {
    if |data| < Cpp.HEADER_SIZE then Err(IncompleteHeader)
    else if U32At(data, 0) != Cpp.MAGIC_HEADER then Err(InvalidMagicHeader)
    else if U16At(data, 4) != Cpp.PROTOCOL_VERSION then Err(UnsupportedVersion(U16At(data, 4)))
    else
      var payloadType :- TryFrom(U16At(data, 6));
      var payloadSize := U32At(data, 24);
      if |data| < Cpp.HEADER_SIZE + payloadSize then Err(IncompletePayload)
      else
        Ok(Packet(
             PacketHeader(U32At(data, 0), U16At(data, 4), payloadType, U64At(data, 8), U64At(data, 16), payloadSize),
             data[Cpp.HEADER_SIZE..Cpp.HEADER_SIZE + payloadSize]))
  }

  /** The same packet, as the C++ side represents it. */
  function AsCpp(p: Packet): Cpp.Packet {
    Cpp.Packet(
      Cpp.PacketHeader(p.header.magic, p.header.version, Discriminant(p.header.payloadType),
                       p.header.sequenceNumber, p.header.timestampMs, p.header.payloadSize),
      p.payload)
  }

  /** The encoders give identical bytes exactly while the payload length fits 32 bits. */
  lemma EncodersAgreeIff(payloadType: PayloadType, sequenceNumber: u64, timestampMs: u64, payload: seq<byte>)
    ensures Encode(payloadType, sequenceNumber, timestampMs, payload)
            == Cpp.Encode(Discriminant(payloadType), sequenceNumber, timestampMs, payload)
            <==> |payload| < TWO32
  {
    hide LE, Cpp.HeaderBytes;
    var t := Discriminant(payloadType);
    var front := Cpp.HeaderBytes(Cpp.MakeHeader(t, sequenceNumber, timestampMs, ToU32(|payload|)));
    SameTailIff(front, payload, ToU32(|payload|));
  }

  lemma SameTailIff(front: seq<byte>, payload: seq<byte>, n: nat)
    requires n <= |payload|
    ensures front + payload == front + payload[..n] <==> n == |payload|
  {
    if n == |payload| {
      assert payload[..n] == payload;
    } else {
      assert |front + payload| != |front + payload[..n]|;
    }
  }

  /** Rust accepts a packet exactly when C++ decodes the same one and its type is one Rust knows. */
  lemma DecodersAgree(data: seq<byte>)
    ensures forall p: Packet :: Decode(data) == Ok(p) <==> Cpp.Decode(data) == Cpp.Parsed(AsCpp(p))
    ensures Decode(data).Ok? <==>
            Cpp.Decode(data).Parsed? && Cpp.Decode(data).packet.header.payloadType <= 12
  {
    hide FromLE;
    if Cpp.Decode(data).Parsed? {
      var c := Cpp.Decode(data).packet;
      forall p: Packet
        ensures Decode(data) == Ok(p) <==> c == AsCpp(p)
      {
        if Decode(data).Ok? {
          var q := Decode(data).value;
          assert c == AsCpp(q);
          if AsCpp(p) == c {
            assert TryFrom(c.header.payloadType) == Ok(p.header.payloadType);
          }
        }
      }
    }
  }

  /** The three header errors coincide, and a short payload is reported as such by Rust unless
      its type check fails first. An unknown version or type is reported with its value. */
  lemma ErrorsAgree(data: seq<byte>)
    ensures Decode(data) == Err(IncompleteHeader) <==> Cpp.Decode(data) == Cpp.Failed(Cpp.IncompleteHeader)
    ensures Decode(data) == Err(InvalidMagicHeader) <==> Cpp.Decode(data) == Cpp.Failed(Cpp.InvalidMagicHeader)
    ensures (Decode(data).Err? && Decode(data).error.UnsupportedVersion?) <==>
            Cpp.Decode(data) == Cpp.Failed(Cpp.UnsupportedVersion)
    ensures Decode(data) == Err(IncompletePayload) <==>
            Cpp.Decode(data) == Cpp.Failed(Cpp.IncompletePayload) && U16At(data, 6) <= 12
    ensures forall v :: Decode(data) == Err(UnsupportedVersion(v)) ==> v == FromLE(data[4..6])
    ensures forall v :: Decode(data) == Err(UnknownPayloadType(v)) ==> v == FromLE(data[6..8]) && v > 12
  {
    hide FromLE;
  }

  /** A frame either side writes, of a type both know, reads back the same on either side. */
  lemma CrossLanguageRoundTrip(payloadType: PayloadType, sequenceNumber: u64, timestampMs: u64, payload: seq<byte>,
                               fromCpp: seq<byte>, fromRust: seq<byte>)
    requires |payload| < TWO32
    requires Cpp.Encode(Discriminant(payloadType), sequenceNumber, timestampMs, payload) <= fromCpp
    requires Encode(payloadType, sequenceNumber, timestampMs, payload) <= fromRust
    ensures var p := Packet(PacketHeader(Cpp.MAGIC_HEADER, Cpp.PROTOCOL_VERSION, payloadType, sequenceNumber,
                                         timestampMs, |payload|), payload);
            Decode(fromCpp) == Ok(p) && Cpp.Decode(fromRust) == Cpp.Parsed(AsCpp(p))
  {
    hide FromLE, LE, Cpp.HeaderBytes, Cpp.Decode, Decode;
    EncodersAgreeIff(payloadType, sequenceNumber, timestampMs, payload);
    Cpp.RoundTripIff(Discriminant(payloadType), sequenceNumber, timestampMs, payload, fromCpp);
    Cpp.RoundTripIff(Discriminant(payloadType), sequenceNumber, timestampMs, payload, fromRust);
    assert payload[..ToU32(|payload|)] == payload;
    DecodersAgree(fromCpp);
  }
}
