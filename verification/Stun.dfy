/** The STUN codec of services/shared: binding requests, and the attribute walk of binding responses. */
module Stun {
  import opened Bytes
  import opened Wrappers

  type port16 = bv16
  type ip32 = bv32

  const MAGIC_COOKIE: ip32 := 0x2112A442
  const BINDING_REQUEST: u16 := 0x0001
  const BINDING_RESPONSE: u16 := 0x0101
  const XOR_MAPPED_ADDRESS: u16 := 0x0020
  const HEADER_SIZE: nat := 20
  const IPV4: byte := 0x01

  /** A socket address; IPv6 ones only ever come from the caller. */
  datatype SocketAddr = V4(ip: ip32, port: port16) | V6(address: seq<byte>, port6: port16)

  datatype StunEndpoint = StunEndpoint(publicAddr: SocketAddr, isBehindNat: bool)

  datatype StunError = TooShort | UnexpectedType(msgType: u16) | InvalidCookie | Truncated

  datatype Result = Ok(endpoint: StunEndpoint) | Err(error: StunError)

  // ---------- fields ----------

  function BE16At(buf: seq<byte>, at: nat): u16
    requires at + 2 <= |buf|
  {
    Pow256Values();
    FromBEBound(buf[at..at + 2]);
    FromBE(buf[at..at + 2])
  }

  function Word16(b0: byte, b1: byte): port16 {
    (b0 as port16 << 8) | (b1 as port16)
  }

  function Word32(b0: byte, b1: byte, b2: byte, b3: byte): ip32 {
    (b0 as ip32 << 24) | (b1 as ip32 << 16) | (b2 as ip32 << 8) | (b3 as ip32)
  }

  function XorPort(p: port16): port16 { p ^ 0x2112 }
  function XorIp(a: ip32): ip32 { a ^ MAGIC_COOKIE }

  // ---------- the decoder ----------

  /** The endpoint an IPv4 XOR-MAPPED-ADDRESS value names; None for any other value. */
  function MappedAddress(value: seq<byte>): Option<SocketAddr> {
    if |value| >= 8 && value[1] == IPV4
    then Some(V4(XorIp(Word32(value[4], value[5], value[6], value[7])), XorPort(Word16(value[2], value[3]))))
    else None
  }

  function Padding(length: nat): (p: nat)
    ensures p < 4
  {
    (4 - length % 4) % 4
  }

  /** The attribute walk from `offset` up to `end`; None when no usable address is found. */
  function Walk(buf: seq<byte>, offset: nat, end: nat): Option<SocketAddr>
    requires end <= |buf|
    decreases end - offset
  {
    if offset + 4 > end then None
    else
      var attrType := BE16At(buf, offset);
      var attrLen := BE16At(buf, offset + 2);
      var at := offset + 4;
      if at + attrLen > end then None
      else
        var mapped := if attrType == XOR_MAPPED_ADDRESS then MappedAddress(buf[at..at + attrLen]) else None;
        if mapped.Some? then mapped else Walk(buf, at + attrLen + Padding(attrLen), end)
  }

  function Answer(found: Option<SocketAddr>, local: SocketAddr): StunEndpoint {
    match found
    case None => StunEndpoint(local, false)
    case Some(addr) => StunEndpoint(addr, addr != local)
  }

  function Decode(buf: seq<byte>, local: SocketAddr): Result {
    if |buf| < HEADER_SIZE then Err(TooShort)
    else if BE16At(buf, 0) != BINDING_RESPONSE then Err(UnexpectedType(BE16At(buf, 0)))
    else if Word32(buf[4], buf[5], buf[6], buf[7]) != MAGIC_COOKIE then Err(InvalidCookie)
    else if |buf| < HEADER_SIZE + BE16At(buf, 2) then Err(Truncated)
    else Ok(Answer(Walk(buf, HEADER_SIZE, HEADER_SIZE + BE16At(buf, 2)), local))
  }

  /** `decode_binding_response`: the offset advances attribute by attribute, returning at the first address. */
  method DecodeBindingResponse(buf: seq<byte>, local: SocketAddr) returns (result: Result)
    ensures result == Decode(buf, local)
  {
    hide FromBE, Word16, Word32, XorPort, XorIp, Padding;
    if |buf| < HEADER_SIZE {
      return Err(TooShort);
    }
    var msgType := BE16At(buf, 0);
    if msgType != BINDING_RESPONSE {
      return Err(UnexpectedType(msgType));
    }
    if Word32(buf[4], buf[5], buf[6], buf[7]) != MAGIC_COOKIE {
      return Err(InvalidCookie);
    }
    var payloadLen := BE16At(buf, 2);
    if |buf| < HEADER_SIZE + payloadLen {
      return Err(Truncated);
    }
    var offset := HEADER_SIZE;
    var end := HEADER_SIZE + payloadLen;
    while offset + 4 <= end
      invariant Walk(buf, HEADER_SIZE, end) == Walk(buf, offset, end)
      decreases end - offset
    {
      var attrType := BE16At(buf, offset);
      var attrLen := BE16At(buf, offset + 2);
      ghost var value := if offset + 4 + attrLen > end then [] else buf[offset + 4..offset + 4 + attrLen];
      offset := offset + 4;
      if offset + attrLen > end {
        break;
      }
      if attrType == XOR_MAPPED_ADDRESS && attrLen >= 8 {
        assert value[1] == buf[offset + 1] && value[2] == buf[offset + 2] && value[3] == buf[offset + 3];
        assert value[4] == buf[offset + 4] && value[5] == buf[offset + 5] && value[6] == buf[offset + 6] && value[7] == buf[offset + 7];
        var family := buf[offset + 1];
        var xorPort := XorPort(Word16(buf[offset + 2], buf[offset + 3]));
        if family == IPV4 {
          var xorIp := XorIp(Word32(buf[offset + 4], buf[offset + 5], buf[offset + 6], buf[offset + 7]));
          var publicAddr := V4(xorIp, xorPort);
          assert MappedAddress(value) == Some(publicAddr);
          return Ok(StunEndpoint(publicAddr, publicAddr != local));
        }
      }
      offset := offset + attrLen + Padding(attrLen);
    }
    return Ok(StunEndpoint(local, false));
  }

  /** `encode_binding_request` */
  method EncodeBindingRequest(transactionId: seq<byte>) returns (buf: seq<byte>)
    requires |transactionId| == 12
    ensures |buf| == HEADER_SIZE && BE16At(buf, 0) == BINDING_REQUEST && BE16At(buf, 2) == 0
    ensures Word32(buf[4], buf[5], buf[6], buf[7]) == MAGIC_COOKIE && buf[8..] == transactionId
    ensures buf == [0x00, 0x01, 0x00, 0x00, 0x21, 0x12, 0xA4, 0x42] + transactionId
    ensures forall local :: Decode(buf, local) == Err(UnexpectedType(BINDING_REQUEST))
  {
    hide BE, FromBE, Word32, CookieBytes;
    buf := [];
    buf := buf + BE(BINDING_REQUEST, 2);
    buf := buf + BE(0, 2);
    buf := buf + CookieBytes();
    buf := buf + transactionId;
    HeaderFields(BINDING_REQUEST, 0, transactionId);
    RequestBytes();
    assert buf == BE(BINDING_REQUEST, 2) + BE(0, 2) + CookieBytes() + transactionId;
    assert buf[8..] == transactionId;
  }

  // ---------- messages as the RFC writes them ----------

  /** An attribute of section 15 of RFC 5389. */
  datatype Attribute = Attribute(attrType: u16, value: seq<byte>)

  predicate Encodable(attributes: seq<Attribute>) {
    forall i :: 0 <= i < |attributes| ==> |attributes[i].value| < 0x1_0000
  }

  /** The bytes an attribute occupies: its header and value, rounded up to a 32-bit boundary. */
  function AttributeSize(a: Attribute): (n: nat)
    ensures n % 4 == 0 && 4 + |a.value| <= n < 4 + |a.value| + 4
  {
    (4 + |a.value| + 3) / 4 * 4
  }

  /** The decoder's padding brings it to the next attribute's 32-bit boundary. */
  lemma PaddingAligns(a: Attribute)
    ensures 4 + |a.value| + Padding(|a.value|) == AttributeSize(a)
  {
  }

  /** An attribute stands at `offset`: type, length and value, up to `end` at most. Padding may hold anything. */
  ghost predicate StandsAt(buf: seq<byte>, offset: nat, end: nat, a: Attribute)
    requires |a.value| < 0x1_0000
  {
    && offset + 4 + |a.value| <= end <= |buf|
    && buf[offset..offset + 2] == BE(a.attrType, 2) && buf[offset + 2..offset + 4] == BE(|a.value|, 2)
    && buf[offset + 4..offset + 4 + |a.value|] == a.value
  }

  /** No whole attribute is left: fewer than four bytes, or a length that goes past the end. */
  predicate NothingLeft(buf: seq<byte>, offset: nat, end: nat) {
    end <= |buf| && (offset + 4 > end || offset + 4 + BE16At(buf, offset + 2) > end)
  }

  /** A list of attributes laid out one after the other from `offset`, each padded to a 32-bit boundary,
      and after them no further one before `end`. */
  ghost predicate Layout(buf: seq<byte>, offset: nat, end: nat, attributes: seq<Attribute>)
    requires Encodable(attributes)
    decreases |attributes|
  {
    if attributes == [] then NothingLeft(buf, offset, end)
    else
      && StandsAt(buf, offset, end, attributes[0])
      && Layout(buf, offset + AttributeSize(attributes[0]), end, attributes[1..])
  }

  /** Whatever its bytes are, every stretch of a buffer is such a list. */
  lemma {:induction false} LayoutOf(buf: seq<byte>, offset: nat, end: nat) returns (attributes: seq<Attribute>)
    requires end <= |buf|
    ensures Encodable(attributes) && Layout(buf, offset, end, attributes)
    decreases end - offset
  {
    hide BE, FromBE, AttributeSize;
    if NothingLeft(buf, offset, end) {
      attributes := [];
    } else {
      var length := BE16At(buf, offset + 2);
      var a := Attribute(BE16At(buf, offset), buf[offset + 4..offset + 4 + length]);
      FieldBE16(buf, offset);
      FieldBE16(buf, offset + 2);
      PaddingAligns(a);
      var rest := LayoutOf(buf, offset + AttributeSize(a), end);
      attributes := [a] + rest;
      assert attributes[1..] == rest;
    }
  }

  lemma FieldBE16(buf: seq<byte>, at: nat)
    requires at + 2 <= |buf|
    ensures buf[at..at + 2] == BE(BE16At(buf, at), 2)
  {
    BEOfFromBE(buf[at..at + 2]);
  }

  /** The first IPv4 XOR-MAPPED-ADDRESS of a list. */
  function FirstMapped(attributes: seq<Attribute>): Option<SocketAddr> {
    if attributes == [] then None
    else if attributes[0].attrType == XOR_MAPPED_ADDRESS && MappedAddress(attributes[0].value).Some?
    then MappedAddress(attributes[0].value)
    else FirstMapped(attributes[1..])
  }

  lemma BE16Field(buf: seq<byte>, at: nat, v: u16)
    requires at + 2 <= |buf| && buf[at..at + 2] == BE(v, 2)
    ensures BE16At(buf, at) == v
  {
    Pow256Values();
    FromBEOfBE(v, 2);
  }

  /** On any list the walk finds the first usable address, skipping padding and everything else. */
  lemma {:induction false} WalkFindsFirst(buf: seq<byte>, offset: nat, end: nat, attributes: seq<Attribute>)
    requires Encodable(attributes) && Layout(buf, offset, end, attributes) && end <= |buf|
    ensures Walk(buf, offset, end) == FirstMapped(attributes)
    decreases |attributes|
  {
    hide BE, FromBE, MappedAddress, Padding, AttributeSize;
    if attributes == [] {
    } else {
      var a := attributes[0];
      PaddingAligns(a);
      BE16Field(buf, offset, a.attrType);
      BE16Field(buf, offset + 2, |a.value|);
      WalkFindsFirst(buf, offset + AttributeSize(a), end, attributes[1..]);
    }
  }

  function CookieBytes(): (s: seq<byte>)
    ensures |s| == 4
  {
    [0x21, 0x12, 0xA4, 0x42]
  }

  lemma CookieWord()
    ensures Word32(0x21, 0x12, 0xA4, 0x42) == MAGIC_COOKIE
  {
  }

  lemma RequestBytes()
    ensures BE(BINDING_REQUEST, 2) == [0x00, 0x01] && BE(0, 2) == [0x00, 0x00]
    ensures CookieBytes() == [0x21, 0x12, 0xA4, 0x42]
  {
    hide ToByte;
    ToByteIs(0, 0);
    ToByteIs(1, 1);
  }

  lemma HeaderFields(msgType: u16, length: u16, rest: seq<byte>)
    ensures var buf := BE(msgType, 2) + BE(length, 2) + CookieBytes() + rest;
            && BE16At(buf, 0) == msgType && BE16At(buf, 2) == length
            && Word32(buf[4], buf[5], buf[6], buf[7]) == MAGIC_COOKIE
  {
    hide BE, FromBE, Word32;
    var buf := BE(msgType, 2) + BE(length, 2) + CookieBytes() + rest;
    assert buf[0..2] == BE(msgType, 2) && buf[2..4] == BE(length, 2);
    BE16Field(buf, 0, msgType);
    BE16Field(buf, 2, length);
    CookieWord();
  }

  /** A binding response carrying an attribute list. */
  ghost predicate IsResponse(buf: seq<byte>, attributes: seq<Attribute>)
    requires Encodable(attributes)
  {
    && |buf| >= HEADER_SIZE
    && BE16At(buf, 0) == BINDING_RESPONSE
    && Word32(buf[4], buf[5], buf[6], buf[7]) == MAGIC_COOKIE
    && HEADER_SIZE + BE16At(buf, 2) <= |buf|
    && Layout(buf, HEADER_SIZE, HEADER_SIZE + BE16At(buf, 2), attributes)
  }

  /** A response gives the first IPv4 XOR-MAPPED-ADDRESS of its list, or the local address if it has none. */
  lemma ResponseDecodes(buf: seq<byte>, attributes: seq<Attribute>, local: SocketAddr)
    requires Encodable(attributes) && IsResponse(buf, attributes)
    ensures Decode(buf, local) == Ok(Answer(FirstMapped(attributes), local))
  {
    hide FromBE, Word32, Walk, FirstMapped;
    WalkFindsFirst(buf, HEADER_SIZE, HEADER_SIZE + BE16At(buf, 2), attributes);
  }

  /** And every buffer that is accepted is such a response. */
  lemma AcceptedIsResponse(buf: seq<byte>, local: SocketAddr) returns (attributes: seq<Attribute>)
    requires Decode(buf, local).Ok?
    ensures Encodable(attributes) && IsResponse(buf, attributes)
    ensures Decode(buf, local) == Ok(Answer(FirstMapped(attributes), local))
  {
    hide FromBE, Word32, Walk, FirstMapped, Layout;
    attributes := LayoutOf(buf, HEADER_SIZE, HEADER_SIZE + BE16At(buf, 2));
    ResponseDecodes(buf, attributes, local);
  }

  lemma BE16Is(buf: seq<byte>, at: nat)
    requires at + 2 <= |buf|
    ensures BE16At(buf, at) == 256 * (buf[at] as nat) + buf[at + 1] as nat
  {
    var s := buf[at..at + 2];
    assert s[..1][..0] == [] && s[..1] == [s[0]];
    assert FromBE(s[..1]) == 256 * FromBE(s[..1][..0]) + s[0] as nat;
  }

  lemma CookieIff(b0: byte, b1: byte, b2: byte, b3: byte)
    ensures Word32(b0, b1, b2, b3) == MAGIC_COOKIE <==> b0 == 0x21 && b1 == 0x12 && b2 == 0xA4 && b3 == 0x42
  {
  }

  predicate TypeAndCookie(buf: seq<byte>)
    requires |buf| >= 20
  {
    && buf[0] == 0x01 && buf[1] == 0x01
    && buf[4] == 0x21 && buf[5] == 0x12 && buf[6] == 0xA4 && buf[7] == 0x42
  }

  /** Each refusal in bytes: too short, another type than 0101, another cookie than 2112a442, in this order,
      and then fewer bytes than the length says. */
  lemma DecodeErrorsIff(buf: seq<byte>, local: SocketAddr)
    ensures Decode(buf, local) == Err(TooShort) <==> |buf| < 20
    ensures Decode(buf, local).Ok? || Decode(buf, local) == Err(Truncated) <==> |buf| >= 20 && TypeAndCookie(buf)
    ensures |buf| >= 20 && !(buf[0] == 0x01 && buf[1] == 0x01) <==>
            Decode(buf, local).Err? && Decode(buf, local).error.UnexpectedType?
    ensures forall t :: Decode(buf, local) == Err(UnexpectedType(t)) ==> t == 256 * (buf[0] as nat) + buf[1] as nat
    ensures |buf| >= 20 && TypeAndCookie(buf) ==>
              (Decode(buf, local).Ok? <==> |buf| >= 20 + 256 * (buf[2] as nat) + buf[3] as nat)
  {
    hide FromBE, Word32, Walk, BE16At;
    if |buf| >= 20 {
      BE16Is(buf, 0);
      BE16Is(buf, 2);
      TypeIff(buf[0], buf[1]);
      CookieIff(buf[4], buf[5], buf[6], buf[7]);
    }
  }

  lemma TypeIff(b0: byte, b1: byte)
    ensures 256 * (b0 as nat) + b1 as nat == 0x0101 <==> b0 == 0x01 && b1 == 0x01
  {
  }

  // ---------- round trip of an endpoint ----------

  function High(p: port16): byte { ((p >> 8) & 0xff) as byte }
  function LowByte(p: port16): byte { (p & 0xff) as byte }

  /** The value of section 15.2 of RFC 5389 for an IPv4 endpoint. */
  function MappedValue(ip: ip32, port: port16): (v: seq<byte>)
    ensures |v| == 8
  {
    var p, a := XorPort(port), XorIp(ip);
    [0, IPV4, High(p), LowByte(p),
     ((a >> 24) & 0xff) as byte, ((a >> 16) & 0xff) as byte, ((a >> 8) & 0xff) as byte, (a & 0xff) as byte]
  }

  lemma PortRoundTrip(p: port16)
    ensures Word16(High(p), LowByte(p)) == p
  {
  }

  lemma IpRoundTrip(a: ip32)
    ensures Word32(((a >> 24) & 0xff) as byte, ((a >> 16) & 0xff) as byte, ((a >> 8) & 0xff) as byte, (a & 0xff) as byte) == a
  {
  }

  lemma XorTwice(p: port16, a: ip32)
    ensures XorPort(XorPort(p)) == p && XorIp(XorIp(a)) == a
  {
  }

  /** Whatever surrounds it, the first IPv4 endpoint a server encodes is the one decoded. */
  lemma EndpointRoundTrip(buf: seq<byte>, before: seq<Attribute>, ip: ip32, port: port16, after: seq<Attribute>, local: SocketAddr)
    requires FirstMapped(before) == None
    requires var all := before + [Attribute(XOR_MAPPED_ADDRESS, MappedValue(ip, port))] + after;
             Encodable(all) && IsResponse(buf, all)
    ensures Decode(buf, local) == Ok(StunEndpoint(V4(ip, port), V4(ip, port) != local))
  {
    hide MappedAddress, IsResponse, MappedValue, Decode;
    var a := Attribute(XOR_MAPPED_ADDRESS, MappedValue(ip, port));
    MappedValueDecodes(ip, port);
    FirstMappedAfter(before, a, after);
    ResponseDecodes(buf, before + [a] + after, local);
  }

  lemma MappedValueDecodes(ip: ip32, port: port16)
    ensures MappedAddress(MappedValue(ip, port)) == Some(V4(ip, port))
  {
    hide Word16, Word32, XorPort, XorIp, High, LowByte;
    XorTwice(port, ip);
    PortRoundTrip(XorPort(port));
    IpRoundTrip(XorIp(ip));
  }

  lemma {:induction false} FirstMappedAfter(before: seq<Attribute>, a: Attribute, after: seq<Attribute>)
    requires FirstMapped(before) == None
    requires a.attrType == XOR_MAPPED_ADDRESS && MappedAddress(a.value).Some?
    ensures FirstMapped(before + [a] + after) == MappedAddress(a.value)
    decreases |before|
  {
    hide MappedAddress;
    var all := before + [a] + after;
    if before == [] {
    } else {
      assert all[1..] == before[1..] + [a] + after;
      FirstMappedAfter(before[1..], a, after);
    }
  }

  /** The value byte by byte, for any address a.b.c.d and port: every byte XORed with the cookie's. */
  lemma MappedBytes(a: byte, b: byte, c: byte, d: byte, high: byte, low: byte)
    ensures MappedValue(Word32(a, b, c, d), Word16(high, low))
            == [0x00, 0x01, high ^ 0x21, low ^ 0x12, a ^ 0x21, b ^ 0x12, c ^ 0xA4, d ^ 0x42]
  {
    PortBytes(high, low);
    AddressBytes(a, b, c, d);
    hide Word16, Word32, XorPort, XorIp, High, LowByte;
  }

  lemma PortBytes(high: byte, low: byte)
    ensures var p := XorPort(Word16(high, low)); High(p) == high ^ 0x21 && LowByte(p) == low ^ 0x12
  {
  }

  lemma AddressBytes(a: byte, b: byte, c: byte, d: byte)
    ensures var x := XorIp(Word32(a, b, c, d));
            && ((x >> 24) & 0xff) as byte == a ^ 0x21 && ((x >> 16) & 0xff) as byte == b ^ 0x12
            && ((x >> 8) & 0xff) as byte == c ^ 0xA4 && (x & 0xff) as byte == d ^ 0x42
  {
  }

  /** The IPv4 example of section 2.2 of RFC 5769: 192.0.2.1, port 32853. */
  lemma ExampleValue()
    ensures MappedAddress([0x00, 0x01, 0xA1, 0x47, 0xE1, 0x12, 0xA6, 0x43]) == Some(V4(0xC0000201, 32853))
  {
    assert Word16(0xA1, 0x47) == 0xA147 && XorPort(0xA147) == 32853;
    assert Word32(0xE1, 0x12, 0xA6, 0x43) == 0xE112A643 && XorIp(0xE112A643) == 0xC0000201;
  }

  /** Which values name an address, and which one, byte by byte. */
  lemma MappedIs(value: seq<byte>)
    ensures MappedAddress(value) ==
            if |value| >= 8 && value[1] == 0x01
            then Some(V4(Word32(value[4] ^ 0x21, value[5] ^ 0x12, value[6] ^ 0xA4, value[7] ^ 0x42),
                         Word16(value[2] ^ 0x21, value[3] ^ 0x12)))
            else None
  {
    hide Word16, Word32, XorPort, XorIp;
    if |value| >= 8 {
      XoredPort(value[2], value[3]);
      XoredIp(value[4], value[5], value[6], value[7]);
    }
  }

  lemma XoredPort(high: byte, low: byte)
    ensures XorPort(Word16(high, low)) == Word16(high ^ 0x21, low ^ 0x12)
  {
  }

  lemma XoredIp(a: byte, b: byte, c: byte, d: byte)
    ensures XorIp(Word32(a, b, c, d)) == Word32(a ^ 0x21, b ^ 0x12, c ^ 0xA4, d ^ 0x42)
  {
  }

  /** Type 0020, eight bytes or more, and the IPv4 family. */
  predicate Usable(a: Attribute) {
    a.attrType == 0x0020 && |a.value| >= 8 && a.value[1] == 0x01
  }

  /** The address found is that of the first usable attribute, and there is none exactly if no attribute is usable. */
  lemma {:induction false} FirstMappedIff(attributes: seq<Attribute>)
    ensures FirstMapped(attributes).None? <==> forall i :: 0 <= i < |attributes| ==> !Usable(attributes[i])
    ensures forall i :: 0 <= i < |attributes| && Usable(attributes[i]) && (forall j :: 0 <= j < i ==> !Usable(attributes[j])) ==>
              FirstMapped(attributes) == MappedAddress(attributes[i].value)
  {
    if attributes == [] {
    } else {
      MappedIs(attributes[0].value);
      hide MappedAddress;
      var rest := attributes[1..];
      FirstMappedIff(rest);
      assert forall i :: 0 < i < |attributes| ==> attributes[i] == rest[i - 1];
      forall i | 0 < i < |attributes| && Usable(attributes[i]) && (forall j :: 0 <= j < i ==> !Usable(attributes[j]))
        ensures FirstMapped(attributes) == MappedAddress(attributes[i].value)
      {
        assert !Usable(attributes[0]);
        assert forall j :: 0 <= j < i - 1 ==> rest[j] == attributes[j + 1];
      }
    }
  }

  /** That value in a whole response: type 0101, twelve more bytes, the cookie, any transaction, and one
      attribute of type 0020 and eight bytes. */
  lemma ExampleResponse(transaction: seq<byte>, local: SocketAddr)
    requires |transaction| == 12
    ensures var buf := [0x01, 0x01, 0x00, 0x0C, 0x21, 0x12, 0xA4, 0x42] + transaction
                     + [0x00, 0x20, 0x00, 0x08] + [0x00, 0x01, 0xA1, 0x47, 0xE1, 0x12, 0xA6, 0x43];
            Decode(buf, local) == Ok(StunEndpoint(V4(0xC0000201, 32853), V4(0xC0000201, 32853) != local))
  {
    hide FromBE, Word32, Word16, BE16At, MappedAddress;
    var head := [0x01, 0x01, 0x00, 0x0C, 0x21, 0x12, 0xA4, 0x42];
    var value := [0x00, 0x01, 0xA1, 0x47, 0xE1, 0x12, 0xA6, 0x43];
    var buf := head + transaction + [0x00, 0x20, 0x00, 0x08] + value;
    BE16Is(buf, 0);
    BE16Is(buf, 2);
    BE16Is(buf, 20);
    BE16Is(buf, 22);
    ByteNumbers();
    CookieIff(buf[4], buf[5], buf[6], buf[7]);
    assert buf[24..32] == value;
    ExampleValue();
  }

  lemma ByteNumbers()
    ensures (0x00 as byte) as nat == 0 && (0x01 as byte) as nat == 1 && (0x08 as byte) as nat == 8
    ensures (0x0C as byte) as nat == 12 && (0x20 as byte) as nat == 32
  {
  }
}
