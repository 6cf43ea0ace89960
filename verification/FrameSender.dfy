/** The agent's frame callback: a captured frame becomes one encrypted packet (apps/agent/src/main.cpp). */
module FrameSender {
  import opened Bytes
  import opened ProtocolCodec
  import opened SessionClient
  import CryptoEngine

  datatype FrameData = FrameData(
    width: u32,
    height: u32,
    frameNumber: u64,
    timestampUs: u64,
    pixelData: seq<byte>)

  /** What the sender needs: a packet of under 2^31 bytes, the length a Qt byte array is built with. */
  predicate Fits(platform: Platform, f: FrameData) {
    HEADER_SIZE + 12 + |platform.compress(f.pixelData)| + CryptoEngine.TAG_SIZE < 0x8000_0000
  }

  /** Width, height and raw size, then the compressed pixels. */
  function FramePlaintext(platform: Platform, f: FrameData): (s: seq<byte>)
    ensures |s| == 12 + |platform.compress(f.pixelData)|
  {
    LE(f.width, 4) + LE(f.height, 4) + LE(ToU32(|f.pixelData|), 4) + platform.compress(f.pixelData)
  }

  function FramePacket(platform: Platform, f: FrameData): (p: Packet)
    requires Fits(platform, f)
    ensures WellFormed(p)
  {
    KeyAndNonceFit(f.frameNumber);
    var cipher := CryptoEngine.Encrypt(FramePlaintext(platform, f), SESSION_KEY, Nonce(f.frameNumber), platform.fullMarker).value;
    MakePacket(FRAME_HEADER, f.frameNumber, f.timestampUs / 1000, cipher)
  }

  /** A frame's packet: type 3 under the frame's own number, its time in milliseconds, and sealed in it the
      width, the height, the size of the raw pixels modulo 2^32 and the compressed pixels. */
  lemma FrameIsSealed(platform: Platform, f: FrameData, rawSize: u32)
    requires Fits(platform, f) && rawSize == |f.pixelData| % TWO32
    ensures var p := FramePacket(platform, f);
            && p.header.payloadType == 3 && p.header.sequenceNumber == f.frameNumber
            && p.header.timestampMs == f.timestampUs / 1000
            && Seals(platform, p, LE(f.width, 4) + LE(f.height, 4) + LE(rawSize, 4) + platform.compress(f.pixelData))
  {
    hide CryptoEngine.Encrypt, LE;
    KeyAndNonceFit(f.frameNumber);
  }

  method BuildFrame(platform: Platform, f: FrameData) returns (bytes: seq<byte>)
    requires Fits(platform, f)
    ensures bytes == EncodePacket(FramePacket(platform, f))
  {
    hide LE, CryptoEngine.Encrypt, Encode;
    var compressed := platform.compress(f.pixelData);
    var plaintext := new byte[12 + |compressed|](_ => 0);
    var ptr := ProtocolCodec.Append(plaintext, 0, LE(f.width, 4));
    ptr := ProtocolCodec.Append(plaintext, ptr, LE(f.height, 4));
    ptr := ProtocolCodec.Append(plaintext, ptr, LE(ToU32(|f.pixelData|), 4));
    ghost var front := plaintext[..12];
    ptr := ProtocolCodec.Append(plaintext, ptr, compressed);
    assert plaintext[..] == front + compressed == FramePlaintext(platform, f);
    var encrypted := CryptoEngine.EncryptPayload(plaintext[..], SESSION_KEY, Nonce(f.frameNumber), platform.fullMarker);
    var encoded := EncodeBuffer(FRAME_HEADER, f.frameNumber, f.timestampUs / 1000, encrypted.value);
    bytes := encoded[..];
  }
}
