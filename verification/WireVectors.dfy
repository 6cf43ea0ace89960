/** One message of the two programs, byte for byte: the agent's answer to an accepted first request. */
module WireVectors {
  import opened Bytes
  import opened Wrappers
  import opened ProtocolCodec
  import opened SessionClient
  import CryptoEngine
  import ChaCha20
  import ChaCha20Vectors
  import Mac
  import Agent

  lemma KeyIs()
    ensures SESSION_KEY == ChaCha20Vectors.Key()
  {
  }

  lemma NonceIs()
    ensures Nonce(1) == ChaCha20Vectors.NonceOne()
  {
    hide LE;
    SmallLE(1, 1);
  }

  // ---------- the tag ----------

  lemma FourBytes(a: byte, b: byte, c: byte, d: byte)
    ensures Mac.Number([a, b, c, d]) == a as nat + 256 * (b as nat) + 0x1_0000 * (c as nat) + 0x100_0000 * (d as nat)
  {
    var s := [a, b, c, d];
    assert s[1..] == [b, c, d] && [b, c, d][1..] == [c, d] && [c, d][1..] == [d] && [d][1..] == [];
    assert FromLE([d]) == d as nat;
    assert FromLE([c, d]) == c as nat + 256 * FromLE([d]);
    assert FromLE([b, c, d]) == b as nat + 256 * FromLE([c, d]);
  }

  lemma OneByte(a: byte)
    ensures Mac.Number([a]) == a as nat && Mac.Number([]) == 0
  {
    assert [a][1..] == [];
    assert FromLE([a]) == a as nat + 256 * FromLE([]);
  }

  /** The multiplier of the session key: its first two words, clamped. */
  lemma SessionMultiplier()
    ensures Mac.Multiplier(ChaCha20Vectors.Key()) == Mac.Pair(0x04030200, 0x08070604)
  {
    hide Mac.Number, Mac.Multiplier;
    var key := ChaCha20Vectors.Key();
    Mac.MultiplierIs(key);
    ClampedKey();
    FourBytes(0x00, 0x02, 0x03, 0x04);
    FourBytes(0x04, 0x06, 0x07, 0x08);
  }

  lemma ClampedKey()
    ensures (0x01 as byte) & 0xfc == 0x00 && (0x04 as byte) & 0x0f == 0x04
    ensures (0x05 as byte) & 0xfc == 0x04 && (0x08 as byte) & 0x0f == 0x08
  {
  }

  /** The tag of a one-byte message: the byte and the marker 1 times the multiplier, plus the pads. */
  lemma OneByteTag(b: byte, key: seq<byte>, fullMarker: u64, r: Mac.Pair)
    requires |key| == 32 && r == Mac.Multiplier(key)
    ensures Mac.Tag([b], key, fullMarker)
            == LE((b as nat * r.x + r.y + Mac.Number(key[8..12])) % TWO64, 8)
             + LE((b as nat * r.y + r.x + Mac.Number(key[12..16])) % TWO64, 8)
  {
    hide Mac.Number, LE, FromLE, Mac.Multiplier, Mac.Tag, Mac.BlocksOf, Mac.Polynomial, Mac.Times;
    Mac.MultiplierIs(key);
    Mac.TagIsPolynomial([b], key, fullMarker);
    OneBlock(b, fullMarker);
    PolynomialOfOne(Mac.Pair(b as nat, 1), r);
    TimesOne(b as nat, r);
  }

  lemma TimesOne(n: nat, r: Mac.Pair)
    ensures Mac.Times(Mac.Pair(n, 1), r) == Mac.Pair(n * r.x + r.y, n * r.y + r.x)
  {
  }

  lemma OneBlock(b: byte, fullMarker: u64)
    ensures Mac.BlocksOf([b], fullMarker) == [Mac.Pair(b as nat, 1)]
  {
    hide Mac.Number;
    OneByte(b);
    assert [b][0..1] == [b] && [b][1..1] == [];
  }

  lemma PolynomialOfOne(m: Mac.Pair, r: Mac.Pair)
    ensures Mac.Polynomial([m], r) == Mac.Times(m, r)
  {
    assert [m][1..] == [];
    assert Mac.Power(r, 1) == Mac.Times(Mac.ONE, r);
  }

  lemma SessionPads()
    ensures Mac.Number(ChaCha20Vectors.Key()[8..12]) == 0x0c0b0a09
    ensures Mac.Number(ChaCha20Vectors.Key()[12..16]) == 0x100f0e0d
  {
    hide Mac.Number;
    var key := ChaCha20Vectors.Key();
    FourBytes(0x09, 0x0A, 0x0B, 0x0C);
    FourBytes(0x0D, 0x0E, 0x0F, 0x10);
    assert key[8] == 0x09 && key[9] == 0x0A && key[10] == 0x0B && key[11] == 0x0C;
    assert key[12] == 0x0D && key[13] == 0x0E && key[14] == 0x0F && key[15] == 0x10;
    FourAt(key, 8);
    FourAt(key, 12);
  }

  lemma FourAt(s: seq<byte>, i: nat)
    requires i + 4 <= |s|
    ensures s[i..i + 4] == [s[i], s[i + 1], s[i + 2], s[i + 3]]
  {
  }

  lemma TagNumbers()
    ensures LE(0x18526c80d, 8) == [0x0d, 0xc8, 0x26, 0x85, 0x01, 0, 0, 0]
    ensures LE(0x2f698397d, 8) == [0x7d, 0x39, 0x98, 0xf6, 0x02, 0, 0, 0]
  {
    hide ToByte;
    ToByteIs(0x18526c80d, 0x0d);
    ToByteIs(0x18526c8, 0xc8);
    ToByteIs(0x18526, 0x26);
    ToByteIs(0x185, 0x85);
    ToByteIs(0x1, 0x01);
    ToByteIs(0x2f698397d, 0x7d);
    ToByteIs(0x2f69839, 0x39);
    ToByteIs(0x2f698, 0x98);
    ToByteIs(0x2f6, 0xf6);
    ToByteIs(0x2, 0x02);
    ToByteIs(0, 0);
  }

  lemma TagVector(fullMarker: u64)
    ensures Mac.Tag([0x5c], ChaCha20Vectors.Key(), fullMarker)
            == [0x0d, 0xc8, 0x26, 0x85, 0x01, 0, 0, 0] + [0x7d, 0x39, 0x98, 0xf6, 0x02, 0, 0, 0]
  {
    hide Mac.Number, LE, Mac.Multiplier, Mac.Tag, ChaCha20Vectors.Key;
    SessionMultiplier();
    SessionPads();
    TagNumbers();
    OneByteTag(0x5c, ChaCha20Vectors.Key(), fullMarker, Mac.Pair(0x04030200, 0x08070604));
    ByteAsNumber();
  }

  lemma ByteAsNumber()
    ensures (0x5c as byte) as nat == 0x5c
  {
  }

  // ---------- the answer ----------

  /** Zero under number 1 encrypts to 0x5c. */
  lemma CipherVector()
    ensures CryptoEngine.Cipher([0], ChaCha20Vectors.Key(), ChaCha20Vectors.NonceOne()) == [0x5c]
  {
    hide ChaCha20.Keystream, ChaCha20.BlockByte, ChaCha20Vectors.Key, ChaCha20Vectors.NonceOne, ChaCha20Vectors.SourceWords;
    ChaCha20Vectors.SourceKeystream(0);
    ChaCha20Vectors.SourceBytes();
    XorZero(0x5c);
  }

  lemma XorZero(b: byte)
    ensures 0 ^ b == b
  {
  }

  lemma AnswerSealed(platform: Platform)
    ensures CryptoEngine.Encrypt([0], SESSION_KEY, Nonce(1), platform.fullMarker)
            == Some([0x5c] + ([0x0d, 0xc8, 0x26, 0x85, 0x01, 0, 0, 0] + [0x7d, 0x39, 0x98, 0xf6, 0x02, 0, 0, 0]))
  {
    KeyIs();
    NonceIs();
    hide CryptoEngine.Cipher, Mac.Tag, ChaCha20Vectors.Key, ChaCha20Vectors.NonceOne, Nonce;
    CipherVector();
    TagVector(platform.fullMarker);
  }

  lemma AnswerHeader()
    ensures HeaderBytes(MakeHeader(AUTH_RESPONSE, 1, 0, 17))
            == [0x30, 0x50, 0x41, 0x52, 0x01, 0x00] + [0x0e, 0x00] + [1, 0, 0, 0, 0, 0, 0, 0] + [0, 0, 0, 0, 0, 0, 0, 0] + [0x11, 0, 0, 0]
  {
    SyncBytes();
    hide LE;
    SmallLE(0, 0);
    SmallLE(1, 1);
    SmallLE(14, 0x0e);
    SmallLE(17, 0x11);
    assert [0x30, 0x50, 0x41, 0x52] + [0x01, 0x00] == [0x30, 0x50, 0x41, 0x52, 0x01, 0x00 as byte];
  }

  /** The answer itself: magic number and version; type 14, number 1, time 0 and 17 bytes; one byte of
      ciphertext and sixteen of tag. */
  lemma AnswerOnWire(platform: Platform)
    ensures EncodePacket(Agent.AuthReply(platform, 1, true))
            == [0x30, 0x50, 0x41, 0x52, 0x01, 0x00] + [0x0e, 0x00] + [1, 0, 0, 0, 0, 0, 0, 0] + [0, 0, 0, 0, 0, 0, 0, 0] + [0x11, 0, 0, 0]
             + ([0x5c] + ([0x0d, 0xc8, 0x26, 0x85, 0x01, 0, 0, 0] + [0x7d, 0x39, 0x98, 0xf6, 0x02, 0, 0, 0]))
  {
    hide CryptoEngine.Encrypt, HeaderBytes, Nonce;
    AnswerSealed(platform);
    AnswerHeader();
    var p := Agent.AuthReply(platform, 1, true);
    EncodePacketParts(p);
  }
}
