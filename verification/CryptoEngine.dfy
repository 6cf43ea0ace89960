/** Authenticated encryption of libs/security: the cipher's output followed by the tag over it. */
module CryptoEngine {
  import opened Bytes
  import opened Wrappers
  import ChaCha20
  import Mac

  const KEY_SIZE: nat := 32
  const NONCE_SIZE: nat := 12
  const TAG_SIZE: nat := 16

  /** `chacha20Xor(..., 1)`: both directions start at block counter one. */
  function Cipher(data: seq<byte>, key: seq<byte>, nonce: seq<byte>): (r: seq<byte>)
    requires |key| == KEY_SIZE && |nonce| == NONCE_SIZE
    ensures |r| == |data|
  {
    ChaCha20.XorStream(data, key, nonce, 1)
  }

  /** What `encryptPayload` returns; None stands for its `invalid_argument` exception. */
  function Encrypt(plaintext: seq<byte>, key: seq<byte>, nonce: seq<byte>, fullMarker: u64): (r: Option<seq<byte>>)
    ensures r.Some? <==> |key| == KEY_SIZE && |nonce| == NONCE_SIZE
    ensures r.Some? ==> |r.value| == |plaintext| + TAG_SIZE
  {
    if |key| != KEY_SIZE || |nonce| != NONCE_SIZE then None
    else
      var ciphertext := Cipher(plaintext, key, nonce);
      Some(ciphertext + Mac.Tag(ciphertext, key, fullMarker))
  }

  function Decrypt(ciphertext: seq<byte>, key: seq<byte>, nonce: seq<byte>, fullMarker: u64): Option<seq<byte>> {
    if |key| != KEY_SIZE || |nonce| != NONCE_SIZE || |ciphertext| < TAG_SIZE then None
    else
      var payloadSize := |ciphertext| - TAG_SIZE;
      var body := ciphertext[..payloadSize];
      if ciphertext[payloadSize..] != Mac.Tag(body, key, fullMarker) then None
      else Some(Cipher(body, key, nonce))
  }

  method EncryptPayload(plaintext: seq<byte>, key: seq<byte>, nonce: seq<byte>, fullMarker: u64)
    returns (r: Option<seq<byte>>)
    ensures r == Encrypt(plaintext, key, nonce, fullMarker)
  {
    hide Mac.Tag, ChaCha20.XorStream;
    if |key| != KEY_SIZE || |nonce| != NONCE_SIZE {
      return None;
    }
    var ciphertext := new byte[|plaintext|](i requires 0 <= i < |plaintext| => plaintext[i]);
    assert ciphertext[..] == plaintext;
    ChaCha20.XorInPlace(ciphertext, key, nonce, 1);
    var tag := Mac.ComputeMac(ciphertext[..], key, fullMarker);
    return Some(ciphertext[..] + tag);
  }

  method DecryptPayload(ciphertext: seq<byte>, key: seq<byte>, nonce: seq<byte>, fullMarker: u64)
    returns (r: Option<seq<byte>>)
    ensures r == Decrypt(ciphertext, key, nonce, fullMarker)
  {
    hide Mac.Tag, ChaCha20.XorStream;
    if |key| != KEY_SIZE || |nonce| != NONCE_SIZE || |ciphertext| < TAG_SIZE {
      return None;
    }
    var payloadSize := |ciphertext| - TAG_SIZE;
    var expectedTag := Mac.ComputeMac(ciphertext[..payloadSize], key, fullMarker);
    var diff := TagDifference(ciphertext[payloadSize..], expectedTag);
    if diff != 0 {
      return None;
    }
    var plaintext := new byte[payloadSize](i requires 0 <= i < payloadSize => ciphertext[i]);
    assert plaintext[..] == ciphertext[..payloadSize];
    ChaCha20.XorInPlace(plaintext, key, nonce, 1);
    return Some(plaintext[..]);
  }

  /** The constant-time comparison: OR together the XORs of corresponding bytes. */
  method TagDifference(tag: seq<byte>, expected: seq<byte>) returns (diff: byte)
    requires |tag| == |expected|
    ensures diff == 0 <==> tag == expected
  {
    diff := 0;
    for i := 0 to |tag|
      invariant diff == 0 <==> tag[..i] == expected[..i]
    {
      ghost var before := diff;
      OrXorIsZero(diff, tag[i], expected[i]);
      diff := diff | (tag[i] ^ expected[i]);
      assert tag[..i + 1] == tag[..i] + [tag[i]] && expected[..i + 1] == expected[..i] + [expected[i]];
    }
    assert tag[..|tag|] == tag && expected[..|tag|] == expected;
  }

  lemma OrXorIsZero(d: byte, a: byte, b: byte)
    ensures d | (a ^ b) == 0 <==> d == 0 && a == b
  {
  }

  /** Decryption is exactly the inverse of encryption: it returns `plaintext` if and only if the
      input is what encrypting `plaintext` under the same key and nonce gives. */
  lemma DecryptIff(ciphertext: seq<byte>, plaintext: seq<byte>, key: seq<byte>, nonce: seq<byte>, fullMarker: u64)
    ensures Decrypt(ciphertext, key, nonce, fullMarker) == Some(plaintext)
            <==> Encrypt(plaintext, key, nonce, fullMarker) == Some(ciphertext)
  {
    hide Mac.Tag, ChaCha20.XorStream;
    if |key| == KEY_SIZE && |nonce| == NONCE_SIZE {
      if |ciphertext| >= TAG_SIZE {
        var body, tag := ciphertext[..|ciphertext| - TAG_SIZE], ciphertext[|ciphertext| - TAG_SIZE..];
        assert ciphertext == body + tag;
        ChaCha20.XorStreamInvolution(body, key, nonce, 1);
      }
      ChaCha20.XorStreamInvolution(plaintext, key, nonce, 1);
      var c := Cipher(plaintext, key, nonce);
      var e := c + Mac.Tag(c, key, fullMarker);
      assert e[..|e| - TAG_SIZE] == c && e[|e| - TAG_SIZE..] == Mac.Tag(c, key, fullMarker);
    }
  }

  /** Both directions XOR byte `i` with byte `i mod 64` of the block whose counter is
      1 + i / 64, wrapping at 2^32. */
  lemma CipherByte(data: seq<byte>, key: seq<byte>, nonce: seq<byte>, i: nat)
    requires |key| == KEY_SIZE && |nonce| == NONCE_SIZE && i < |data|
    ensures var counter := ChaCha20.WordOf((1 + i / 64) % TWO32);
            Cipher(data, key, nonce)[i] ==
            data[i] ^ ChaCha20.BlockByte(ChaCha20.Block(ChaCha20.Words(key, 8), counter, ChaCha20.Words(nonce, 3)), i % 64)
  {
    hide ChaCha20.Block, ChaCha20.Words, ChaCha20.BlockByte, ChaCha20.WordOf, ChaCha20.Counter;
    ChaCha20.WordOfOne();
    ChaCha20.CounterIsModular(1, i / 64);
  }
}
