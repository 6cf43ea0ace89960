/** SHA-256 as libs/file_transfer computes it, against the definitions of FIPS 180-4. */
module Sha256 {
  import opened Bytes

  type word = bv32

  // ---------- FIPS 180-4: functions (section 4.1.2) and constants (4.2.2, 5.3.3) ----------

  function Add(x: word, y: word): word { x + y }
  function Ch(x: word, y: word, z: word): word { (x & y) ^ (!x & z) }
  function Maj(x: word, y: word, z: word): word { (x & y) ^ (x & z) ^ (y & z) }
  function BigSigma0(x: word): word { Rotr2(x) ^ Rotr13(x) ^ Rotr22(x) }
  function BigSigma1(x: word): word { Rotr6(x) ^ Rotr11(x) ^ Rotr25(x) }
  function SmallSigma0(x: word): word { Rotr7(x) ^ Rotr18(x) ^ (x >> 3) }
  function SmallSigma1(x: word): word { Rotr17(x) ^ Rotr19(x) ^ (x >> 10) }

  function Rotr2(x: word): word { (x >> 2) | (x << 30) }
  function Rotr6(x: word): word { (x >> 6) | (x << 26) }
  function Rotr7(x: word): word { (x >> 7) | (x << 25) }
  function Rotr11(x: word): word { (x >> 11) | (x << 21) }
  function Rotr13(x: word): word { (x >> 13) | (x << 19) }
  function Rotr17(x: word): word { (x >> 17) | (x << 15) }
  function Rotr18(x: word): word { (x >> 18) | (x << 14) }
  function Rotr19(x: word): word { (x >> 19) | (x << 13) }
  function Rotr22(x: word): word { (x >> 22) | (x << 10) }
  function Rotr25(x: word): word { (x >> 25) | (x << 7) }

  function K(t: nat): word
    requires t < 64
  {
    match t
    case 0 => 0x428a2f98 case 1 => 0x71374491 case 2 => 0xb5c0fbcf case 3 => 0xe9b5dba5
    case 4 => 0x3956c25b case 5 => 0x59f111f1 case 6 => 0x923f82a4 case 7 => 0xab1c5ed5
    case 8 => 0xd807aa98 case 9 => 0x12835b01 case 10 => 0x243185be case 11 => 0x550c7dc3
    case 12 => 0x72be5d74 case 13 => 0x80deb1fe case 14 => 0x9bdc06a7 case 15 => 0xc19bf174
    case 16 => 0xe49b69c1 case 17 => 0xefbe4786 case 18 => 0x0fc19dc6 case 19 => 0x240ca1cc
    case 20 => 0x2de92c6f case 21 => 0x4a7484aa case 22 => 0x5cb0a9dc case 23 => 0x76f988da
    case 24 => 0x983e5152 case 25 => 0xa831c66d case 26 => 0xb00327c8 case 27 => 0xbf597fc7
    case 28 => 0xc6e00bf3 case 29 => 0xd5a79147 case 30 => 0x06ca6351 case 31 => 0x14292967
    case 32 => 0x27b70a85 case 33 => 0x2e1b2138 case 34 => 0x4d2c6dfc case 35 => 0x53380d13
    case 36 => 0x650a7354 case 37 => 0x766a0abb case 38 => 0x81c2c92e case 39 => 0x92722c85
    case 40 => 0xa2bfe8a1 case 41 => 0xa81a664b case 42 => 0xc24b8b70 case 43 => 0xc76c51a3
    case 44 => 0xd192e819 case 45 => 0xd6990624 case 46 => 0xf40e3585 case 47 => 0x106aa070
    case 48 => 0x19a4c116 case 49 => 0x1e376c08 case 50 => 0x2748774c case 51 => 0x34b0bcb5
    case 52 => 0x391c0cb3 case 53 => 0x4ed8aa4a case 54 => 0x5b9cca4f case 55 => 0x682e6ff3
    case 56 => 0x748f82ee case 57 => 0x78a5636f case 58 => 0x84c87814 case 59 => 0x8cc70208
    case 60 => 0x90befffa case 61 => 0xa4506ceb case 62 => 0xbef9a3f7 case 63 => 0xc67178f2
  }

  /** The eight working variables, or the eight words of a hash value. */
  datatype Eight = Eight(a: word, b: word, c: word, d: word, e: word, f: word, g: word, h: word)

  function InitialHash(): Eight {
    Eight(0x6a09e667, 0xbb67ae85, 0x3c6ef372, 0xa54ff53a, 0x510e527f, 0x9b05688c, 0x1f83d9ab, 0x5be0cd19)
  }

  // ---------- FIPS 180-4: padding and parsing (sections 5.1.1 and 5.2.1) ----------

  /** `z` zero bytes after the 0x80 byte bring the length to 448 bits modulo 512. */
  predicate Fills(length: nat, z: nat) {
    (length + 1 + z) % 64 == 56
  }

  /** The fewest zero bytes that do. */
  function ZeroBytes(length: nat): (z: nat)
    ensures z < 64
  {
    var r := length % 64;
    if r <= 55 then 55 - r else 119 - r
  }

  lemma ZeroBytesLeast(length: nat)
    ensures Fills(length, ZeroBytes(length))
    ensures forall k: nat :: Fills(length, k) ==> ZeroBytes(length) <= k
  {
  }

  /** The padded length is a multiple of 512 bits. */
  lemma PaddedLength(length: nat)
    ensures (length + 9 + ZeroBytes(length)) % 64 == 0
  {
    ZeroBytesLeast(length);
  }

  function Zeros(n: nat): (s: seq<byte>)
    ensures |s| == n
  {
    seq(n, _ => 0)
  }

  /** The message, a one bit, zero bits, and the length in bits as a 64-bit big-endian number. */
  function Padded(message: seq<byte>): (s: seq<byte>)
    ensures |s| == |message| + 9 + ZeroBytes(|message|)
  {
    hide BE, ZeroBytes;
    message + [0x80] + Zeros(ZeroBytes(|message|)) + BE(8 * |message|, 8)
  }

  function Join(b0: byte, b1: byte, b2: byte, b3: byte): word {
    (b0 as word << 24) | (b1 as word << 16) | (b2 as word << 8) | (b3 as word)
  }

  /** Word `t` of block `i`. */
  function MessageWord(padded: seq<byte>, i: nat, t: nat): word
    requires 64 * i + 64 <= |padded| && t < 16
  {
    Join(padded[64 * i + 4 * t], padded[64 * i + 4 * t + 1], padded[64 * i + 4 * t + 2], padded[64 * i + 4 * t + 3])
  }

  function MessageBlock(padded: seq<byte>, i: nat): (m: seq<word>)
    requires 64 * i + 64 <= |padded|
    ensures |m| == 16
  {
    seq(16, t requires 0 <= t < 16 => MessageWord(padded, i, t))
  }

  // ---------- FIPS 180-4: hash computation (section 6.2.2) ----------

  /** The first `n` words of the message schedule. */
  function Schedule(block: seq<word>, n: nat): (w: seq<word>)
    requires |block| == 16
    ensures |w| == n
    ensures n > 16 ==> w[..n - 1] == Schedule(block, n - 1)
  {
    if n <= 16 then block[..n]
    else
      var w := Schedule(block, n - 1);
      var t := n - 1;
      w + [Add(Add(Add(SmallSigma1(w[t - 2]), w[t - 7]), SmallSigma0(w[t - 15])), w[t - 16])]
  }

  /** Step 3: one round, with T1 and T2. */
  function Round(r: Eight, k: word, w: word): Eight {
    var t1 := Add(Add(Add(Add(r.h, BigSigma1(r.e)), Ch(r.e, r.f, r.g)), k), w);
    var t2 := Add(BigSigma0(r.a), Maj(r.a, r.b, r.c));
    Eight(Add(t1, t2), r.a, r.b, r.c, Add(r.d, t1), r.e, r.f, r.g)
  }

  function Rounds(r: Eight, w: seq<word>, t: nat): Eight
    requires t <= 64 && |w| == 64
  {
    if t == 0 then r else Round(Rounds(r, w, t - 1), K(t - 1), w[t - 1])
  }

  /** Step 4: the intermediate hash value. */
  function Sum(x: Eight, y: Eight): Eight {
    Eight(Add(x.a, y.a), Add(x.b, y.b), Add(x.c, y.c), Add(x.d, y.d),
          Add(x.e, y.e), Add(x.f, y.f), Add(x.g, y.g), Add(x.h, y.h))
  }

  function Compress(hash: Eight, block: seq<word>): Eight
    requires |block| == 16
  {
    Sum(Rounds(hash, Schedule(block, 64), 64), hash)
  }

  /** The hash value after the first `n` blocks. */
  function HashValue(padded: seq<byte>, n: nat): Eight
    requires 64 * n <= |padded|
  {
    if n == 0 then InitialHash() else Compress(HashValue(padded, n - 1), MessageBlock(padded, n - 1))
  }

  function BlockCount(length: nat): (n: nat)
    ensures 64 * n <= length
  {
    length / 64
  }

  function Digest(message: seq<byte>): Eight {
    var padded := Padded(message);
    HashValue(padded, BlockCount(|padded|))
  }

  // ---------- hexadecimal ----------

  function HexDigit(d: bv4): char {
    match d
    case 0 => '0' case 1 => '1' case 2 => '2' case 3 => '3'
    case 4 => '4' case 5 => '5' case 6 => '6' case 7 => '7'
    case 8 => '8' case 9 => '9' case 10 => 'a' case 11 => 'b'
    case 12 => 'c' case 13 => 'd' case 14 => 'e' case _ => 'f'
  }

  /** Eight lower-case digits, most significant first. */
  function HexWord(w: word): (s: string)
    ensures |s| == 8
  {
    [HexDigit(((w >> 28) & 0xf) as bv4), HexDigit(((w >> 24) & 0xf) as bv4),
     HexDigit(((w >> 20) & 0xf) as bv4), HexDigit(((w >> 16) & 0xf) as bv4),
     HexDigit(((w >> 12) & 0xf) as bv4), HexDigit(((w >> 8) & 0xf) as bv4),
     HexDigit(((w >> 4) & 0xf) as bv4), HexDigit((w & 0xf) as bv4)]
  }

  function Hex(h: Eight): (s: string)
    ensures |s| == 64
  {
    HexWord(h.a) + HexWord(h.b) + HexWord(h.c) + HexWord(h.d) +
    HexWord(h.e) + HexWord(h.f) + HexWord(h.g) + HexWord(h.h)
  }

  /** The string `computeSha256` returns. */
  function HexDigest(message: seq<byte>): (s: string)
    ensures |s| == 64
  {
    Hex(Digest(message))
  }

  /** Digits below ten are '0' and up, the others 'a' and up. */
  lemma HexDigitSpells(d: bv4)
    ensures HexDigit(d) as int == if d < 10 then '0' as int + d as int else 'a' as int + d as int - 10
  {
  }

  lemma HexDigitInjective(x: bv4, y: bv4)
    requires HexDigit(x) == HexDigit(y)
    ensures x == y
  {
  }

  lemma NibblesDetermine(x: word, y: word)
    requires ((x >> 28) & 0xf) as bv4 == ((y >> 28) & 0xf) as bv4 && ((x >> 24) & 0xf) as bv4 == ((y >> 24) & 0xf) as bv4
    requires ((x >> 20) & 0xf) as bv4 == ((y >> 20) & 0xf) as bv4 && ((x >> 16) & 0xf) as bv4 == ((y >> 16) & 0xf) as bv4
    requires ((x >> 12) & 0xf) as bv4 == ((y >> 12) & 0xf) as bv4 && ((x >> 8) & 0xf) as bv4 == ((y >> 8) & 0xf) as bv4
    requires ((x >> 4) & 0xf) as bv4 == ((y >> 4) & 0xf) as bv4 && (x & 0xf) as bv4 == (y & 0xf) as bv4
    ensures x == y
  {
  }

  lemma HexWordInjective(x: word, y: word)
    requires HexWord(x) == HexWord(y)
    ensures x == y
  {
    hide HexDigit;
    var s, t := HexWord(x), HexWord(y);
    assert s[0] == t[0] && s[1] == t[1] && s[2] == t[2] && s[3] == t[3];
    assert s[4] == t[4] && s[5] == t[5] && s[6] == t[6] && s[7] == t[7];
    HexDigitInjective(((x >> 28) & 0xf) as bv4, ((y >> 28) & 0xf) as bv4);
    HexDigitInjective(((x >> 24) & 0xf) as bv4, ((y >> 24) & 0xf) as bv4);
    HexDigitInjective(((x >> 20) & 0xf) as bv4, ((y >> 20) & 0xf) as bv4);
    HexDigitInjective(((x >> 16) & 0xf) as bv4, ((y >> 16) & 0xf) as bv4);
    HexDigitInjective(((x >> 12) & 0xf) as bv4, ((y >> 12) & 0xf) as bv4);
    HexDigitInjective(((x >> 8) & 0xf) as bv4, ((y >> 8) & 0xf) as bv4);
    HexDigitInjective(((x >> 4) & 0xf) as bv4, ((y >> 4) & 0xf) as bv4);
    HexDigitInjective((x & 0xf) as bv4, (y & 0xf) as bv4);
    NibblesDetermine(x, y);
  }

  /** Comparing the strings is comparing the digests. */
  lemma HexIff(x: Eight, y: Eight)
    ensures Hex(x) == Hex(y) <==> x == y
  {
    hide HexWord;
    if Hex(x) == Hex(y) {
      SamePieces(HexWord(x.a), HexWord(x.b), HexWord(x.c), HexWord(x.d), HexWord(x.e), HexWord(x.f), HexWord(x.g), HexWord(x.h),
                 HexWord(y.a), HexWord(y.b), HexWord(y.c), HexWord(y.d), HexWord(y.e), HexWord(y.f), HexWord(y.g), HexWord(y.h));
      HexWordInjective(x.a, y.a);
      HexWordInjective(x.b, y.b);
      HexWordInjective(x.c, y.c);
      HexWordInjective(x.d, y.d);
      HexWordInjective(x.e, y.e);
      HexWordInjective(x.f, y.f);
      HexWordInjective(x.g, y.g);
      HexWordInjective(x.h, y.h);
    }
  }

  lemma SamePieces(p0: string, p1: string, p2: string, p3: string, p4: string, p5: string, p6: string, p7: string,
                   q0: string, q1: string, q2: string, q3: string, q4: string, q5: string, q6: string, q7: string)
    requires |p1| == |q1| && |p2| == |q2| && |p3| == |q3| && |p4| == |q4| && |p5| == |q5| && |p6| == |q6| && |p7| == |q7|
    requires p0 + p1 + p2 + p3 + p4 + p5 + p6 + p7 == q0 + q1 + q2 + q3 + q4 + q5 + q6 + q7
    ensures p0 == q0 && p1 == q1 && p2 == q2 && p3 == q3 && p4 == q4 && p5 == q5 && p6 == q6 && p7 == q7
  {
    LastPiece(p0 + p1 + p2 + p3 + p4 + p5 + p6, q0 + q1 + q2 + q3 + q4 + q5 + q6, p7, q7);
    LastPiece(p0 + p1 + p2 + p3 + p4 + p5, q0 + q1 + q2 + q3 + q4 + q5, p6, q6);
    LastPiece(p0 + p1 + p2 + p3 + p4, q0 + q1 + q2 + q3 + q4, p5, q5);
    LastPiece(p0 + p1 + p2 + p3, q0 + q1 + q2 + q3, p4, q4);
    LastPiece(p0 + p1 + p2, q0 + q1 + q2, p3, q3);
    LastPiece(p0 + p1, q0 + q1, p2, q2);
    LastPiece(p0, q0, p1, q1);
  }

  lemma LastPiece(s: string, t: string, u: string, v: string)
    requires s + u == t + v && |u| == |v|
    ensures s == t && u == v
  {
    var w := s + u;
    assert w[..|s|] == s && w[|s|..] == u && w[..|t|] == t && w[|t|..] == v;
  }

  // ---------- padding is injective ----------

  /** The message can be read back from its padding, so distinct messages hash distinct blocks. */
  lemma PaddingInjective(m: seq<byte>, n: seq<byte>)
    requires Padded(m) == Padded(n)
    ensures m == n
  {
    hide BE, FromBE;
    var p := Padded(m);
    assert p[|p| - 8..] == BE(8 * |m|, 8) == BE(8 * |n|, 8);
    SameLowBytes(|m|, |n|);
    assert p[..|m|] == m && p[..|n|] == n;
  }

  /** Lengths within 64 of each other with the same 64-bit bit length are the same. */
  lemma SameLowBytes(x: nat, y: nat)
    requires BE(8 * x, 8) == BE(8 * y, 8)
    requires -64 < x - y < 64
    ensures x == y
  {
    hide BE;
    LowBytes(8 * x);
    LowBytes(8 * y);
    NearAndCongruent(8 * x, 8 * y);
  }

  lemma LowBytes(n: nat)
    ensures BE(n, 8)[7] as nat == n % 256
    ensures BE(n, 8)[6] as nat == n / 256 % 256
  {
    assert BE(n, 8) == BE(n / 256, 7) + [ToByte(n)];
    assert BE(n / 256, 7) == BE(n / 256 / 256, 6) + [ToByte(n / 256)];
  }

  lemma NearAndCongruent(a: nat, b: nat)
    requires a % 256 == b % 256 && a / 256 % 256 == b / 256 % 256
    requires -512 < a - b < 512
    ensures a == b
  {
    var p, q := a / 256, b / 256;
    assert a - b == 256 * (p - q);
    assert -2 < p - q < 2;
  }
}
