/** Bytes, fixed-width unsigned integers and their byte orders.

    The C++ and Rust sources copy integers in native byte order; the model fixes
    little-endian for those, and big-endian where the source asks for it. */
module Bytes {

  type byte = bv8
  type u16 = n: nat | n < 0x1_0000
  type u32 = n: nat | n < 0x1_0000_0000
  type u64 = n: nat | n < 0x1_0000_0000_0000_0000

  const TWO32: nat := 0x1_0000_0000
  const TWO64: nat := 0x1_0000_0000_0000_0000

  /** The conversion `static_cast<uint8_t>(n)`. */
  function ToByte(n: nat): (b: byte)
    ensures b as nat == n % 256
  {
    CountTo(n % 256)
  }

  /** The byte of value `k`. Counting up keeps integer-to-bit-vector conversions out of proofs. */
  function CountTo(k: nat): (b: byte)
    requires k < 256
    ensures b as nat == k
  {
    if k == 0 then 0 else CountTo(k - 1) + 1
  }

  lemma SameLowByte(m: nat, n: nat)
    requires m % 256 == n % 256
    ensures ToByte(m) == ToByte(n)
  {
    hide CountTo;
  }

  lemma ByteValueInjective(a: byte, b: byte)
    requires a as nat == b as nat
    ensures a == b
  {
  }

  lemma ToByteIs(n: nat, b: byte)
    requires b as nat == n % 256
    ensures ToByte(n) == b
  {
    hide CountTo;
    ByteValueInjective(ToByte(n), b);
  }

  function Pow256(k: nat): (p: nat)
    ensures p > 0
  {
    if k == 0 then 1 else 256 * Pow256(k - 1)
  }

  lemma Pow256Values()
    ensures Pow256(1) == 256
    ensures Pow256(2) == 0x1_0000
    ensures Pow256(4) == TWO32
    ensures Pow256(8) == TWO64
  {
    assert Pow256(4) == 256 * 256 * Pow256(2);
    assert Pow256(6) == 256 * 256 * Pow256(4);
    assert Pow256(8) == 256 * 256 * Pow256(6);
  }

  /** The conversion `static_cast<uint32_t>(n)`, by taking away 2^32 until the value fits. */
  function ToU32(n: nat): (r: u32)
    ensures r == n % TWO32
  {
    if n < TWO32 then n else ToU32(n - TWO32)
  }

  // ---------- little-endian ----------

  /** The low `k` bytes of `n`, least significant first. */
  function LE(n: nat, k: nat): (s: seq<byte>)
    ensures |s| == k
  {
    if k == 0 then [] else [ToByte(n)] + LE(n / 256, k - 1)
  }

  function FromLE(s: seq<byte>): nat
  {
    if s == [] then 0 else s[0] as nat + 256 * FromLE(s[1..])
  }

  lemma {:induction false} FromLEOfLE(n: nat, k: nat)
    requires n < Pow256(k)
    ensures FromLE(LE(n, k)) == n
  {
    if k == 0 {
    } else {
      FromLEOfLE(n / 256, k - 1);
    }
  }

  lemma {:induction false} LEOfFromLE(s: seq<byte>)
    ensures FromLE(s) < Pow256(|s|)
    ensures LE(FromLE(s), |s|) == s
  {
    if s == [] {
    } else {
      LEOfFromLE(s[1..]);
      assert FromLE(s) / 256 == FromLE(s[1..]);
      ByteValueInjective(ToByte(FromLE(s)), s[0]);
    }
  }

  lemma {:induction false} ZeroLE(k: nat)
    ensures LE(0, k) == seq(k, _ => 0)
  {
    hide ToByte;
    if k == 0 {
    } else {
      ToByteIs(0, 0);
      ZeroLE(k - 1);
    }
  }

  /** A number of one byte, in two, four and eight bytes. */
  lemma SmallLE(n: nat, b: byte)
    requires b as nat == n
    ensures LE(n, 2) == [b, 0] && LE(n, 4) == [b, 0, 0, 0] && LE(n, 8) == [b, 0, 0, 0, 0, 0, 0, 0]
  {
    hide LE;
    SmallThenZeros(n, b, 2);
    SmallThenZeros(n, b, 4);
    SmallThenZeros(n, b, 8);
    ZeroTails(b);
  }

  lemma ZeroTails(b: byte)
    ensures [b] + seq(1, _ => 0) == [b, 0] && [b] + seq(3, _ => 0) == [b, 0, 0, 0]
    ensures [b] + seq(7, _ => 0) == [b, 0, 0, 0, 0, 0, 0, 0]
  {
  }

  lemma SmallThenZeros(n: nat, b: byte, k: nat)
    requires b as nat == n && k > 0
    ensures LE(n, k) == [b] + seq(k - 1, _ => 0)
  {
    hide ToByte;
    ToByteIs(n, b);
    ZeroLE(k - 1);
    assert n / 256 == 0;
  }

  /** Byte `i` weighs 256 to the power `i`. */
  lemma {:induction false} LEByte(n: nat, k: nat, i: nat)
    requires i < k
    ensures LE(n, k)[i] as nat == n / Pow256(i) % 256
    decreases i
  {
    if i == 0 {
    } else {
      LEByte(n / 256, k - 1, i - 1);
      DivideTwice(n, Pow256(i - 1));
    }
  }

  lemma DivideTwice(n: nat, p: nat)
    requires p > 0
    ensures n / (256 * p) == n / 256 / p
  {
    var a, r := n / 256, n % 256;
    var q, b := a / p, a % p;
    assert a == p * q + b;
    assert n == (256 * p) * q + (256 * b + r);
    QuotientIs(n, 256 * p, q, 256 * b + r);
  }

  lemma QuotientIs(n: nat, d: nat, q: nat, r: nat)
    requires d > 0 && r < d && n == d * q + r
    ensures n / d == q && n % d == r
  {
    var e: int := n / d - q;
    assert d * e == r - n % d by { assert n == d * (n / d) + n % d; }
    assert e > 0 ==> d * e >= d;
    assert e < 0 ==> d * e + d <= 0;
  }

  // ---------- big-endian ----------

  /** The low `k` bytes of `n`, most significant first (`to_be_bytes`). */
  function BE(n: nat, k: nat): (s: seq<byte>)
    ensures |s| == k
  {
    if k == 0 then [] else BE(n / 256, k - 1) + [ToByte(n)]
  }

  function FromBE(s: seq<byte>): nat
  {
    if s == [] then 0 else 256 * FromBE(s[..|s| - 1]) + s[|s| - 1] as nat
  }

  lemma {:induction false} FromBEOfBE(n: nat, k: nat)
    requires n < Pow256(k)
    ensures FromBE(BE(n, k)) == n
  {
    if k == 0 {
    } else {
      FromBEOfBE(n / 256, k - 1);
      assert BE(n, k)[..k - 1] == BE(n / 256, k - 1);
    }
  }

  lemma {:induction false} FromBEBound(s: seq<byte>)
    ensures FromBE(s) < Pow256(|s|)
  {
    if s == [] {
    } else {
      FromBEBound(s[..|s| - 1]);
    }
  }

  lemma {:induction false} BEOfFromBE(s: seq<byte>)
    ensures BE(FromBE(s), |s|) == s
  {
    if s == [] {
    } else {
      var n := |s| - 1;
      BEOfFromBE(s[..n]);
      assert FromBE(s) / 256 == FromBE(s[..n]);
      ByteValueInjective(ToByte(FromBE(s)), s[n]);
    }
  }

  /** Byte `i` from the end weighs 256 to the power `i`. */
  lemma {:induction false} BEByte(n: nat, k: nat, i: nat)
    requires i < k
    ensures BE(n, k)[k - 1 - i] as nat == n / Pow256(i) % 256
    decreases i
  {
    if i == 0 {
    } else {
      BEByte(n / 256, k - 1, i - 1);
      DivideTwice(n, Pow256(i - 1));
    }
  }

  // ---------- reading a field at an offset ----------

  function U16At(s: seq<byte>, at: nat): u16
    requires at + 2 <= |s|
  {
    LEOfFromLE(s[at..at + 2]);
    Pow256Values();
    FromLE(s[at..at + 2])
  }

  function U32At(s: seq<byte>, at: nat): u32
    requires at + 4 <= |s|
  {
    LEOfFromLE(s[at..at + 4]);
    Pow256Values();
    FromLE(s[at..at + 4])
  }

  function U64At(s: seq<byte>, at: nat): u64
    requires at + 8 <= |s|
  {
    LEOfFromLE(s[at..at + 8]);
    Pow256Values();
    FromLE(s[at..at + 8])
  }

  /** A two-byte little-endian field sits at `at` exactly when reading there gives its value. */
  lemma U16Field(s: seq<byte>, at: nat, v: u16)
    requires at + 2 <= |s|
    ensures U16At(s, at) == v <==> s[at..at + 2] == LE(v, 2)
  {
    Pow256Values();
    FromLEOfLE(v, 2);
    LEOfFromLE(s[at..at + 2]);
  }

  lemma U32Field(s: seq<byte>, at: nat, v: u32)
    requires at + 4 <= |s|
    ensures U32At(s, at) == v <==> s[at..at + 4] == LE(v, 4)
  {
    Pow256Values();
    FromLEOfLE(v, 4);
    LEOfFromLE(s[at..at + 4]);
  }

  lemma U64Field(s: seq<byte>, at: nat, v: u64)
    requires at + 8 <= |s|
    ensures U64At(s, at) == v <==> s[at..at + 8] == LE(v, 8)
  {
    Pow256Values();
    FromLEOfLE(v, 8);
    LEOfFromLE(s[at..at + 8]);
  }

  // ---------- buffers ----------

  /** `std::memcpy(dst + at, src, |src|)`. */
  method MemCpy(dst: array<byte>, at: nat, src: seq<byte>)
    requires at + |src| <= dst.Length
    modifies dst
    ensures dst[..] == old(dst[..at]) + src + old(dst[at + |src|..])
  {
    for i := 0 to |src|
      invariant dst[..at] == old(dst[..at])
      invariant dst[at..at + i] == src[..i]
      invariant dst[at + i..] == old(dst[at + i..])
    {
      dst[at + i] := src[i];
      assert dst[at..at + i + 1] == dst[at..at + i] + [src[i]];
    }
    assert dst[..] == dst[..at] + dst[at..at + |src|] + dst[at + |src|..];
  }

  /** The concatenation of a list of byte strings. */
  function Flatten(parts: seq<seq<byte>>): seq<byte>
  {
    if parts == [] then [] else parts[0] + Flatten(parts[1..])
  }

  lemma SliceOfSlice(s: seq<byte>, at: nat, length: nat, i: nat, n: nat)
    requires at + length <= |s| && i + n <= length
    ensures s[at..at + length][i..i + n] == s[at + i..at + i + n]
  {
    var part, direct := s[at..at + length][i..i + n], s[at + i..at + i + n];
    assert |part| == |direct|;
    assert forall k :: 0 <= k < n ==> part[k] == s[at + i + k] == direct[k];
  }
}
