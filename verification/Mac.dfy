/** The message authentication code of libs/security: a polynomial over pairs of 64-bit words.

    A full block's marker is `1ULL << 64`, which C++ leaves undefined; the model takes whatever
    value the machine gives it as the parameter `fullMarker`, and every result holds for all of them. */
module Mac {
  import opened Bytes
  import opened ChaCha20

  // ---------- the ring ----------

  /** Pairs of integers; the code keeps each component modulo 2^64. */
  datatype Pair = Pair(x: int, y: int)

  const ZERO: Pair := Pair(0, 0)
  const ONE: Pair := Pair(1, 0)

  function Plus(a: Pair, b: Pair): Pair {
    Pair(a.x + b.x, a.y + b.y)
  }

  function Times(a: Pair, b: Pair): Pair {
    Pair(a.x * b.x + a.y * b.y, a.x * b.y + a.y * b.x)
  }

  function Power(r: Pair, k: nat): Pair {
    if k == 0 then ONE else Times(Power(r, k - 1), r)
  }

  /** Both components modulo 2^64. */
  function Low(a: Pair): Pair {
    Pair(a.x % TWO64, a.y % TWO64)
  }

  lemma TimesCommutes(a: Pair, b: Pair)
    ensures Times(a, b) == Times(b, a)
  {
  }

  lemma Spread(p: int, q: int, r: int, s: int, z: int)
    ensures (p * q + r * s) * z == p * (q * z) + r * (s * z)
  {
  }

  lemma TimesAssociates(a: Pair, b: Pair, c: Pair)
    ensures Times(Times(a, b), c) == Times(a, Times(b, c))
  {
    Spread(a.x, b.x, a.y, b.y, c.x);
    Spread(a.x, b.y, a.y, b.x, c.y);
    Spread(a.x, b.x, a.y, b.y, c.y);
    Spread(a.x, b.y, a.y, b.x, c.x);
    Factor(a.x, b.x * c.x, b.y * c.y);
    Factor(a.y, b.x * c.y, b.y * c.x);
    Factor(a.x, b.x * c.y, b.y * c.x);
    Factor(a.y, b.x * c.x, b.y * c.y);
  }

  lemma Factor(p: int, q: int, r: int)
    ensures p * (q + r) == p * q + p * r
  {
  }

  lemma TimesDistributes(a: Pair, b: Pair, c: Pair)
    ensures Times(Plus(a, b), c) == Plus(Times(a, c), Times(b, c))
  {
  }

  lemma LowAbsorbs(x: int, k: int)
    ensures (x + TWO64 * k) % TWO64 == x % TWO64
  {
  }

  lemma LowOfProducts(a: int, b: int, c: int, d: int)
    ensures ((a % TWO64) * b + (c % TWO64) * d) % TWO64 == (a * b + c * d) % TWO64
  {
    var q, p := a / TWO64, c / TWO64;
    var a0, c0 := a % TWO64, c % TWO64;
    Shifted(a0, q, b);
    Shifted(c0, p, d);
    assert a * b + c * d == a0 * b + c0 * d + TWO64 * (q * b + p * d);
    LowAbsorbs(a0 * b + c0 * d, q * b + p * d);
  }

  lemma Shifted(r: int, q: int, b: int)
    ensures (r + TWO64 * q) * b == r * b + TWO64 * (q * b)
  {
  }

  /** Reducing an operand first does not change the reduced product, or the reduced sum. */
  lemma LowTimes(a: Pair, b: Pair)
    ensures Low(Times(Low(a), b)) == Low(Times(a, b))
  {
    LowOfProducts(a.x, b.x, a.y, b.y);
    LowOfProducts(a.x, b.y, a.y, b.x);
  }

  lemma LowPlus(a: Pair, b: Pair)
    ensures Low(Plus(Low(a), b)) == Low(Plus(a, b))
  {
    LowOfSum(a.x, b.x);
    LowOfSum(a.y, b.y);
  }

  lemma LowOfSum(a: int, b: int)
    ensures ((a % TWO64) + b) % TWO64 == (a + b) % TWO64
  {
  }

  // ---------- the polynomial ----------

  /** The evaluation at `r` of the polynomial with the given blocks, the last block times `r`. */
  function Polynomial(blocks: seq<Pair>, r: Pair): Pair {
    if blocks == [] then ZERO
    else Plus(Times(blocks[0], Power(r, |blocks|)), Polynomial(blocks[1..], r))
  }

  function Add64(a: u64, b: u64): u64 { (a + b) % TWO64 }
  function Mul64(a: u64, b: u64): u64 { (a * b) % TWO64 }

  predicate Words64(p: Pair) {
    0 <= p.x < TWO64 && 0 <= p.y < TWO64
  }

  /** One pass of the loop on the accumulators, in wrapping 64-bit arithmetic. */
  function Absorb(h: Pair, m: Pair, r: Pair): (n: Pair)
    requires Words64(h) && Words64(m) && Words64(r)
    ensures Words64(n)
  {
    var h0, h1 := Add64(h.x, m.x), Add64(h.y, m.y);
    Pair(Add64(Mul64(h0, r.x), Mul64(h1, r.y)), Add64(Mul64(h0, r.y), Mul64(h1, r.x)))
  }

  /** The accumulators after all the blocks. */
  function Accumulate(blocks: seq<Pair>, r: Pair): (h: Pair)
    requires Words64(r) && forall m :: m in blocks ==> Words64(m)
    ensures Words64(h)
  {
    if blocks == [] then ZERO
    else Absorb(Accumulate(blocks[..|blocks| - 1], r), blocks[|blocks| - 1], r)
  }

  lemma AbsorbIsLow(h: Pair, m: Pair, r: Pair)
    requires Words64(h) && Words64(m) && Words64(r)
    ensures Absorb(h, m, r) == Low(Times(Plus(h, m), r))
  {
    var s := Plus(h, m);
    var t := Low(s);
    assert t == Pair(Add64(h.x, m.x), Add64(h.y, m.y));
    hide Add64, Mul64, Times, Plus;
    WrappedProduct(t.x, t.y, r.x, r.y);
    hide Low;
    LowTimes(s, r);
  }

  lemma WrappedProduct(a: u64, c: u64, x: u64, y: u64)
    ensures Pair(Add64(Mul64(a, x), Mul64(c, y)), Add64(Mul64(a, y), Mul64(c, x))) == Low(Times(Pair(a, c), Pair(x, y)))
  {
    hide Add64, Mul64;
    ProductHalf(a, x, c, y);
    ProductHalf(a, y, c, x);
  }

  lemma ProductHalf(a: u64, b: u64, c: u64, d: u64)
    ensures Add64(Mul64(a, b), Mul64(c, d)) == (a * b + c * d) % TWO64
  {
    SumOfLows(a * b, c * d);
  }

  lemma SumOfLows(p: int, q: int)
    ensures (p % TWO64 + q % TWO64) % TWO64 == (p + q) % TWO64
  {
  }

  /** Appending a block multiplies the polynomial so far, plus the block, by `r`. */
  lemma {:induction false} PolynomialAppend(blocks: seq<Pair>, m: Pair, r: Pair)
    ensures Polynomial(blocks + [m], r) == Times(Plus(Polynomial(blocks, r), m), r)
  {
    var more := blocks + [m];
    if blocks == [] {
      assert more[1..] == [];
      assert Power(r, 1) == Times(ONE, r) == r;
    } else {
      assert more[1..] == blocks[1..] + [m];
      PolynomialAppend(blocks[1..], m, r);
      var first, rest := Times(blocks[0], Power(r, |blocks|)), Polynomial(blocks[1..], r);
      TimesAssociates(blocks[0], Power(r, |blocks|), r);
      TimesDistributes(first, Plus(rest, m), r);
    }
  }

  /** Closed form: after n blocks the wrapping accumulators hold, modulo 2^64, the sum of
      block i times r to the power n - i + 1 (counting blocks from 1). */
  lemma {:induction false} AccumulateIsPolynomial(blocks: seq<Pair>, r: Pair)
    requires Words64(r) && forall m :: m in blocks ==> Words64(m)
    ensures Accumulate(blocks, r) == Low(Polynomial(blocks, r))
  {
    if blocks == [] {
    } else {
      var front, m := blocks[..|blocks| - 1], blocks[|blocks| - 1];
      assert blocks == front + [m];
      AccumulateIsPolynomial(front, r);
      PolynomialAppend(front, m, r);
      var p := Polynomial(front, r);
      AbsorbIsLow(Low(p), m, r);
      hide Times, Plus, Low;
      LowTimes(Plus(Low(p), m), r);
      LowPlus(p, m);
      LowTimes(Plus(p, m), r);
    }
  }

  // ---------- from bytes to blocks ----------

  function Marker(blockLen: nat, fullMarker: u64): u64
    requires 1 <= blockLen <= 16
  {
    if blockLen == 16 then fullMarker
    else if blockLen <= 8 then 1
    else
      PowersFit(blockLen - 8);
      Pow256(blockLen - 8)
  }

  lemma PowersFit(k: nat)
    requires k < 8
    ensures Pow256(k) < TWO64
  {
    assert Pow256(3) == 256 * 256 * Pow256(1);
    assert Pow256(5) == 256 * 256 * Pow256(3);
    assert Pow256(7) == 256 * 256 * Pow256(5);
    Pow256Values();
    assert Pow256(6) == 256 * 256 * Pow256(4);
  }

  /** The two words a block of 1 to 16 bytes adds to the accumulators. */
  function BlockPair(block: seq<byte>, fullMarker: u64): (m: Pair)
    requires 1 <= |block| <= 16
    ensures Words64(m)
  {
    var split := if |block| <= 8 then |block| else 8;
    Pair(Number(block[..split]), Add64(Number(block[split..]), Marker(|block|, fullMarker)))
  }

  /** The number up to eight bytes spell, least significant first. */
  function Number(s: seq<byte>): u64
    requires |s| <= 8
  {
    FewBytes(s);
    FromLE(s)
  }

  lemma FewBytes(s: seq<byte>)
    requires |s| <= 8
    ensures FromLE(s) < TWO64
  {
    LEOfFromLE(s);
    Pow256Values();
    if |s| < 8 { PowersFit(|s|); }
  }

  function Blocks(msg: seq<byte>, fullMarker: u64): (b: seq<Pair>)
    ensures forall m :: m in b ==> Words64(m)
  {
    if msg == [] then []
    else
      var n := if |msg| < 16 then |msg| else 16;
      [BlockPair(msg[..n], fullMarker)] + Blocks(msg[n..], fullMarker)
  }

  /** The multiplier: the first two key words with the clamped bits cleared. */
  function Multiplier(key: seq<byte>): (r: Pair)
    requires |key| == 32
    ensures Words64(r)
  {
    Pair(Clamp(WordAt(key, 0)), Clamp(WordAt(key, 1)))
  }

  function Clamp(w: word): u64 {
    var c := w & 0x0ffffffc;
    Number([ByteOf(c, 0), ByteOf(c, 1), ByteOf(c, 2), ByteOf(c, 3)])
  }

  function Tag(msg: seq<byte>, key: seq<byte>, fullMarker: u64): (tag: seq<byte>)
    requires |key| == 32
    ensures |tag| == 16
  {
    var h := Accumulate(Blocks(msg, fullMarker), Multiplier(key));
    LE(Add64(h.x, U32At(key, 8)), 8) + LE(Add64(h.y, U32At(key, 12)), 8)
  }

  // ---------- the loops ----------

  type word64 = bv64

  /** `static_cast<uint64_t>(b) << (i * 8)` */
  function Shl(b: byte, i: nat): word64
    requires i < 8
  {
    match i
    case 0 => b as word64
    case 1 => b as word64 << 8
    case 2 => b as word64 << 16
    case 3 => b as word64 << 24
    case 4 => b as word64 << 32
    case 5 => b as word64 << 40
    case 6 => b as word64 << 48
    case 7 => b as word64 << 56
  }

  function Lane(w: word64, i: nat): byte
    requires i < 8
  {
    match i
    case 0 => (w & 0xff) as byte
    case 1 => ((w >> 8) & 0xff) as byte
    case 2 => ((w >> 16) & 0xff) as byte
    case 3 => ((w >> 24) & 0xff) as byte
    case 4 => ((w >> 32) & 0xff) as byte
    case 5 => ((w >> 40) & 0xff) as byte
    case 6 => ((w >> 48) & 0xff) as byte
    case 7 => ((w >> 56) & 0xff) as byte
  }

  /** The eight bytes of a word, least significant first. */
  function Lanes(w: word64): (s: seq<byte>)
    ensures |s| == 8
  {
    seq(8, i requires 0 <= i < 8 => Lane(w, i))
  }

  function Or(v: word64, w: word64): word64 { v | w }
  function OrByte(a: byte, b: byte): byte { a | b }

  lemma LaneOfOr(v: word64, w: word64, j: nat)
    requires j < 8
    ensures Lane(Or(v, w), j) == OrByte(Lane(v, j), Lane(w, j))
  {
    hide Lane, Or, OrByte;
    Lane0OfOr(v, w);
    Lane1OfOr(v, w);
    Lane2OfOr(v, w);
    Lane3OfOr(v, w);
    Lane4OfOr(v, w);
    Lane5OfOr(v, w);
    Lane6OfOr(v, w);
    Lane7OfOr(v, w);
    assert j == 0 || j == 1 || j == 2 || j == 3 || j == 4 || j == 5 || j == 6 || j == 7;
  }

  lemma Lane0OfOr(v: word64, w: word64) ensures Lane(Or(v, w), 0) == OrByte(Lane(v, 0), Lane(w, 0)) {}
  lemma Lane1OfOr(v: word64, w: word64) ensures Lane(Or(v, w), 1) == OrByte(Lane(v, 1), Lane(w, 1)) {}
  lemma Lane2OfOr(v: word64, w: word64) ensures Lane(Or(v, w), 2) == OrByte(Lane(v, 2), Lane(w, 2)) {}
  lemma Lane3OfOr(v: word64, w: word64) ensures Lane(Or(v, w), 3) == OrByte(Lane(v, 3), Lane(w, 3)) {}
  lemma Lane4OfOr(v: word64, w: word64) ensures Lane(Or(v, w), 4) == OrByte(Lane(v, 4), Lane(w, 4)) {}
  lemma Lane5OfOr(v: word64, w: word64) ensures Lane(Or(v, w), 5) == OrByte(Lane(v, 5), Lane(w, 5)) {}
  lemma Lane6OfOr(v: word64, w: word64) ensures Lane(Or(v, w), 6) == OrByte(Lane(v, 6), Lane(w, 6)) {}
  lemma Lane7OfOr(v: word64, w: word64) ensures Lane(Or(v, w), 7) == OrByte(Lane(v, 7), Lane(w, 7)) {}

  lemma LaneOfShl(b: byte, i: nat, j: nat)
    requires i < 8 && j < 8
    ensures Lane(Shl(b, i), j) == if i == j then b else 0
  {
    hide Lane, Shl;
    Lanes0(b, j); Lanes1(b, j); Lanes2(b, j); Lanes3(b, j);
    Lanes4(b, j); Lanes5(b, j); Lanes6(b, j); Lanes7(b, j);
    assert i == 0 || i == 1 || i == 2 || i == 3 || i == 4 || i == 5 || i == 6 || i == 7;
  }

  lemma Lanes0(b: byte, j: nat) requires j < 8 ensures Lane(Shl(b, 0), j) == if j == 0 then b else 0 {}
  lemma Lanes1(b: byte, j: nat) requires j < 8 ensures Lane(Shl(b, 1), j) == if j == 1 then b else 0 {}
  lemma Lanes2(b: byte, j: nat) requires j < 8 ensures Lane(Shl(b, 2), j) == if j == 2 then b else 0 {}
  lemma Lanes3(b: byte, j: nat) requires j < 8 ensures Lane(Shl(b, 3), j) == if j == 3 then b else 0 {}
  lemma Lanes4(b: byte, j: nat) requires j < 8 ensures Lane(Shl(b, 4), j) == if j == 4 then b else 0 {}
  lemma Lanes5(b: byte, j: nat) requires j < 8 ensures Lane(Shl(b, 5), j) == if j == 5 then b else 0 {}
  lemma Lanes6(b: byte, j: nat) requires j < 8 ensures Lane(Shl(b, 6), j) == if j == 6 then b else 0 {}
  lemma Lanes7(b: byte, j: nat) requires j < 8 ensures Lane(Shl(b, 7), j) == if j == 7 then b else 0 {}

  lemma OrWithZero(b: byte)
    ensures OrByte(b, 0) == b && OrByte(0, b) == b
  {
  }

  /** OR-ing a byte into an empty lane sets that lane and no other. */
  lemma OrSetsLane(m: word64, b: byte, i: nat)
    requires i < 8 && Lanes(m)[i] == 0
    ensures Lanes(Or(m, Shl(b, i))) == Lanes(m)[i := b]
  {
    hide Lane, Shl, Or, OrByte;
    forall j | 0 <= j < 8
      ensures Lane(Or(m, Shl(b, i)), j) == if j == i then b else Lane(m, j)
    {
      LaneOfOr(m, Shl(b, i), j);
      LaneOfShl(b, i, j);
      OrWithZero(b);
      OrWithZero(Lane(m, j));
    }
  }

  lemma LanesOfZero()
    ensures Lanes(0) == Zeros(8)
  {
  }

  function Zeros(n: nat): (s: seq<byte>)
    ensures |s| == n && forall i :: 0 <= i < n ==> s[i] == 0
  {
    seq(n, _ => 0)
  }

  lemma {:induction false} ZerosAddNothing(s: seq<byte>, n: nat)
    ensures FromLE(s + Zeros(n)) == FromLE(s)
  {
    if s != [] {
      assert (s + Zeros(n))[1..] == s[1..] + Zeros(n);
      ZerosAddNothing(s[1..], n);
    } else {
      assert s + Zeros(n) == Zeros(n);
      ZerosAreZero(n);
    }
  }

  lemma {:induction false} ZerosAreZero(n: nat)
    ensures FromLE(Zeros(n)) == 0
  {
    if n == 0 {
    } else {
      ZeroByte();
      assert Zeros(n)[1..] == Zeros(n - 1);
      ZerosAreZero(n - 1);
    }
  }

  lemma ZeroByte()
    ensures (0 as byte) as nat == 0
  {
  }

  /** The first inner loop, and the second: OR up to eight bytes into a word. */
  method LoadWord(msg: seq<byte>) returns (m: word64)
    requires |msg| <= 8
    ensures FromLE(Lanes(m)) == Number(msg)
  {
    hide Lane, Shl, Or, FromLE;
    m := 0;
    LanesOfZero();
    for i := 0 to |msg|
      invariant Lanes(m) == msg[..i] + Zeros(8 - i)
    {
      OrSetsLane(m, msg[i], i);
      m := Or(m, Shl(msg[i], i));
    }
    assert msg[..|msg|] == msg;
    ZerosAddNothing(msg, 8 - |msg|);
  }

  /** One pass of the block loop. */
  method AbsorbBlock(h0: u64, h1: u64, block: seq<byte>, r: Pair, fullMarker: u64) returns (n0: u64, n1: u64)
    requires 1 <= |block| <= 16 && Words64(r)
    ensures Pair(n0, n1) == Absorb(Pair(h0, h1), BlockPair(block, fullMarker), r)
  {
    hide FromLE, Lane, Marker, Add64, Mul64;
    var split := if |block| < 8 then |block| else 8;
    var w0 := LoadWord(block[..split]);
    var w1 := LoadWord(block[split..]);
    var m0, m1 := Number(Lanes(w0)), Number(Lanes(w1));
    n0 := Add64(h0, m0);
    n1 := Add64(h1, Add64(m1, Marker(|block|, fullMarker)));
    n0, n1 := Add64(Mul64(n0, r.x), Mul64(n1, r.y)), Add64(Mul64(n0, r.y), Mul64(n1, r.x));
  }

  lemma {:induction false} AccumulateAppend(done: seq<Pair>, m: Pair, r: Pair)
    requires Words64(r) && Words64(m) && forall d :: d in done ==> Words64(d)
    ensures Accumulate(done + [m], r) == Absorb(Accumulate(done, r), m, r)
  {
    assert (done + [m])[..|done|] == done;
  }

  method ComputeMac(msg: seq<byte>, key: seq<byte>, fullMarker: u64) returns (tag: seq<byte>)
    requires |key| == 32
    ensures tag == Tag(msg, key, fullMarker)
  {
    hide LE, FromLE, Multiplier, Absorb, BlockPair, Add64, Accumulate, Blocks, U32At;
    var r := Multiplier(key);
    var pad0, pad1 := U32At(key, 8), U32At(key, 12);
    var h0: u64, h1: u64 := 0, 0;
    var offset := 0;
    ghost var done: seq<Pair> := [];
    assert msg[0..] == msg;
    AccumulateNothing(r);
    while offset < |msg|
      invariant 0 <= offset <= |msg|
      invariant forall m :: m in done ==> Words64(m)
      invariant Pair(h0, h1) == Accumulate(done, r)
      invariant done + Blocks(msg[offset..], fullMarker) == Blocks(msg, fullMarker)
    {
      var blockLen := if |msg| - offset < 16 then |msg| - offset else 16;
      var block := msg[offset..offset + blockLen];
      h0, h1 := AbsorbBlock(h0, h1, block, r, fullMarker);
      ghost var m := BlockPair(block, fullMarker);
      AccumulateAppend(done, m, r);
      ghost var rest := Blocks(msg[offset + blockLen..], fullMarker);
      BlocksSplit(msg[offset..], block, msg[offset + blockLen..], fullMarker);
      assert done + ([m] + rest) == (done + [m]) + rest;
      done := done + [m];
      offset := offset + blockLen;
    }
    assert msg[offset..] == [];
    NoBlocks(fullMarker);
    assert done + [] == done;
    h0 := Add64(h0, pad0);
    h1 := Add64(h1, pad1);
    tag := LE(h0, 8) + LE(h1, 8);
  }

  lemma NoBlocks(fullMarker: u64)
    ensures Blocks([], fullMarker) == []
  {
  }

  lemma AccumulateNothing(r: Pair)
    requires Words64(r)
    ensures Accumulate([], r) == ZERO
  {
  }

  lemma BlocksSplit(msg: seq<byte>, block: seq<byte>, rest: seq<byte>, fullMarker: u64)
    requires msg == block + rest && 1 <= |block| <= 16 && (|block| == 16 || rest == [])
    ensures Blocks(msg, fullMarker) == [BlockPair(block, fullMarker)] + Blocks(rest, fullMarker)
  {
    hide BlockPair;
    assert msg[..|block|] == block && msg[|block|..] == rest;
  }

  // ---------- the tag in closed form ----------

  function ClampLow(b: byte): byte { b & 0xfc }
  function ClampHigh(b: byte): byte { b & 0x0f }

  /** The mask 0x0ffffffc clears the two lowest and the four highest bits of a word. */
  lemma ClampedBytes(b0: byte, b1: byte, b2: byte, b3: byte)
    ensures var c := Join(b0, b1, b2, b3) & 0x0ffffffc;
            ByteOf(c, 0) == ClampLow(b0) && ByteOf(c, 1) == b1 && ByteOf(c, 2) == b2 && ByteOf(c, 3) == ClampHigh(b3)
  {
  }

  /** The multiplier, byte by byte. */
  lemma MultiplierIs(key: seq<byte>)
    requires |key| == 32
    ensures Multiplier(key) == Pair(Number([key[0] & 0xfc, key[1], key[2], key[3] & 0x0f]),
                                    Number([key[4] & 0xfc, key[5], key[6], key[7] & 0x0f]))
  {
    hide Number, Join, Clamp;
    ClampedNumber(key[0], key[1], key[2], key[3]);
    ClampedNumber(key[4], key[5], key[6], key[7]);
  }

  lemma ClampedNumber(b0: byte, b1: byte, b2: byte, b3: byte)
    ensures Clamp(Join(b0, b1, b2, b3)) == Number([b0 & 0xfc, b1, b2, b3 & 0x0f])
  {
    ClampedBytes(b0, b1, b2, b3);
    assert ClampLow(b0) == b0 & 0xfc && ClampHigh(b3) == b3 & 0x0f;
    hide Number, Join, ByteOf, ClampLow, ClampHigh;
  }

  function Upto(k: nat, n: nat): nat {
    if k < n then k else n
  }

  /** Block `i` of a message: bytes 16 i to 16 i + 7, and bytes 16 i + 8 to 16 i + 15 with the marker,
      which is `fullMarker` on a full block, one on a block of up to eight bytes, and otherwise stands
      right above the block's last byte. */
  function BlockOf(msg: seq<byte>, i: nat, fullMarker: u64): Pair
    requires 16 * i < |msg|
  {
    var n := |msg|;
    var k := if n - 16 * i < 16 then n - 16 * i else 16;
    Pair(Number(msg[16 * i..Upto(16 * i + 8, n)]),
         (Number(msg[Upto(16 * i + 8, n)..Upto(16 * i + 16, n)])
          + (if k == 16 then fullMarker else if k <= 8 then 1 else Pow256(k - 8))) % TWO64)
  }

  function BlocksOf(msg: seq<byte>, fullMarker: u64): (b: seq<Pair>)
    ensures |b| == (|msg| + 15) / 16
  {
    seq((|msg| + 15) / 16, i requires 0 <= i < (|msg| + 15) / 16 => BlockOf(msg, i, fullMarker))
  }

  lemma FirstBlock(msg: seq<byte>, fullMarker: u64)
    requires msg != []
    ensures BlockOf(msg, 0, fullMarker) == BlockPair(msg[..Upto(16, |msg|)], fullMarker)
  {
    hide Number;
    var n := Upto(16, |msg|);
    var block := msg[..n];
    var split := Upto(8, n);
    assert block[..split] == msg[..split] && block[split..] == msg[split..n];
    assert split == Upto(8, |msg|);
  }

  lemma LaterBlock(msg: seq<byte>, i: nat, fullMarker: u64)
    requires 16 * (i + 1) < |msg|
    ensures BlockOf(msg, i + 1, fullMarker) == BlockOf(msg[16..], i, fullMarker)
  {
    hide Number;
    var n := |msg|;
    var a, b, c := 16 * i, Upto(16 * i + 8, n - 16), Upto(16 * i + 16, n - 16);
    SliceOfTail(msg, a, b);
    SliceOfTail(msg, b, c);
  }

  lemma SliceOfTail(msg: seq<byte>, a: nat, b: nat)
    requires a <= b && 16 + b <= |msg|
    ensures msg[16..][a..b] == msg[16 + a..16 + b]
  {
  }

  /** The loop's blocks are those of the message. */
  lemma {:induction false} BlocksAre(msg: seq<byte>, fullMarker: u64)
    ensures Blocks(msg, fullMarker) == BlocksOf(msg, fullMarker)
  {
    hide BlockOf, BlockPair;
    if msg == [] {
    } else {
      var n := Upto(16, |msg|);
      var all := BlocksOf(msg, fullMarker);
      FirstBlock(msg, fullMarker);
      BlocksAre(msg[n..], fullMarker);
      forall i | 0 <= i < |all| - 1
        ensures all[1..][i] == BlocksOf(msg[n..], fullMarker)[i]
      {
        LaterBlock(msg, i, fullMarker);
      }
      assert all == [all[0]] + all[1..];
    }
  }

  /** The tag in closed form: with the two clamped key words as the multiplier r, the sum of block i of
      the message times r to the power n - i + 1, plus the next two key words, modulo 2^64 in each half. */
  lemma TagIsPolynomial(msg: seq<byte>, key: seq<byte>, fullMarker: u64)
    requires |key| == 32
    ensures var r := Pair(Number([key[0] & 0xfc, key[1], key[2], key[3] & 0x0f]),
                          Number([key[4] & 0xfc, key[5], key[6], key[7] & 0x0f]));
            var p := Polynomial(BlocksOf(msg, fullMarker), r);
            Tag(msg, key, fullMarker)
            == LE((p.x + Number(key[8..12])) % TWO64, 8) + LE((p.y + Number(key[12..16])) % TWO64, 8)
  {
    hide LE, FromLE, Clamp, Polynomial, Accumulate, BlockOf;
    var r := Multiplier(key);
    var blocks := Blocks(msg, fullMarker);
    MultiplierIs(key);
    BlocksAre(msg, fullMarker);
    AccumulateIsPolynomial(blocks, r);
    var p := Polynomial(blocks, r);
    LowOfSum(p.x, U32At(key, 8));
    LowOfSum(p.y, U32At(key, 12));
  }
}
