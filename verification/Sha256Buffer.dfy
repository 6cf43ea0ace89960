/** `computeSha256`: the padding, schedule and in-place register loops, proved to give the standard's digest. */
module Sha256Buffer {
  import opened Bytes
  import opened Sha256

  // ---------- 64-bit length ----------

  lemma LowPart(n: nat, p: nat)
    requires p > 0
    ensures n % (256 * p) / 256 == n / 256 % p
    ensures n % (256 * p) % 256 == n % 256
  {
    var a, r := n / 256, n % 256;
    var q, b := a / p, a % p;
    assert a == p * q + b;
    assert n == (256 * p) * q + (256 * b + r);
    QuotientIs(n, 256 * p, q, 256 * b + r);
  }

  /** Wrapping the length to 64 bits first changes none of its eight bytes. */
  lemma {:induction false} BETruncates(n: nat, k: nat)
    ensures BE(n % Pow256(k), k) == BE(n, k)
  {
    hide ToByte;
    if k == 0 {
    } else {
      var p := Pow256(k - 1);
      LowPart(n, p);
      BETruncates(n / 256, k - 1);
      SameLowByte(n % Pow256(k), n);
    }
  }

  /** The padding loops: the 0x80 byte and the zeros, then the length. */
  method Pad(data: seq<byte>) returns (padded: seq<byte>)
    ensures padded == Padded(data)
  {
    hide BE, ZeroBytes;
    padded := PadToLength(data);
    padded := PushLength(padded, WrappedBitLength(|data|));
    BETruncates(8 * |data|, 8);
    Pow256Values();
  }

  /** `padded.push_back` until the length is 56 modulo 64. */
  method PadToLength(data: seq<byte>) returns (padded: seq<byte>)
    ensures padded == data + [0x80] + Zeros(ZeroBytes(|data|))
  {
    hide ZeroBytes;
    ZeroBytesLeast(|data|);
    padded := data;
    padded := padded + [0x80];
    ghost var zeros := 0;
    while |padded| % 64 != 56
      invariant zeros <= ZeroBytes(|data|)
      invariant padded == data + [0x80] + Zeros(zeros)
      decreases ZeroBytes(|data|) - zeros
    {
      assert |padded| == |data| + 1 + zeros;
      assert zeros != ZeroBytes(|data|);
      padded := padded + [0x00];
      zeros := zeros + 1;
    }
    assert Fills(|data|, zeros);
  }

  /** The eight bytes of the length, from the highest down. */
  method PushLength(front: seq<byte>, bitLength: u64) returns (padded: seq<byte>)
    ensures padded == front + BE(bitLength, 8)
  {
    hide BE, ShiftRight;
    padded := front;
    var i := 7;
    BEOfNothing(ShiftRight(bitLength, 8));
    while i >= 0
      invariant -1 <= i <= 7
      invariant padded == front + BE(ShiftRight(bitLength, i + 1), 7 - i)
    {
      BEStep(bitLength, i);
      padded := padded + [ToByte(ShiftRight(bitLength, i))];
      i := i - 1;
    }
    ShiftByNothing(bitLength);
  }

  lemma ShiftByNothing(n: nat)
    ensures ShiftRight(n, 0) == n
  {
  }

  function WrappedBitLength(length: nat): u64 {
    (8 * length) % TWO64
  }

  lemma BEOfNothing(n: nat)
    ensures BE(n, 0) == []
  {
  }

  /** `n >> (i * 8)` */
  function ShiftRight(n: nat, i: nat): nat {
    if i == 0 then n else ShiftRight(n, i - 1) / 256
  }

  lemma BEStep(n: nat, i: nat)
    requires i <= 7
    ensures BE(ShiftRight(n, i), 8 - i) == BE(ShiftRight(n, i + 1), 7 - i) + [ToByte(ShiftRight(n, i))]
  {
    assert ShiftRight(n, i + 1) == ShiftRight(n, i) / 256;
    hide ShiftRight;
    BEUnfold(ShiftRight(n, i), 8 - i);
  }

  lemma BEUnfold(m: nat, k: nat)
    requires k > 0
    ensures BE(m, k) == BE(m / 256, k - 1) + [ToByte(m)]
  {
    hide ToByte;
  }

  // ---------- schedule ----------

  lemma AddCommutes(a: word, b: word)
    ensures Add(a, b) == Add(b, a)
  {
  }

  lemma AddOfSum(a: word, b: word, c: word)
    ensures Add(a + b, c) == Add(a, b + c)
  {
  }

  lemma AddAssociates(a: word, b: word, c: word)
    ensures Add(Add(a, b), c) == Add(a, Add(b, c))
  {
    assert Add(a, b) == a + b && Add(b, c) == b + c;
    hide Add;
    AddOfSum(a, b, c);
  }

  lemma AddReverses(a: word, b: word, c: word, d: word)
    ensures Add(Add(Add(a, b), c), d) == Add(Add(Add(d, c), b), a)
  {
    hide Add;
    AddCommutes(a, b);
    AddCommutes(Add(b, a), c);
    AddCommutes(Add(c, Add(b, a)), d);
    AddAssociates(d, c, Add(b, a));
    AddAssociates(Add(d, c), b, a);
  }

  /** The sixteen words of a block, read big-endian. */
  method FillBlock(w: array<word>, padded: seq<byte>, chunk: nat, ghost n: nat)
    requires w.Length == 64 && chunk == 64 * n && chunk + 64 <= |padded|
    modifies w
    ensures w[..16] == MessageBlock(padded, n)
  {
    hide Join;
    ghost var block := MessageBlock(padded, n);
    for i := 0 to 16
      invariant w[..i] == block[..i]
    {
      w[i] := Join(padded[chunk + i * 4 + 0], padded[chunk + i * 4 + 1], padded[chunk + i * 4 + 2], padded[chunk + i * 4 + 3]);
      assert w[..i + 1] == w[..i] + [w[i]] && block[..i + 1] == block[..i] + [block[i]];
    }
  }

  lemma ScheduleStep(block: seq<word>, i: nat)
    requires |block| == 16 && 16 <= i
    ensures var w := Schedule(block, i);
            Schedule(block, i + 1) ==
            w + [Add(Add(Add(w[i - 16], SmallSigma0(w[i - 15])), w[i - 7]), SmallSigma1(w[i - 2]))]
  {
    var w := Schedule(block, i);
    hide SmallSigma0, SmallSigma1, Add;
    AddReverses(w[i - 16], SmallSigma0(w[i - 15]), w[i - 7], SmallSigma1(w[i - 2]));
  }

  lemma ScheduleStart(block: seq<word>)
    requires |block| == 16
    ensures Schedule(block, 16) == block
  {
  }

  method FillSchedule(padded: seq<byte>, chunk: nat, ghost n: nat) returns (w: array<word>)
    requires chunk == 64 * n && chunk + 64 <= |padded|
    ensures fresh(w) && w.Length == 64
    ensures w[..] == Schedule(MessageBlock(padded, n), 64)
  {
    hide Schedule, SmallSigma0, SmallSigma1, Add, MessageBlock;
    w := new word[64](_ => 0);
    FillBlock(w, padded, chunk, n);
    ghost var block := MessageBlock(padded, n);
    ScheduleStart(block);
    for i := 16 to 64
      invariant w[..i] == Schedule(block, i)
    {
      ScheduleStep(block, i);
      ghost var before := w[..i];
      assert before[i - 2] == w[i - 2] && before[i - 7] == w[i - 7] && before[i - 15] == w[i - 15] && before[i - 16] == w[i - 16];
      var s0 := SmallSigma0(w[i - 15]);
      var s1 := SmallSigma1(w[i - 2]);
      w[i] := Add(Add(Add(w[i - 16], s0), w[i - 7]), s1);
      assert w[..i + 1] == before + [w[i]];
    }
    assert w[..64] == w[..];
  }

  // ---------- rounds ----------

  /** The 64 rounds on eight registers, shifted along in place each time. */
  method RunRounds(h: Eight, w: seq<word>) returns (r: Eight)
    requires |w| == 64
    ensures r == Rounds(h, w, 64)
  {
    hide K, BigSigma0, BigSigma1, Ch, Maj, Add;
    var a, b, c, d := h.a, h.b, h.c, h.d;
    var e, f, g, hVal := h.e, h.f, h.g, h.h;
    RoundsStart(h, w);
    for i := 0 to 64
      invariant Eight(a, b, c, d, e, f, g, hVal) == Rounds(h, w, i)
    {
      RoundsStep(h, w, i);
      var temp1 := Add(Add(Add(Add(hVal, BigSigma1(e)), Ch(e, f, g)), K(i)), w[i]);
      var temp2 := Add(BigSigma0(a), Maj(a, b, c));
      hVal := g;
      g := f;
      f := e;
      e := Add(d, temp1);
      d := c;
      c := b;
      b := a;
      a := Add(temp1, temp2);
    }
    return Eight(a, b, c, d, e, f, g, hVal);
  }

  lemma RoundsStart(h: Eight, w: seq<word>)
    requires |w| == 64
    ensures Rounds(h, w, 0) == h
  {
  }

  lemma RoundsStep(h: Eight, w: seq<word>, i: nat)
    requires |w| == 64 && i < 64
    ensures Rounds(h, w, i + 1) == Round(Rounds(h, w, i), K(i), w[i])
  {
    hide K, Round;
  }

  // ---------- the whole function ----------

  method ComputeSha256(data: seq<byte>) returns (digest: string)
    ensures digest == HexDigest(data)
  {
    hide Rounds, Schedule, HexWord, Padded, Add, ZeroBytes, InitialHash, HashValue;
    var h := InitialHash();
    var padded := Pad(data);
    PaddedBlocks(data);
    HashStart(padded);
    var chunk := 0;
    ghost var n := 0;
    while chunk < |padded|
      invariant chunk == 64 * n && n <= BlockCount(|padded|)
      invariant h == HashValue(padded, n)
      decreases |padded| - chunk
    {
      var w := FillSchedule(padded, chunk, n);
      var r := RunRounds(h, w[..]);
      HashStep(padded, n);
      h := Sum(r, h);
      chunk := chunk + 64;
      n := n + 1;
    }
    digest := HexWord(h.a) + HexWord(h.b) + HexWord(h.c) + HexWord(h.d);
    digest := digest + HexWord(h.e) + HexWord(h.f) + HexWord(h.g) + HexWord(h.h);
  }

  lemma PaddedBlocks(data: seq<byte>)
    ensures |Padded(data)| == 64 * BlockCount(|Padded(data)|)
  {
    hide BE, ZeroBytes;
    PaddedLength(|data|);
  }

  lemma HashStart(padded: seq<byte>)
    ensures HashValue(padded, 0) == InitialHash()
  {
  }

  lemma HashStep(padded: seq<byte>, n: nat)
    requires 64 * n + 64 <= |padded|
    ensures HashValue(padded, n + 1)
            == Sum(Rounds(HashValue(padded, n), Schedule(MessageBlock(padded, n), 64), 64), HashValue(padded, n))
  {
    hide Rounds, Schedule, Sum, InitialHash, MessageBlock;
  }
}
