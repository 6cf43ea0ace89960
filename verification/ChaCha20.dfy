/** The stream cipher of libs/security. Its constants are the source's own. */
module ChaCha20 {
  import opened Bytes

  type word = bv32

  // ---------- quarter round ----------

  datatype Quad = Quad(a: word, b: word, c: word, d: word)

  // Word operations, named so that proofs about buffers need not look inside them.
  function Add(x: word, y: word): word { x + y }
  function Sub(x: word, y: word): word { x - y }
  function Xor(x: word, y: word): word { x ^ y }
  function Rotl16(x: word): word { (x << 16) | (x >> 16) }
  function Rotl12(x: word): word { (x << 12) | (x >> 20) }
  function Rotl8(x: word): word { (x << 8) | (x >> 24) }
  function Rotl7(x: word): word { (x << 7) | (x >> 25) }
  function Rotr16(x: word): word { (x >> 16) | (x << 16) }
  function Rotr12(x: word): word { (x >> 12) | (x << 20) }
  function Rotr8(x: word): word { (x >> 8) | (x << 24) }
  function Rotr7(x: word): word { (x >> 7) | (x << 25) }

  lemma PlusSub(x: word, y: word) ensures Sub(x + y, y) == x {}
  lemma AddSub(x: word, y: word) ensures Sub(Add(x, y), y) == x { hide Sub; PlusSub(x, y); }
  lemma XorTwice(x: word, y: word) ensures Xor(Xor(x, y), y) == x {}
  lemma Rotations(x: word)
    ensures Rotr16(Rotl16(x)) == x && Rotr12(Rotl12(x)) == x && Rotr8(Rotl8(x)) == x && Rotr7(Rotl7(x)) == x
  {
  }

  // The four add-xor-rotate steps of a quarter round.
  function Stir16(q: Quad): Quad { var a := Add(q.a, q.b); Quad(a, q.b, q.c, Rotl16(Xor(q.d, a))) }
  function Stir12(q: Quad): Quad { var c := Add(q.c, q.d); Quad(q.a, Rotl12(Xor(q.b, c)), c, q.d) }
  function Stir8(q: Quad): Quad { var a := Add(q.a, q.b); Quad(a, q.b, q.c, Rotl8(Xor(q.d, a))) }
  function Stir7(q: Quad): Quad { var c := Add(q.c, q.d); Quad(q.a, Rotl7(Xor(q.b, c)), c, q.d) }

  function QuarterRound(q: Quad): Quad { Stir7(Stir8(Stir12(Stir16(q)))) }

  // The same steps backwards.
  function Unstir16(q: Quad): Quad { Quad(Sub(q.a, q.b), q.b, q.c, Xor(Rotr16(q.d), q.a)) }
  function Unstir12(q: Quad): Quad { Quad(q.a, Xor(Rotr12(q.b), q.c), Sub(q.c, q.d), q.d) }
  function Unstir8(q: Quad): Quad { Quad(Sub(q.a, q.b), q.b, q.c, Xor(Rotr8(q.d), q.a)) }
  function Unstir7(q: Quad): Quad { Quad(q.a, Xor(Rotr7(q.b), q.c), Sub(q.c, q.d), q.d) }

  function UndoQuarterRound(q: Quad): Quad { Unstir16(Unstir12(Unstir8(Unstir7(q)))) }

  /** Each step, seen on the word it adds into and the word it rotates, is undone by its reverse. */
  lemma StirsInvertible(q: Quad)
    ensures Unstir16(Stir16(q)) == q && Unstir12(Stir12(q)) == q
    ensures Unstir8(Stir8(q)) == q && Unstir7(Stir7(q)) == q
  {
    hide Add, Sub, Xor, Rotl16, Rotl12, Rotl8, Rotl7, Rotr16, Rotr12, Rotr8, Rotr7;
    var a, c := Add(q.a, q.b), Add(q.c, q.d);
    AddSub(q.a, q.b);
    AddSub(q.c, q.d);
    XorTwice(q.d, a);
    XorTwice(q.b, c);
    Rotations(Xor(q.d, a));
    Rotations(Xor(q.b, c));
  }

  /** The quarter round loses nothing. */
  lemma QuarterRoundInvertible(q: Quad)
    ensures UndoQuarterRound(QuarterRound(q)) == q
  {
    hide Stir16, Stir12, Stir8, Stir7, Unstir16, Unstir12, Unstir8, Unstir7;
    StirsInvertible(q);
    StirsInvertible(Stir16(q));
    StirsInvertible(Stir12(Stir16(q)));
    StirsInvertible(Stir8(Stir12(Stir16(q))));
  }

  // ---------- block function ----------

  type State = s: seq<word> | |s| == 16 witness seq(16, _ => 0)

  predicate Distinct(i: nat, j: nat, k: nat, l: nat) {
    i < 16 && j < 16 && k < 16 && l < 16 && i != j && i != k && i != l && j != k && j != l && k != l
  }

  function At(s: State, i: nat, j: nat, k: nat, l: nat): Quad
    requires Distinct(i, j, k, l)
  {
    Quad(s[i], s[j], s[k], s[l])
  }

  function Put(s: State, i: nat, j: nat, k: nat, l: nat, q: Quad): State
    requires Distinct(i, j, k, l)
  {
    s[i := q.a][j := q.b][k := q.c][l := q.d]
  }

  function Mix(s: State, i: nat, j: nat, k: nat, l: nat): State
    requires Distinct(i, j, k, l)
  {
    Put(s, i, j, k, l, QuarterRound(At(s, i, j, k, l)))
  }

  function Unmix(s: State, i: nat, j: nat, k: nat, l: nat): State
    requires Distinct(i, j, k, l)
  {
    Put(s, i, j, k, l, UndoQuarterRound(At(s, i, j, k, l)))
  }

  function Columns(s: State): State {
    Mix(Mix(Mix(Mix(s, 0, 4, 8, 12), 1, 5, 9, 13), 2, 6, 10, 14), 3, 7, 11, 15)
  }

  function Diagonals(s: State): State {
    Mix(Mix(Mix(Mix(s, 0, 5, 10, 15), 1, 6, 11, 12), 2, 7, 8, 13), 3, 4, 9, 14)
  }

  function Rounds(s: State, n: nat): State {
    if n == 0 then s else Diagonals(Columns(Rounds(s, n - 1)))
  }

  const DOUBLE_ROUNDS: nat := 10

  function InitialState(key: seq<word>, counter: word, nonce: seq<word>): State
    requires |key| == 8 && |nonce| == 3
  {
    [0x61707865, 0x33303232, 0x7962326d, 0x6b206574] + key + [counter] + nonce
  }

  function AddWords(s: State, t: State): State {
    seq(16, i requires 0 <= i < 16 => Add(s[i], t[i]))
  }

  function Block(key: seq<word>, counter: word, nonce: seq<word>): State
    requires |key| == 8 && |nonce| == 3
  {
    var start := InitialState(key, counter, nonce);
    AddWords(Rounds(start, DOUBLE_ROUNDS), start)
  }

  lemma MixBijective(s: State, i: nat, j: nat, k: nat, l: nat)
    requires Distinct(i, j, k, l)
    ensures Unmix(Mix(s, i, j, k, l), i, j, k, l) == s
  {
    hide QuarterRound, UndoQuarterRound;
    QuarterRoundInvertible(At(s, i, j, k, l));
  }

  function UndoColumns(s: State): State {
    Unmix(Unmix(Unmix(Unmix(s, 3, 7, 11, 15), 2, 6, 10, 14), 1, 5, 9, 13), 0, 4, 8, 12)
  }

  function UndoDiagonals(s: State): State {
    Unmix(Unmix(Unmix(Unmix(s, 3, 4, 9, 14), 2, 7, 8, 13), 1, 6, 11, 12), 0, 5, 10, 15)
  }

  lemma ColumnsInvertible(s: State)
    ensures UndoColumns(Columns(s)) == s
  {
    hide Mix, Unmix;
    MixBijective(s, 0, 4, 8, 12);
    var s1 := Mix(s, 0, 4, 8, 12);
    MixBijective(s1, 1, 5, 9, 13);
    var s2 := Mix(s1, 1, 5, 9, 13);
    MixBijective(s2, 2, 6, 10, 14);
    MixBijective(Mix(s2, 2, 6, 10, 14), 3, 7, 11, 15);
  }

  lemma DiagonalsInvertible(s: State)
    ensures UndoDiagonals(Diagonals(s)) == s
  {
    hide Mix, Unmix;
    MixBijective(s, 0, 5, 10, 15);
    var s1 := Mix(s, 0, 5, 10, 15);
    MixBijective(s1, 1, 6, 11, 12);
    var s2 := Mix(s1, 1, 6, 11, 12);
    MixBijective(s2, 2, 7, 8, 13);
    MixBijective(Mix(s2, 2, 7, 8, 13), 3, 4, 9, 14);
  }

  /** The rounds lose nothing: however many are run, different states stay different. */
  lemma {:induction false} RoundsInjective(s: State, t: State, n: nat)
    requires Rounds(s, n) == Rounds(t, n)
    ensures s == t
  {
    hide Columns, Diagonals, UndoColumns, UndoDiagonals;
    if n == 0 {
    } else {
      var s1, t1 := Rounds(s, n - 1), Rounds(t, n - 1);
      DiagonalsInvertible(Columns(s1));
      DiagonalsInvertible(Columns(t1));
      ColumnsInvertible(s1);
      ColumnsInvertible(t1);
      RoundsInjective(s, t, n - 1);
    }
  }

  /** The quarter round on four words passed by reference. */
  method QuarterRoundByReference(a0: word, b0: word, c0: word, d0: word) returns (a: word, b: word, c: word, d: word)
    ensures Quad(a, b, c, d) == QuarterRound(Quad(a0, b0, c0, d0))
  {
    hide Add, Xor, Rotl16, Rotl12, Rotl8, Rotl7;
    a, b, c, d := a0, b0, c0, d0;
    a := Add(a, b);
    d := Xor(d, a);
    d := Rotl16(d);
    c := Add(c, d);
    b := Xor(b, c);
    b := Rotl12(b);
    a := Add(a, b);
    d := Xor(d, a);
    d := Rotl8(d);
    c := Add(c, d);
    b := Xor(b, c);
    b := Rotl7(b);
  }

  method MixInPlace(out: array<word>, i: nat, j: nat, k: nat, l: nat)
    requires out.Length == 16 && Distinct(i, j, k, l)
    modifies out
    ensures out[..] == Mix(old(out[..]), i, j, k, l)
  {
    hide QuarterRound;
    out[i], out[j], out[k], out[l] := QuarterRoundByReference(out[i], out[j], out[k], out[l]);
  }

  method BlockInPlace(out: array<word>, key: seq<word>, counter: word, nonce: seq<word>)
    requires out.Length == 16 && |key| == 8 && |nonce| == 3
    modifies out
    ensures out[..] == Block(key, counter, nonce)
  {
    hide Mix, Add;
    var state := InitialState(key, counter, nonce);
    for i := 0 to 16
      invariant out[..i] == state[..i]
    {
      out[i] := state[i];
    }
    assert out[..] == state;
    for r := 0 to DOUBLE_ROUNDS
      invariant out[..] == Rounds(state, r)
    {
      MixInPlace(out, 0, 4, 8, 12);
      MixInPlace(out, 1, 5, 9, 13);
      MixInPlace(out, 2, 6, 10, 14);
      MixInPlace(out, 3, 7, 11, 15);
      assert out[..] == Columns(Rounds(state, r));
      MixInPlace(out, 0, 5, 10, 15);
      MixInPlace(out, 1, 6, 11, 12);
      MixInPlace(out, 2, 7, 8, 13);
      MixInPlace(out, 3, 4, 9, 14);
    }
    ghost var mixed := out[..];
    for i := 0 to 16
      invariant forall k :: 0 <= k < i ==> out[k] == Add(mixed[k], state[k])
      invariant forall k :: i <= k < 16 ==> out[k] == mixed[k]
    {
      out[i] := Add(out[i], state[i]);
    }
    assert out[..] == AddWords(mixed, state);
  }

  // ---------- keystream ----------

  /** The `i`-th 32-bit word of a byte string, as `reinterpret_cast` reads it. */
  function WordAt(s: seq<byte>, i: nat): word
    requires 4 * i + 4 <= |s|
  {
    Join(s[4 * i], s[4 * i + 1], s[4 * i + 2], s[4 * i + 3])
  }

  function Join(b0: byte, b1: byte, b2: byte, b3: byte): word {
    (b0 as word) | (b1 as word << 8) | (b2 as word << 16) | (b3 as word << 24)
  }

  /** Byte `k` of a word in memory. */
  function ByteOf(w: word, k: nat): byte
    requires k < 4
  {
    match k
    case 0 => (w & 0xff) as byte
    case 1 => ((w >> 8) & 0xff) as byte
    case 2 => ((w >> 16) & 0xff) as byte
    case 3 => ((w >> 24) & 0xff) as byte
  }

  function Words(s: seq<byte>, n: nat): (w: seq<word>)
    requires 4 * n <= |s|
    ensures |w| == n
    ensures forall i :: 0 <= i < n ==> w[i] == WordAt(s, i)
  {
    seq(n, i requires 0 <= i < n => WordAt(s, i))
  }

  /** The block counter after `k` increments of the 32-bit variable. */
  function Counter(start: word, k: nat): word {
    if k == 0 then start else Next(Counter(start, k - 1))
  }

  function Next(w: word): word { w + 1 }

  /** Byte `i` of the keystream: byte `i mod 64` of block `i / 64`. */
  function Keystream(key: seq<byte>, nonce: seq<byte>, start: word, i: nat): byte
    requires |key| == 32 && |nonce| == 12
  {
    BlockByte(Block(Words(key, 8), Counter(start, i / 64), Words(nonce, 3)), i % 64)
  }

  function BlockByte(block: State, j: nat): byte
    requires j < 64
  {
    ByteOf(block[j / 4], j % 4)
  }

  function XorStream(data: seq<byte>, key: seq<byte>, nonce: seq<byte>, start: word): (r: seq<byte>)
    requires |key| == 32 && |nonce| == 12
    ensures |r| == |data|
  {
    seq(|data|, i requires 0 <= i < |data| => data[i] ^ Keystream(key, nonce, start, i))
  }

  /** `chacha20Xor`: block by block over the buffer, the last block cut short. */
  method XorInPlace(data: array<byte>, key: seq<byte>, nonce: seq<byte>, start: word)
    requires |key| == 32 && |nonce| == 12
    modifies data
    ensures data[..] == XorStream(old(data[..]), key, nonce, start)
  {
    hide Block, Next, ByteOf, Words;
    var key32 := Words(key, 8);
    var nonce32 := Words(nonce, 3);
    var block := new word[16];
    var counter := start;
    var offset := 0;
    ghost var blocks := 0;
    while offset < data.Length
      invariant 0 <= offset <= data.Length
      invariant offset == 64 * blocks || offset == data.Length
      invariant counter == Counter(start, blocks)
      invariant forall i :: 0 <= i < offset ==> data[i] == old(data[i]) ^ Keystream(key, nonce, start, i)
      invariant forall i :: offset <= i < data.Length ==> data[i] == old(data[i])
    {
      BlockInPlace(block, key32, counter, nonce32);
      counter := Next(counter);
      var words := block[..];
      var blockBytes := seq(64, j requires 0 <= j < 64 => BlockByte(words, j));
      var bytesToXor := if data.Length - offset < 64 then data.Length - offset else 64;
      XorRun(data, offset, blockBytes[..bytesToXor]);
      forall i | offset <= i < offset + bytesToXor
        ensures blockBytes[i - offset] == Keystream(key, nonce, start, i)
      {
        assert i / 64 == blocks && i % 64 == i - offset;
      }
      offset := offset + bytesToXor;
      blocks := blocks + 1;
    }
  }

  /** The inner loop: XOR a run of bytes into the buffer. */
  method XorRun(data: array<byte>, offset: nat, run: seq<byte>)
    requires offset + |run| <= data.Length
    modifies data
    ensures forall i :: 0 <= i < data.Length ==>
              data[i] == if offset <= i < offset + |run| then old(data[i]) ^ run[i - offset] else old(data[i])
  {
    for i := 0 to |run|
      invariant forall k :: 0 <= k < data.Length ==>
                  data[k] == if offset <= k < offset + i then old(data[k]) ^ run[k - offset] else old(data[k])
    {
      data[offset + i] := data[offset + i] ^ run[i];
    }
  }

  /** XOR with the same keystream twice gives the data back. */
  lemma XorStreamInvolution(data: seq<byte>, key: seq<byte>, nonce: seq<byte>, start: word)
    requires |key| == 32 && |nonce| == 12
    ensures XorStream(XorStream(data, key, nonce, start), key, nonce, start) == data
  {
    hide Keystream;
    forall i | 0 <= i < |data|
      ensures (data[i] ^ Keystream(key, nonce, start, i)) ^ Keystream(key, nonce, start, i) == data[i]
    {
    }
  }

  // ---------- the counter as a number ----------

  /** The 32-bit word holding the number `n`. */
  function WordOf(n: u32): word {
    WordAt(LE(n, 4), 0)
  }

  function Succ(b: byte): byte { b + 1 }

  /** Adding one to a little-endian number, byte by byte. */
  function Carry(s: seq<byte>): (r: seq<byte>)
    ensures |r| == |s|
  {
    if s == [] then [] else if s[0] == 255 then [0] + Carry(s[1..]) else [Succ(s[0])] + s[1..]
  }

  lemma {:induction false} CarryIsSuccessor(n: nat, k: nat)
    ensures LE(n + 1, k) == Carry(LE(n, k))
  {
    hide LE, Carry, ToByte, Succ;
    if k == 0 {
      NoBytes(n);
    } else {
      LEUnfold(n, k);
      LEUnfold(n + 1, k);
      CarryUnfold(ToByte(n), LE(n / 256, k - 1));
      ByteSuccessor(n);
      if n % 256 == 255 {
        assert (n + 1) / 256 == n / 256 + 1;
        CarryIsSuccessor(n / 256, k - 1);
      } else {
        assert (n + 1) / 256 == n / 256;
      }
    }
  }

  lemma NoBytes(n: nat)
    ensures LE(n + 1, 0) == Carry(LE(n, 0))
  {
  }

  lemma LEUnfold(n: nat, k: nat)
    requires k > 0
    ensures LE(n, k) == [ToByte(n)] + LE(n / 256, k - 1)
  {
    hide ToByte;
  }

  lemma CarryUnfold(b: byte, t: seq<byte>)
    ensures Carry([b] + t) == if b == 255 then [0] + Carry(t) else [Succ(b)] + t
  {
    hide Succ;
    assert ([b] + t)[1..] == t;
  }

  lemma ByteSuccessor(n: nat)
    ensures n % 256 == 255 ==> ToByte(n) == 255 && ToByte(n + 1) == 0
    ensures n % 256 != 255 ==> ToByte(n) != 255 && ToByte(n + 1) == Succ(ToByte(n))
  {
    hide CountTo, Succ;
    if n % 256 == 255 {
      IsByte255(ToByte(n));
      assert (n + 1) % 256 == 0;
      CountToZero();
    } else {
      assert (n + 1) % 256 == n % 256 + 1;
      CountToNext(n % 256);
    }
  }

  lemma CountToZero()
    ensures CountTo(0) == 0
  {
  }

  lemma CountToNext(k: nat)
    requires k < 255
    ensures CountTo(k + 1) == Succ(CountTo(k))
  {
  }

  lemma IsByte255(b: byte)
    requires b as nat == 255
    ensures b == 255
  {
    ByteValueInjective(b, 255);
  }

  lemma JoinPlusOne0(b0: byte, b1: byte, b2: byte, b3: byte)
    ensures b0 != 255 ==> Join(Succ(b0), b1, b2, b3) == Next(Join(b0, b1, b2, b3))
  {
  }

  lemma JoinPlusOne1(b1: byte, b2: byte, b3: byte)
    ensures b1 != 255 ==> Join(0, Succ(b1), b2, b3) == Next(Join(255, b1, b2, b3))
  {
  }

  lemma JoinPlusOne2(b2: byte, b3: byte)
    ensures b2 != 255 ==> Join(0, 0, Succ(b2), b3) == Next(Join(255, 255, b2, b3))
  {
  }

  lemma JoinPlusOne3(b3: byte)
    ensures Join(0, 0, 0, Succ(b3)) == Next(Join(255, 255, 255, b3))
  {
  }

  lemma CarryTwo(c: byte, d: byte)
    ensures Carry([c, d]) == if c != 255 then [Succ(c), d] else [0, Succ(d)]
  {
    Byte255Wraps();
    hide Succ;
    assert [c, d][1..] == [d] && [d][1..] == [];
    assert Carry([d]) == [Succ(d)];
  }

  lemma CarryFour(s: seq<byte>)
    requires |s| == 4
    ensures Carry(s) ==
            if s[0] != 255 then [Succ(s[0]), s[1], s[2], s[3]]
            else if s[1] != 255 then [0, Succ(s[1]), s[2], s[3]]
            else [0, 0] + Carry([s[2], s[3]])
  {
    hide Succ;
    var t := s[1..];
    assert t[1..] == [s[2], s[3]];
    assert Carry(t) == if t[0] == 255 then [0] + Carry([s[2], s[3]]) else [Succ(t[0])] + [s[2], s[3]];
  }

  lemma CarryWord(s: seq<byte>)
    requires |s| == 4
    ensures WordAt(Carry(s), 0) == Next(WordAt(s, 0))
  {
    hide Join, Carry, Next, Succ;
    CarryFour(s);
    CarryTwo(s[2], s[3]);
    JoinPlusOne0(s[0], s[1], s[2], s[3]);
    JoinPlusOne1(s[1], s[2], s[3]);
    JoinPlusOne2(s[2], s[3]);
    JoinPlusOne3(s[3]);
  }

  lemma Byte255Wraps()
    ensures Succ(255) == 0
  {
  }

  /** One increment, wrapping at 2^32. */
  lemma NextIsModular(m: u32)
    ensures Next(WordOf(m)) == WordOf((m + 1) % TWO32)
  {
    hide LE, Join, Next, Carry;
    CarryIsSuccessor(m, 4);
    CarryWord(LE(m, 4));
    WrapToZero(4);
    Pow256Values();
  }

  lemma CountOn(n: nat, k: nat)
    ensures ((n + k) % TWO32 + 1) % TWO32 == (n + k + 1) % TWO32
  {
  }

  /** The counter variable holds the start value plus the number of blocks, modulo 2^32. */
  lemma {:induction false} CounterIsModular(n: u32, k: nat)
    ensures Counter(WordOf(n), k) == WordOf((n + k) % TWO32)
  {
    hide WordOf, Next;
    if k == 0 {
    } else {
      CounterIsModular(n, k - 1);
      NextIsModular((n + (k - 1)) % TWO32);
      CountOn(n, k - 1);
    }
  }

  lemma WordOfOne()
    ensures WordOf(1) == 1
  {
    FirstBytes();
    JoinOne();
    hide LE, Join, ToByte;
    LEUnfold(1, 4);
    LEUnfold(0, 3);
    LEUnfold(0, 2);
    LEUnfold(0, 1);
    assert LE(1, 4) == [1, 0, 0, 0] + LE(0, 0);
  }

  lemma FirstBytes()
    ensures ToByte(0) == 0 && ToByte(1) == 1
  {
    hide ToByte;
    ToByteIs(0, 0);
    ToByteIs(1, 1);
  }

  lemma JoinOne()
    ensures Join(1, 0, 0, 0) == 1
  {
  }

  lemma {:induction false} WrapToZero(k: nat)
    ensures LE(Pow256(k), k) == LE(0, k)
  {
    hide ToByte;
    if k == 0 {
    } else {
      WrapToZero(k - 1);
      SameLowByte(Pow256(k), 0);
      assert Pow256(k) % 256 == 0 && Pow256(k) / 256 == Pow256(k - 1);
    }
  }
}
