/** Input events and their 24-byte wire form, shared by the client and the agent. */
module InputEvents {
  import opened Bytes

  type i32 = n: int | -0x8000_0000 <= n < 0x8000_0000

  datatype InputEvent = InputEvent(
    eventType: u16,
    x: i32,
    y: i32,
    button: u32,
    delta: i32,
    keycode: u32,
    modifiers: u32)

  const EVENT_SIZE: nat := 24

  /** The bit pattern of a signed word, as a number. */
  function Bits(n: i32): u32 {
    if n < 0 then n + TWO32 else n
  }

  function Signed(b: u32): i32 {
    if b >= 0x8000_0000 then b - TWO32 else b
  }

  /** Two zero bytes pad the 16-bit type; the modifiers are not transmitted. */
  function EventBytes(e: InputEvent): (s: seq<byte>)
    ensures |s| == EVENT_SIZE
  {
    LE(e.eventType, 2) + [0, 0] + LE(Bits(e.x), 4) + LE(Bits(e.y), 4) +
    LE(e.button, 4) + LE(Bits(e.delta), 4) + LE(e.keycode, 4)
  }

  /** The agent's reading of a plaintext of at least 24 bytes. */
  function ParseEvent(s: seq<byte>): InputEvent
    requires |s| >= EVENT_SIZE
  {
    InputEvent(U16At(s, 0), Signed(U32At(s, 4)), Signed(U32At(s, 8)), U32At(s, 12),
               Signed(U32At(s, 16)), U32At(s, 20), 0)
  }

  /** `sendInputEvent` fills a zeroed buffer field by field. */
  method FillEvent(e: InputEvent) returns (plaintext: array<byte>)
    ensures fresh(plaintext) && plaintext[..] == EventBytes(e)
  {
    hide LE;
    plaintext := new byte[EVENT_SIZE](_ => 0);
    assert plaintext[2..4] == [0, 0];
    MemCpy(plaintext, 0, LE(e.eventType, 2));
    assert plaintext[..4] == LE(e.eventType, 2) + [0, 0];
    MemCpy(plaintext, 4, LE(Bits(e.x), 4));
    assert plaintext[..8] == LE(e.eventType, 2) + [0, 0] + LE(Bits(e.x), 4);
    MemCpy(plaintext, 8, LE(Bits(e.y), 4));
    assert plaintext[..12] == LE(e.eventType, 2) + [0, 0] + LE(Bits(e.x), 4) + LE(Bits(e.y), 4);
    ghost var front := plaintext[..12];
    MemCpy(plaintext, 12, LE(e.button, 4));
    MemCpy(plaintext, 16, LE(Bits(e.delta), 4));
    MemCpy(plaintext, 20, LE(e.keycode, 4));
    assert plaintext[..] == front + LE(e.button, 4) + LE(Bits(e.delta), 4) + LE(e.keycode, 4);
  }

  lemma Slices(a: seq<byte>, b: seq<byte>, c: seq<byte>, d: seq<byte>, e: seq<byte>, f: seq<byte>)
    requires |a| == 2 && |b| == 4 && |c| == 4 && |d| == 4 && |e| == 4 && |f| == 4
    ensures var s := a + [0, 0] + b + c + d + e + f;
            s[0..2] == a && s[4..8] == b && s[8..12] == c && s[12..16] == d && s[16..20] == e && s[20..24] == f
  {
    var front := a + [0, 0] + b + c;
    var s := front + d + e + f;
    assert front[0..2] == a && front[4..8] == b && front[8..12] == c;
    assert s[..12] == front;
    assert s[0..2] == front[0..2] && s[4..8] == front[4..8] && s[8..12] == front[8..12];
    assert (front + d)[12..16] == d && (front + d + e)[16..20] == e;
  }

  /** The agent reads back every field the client sent, with the modifiers cleared. */
  lemma EventRoundTrip(e: InputEvent)
    ensures ParseEvent(EventBytes(e)) == e.(modifiers := 0)
  {
    hide LE, FromLE;
    var s := EventBytes(e);
    Slices(LE(e.eventType, 2), LE(Bits(e.x), 4), LE(Bits(e.y), 4), LE(e.button, 4), LE(Bits(e.delta), 4), LE(e.keycode, 4));
    U16Field(s, 0, e.eventType);
    U32Field(s, 4, Bits(e.x));
    U32Field(s, 8, Bits(e.y));
    U32Field(s, 12, e.button);
    U32Field(s, 16, Bits(e.delta));
    U32Field(s, 20, e.keycode);
  }

  /** One event on the wire: every number least significant byte first, negative ones in two's complement. */
  lemma EventOnWire()
    ensures EventBytes(InputEvent(1, 2, -3, 4, -5, 6, 7))
            == [1, 0, 0, 0] + [2, 0, 0, 0] + [0xfd, 0xff, 0xff, 0xff] + [4, 0, 0, 0] + [0xfb, 0xff, 0xff, 0xff] + [6, 0, 0, 0]
  {
    hide LE;
    SmallLE(1, 1);
    SmallLE(2, 2);
    SmallLE(4, 4);
    SmallLE(6, 6);
    MinusWord(-3, 0xfd);
    MinusWord(-5, 0xfb);
    assert [1, 0] + [0, 0] == [1, 0, 0, 0 as byte];
  }

  /** Two's complement of a small negative number. */
  lemma MinusWord(n: i32, b: byte)
    requires -256 <= n < 0 && b as int == 256 + n
    ensures LE(Bits(n), 4) == [b, 0xff, 0xff, 0xff]
  {
    hide ToByte;
    var m := TWO32 + n;
    assert m % 256 == 256 + n && m / 256 == 0xff_ffff;
    ToByteIs(m, b);
    ToByteIs(0xff_ffff, 0xff);
    ToByteIs(0xffff, 0xff);
    ToByteIs(0xff, 0xff);
    assert LE(m, 4) == [b] + LE(0xff_ffff, 3);
    assert LE(0xff_ffff, 3) == [0xff] + LE(0xffff, 2);
    assert LE(0xffff, 2) == [0xff] + LE(0xff, 1);
    assert LE(0xff, 1) == [0xff] + LE(0, 0);
  }
}
