/** The viewer's connection: `onReadyRead` and `sendInputEvent` of apps/client/src/SessionClient.cpp. */
module SessionClient {
  import opened Bytes
  import opened Wrappers
  import opened ProtocolCodec
  import opened PacketStream
  import opened InputEvents
  import CryptoEngine
  import Reconnect

  /** The fixed session key both programs carry: the bytes 1 to 32. */
  const SESSION_KEY: seq<byte> := [
    0x01, 0x02, 0x03, 0x04, 0x05, 0x06, 0x07, 0x08, 0x09, 0x0A, 0x0B, 0x0C, 0x0D, 0x0E, 0x0F, 0x10,
    0x11, 0x12, 0x13, 0x14, 0x15, 0x16, 0x17, 0x18, 0x19, 0x1A, 0x1B, 0x1C, 0x1D, 0x1E, 0x1F, 0x20]

  /** What lies outside the modelled code: the machine's value of `1ULL << 64`, and zlib. */
  datatype Platform = Platform(
    fullMarker: u64,
    compress: seq<byte> -> seq<byte>,
    uncompress: seq<byte> -> seq<byte>)

  /** What the handler lets the rest of the program see. */
  datatype Effect =
    | FrameShown(width: u32, height: u32, pixels: seq<byte>)
    | TextReceived(text: seq<byte>)
    | ChatReceived(text: seq<byte>)
    | AuthGranted
    | AuthDenied
    | TerminalOutput(text: seq<byte>)

  const CHAT_PREFIX: seq<byte> := [0x43, 0x48, 0x41, 0x54, 0x3A]

  /** The sequence number in the first eight bytes, zeros in the other four. */
  function Nonce(sequenceNumber: u64): (n: seq<byte>)
    ensures |n| == CryptoEngine.NONCE_SIZE
  {
    LE(sequenceNumber, 8) + [0, 0, 0, 0]
  }

  function Open(platform: Platform, p: Packet): Option<seq<byte>> {
    CryptoEngine.Decrypt(p.payload, SESSION_KEY, Nonce(p.header.sequenceNumber), platform.fullMarker)
  }

  /** The pixels of a decrypted frame, with the source's fallback to an uncompressed buffer. */
  function Pixels(platform: Platform, width: u32, height: u32, plain: seq<byte>): seq<byte>
    requires |plain| >= 12
  {
    var area := Area(width, height);
    var pixels := platform.uncompress(plain[12..]);
    if pixels == [] && |plain| >= 8 + area then plain[8..8 + area] else pixels
  }

  /** The bytes of an RGBA picture. */
  function Area(width: nat, height: nat): nat {
    width * height * 4
  }

  function ShowFrame(platform: Platform, plain: seq<byte>): seq<Effect> {
    if |plain| < 12 then []
    else
      var width, height := U32At(plain, 0), U32At(plain, 4);
      var pixels := Pixels(platform, width, height, plain);
      if width > 0 && height > 0 && pixels != [] then [FrameShown(width, height, pixels)] else []
  }

  /** The dispatch on one packet. */
  function React(platform: Platform, gated: bool, p: Packet): (e: seq<Effect>)
    ensures |e| <= 1
  {
    var t := p.header.payloadType;
    if p.payload == [] then []
    else if t == FRAME_HEADER then
      if gated then []
      else (match Open(platform, p)
            case None => []
            case Some(plain) => ShowFrame(platform, plain))
    else if t == CLIPBOARD_DATA then
      (match Open(platform, p)
       case None => []
       case Some(plain) =>
         if plain == [] then []
         else if CHAT_PREFIX <= plain then [ChatReceived(plain[5..])]
         else [TextReceived(plain)])
    else if t == AUTH_RESPONSE then
      (match Open(platform, p)
       case None => []
       case Some(plain) => if plain == [] then [] else if plain[0] == 0 then [AuthGranted] else [AuthDenied])
    else if t == TERMINAL_DATA then
      (match Open(platform, p)
       case None => []
       case Some(plain) => if plain == [] then [] else [TerminalOutput(plain)])
    else []
  }

  /** The effects of a run of packets; a denied authentication disconnects and ends the run. */
  function Effects(platform: Platform, gated: bool, packets: seq<Packet>): seq<Effect> {
    if packets == [] then []
    else
      var e := React(platform, gated, packets[0]);
      if e == [AuthDenied] then e else e + Effects(platform, gated, packets[1..])
  }

  predicate StaysOpen(platform: Platform, gated: bool, packets: seq<Packet>) {
    forall p :: p in packets ==> React(platform, gated, p) != [AuthDenied]
  }

  lemma EffectsUnfold(platform: Platform, gated: bool, p: Packet, later: seq<Packet>)
    ensures var e := React(platform, gated, p);
            Effects(platform, gated, [p] + later) == if e == [AuthDenied] then e else e + Effects(platform, gated, later)
    ensures StaysOpen(platform, gated, [p] + later) <==> React(platform, gated, p) != [AuthDenied] && StaysOpen(platform, gated, later)
  {
    hide React;
    assert ([p] + later)[1..] == later;
    assert p in [p] + later && forall q :: q in later ==> q in [p] + later;
  }

  lemma {:induction false} EffectsAppend(platform: Platform, gated: bool, a: seq<Packet>, b: seq<Packet>)
    ensures Effects(platform, gated, a + b) ==
            if StaysOpen(platform, gated, a)
            then Effects(platform, gated, a) + Effects(platform, gated, b)
            else Effects(platform, gated, a)
    decreases |a|
  {
    hide React, Effects, StaysOpen;
    if a == [] {
      assert a + b == b;
      NoEffects(platform, gated);
      assert [] + Effects(platform, gated, b) == Effects(platform, gated, b);
    } else {
      assert a == [a[0]] + a[1..] && a + b == [a[0]] + (a[1..] + b);
      EffectsUnfold(platform, gated, a[0], a[1..]);
      EffectsUnfold(platform, gated, a[0], a[1..] + b);
      EffectsAppend(platform, gated, a[1..], b);
    }
  }

  /** The reconnect state after a run of packets: a denied authentication disconnects as the user would. */
  function LinkAfter(platform: Platform, gated: bool, packets: seq<Packet>, link: Reconnect.LinkState): Reconnect.LinkState {
    if StaysOpen(platform, gated, packets) then link else Reconnect.Step(link, Reconnect.DisconnectFromHost)
  }

  /** A denied authentication never leads to a reconnect: whatever the socket and the timer do next,
      nothing is dialled or scheduled until the user connects again. */
  lemma DeniedNeverReconnects(platform: Platform, gated: bool, packets: seq<Packet>, link: Reconnect.LinkState,
                              events: seq<Reconnect.Event>)
    requires AuthDenied in Effects(platform, gated, packets)
    requires forall i :: 0 <= i < |events| ==> !events[i].ConnectToHost?
    ensures var after := Reconnect.Run(LinkAfter(platform, gated, packets, link), events);
            after.dialled == link.dialled && after.scheduled == link.scheduled && !after.isReconnecting
  {
    hide React, Reconnect.Run;
    DeniedIff(platform, gated, packets);
    Reconnect.DisconnectIsFinal(link, events);
  }

  /** The connection stays open exactly when no denial is among the effects. */
  lemma {:induction false} DeniedIff(platform: Platform, gated: bool, packets: seq<Packet>)
    ensures StaysOpen(platform, gated, packets) <==> AuthDenied !in Effects(platform, gated, packets)
    decreases |packets|
  {
    hide React;
    if packets == [] {
    } else {
      DeniedIff(platform, gated, packets[1..]);
      var e := React(platform, gated, packets[0]);
      assert |e| <= 1 && (AuthDenied in e <==> e == [AuthDenied]);
      assert packets == [packets[0]] + packets[1..];
    }
  }

  lemma NoEffects(platform: Platform, gated: bool)
    ensures Effects(platform, gated, []) == [] && StaysOpen(platform, gated, [])
  {
  }

  lemma OneMoreEffect(platform: Platform, gated: bool, done: seq<Packet>, p: Packet, later: seq<Packet>)
    requires StaysOpen(platform, gated, done)
    ensures Effects(platform, gated, done + [p]) == Effects(platform, gated, done) + React(platform, gated, p)
    ensures StaysOpen(platform, gated, done + [p]) <==> React(platform, gated, p) != [AuthDenied]
    ensures React(platform, gated, p) == [AuthDenied] ==>
              && !StaysOpen(platform, gated, done + [p] + later)
              && Effects(platform, gated, done + [p] + later) == Effects(platform, gated, done + [p])
  {
    hide React;
    EffectsAppend(platform, gated, done, [p]);
    assert [p][1..] == [];
    assert React(platform, gated, p) + [] == React(platform, gated, p);
    assert (done + [p])[|done|] == p && (done + [p] + later)[|done|] == p;
    EffectsAppend(platform, gated, done + [p], later);
  }

  // ---------- what a packet means to the client ----------

  /** The packet's payload is what encrypting `plain` under the session key and the packet's number gives. */
  predicate Seals(platform: Platform, p: Packet, plain: seq<byte>) {
    CryptoEngine.Encrypt(plain, SESSION_KEY, Nonce(p.header.sequenceNumber), platform.fullMarker) == Some(p.payload)
  }

  lemma OpensIff(platform: Platform, p: Packet, plain: seq<byte>)
    ensures Open(platform, p) == Some(plain) <==> Seals(platform, p, plain)
    ensures Seals(platform, p, plain) ==> p.payload != []
  {
    hide CryptoEngine.Decrypt;
    CryptoEngine.DecryptIff(p.payload, plain, SESSION_KEY, Nonce(p.header.sequenceNumber), platform.fullMarker);
  }

  /** A packet that does not decrypt does nothing: every effect comes from an encryption under the key. */
  lemma EffectsAreSealed(platform: Platform, gated: bool, p: Packet)
    requires React(platform, gated, p) != []
    ensures exists plain :: Seals(platform, p, plain)
  {
    hide Seals, Open;
    if Open(platform, p).Some? {
      OpensIff(platform, p, Open(platform, p).value);
    }
  }

  /** An encrypted answer grants access when its first byte is zero and denies it otherwise. */
  lemma AnswerArrives(platform: Platform, gated: bool, p: Packet, plain: seq<byte>)
    requires p.header.payloadType == 14 && Seals(platform, p, plain)
    ensures React(platform, gated, p) == if plain == [] then [] else if plain[0] == 0 then [AuthGranted] else [AuthDenied]
  {
    hide Seals, Open;
    OpensIff(platform, p, plain);
  }

  /** "CHAT:" in front makes a clipboard text a chat message, and is all that is taken away. */
  lemma ChatArrives(platform: Platform, gated: bool, p: Packet, text: seq<byte>)
    requires p.header.payloadType == 6 && Seals(platform, p, [0x43, 0x48, 0x41, 0x54, 0x3A] + text)
    ensures React(platform, gated, p) == [ChatReceived(text)]
  {
    hide Seals, Open;
    var plain := [0x43, 0x48, 0x41, 0x54, 0x3A] + text;
    OpensIff(platform, p, plain);
    assert CHAT_PREFIX <= plain && plain[5..] == text;
  }

  lemma TextArrives(platform: Platform, gated: bool, p: Packet, plain: seq<byte>)
    requires p.header.payloadType == 6 && Seals(platform, p, plain)
    requires !([0x43, 0x48, 0x41, 0x54, 0x3A] <= plain)
    ensures React(platform, gated, p) == if plain == [] then [] else [TextReceived(plain)]
  {
    hide Seals, Open;
    OpensIff(platform, p, plain);
  }

  lemma TerminalArrives(platform: Platform, gated: bool, p: Packet, plain: seq<byte>)
    requires p.header.payloadType == 17 && Seals(platform, p, plain)
    ensures React(platform, gated, p) == if plain == [] then [] else [TerminalOutput(plain)]
  {
    hide Seals, Open;
    OpensIff(platform, p, plain);
  }

  /** A frame of `n` bytes of pixels is shown at its width and height with what its pixels decompress to. If
      that is empty, the bytes from the raw size on are taken as the pixels, provided there are `n` of them. */
  lemma FrameArrives(platform: Platform, p: Packet, plain: seq<byte>, width: u32, height: u32, rawSize: seq<byte>,
                     compressed: seq<byte>, n: nat)
    requires p.header.payloadType == 3 && Seals(platform, p, plain)
    requires |rawSize| == 4 && plain == LE(width, 4) + LE(height, 4) + rawSize + compressed
    requires n == width * height * 4
    ensures var pixels := if platform.uncompress(compressed) != [] then platform.uncompress(compressed)
                          else if |compressed| + 4 >= n then (rawSize + compressed)[..n] else [];
            React(platform, false, p) ==
              if width == 0 || height == 0 || pixels == [] then [] else [FrameShown(width, height, pixels)]
  {
    hide Seals, Open, LE, U32At;
    OpensIff(platform, p, plain);
    FrameFields(plain, width, height, rawSize, compressed);
    assert Area(width, height) == n;
    hide Area;
    if 8 + n <= |plain| {
      FallbackPixels(plain, n);
    }
  }

  lemma FrameFields(plain: seq<byte>, width: u32, height: u32, rawSize: seq<byte>, compressed: seq<byte>)
    requires |rawSize| == 4 && plain == LE(width, 4) + LE(height, 4) + rawSize + compressed
    ensures |plain| == 12 + |compressed| && U32At(plain, 0) == width && U32At(plain, 4) == height
    ensures plain[12..] == compressed && plain[8..] == rawSize + compressed
  {
    hide LE, U32At;
    var w, h := LE(width, 4), LE(height, 4);
    assert plain[0..4] == w && plain[4..8] == h;
    U32Field(plain, 0, width);
    U32Field(plain, 4, height);
  }

  lemma FallbackPixels(plain: seq<byte>, n: nat)
    requires 8 + n <= |plain|
    ensures plain[8..8 + n] == plain[8..][..n]
  {
  }

  /** A gated client shows no frame, and packets of any other type have no effect. */
  lemma NoEffectArrives(platform: Platform, gated: bool, p: Packet)
    ensures p.header.payloadType == 3 && gated ==> React(platform, gated, p) == []
    ensures p.header.payloadType !in {3, 6, 14, 17} ==> React(platform, gated, p) == []
  {
    hide Open;
  }

  /** The nonce is the sequence number, least significant byte first, and four zeros: no two numbers share one. */
  lemma NonceIff(m: u64, n: u64)
    ensures Nonce(m) == Nonce(n) <==> m == n
    ensures FromLE(Nonce(n)[..8]) == n && Nonce(n)[8..] == [0, 0, 0, 0]
  {
    hide LE, FromLE;
    Pow256Values();
    FromLEOfLE(m, 8);
    FromLEOfLE(n, 8);
    assert Nonce(m)[..8] == LE(m, 8) && Nonce(n)[..8] == LE(n, 8);
  }

  /** The packet `sendInputEvent` writes. */
  function InputPacket(platform: Platform, sequenceNumber: u64, e: InputEvent): (p: Packet)
    ensures WellFormed(p)
  {
    KeyAndNonceFit(sequenceNumber);
    var cipher := CryptoEngine.Encrypt(EventBytes(e), SESSION_KEY, Nonce(sequenceNumber), platform.fullMarker).value;
    MakePacket(INPUT_EVENT, sequenceNumber, 0, cipher)
  }

  /** The packet `onConnected` writes: the password under sequence number 1. */
  function AuthPacket(platform: Platform, password: seq<byte>): (p: Packet)
    requires |password| + CryptoEngine.TAG_SIZE < TWO32
    ensures WellFormed(p)
  {
    KeyAndNonceFit(1);
    var cipher := CryptoEngine.Encrypt(password, SESSION_KEY, Nonce(1), platform.fullMarker).value;
    MakePacket(AUTH_REQUEST, 1, 0, cipher)
  }

  /** The packets for a run of events, numbered on from `last`. */
  function InputPackets(platform: Platform, last: u64, events: seq<InputEvent>): (ps: seq<Packet>)
    ensures AllWellFormed(ps) && |ps| == |events|
    decreases |events|
  {
    hide InputPacket;
    if events == [] then []
    else
      var n := NextSequence(last);
      [InputPacket(platform, n, events[0])] + InputPackets(platform, n, events[1..])
  }

  lemma InputIsSealed(platform: Platform, n: u64, e: InputEvent)
    ensures var p := InputPacket(platform, n, e);
            && p.header.payloadType == 4 && p.header.sequenceNumber == n && p.header.timestampMs == 0
            && Seals(platform, p, EventBytes(e))
  {
    hide CryptoEngine.Encrypt, EventBytes;
    KeyAndNonceFit(n);
  }

  /** Event `i` of a run goes out as type 4 under number `last` + i + 1, wrapping at 2^64, sealed. */
  lemma {:induction false} InputNumbers(platform: Platform, last: u64, events: seq<InputEvent>, i: nat)
    requires i < |events|
    ensures var p := InputPackets(platform, last, events)[i];
            && p.header.payloadType == 4 && p.header.timestampMs == 0
            && p.header.sequenceNumber == (last + i + 1) % TWO64
            && Seals(platform, p, EventBytes(events[i]))
    decreases i
  {
    hide Seals, InputPacket, EventBytes;
    var n := NextSequence(last);
    if i == 0 {
      InputIsSealed(platform, n, events[0]);
      CountOn(last, 0);
    } else {
      InputNumbers(platform, n, events[1..], i - 1);
      CountOn(last, i);
    }
  }

  lemma CountOn(last: u64, i: nat)
    ensures NextSequence(last) == (last + 1) % TWO64
    ensures i > 0 ==> (NextSequence(last) + (i - 1) + 1) % TWO64 == (last + i + 1) % TWO64
  {
  }

  /** So no number, and no nonce, is used twice in up to 2^64 events. */
  lemma InputNoncesDiffer(platform: Platform, last: u64, events: seq<InputEvent>, i: nat, j: nat)
    requires i < j < |events| <= TWO64
    ensures var ps := InputPackets(platform, last, events);
            Nonce(ps[i].header.sequenceNumber) != Nonce(ps[j].header.sequenceNumber)
  {
    hide InputPackets, Nonce, Seals;
    InputNumbers(platform, last, events, i);
    InputNumbers(platform, last, events, j);
    NonceIff((last + i + 1) % TWO64, (last + j + 1) % TWO64);
  }

  /** The request goes out as type 13 under number 1, with the password sealed. */
  lemma RequestIsSealed(platform: Platform, password: seq<byte>)
    requires |password| + CryptoEngine.TAG_SIZE < TWO32
    ensures var p := AuthPacket(platform, password);
            && p.header.payloadType == 13 && p.header.sequenceNumber == 1 && p.header.timestampMs == 0
            && Seals(platform, p, password)
  {
    hide CryptoEngine.Encrypt;
    KeyAndNonceFit(1);
  }

  lemma KeyAndNonceFit(sequenceNumber: u64)
    ensures |SESSION_KEY| == CryptoEngine.KEY_SIZE && |Nonce(sequenceNumber)| == CryptoEngine.NONCE_SIZE
  {
  }

  function NextSequence(n: u64): u64 {
    if n + 1 == TWO64 then 0 else n + 1
  }

  class Client {
    const platform: Platform
    const link: Reconnect.Session
    var receiveBuffer: seq<byte>
    var renderGated: bool
    var connected: bool
    var inputSequence: u64
    var effects: seq<Effect>
    var written: seq<byte>

    constructor (platform: Platform)
      ensures this.platform == platform && !connected && !renderGated
      ensures receiveBuffer == [] && inputSequence == 0 && effects == [] && written == []
      ensures fresh(link) && link.State() == Reconnect.INITIAL
    {
      this.platform := platform;
      link := new Reconnect.Session();
      receiveBuffer, renderGated, connected, inputSequence, effects, written := [], false, false, 0, [], [];
    }

    /** Starts the session over and asks the agent to authenticate it. */
    method OnConnected(password: seq<byte>)
      requires |password| + CryptoEngine.TAG_SIZE < TWO32
      modifies this`connected, this`receiveBuffer, this`inputSequence, this`written, link
      ensures connected && receiveBuffer == [] && inputSequence == 1
      ensures link.State() == Reconnect.Step(old(link.State()), Reconnect.Connected)
      ensures written == old(written) + EncodePacket(AuthPacket(platform, password))
    {
      hide CryptoEngine.Encrypt, Encode;
      connected := true;
      receiveBuffer := [];
      inputSequence := 0;
      link.OnConnected();
      inputSequence := NextSequence(inputSequence);
      var encrypted := CryptoEngine.EncryptPayload(password, SESSION_KEY, Nonce(inputSequence), platform.fullMarker);
      var encoded := EncodeBuffer(AUTH_REQUEST, inputSequence, 0, encrypted.value);
      written := written + encoded[..];
    }

    /** The socket is gone: bytes waiting for more are dropped, and a reconnect may be scheduled. */
    method OnDisconnected()
      modifies this`connected, this`receiveBuffer, link
      ensures !connected && receiveBuffer == []
      ensures link.State() == Reconnect.Step(old(link.State()), Reconnect.Disconnected)
    {
      connected := false;
      receiveBuffer := [];
      link.OnDisconnected();
    }

    /** A socket error drops the waiting bytes; the socket reports its disconnect separately. */
    method OnErrorOccurred()
      modifies this`receiveBuffer, link
      ensures receiveBuffer == []
      ensures link.State() == Reconnect.Step(old(link.State()), Reconnect.ErrorOccurred)
    {
      link.OnErrorOccurred();
      receiveBuffer := [];
    }

    method SetRenderGated(gated: bool)
      modifies this`renderGated
      ensures renderGated == gated
    {
      renderGated := gated;
    }

    /** Appends what the socket holds, then takes packets off the front for as long as it can. */
    method OnReadyRead(chunk: seq<byte>)
      requires connected
      requires Drainable(receiveBuffer + chunk)
      modifies this`receiveBuffer, this`connected, this`effects, link
      ensures var drained := Drain(old(receiveBuffer) + chunk);
              && effects == old(effects) + Effects(platform, renderGated, drained.packets)
              && connected == StaysOpen(platform, renderGated, drained.packets)
              && receiveBuffer == (if connected then drained.rest else [])
              && link.State() == LinkAfter(platform, renderGated, drained.packets, old(link.State()))
    {
      hide Decode, React, Drain, Effects, ToU32, StaysOpen, TotalPacketSize;
      receiveBuffer := receiveBuffer + chunk;
      ghost var whole := Drain(receiveBuffer);
      ghost var done: seq<Packet> := [];
      NoEffects(platform, renderGated);
      assert done + whole.packets == whole.packets;
      while |receiveBuffer| >= HEADER_SIZE
        invariant connected && StaysOpen(platform, renderGated, done)
        invariant Drain(receiveBuffer).rest == whole.rest
        invariant done + Drain(receiveBuffer).packets == whole.packets
        invariant effects == old(effects) + Effects(platform, renderGated, done)
        invariant link.State() == old(link.State())
        decreases |receiveBuffer|
      {
        DrainStep(receiveBuffer);
        var result := Decode(receiveBuffer);
        if result.Failed? {
          if result.error == IncompleteHeader || result.error == IncompletePayload {
            break;
          }
          receiveBuffer := receiveBuffer[1..];
          continue;
        }
        var packet := result.packet;
        var totalPacketSize := TotalPacketSize(packet);
        ghost var tail := Drain(receiveBuffer[Extent(packet)..]);
        assert done + Drain(receiveBuffer).packets == (done + [packet]) + tail.packets;
        assert whole.packets[|done|] == packet;
        TotalPacketSizeIff(packet);
        var effect := Dispatch(packet);
        effects := effects + effect;
        OneMoreEffect(platform, renderGated, done, packet, tail.packets);
        done := done + [packet];
        if effect == [AuthDenied] {
          link.DoDisconnectFromHost();
          receiveBuffer := [];
          connected := false;
          return;
        }
        receiveBuffer := receiveBuffer[totalPacketSize..];
      }
      DrainStep(receiveBuffer);
      assert done == whole.packets;
    }

    /** The branches on the packet type, decrypting with the sequence number as nonce. */
    method Dispatch(packet: Packet) returns (effect: seq<Effect>)
      ensures effect == React(platform, renderGated, packet)
    {
      hide CryptoEngine.Decrypt, Pixels;
      effect := [];
      var t := packet.header.payloadType;
      var nonce := Nonce(packet.header.sequenceNumber);
      if t == FRAME_HEADER && packet.payload != [] {
        if renderGated {
          return;
        }
        var decrypted := CryptoEngine.DecryptPayload(packet.payload, SESSION_KEY, nonce, platform.fullMarker);
        if decrypted.Some? && |decrypted.value| >= 12 {
          var plain := decrypted.value;
          var width, height := U32At(plain, 0), U32At(plain, 4);
          var pixels := Pixels(platform, width, height, plain);
          if width > 0 && height > 0 && pixels != [] {
            effect := [FrameShown(width, height, pixels)];
          }
        }
      } else if t == CLIPBOARD_DATA && packet.payload != [] {
        var decrypted := CryptoEngine.DecryptPayload(packet.payload, SESSION_KEY, nonce, platform.fullMarker);
        if decrypted.Some? && decrypted.value != [] {
          if CHAT_PREFIX <= decrypted.value {
            effect := [ChatReceived(decrypted.value[5..])];
          } else {
            effect := [TextReceived(decrypted.value)];
          }
        }
      } else if t == AUTH_RESPONSE && packet.payload != [] {
        var decrypted := CryptoEngine.DecryptPayload(packet.payload, SESSION_KEY, nonce, platform.fullMarker);
        if decrypted.Some? && decrypted.value != [] {
          effect := if decrypted.value[0] == 0 then [AuthGranted] else [AuthDenied];
        }
      } else if t == TERMINAL_DATA && packet.payload != [] {
        var decrypted := CryptoEngine.DecryptPayload(packet.payload, SESSION_KEY, nonce, platform.fullMarker);
        if decrypted.Some? && decrypted.value != [] {
          effect := [TerminalOutput(decrypted.value)];
        }
      }
    }

    /** Writes one encrypted input event; the sequence number doubles as the nonce. */
    method SendInputEvent(e: InputEvent)
      modifies this`inputSequence, this`written
      ensures inputSequence == if connected then NextSequence(old(inputSequence)) else old(inputSequence)
      ensures written == if connected
                         then old(written) + EncodePacket(InputPacket(platform, inputSequence, e))
                         else old(written)
    {
      hide CryptoEngine.Encrypt, Encode, EventBytes;
      if !connected {
        return;
      }
      var plaintext := FillEvent(e);
      inputSequence := NextSequence(inputSequence);
      var encrypted := CryptoEngine.EncryptPayload(plaintext[..], SESSION_KEY, Nonce(inputSequence), platform.fullMarker);
      var encoded := EncodeBuffer(INPUT_EVENT, inputSequence, 0, encrypted.value);
      written := written + encoded[..];
    }
  }
}
