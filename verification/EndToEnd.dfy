/** From one program to the other, over a byte stream cut anywhere: what the agent sends is what the
    viewer gets. */
module EndToEnd {
  import opened Bytes
  import opened Wrappers
  import opened ProtocolCodec
  import opened PacketStream
  import opened SessionClient
  import opened FrameSender
  import opened InputEvents
  import opened AgentSession
  import CryptoEngine
  import Agent
  import Reconnect

  /** A picture as the capture produces it, small enough to send, that zlib gives back. */
  predicate Deliverable(platform: Platform, f: FrameData) {
    && Fits(platform, f)
    && f.width > 0 && f.height > 0
    && |f.pixelData| == Area(f.width, f.height)
    && platform.uncompress(platform.compress(f.pixelData)) == f.pixelData
  }

  /** Every picture among the messages. */
  predicate AllDeliverable(platform: Platform, messages: seq<Message>): (all: bool)
    ensures all ==> MessagesFit(platform, messages)
  {
    forall i :: 0 <= i < |messages| && messages[i].Picture? ==> Deliverable(platform, messages[i].frame)
  }

  /** What a message is meant to bring about at the viewer. */
  function Outcome(m: Message): Effect {
    match m
    case Reply(_, success) => if success then AuthGranted else AuthDenied
    case Picture(f) => FrameShown(f.width, f.height, f.pixelData)
  }

  /** The same for a run of messages: a refusal is the last thing the viewer takes. */
  function Outcomes(messages: seq<Message>): seq<Effect> {
    if messages == [] then []
    else if Refusing(messages[0]) then [AuthDenied]
    else [Outcome(messages[0])] + Outcomes(messages[1..])
  }

  predicate NoneRefuses(messages: seq<Message>) {
    forall i :: 0 <= i < |messages| ==> !Refusing(messages[i])
  }

  /** The frames as the viewer's frame provider gets them. */
  function Shown(frames: seq<FrameData>): (e: seq<Effect>)
    ensures |e| == |frames|
  {
    seq(|frames|, i requires 0 <= i < |frames| =>
      FrameShown(frames[i].width, frames[i].height, frames[i].pixelData))
  }

  lemma AreaPositive(width: nat, height: nat)
    requires width > 0 && height > 0
    ensures Area(width, height) > 0
  {
  }

  lemma PlaintextFields(platform: Platform, f: FrameData)
    ensures var s := FramePlaintext(platform, f);
            U32At(s, 0) == f.width && U32At(s, 4) == f.height && s[12..] == platform.compress(f.pixelData)
  {
    hide LE, FromLE;
    var s := FramePlaintext(platform, f);
    assert s[0..4] == LE(f.width, 4) && s[4..8] == LE(f.height, 4);
    U32Field(s, 0, f.width);
    U32Field(s, 4, f.height);
  }

  /** One packet: decrypting, parsing and decompressing undo the sender's steps. */
  lemma FrameIsShown(platform: Platform, f: FrameData)
    requires Deliverable(platform, f)
    ensures React(platform, false, FramePacket(platform, f)) == [FrameShown(f.width, f.height, f.pixelData)]
  {
    hide CryptoEngine.Encrypt, CryptoEngine.Decrypt, U32At, FramePlaintext, Area, Nonce;
    var p := FramePacket(platform, f);
    var plain := FramePlaintext(platform, f);
    KeyAndNonceFit(f.frameNumber);
    CryptoEngine.DecryptIff(p.payload, plain, SESSION_KEY, Nonce(f.frameNumber), platform.fullMarker);
    PlaintextFields(platform, f);
    AreaPositive(f.width, f.height);
  }

  lemma MessageIsTaken(platform: Platform, m: Message)
    requires m.Picture? ==> Deliverable(platform, m.frame)
    ensures React(platform, false, MessagePacket(platform, m)) == [Outcome(m)]
  {
    hide React, Deliverable, FramePacket, Agent.AuthReply;
    match m
    case Reply(n, success) => Agent.ReplyTellsClient(platform, false, n, success);
    case Picture(f) => FrameIsShown(platform, f);
  }

  lemma {:induction false} MessagesAreTaken(platform: Platform, messages: seq<Message>)
    requires AllDeliverable(platform, messages)
    ensures Effects(platform, false, MessagePackets(platform, messages)) == Outcomes(messages)
    decreases |messages|
  {
    hide React, Deliverable, Fits, MessagePacket, MessagePackets, Effects;
    if messages == [] {
      NoEffects(platform, false);
    } else {
      MessageIsTaken(platform, messages[0]);
      MessagesAreTaken(platform, messages[1..]);
      PacketsUnfold(platform, messages);
      EffectsUnfold(platform, false, MessagePacket(platform, messages[0]), MessagePackets(platform, messages[1..]));
    }
  }

  lemma PacketsUnfold(platform: Platform, messages: seq<Message>)
    requires messages != [] && MessagesFit(platform, messages)
    ensures MessagePackets(platform, messages)
            == [MessagePacket(platform, messages[0])] + MessagePackets(platform, messages[1..])
  {
    hide Fits, MessagePacket;
  }

  lemma {:induction false} DeniedIffRefused(messages: seq<Message>)
    ensures AuthDenied !in Outcomes(messages) <==> NoneRefuses(messages)
  {
    if messages == [] {
    } else {
      DeniedIffRefused(messages[1..]);
      assert messages == [messages[0]] + messages[1..];
    }
  }

  /** The main theorem on values: cut the stream of any messages anywhere, and the reads yield the
      packets sent, leave nothing over, and bring about exactly what was meant, in order, up to and
      including a first refusal. */
  lemma MessagesSurviveTheStream(platform: Platform, messages: seq<Message>, chunks: seq<seq<byte>>)
    requires AllDeliverable(platform, messages)
    requires Flatten(chunks) == EncodeAll(MessagePackets(platform, messages))
    ensures Reads([], chunks) == Drained(MessagePackets(platform, messages), [])
    ensures Effects(platform, false, Reads([], chunks).packets) == Outcomes(messages)
  {
    hide EncodeAll, Flatten, Drain, Reads, MessagePackets, Fits, Deliverable, Effects, Outcomes;
    var packets := MessagePackets(platform, messages);
    assert packets + [] == packets;
    assert Drain([]) == Drained([], []) by {
      DrainStep([]);
    }
    SegmentationIndependence([], chunks);
    assert [] + Flatten(chunks) == EncodeAll(packets) + [];
    DrainEncoded(packets, []);
    MessagesAreTaken(platform, messages);
  }

  /** What a connection writes over any run of packets, frames and a close, cut anywhere, brings about
      its messages at the viewer. */
  lemma RunIsShown(config: Agent.Config, isLoopback: bool, events: seq<SessionEvent>, chunks: seq<seq<byte>>)
    requires AllFit(config.platform, events)
    requires var start := SessionState(Agent.Start(isLoopback), true);
             && AllDeliverable(config.platform, Messages(config, start, events))
             && Flatten(chunks) == SessionRun(config, start, events).agent.written
    ensures var ms := Messages(config, SessionState(Agent.Start(isLoopback), true), events);
            && Reads([], chunks) == Drained(MessagePackets(config.platform, ms), [])
            && Effects(config.platform, false, Reads([], chunks).packets) == Outcomes(ms)
  {
    hide SessionRun, Messages, Fits, Deliverable, MessagePacket, EncodePacket, Reads, Effects;
    var start := SessionState(Agent.Start(isLoopback), true);
    var ms := Messages(config, start, events);
    WrittenIsMessages(config, start, events);
    assert [] + EncodeAll(MessagePackets(config.platform, ms)) == EncodeAll(MessagePackets(config.platform, ms));
    MessagesSurviveTheStream(config.platform, ms, chunks);
  }

  /** A remote viewer that joins: it is told that it may watch, and then shown every frame captured
      since, whatever was captured before. */
  lemma JoinerSeesTheRest(config: Agent.Config, before: seq<SessionEvent>, auth: Packet, after: seq<SessionEvent>,
                          chunks: seq<seq<byte>>)
    requires AllFit(config.platform, before + [Received(auth)] + after)
    requires Quiet(config, before) && Quiet(config, after) && Agent.Accepted(config, auth)
    requires forall i :: 0 <= i < |after| && after[i].Captured? ==> Deliverable(config.platform, after[i].frame)
    requires Flatten(chunks) == SessionRun(config, SessionState(Agent.Start(false), true),
                                           before + [Received(auth)] + after).agent.written
    ensures Effects(config.platform, false, Reads([], chunks).packets) == [AuthGranted] + Shown(CapturedFrames(after))
    ensures Reads([], chunks).rest == []
  {
    hide SessionRun, Messages, Fits, Deliverable, Quiet, Agent.Accepted, Reads, Effects, MessagePackets;
    var events := before + [Received(auth)] + after;
    FitParts(config.platform, before, auth, after);
    JoinerMessages(config, before, auth, after);
    CapturedDeliverable(config.platform, after);
    var frames := CapturedFrames(after);
    assert ([Reply(auth.header.sequenceNumber, true)] + Pictures(frames))[1..] == Pictures(frames);
    RunIsShown(config, false, events, chunks);
    PicturesAreShown(frames);
  }

  lemma FitParts(platform: Platform, before: seq<SessionEvent>, auth: Packet, after: seq<SessionEvent>)
    requires AllFit(platform, before + [Received(auth)] + after)
    ensures AllFit(platform, before) && AllFit(platform, after)
  {
    hide Fits;
    var events := before + [Received(auth)] + after;
    assert forall i :: 0 <= i < |before| ==> before[i] == events[i];
    assert forall i :: 0 <= i < |after| ==> after[i] == events[|before| + 1 + i];
  }

  lemma {:induction false} CapturedDeliverable(platform: Platform, events: seq<SessionEvent>)
    requires forall i :: 0 <= i < |events| && events[i].Captured? ==> Deliverable(platform, events[i].frame)
    ensures forall f :: f in CapturedFrames(events) ==> Deliverable(platform, f)
  {
    hide Deliverable;
    if events == [] {
    } else {
      CapturedDeliverable(platform, events[1..]);
    }
  }

  lemma {:induction false} PicturesAreShown(frames: seq<FrameData>)
    ensures Outcomes(Pictures(frames)) == Shown(frames)
  {
    if frames == [] {
    } else {
      PicturesAreShown(frames[1..]);
      assert Pictures(frames)[1..] == Pictures(frames[1..]);
      assert Shown(frames) == [Shown(frames)[0]] + Shown(frames[1..]);
    }
  }

  // ---------- the handler over a whole run ----------

  lemma DrainableSplit(a: seq<byte>, b: seq<byte>)
    requires Drainable(a + b)
    ensures Drainable(a) && Drainable(Drain(a).rest + b)
  {
    hide Drain;
    DrainAppend(a, b);
    var first, second := Drain(a).packets, Drain(Drain(a).rest + b).packets;
    forall p | p in first ensures p in first + second {}
    forall p | p in second ensures p in first + second {}
  }

  /** Every read event of a run, in order, until the connection closes. The outcome depends on
      the concatenation of the reads alone. */
  method ReadRun(client: Client, chunks: seq<seq<byte>>)
    requires client.connected
    requires Drain(client.receiveBuffer) == Drained([], client.receiveBuffer)
    requires Drainable(client.receiveBuffer + Flatten(chunks))
    modifies client`receiveBuffer, client`connected, client`effects, client.link
    ensures var all := Drain(old(client.receiveBuffer) + Flatten(chunks));
            && client.effects == old(client.effects) + Effects(client.platform, client.renderGated, all.packets)
            && client.connected == StaysOpen(client.platform, client.renderGated, all.packets)
            && client.receiveBuffer == (if client.connected then all.rest else [])
            && client.link.State() == LinkAfter(client.platform, client.renderGated, all.packets, old(client.link.State()))
  {
    hide Drain, Effects, StaysOpen, Drainable;
    ghost var whole := client.receiveBuffer + Flatten(chunks);
    ghost var platform, gated := client.platform, client.renderGated;
    ghost var done: seq<Packet> := [];
    NoEffects(platform, gated);
    var i := 0;
    assert chunks[0..] == chunks;
    while i < |chunks| && client.connected
      invariant 0 <= i <= |chunks|
      invariant client.connected == StaysOpen(platform, gated, done)
      invariant client.effects == old(client.effects) + Effects(platform, gated, done)
      invariant client.link.State() == LinkAfter(platform, gated, done, old(client.link.State()))
      invariant client.connected ==>
                  && Drain(client.receiveBuffer) == Drained([], client.receiveBuffer)
                  && Drainable(client.receiveBuffer + Flatten(chunks[i..]))
                  && done + Drain(client.receiveBuffer + Flatten(chunks[i..])).packets == Drain(whole).packets
                  && Drain(client.receiveBuffer + Flatten(chunks[i..])).rest == Drain(whole).rest
      invariant !client.connected ==> done <= Drain(whole).packets && client.receiveBuffer == []
    {
      ghost var rest := Flatten(chunks[i + 1..]);
      ghost var here := client.receiveBuffer + chunks[i];
      assert chunks[i..][1..] == chunks[i + 1..];
      assert client.receiveBuffer + Flatten(chunks[i..]) == here + rest;
      DrainableSplit(here, rest);
      DrainAppend(here, rest);
      RestIsSettled(here);
      ghost var first := Drain(here).packets;
      ghost var later := Drain(Drain(here).rest + rest).packets;
      assert Drain(whole).packets == done + (first + later) == (done + first) + later;
      client.OnReadyRead(chunks[i]);
      EffectsAppend(platform, gated, done, first);
      StaysOpenAppend(platform, gated, done, first);
      done := done + first;
      i := i + 1;
    }
    if client.connected {
      assert chunks[i..] == [];
      assert client.receiveBuffer + Flatten(chunks[i..]) == client.receiveBuffer;
      assert done == Drain(whole).packets;
    } else {
      ghost var later := Drain(whole).packets[|done|..];
      assert Drain(whole).packets == done + later;
      EffectsAppend(platform, gated, done, later);
      StaysOpenAppend(platform, gated, done, later);
    }
  }

  lemma StaysOpenAppend(platform: Platform, gated: bool, a: seq<Packet>, b: seq<Packet>)
    ensures StaysOpen(platform, gated, a + b) <==> StaysOpen(platform, gated, a) && StaysOpen(platform, gated, b)
  {
    hide React;
    forall p | p in a ensures p in a + b {}
    forall p | p in b ensures p in a + b {}
  }

  /** The same for the client object: however the wire bytes are cut into reads, the handler does
      exactly what the agent's messages mean, and only a refusal disconnects it. */
  method Watch(client: Client, ghost messages: seq<Message>, chunks: seq<seq<byte>>)
    requires AllDeliverable(client.platform, messages)
    requires Flatten(chunks) == EncodeAll(MessagePackets(client.platform, messages))
    requires client.connected && client.receiveBuffer == [] && !client.renderGated
    modifies client`receiveBuffer, client`connected, client`effects, client.link
    ensures client.connected == NoneRefuses(messages) && client.receiveBuffer == []
    ensures client.effects == old(client.effects) + Outcomes(messages)
    ensures client.link.State() == if NoneRefuses(messages) then old(client.link.State())
                                   else Reconnect.Step(old(client.link.State()), Reconnect.DisconnectFromHost)
  {
    hide EncodePacket, MessagePacket, Fits, Deliverable, Effects, StaysOpen, Outcomes;
    ghost var packets := MessagePackets(client.platform, messages);
    assert client.receiveBuffer + Flatten(chunks) == EncodeAll(packets) + [];
    assert packets + [] == packets;
    DrainEncoded(packets, []);
    MessagesAreTaken(client.platform, messages);
    DeniedIff(client.platform, false, packets);
    DeniedIffRefused(messages);
    forall p | p in packets
      ensures p.header.payloadSize < TWO32 - HEADER_SIZE
    {
      var i :| 0 <= i < |packets| && packets[i] == p;
      PacketIsSmall(client.platform, messages[i]);
    }
    ReadRun(client, chunks);
  }

  lemma PacketIsSmall(platform: Platform, m: Message)
    requires m.Picture? ==> Deliverable(platform, m.frame)
    ensures MessagePacket(platform, m).header.payloadSize < TWO32 - HEADER_SIZE
  {
    hide CryptoEngine.Encrypt, FramePlaintext, Nonce;
    match m
    case Reply(n, _) => KeyAndNonceFit(n);
    case Picture(f) => KeyAndNonceFit(f.frameNumber);
  }

  /** Object to object: one connection serves a run of events, the network cuts what it wrote in any
      way, and the client reads it. */
  method LiveSession(connection: Agent.Connection, client: Client, events: seq<SessionEvent>,
                     cut: seq<byte> -> seq<seq<byte>>)
    requires AllFit(connection.config.platform, events) && client.platform == connection.config.platform
    requires connection.isOpen && connection.State() == Agent.Start(connection.isLoopback)
    requires client.connected && client.receiveBuffer == [] && !client.renderGated
    requires forall bytes :: Flatten(cut(bytes)) == bytes
    requires AllDeliverable(client.platform,
               Messages(connection.config, SessionState(connection.State(), true), events))
    modifies connection, client`receiveBuffer, client`connected, client`effects, client.link
    ensures var ms := Messages(connection.config, SessionState(old(connection.State()), true), events);
            && client.connected == NoneRefuses(ms) && client.receiveBuffer == []
            && client.effects == old(client.effects) + Outcomes(ms)
  {
    hide SessionRun, Messages, Fits, Deliverable, Outcomes, Flatten, EncodeAll, MessagePackets;
    ghost var start := SessionState(connection.State(), true);
    ghost var ms := Messages(connection.config, start, events);
    WrittenIsMessages(connection.config, start, events);
    Serve(connection, events);
    assert [] + EncodeAll(MessagePackets(client.platform, ms)) == EncodeAll(MessagePackets(client.platform, ms));
    Watch(client, ms, cut(connection.written));
  }

  // ---------- input, object to object ----------

  /** A client session: connect, authenticate, send the events. */
  method SendSession(client: Client, password: seq<byte>, events: seq<InputEvent>)
    requires |password| + CryptoEngine.TAG_SIZE < TWO32
    modifies client, client.link
    ensures client.written == old(client.written) + EncodePacket(AuthPacket(client.platform, password))
                              + EncodeAll(InputPackets(client.platform, 1, events))
  {
    hide EncodePacket, InputPacket, AuthPacket, InputPackets, EncodeAll;
    client.OnConnected(password);
    ghost var start := client.written;
    ghost var all := EncodeAll(InputPackets(client.platform, 1, events));
    assert events[0..] == events;
    for i := 0 to |events|
      invariant client.connected
      invariant client.written + EncodeAll(InputPackets(client.platform, client.inputSequence, events[i..])) == start + all
    {
      ghost var todo := events[i..];
      ghost var last := client.inputSequence;
      assert todo[0] == events[i] && todo[1..] == events[i + 1..];
      InputsUnfold(client.platform, last, todo);
      client.SendInputEvent(events[i]);
    }
    assert events[|events|..] == [];
    NoInputs(client.platform, client.inputSequence);
  }

  lemma InputsUnfold(platform: Platform, last: u64, events: seq<InputEvent>)
    requires events != []
    ensures var n := NextSequence(last);
            EncodeAll(InputPackets(platform, last, events))
            == EncodePacket(InputPacket(platform, n, events[0])) + EncodeAll(InputPackets(platform, n, events[1..]))
  {
    hide EncodePacket, InputPacket;
    var n := NextSequence(last);
    var p, later := InputPacket(platform, n, events[0]), InputPackets(platform, n, events[1..]);
    assert InputPackets(platform, last, events) == [p] + later;
    assert ([p] + later)[1..] == later;
  }

  lemma NoInputs(platform: Platform, last: u64)
    ensures EncodeAll(InputPackets(platform, last, [])) == []
  {
  }

  /** Every read event of an agent's run. */
  method AgentReadRun(connection: Agent.Connection, chunks: seq<seq<byte>>)
    requires forall i :: 0 <= i < |chunks| ==> Agent.AgentDrainable(chunks[i])
    modifies connection
    ensures connection.State() == Agent.HandleAll(connection.config, old(connection.State()), Agent.AgentReads(chunks))
  {
    hide Agent.HandleAll, Agent.AgentDrain, Agent.AgentDrainable;
    ghost var all := Agent.AgentReads(chunks);
    assert chunks[0..] == chunks;
    for i := 0 to |chunks|
      invariant Agent.HandleAll(connection.config, connection.State(), Agent.AgentReads(chunks[i..]))
                == Agent.HandleAll(connection.config, old(connection.State()), all)
    {
      assert chunks[i..][1..] == chunks[i + 1..];
      ghost var now, later := Agent.AgentDrain(chunks[i]), Agent.AgentReads(chunks[i + 1..]);
      Agent.HandleAllAppend(connection.config, connection.State(), now, later);
      connection.OnReadyRead(chunks[i]);
    }
    assert chunks[|chunks|..] == [];
    HandleNothing(connection.config, connection.State());
  }

  lemma HandleNothing(config: Agent.Config, st: Agent.AgentState)
    ensures Agent.HandleAll(config, st, []) == st
  {
  }
}
