/** The agent's side of a connection: its packet handler, its read loop and its frame broadcast. */
module Agent {
  import opened Bytes
  import opened Wrappers
  import opened ProtocolCodec
  import opened PacketStream
  import opened InputEvents
  import opened SessionClient
  import CryptoEngine

  /** The platform, whether an input backend exists, and which decrypted passwords are accepted. */
  datatype Config = Config(platform: Platform, hasInput: bool, accepts: seq<byte> -> bool)

  datatype AgentState = AgentState(
    authenticated: bool,
    isLoopback: bool,
    disconnecting: bool,
    injected: seq<InputEvent>,
    clipboard: seq<seq<byte>>,
    actions: seq<u32>,
    written: seq<byte>)

  /** The flags a new connection gets: a loopback peer counts as authenticated at once. */
  function Start(isLoopback: bool): AgentState {
    AgentState(isLoopback, isLoopback, false, [], [], [], [])
  }

  /** The decrypted plaintext of a packet of type `t` that has a payload. */
  function PlainOf(config: Config, t: u16, p: Packet): Option<seq<byte>> {
    if p.header.payloadType == t && p.payload != [] then Open(config.platform, p) else None
  }

  predicate Requests(config: Config, p: Packet) {
    var plain := PlainOf(config, AUTH_REQUEST, p);
    plain.Some? && plain.value != []
  }

  predicate Accepted(config: Config, p: Packet) {
    Requests(config, p) && config.accepts(PlainOf(config, AUTH_REQUEST, p).value)
  }

  predicate Rejected(config: Config, p: Packet) {
    Requests(config, p) && !config.accepts(PlainOf(config, AUTH_REQUEST, p).value)
  }

  /** A packet that carries a whole input event. */
  predicate CarriesEvent(config: Config, p: Packet) {
    var plain := PlainOf(config, INPUT_EVENT, p);
    plain.Some? && |plain.value| >= EVENT_SIZE
  }

  function EventOf(config: Config, p: Packet): InputEvent
    requires CarriesEvent(config, p)
  {
    ParseEvent(PlainOf(config, INPUT_EVENT, p).value)
  }

  /** The answer to a request: one byte, 0 for success, under the request's own number. */
  function AuthReply(platform: Platform, sequenceNumber: u64, success: bool): (p: Packet)
    ensures WellFormed(p)
  {
    KeyAndNonceFit(sequenceNumber);
    var code: byte := if success then 0 else 1;
    var cipher := CryptoEngine.Encrypt([code], SESSION_KEY, Nonce(sequenceNumber), platform.fullMarker).value;
    MakePacket(AUTH_RESPONSE, sequenceNumber, 0, cipher)
  }

  /** `handleClientPacket` as a step on the connection's state. */
  function Handle(config: Config, st: AgentState, p: Packet): AgentState {
    var t := p.header.payloadType;
    if t == AUTH_REQUEST then
      if !Requests(config, p) then st
      else
        var success := Accepted(config, p);
        st.(authenticated := success,
            written := st.written + EncodePacket(AuthReply(config.platform, p.header.sequenceNumber, success)),
            disconnecting := st.disconnecting || !success)
    else if !st.authenticated then st
    else if t == INPUT_EVENT then
      if CarriesEvent(config, p) && config.hasInput && !st.isLoopback
      then st.(injected := st.injected + [EventOf(config, p)])
      else st
    else if t == CLIPBOARD_DATA then
      var plain := PlainOf(config, CLIPBOARD_DATA, p);
      if plain.Some? && plain.value != [] then st.(clipboard := st.clipboard + [plain.value]) else st
    else if t == SESSION_CONTROL then
      var plain := PlainOf(config, SESSION_CONTROL, p);
      if plain.Some? && |plain.value| >= 4 then st.(actions := st.actions + [U32At(plain.value, 0)]) else st
    else st
  }

  function HandleAll(config: Config, st: AgentState, packets: seq<Packet>): AgentState
    decreases |packets|
  {
    hide Handle;
    if packets == [] then st else HandleAll(config, Handle(config, st, packets[0]), packets[1..])
  }

  lemma {:induction false} HandleAllAppend(config: Config, st: AgentState, a: seq<Packet>, b: seq<Packet>)
    ensures HandleAll(config, st, a + b) == HandleAll(config, HandleAll(config, st, a), b)
    decreases |a|
  {
    hide Handle;
    if a == [] {
      assert a + b == b;
    } else {
      assert (a + b)[1..] == a[1..] + b;
      HandleAllAppend(config, Handle(config, st, a[0]), a[1..], b);
    }
  }

  lemma HandleLast(config: Config, st: AgentState, packets: seq<Packet>)
    requires packets != []
    ensures HandleAll(config, st, packets)
            == Handle(config, HandleAll(config, st, packets[..|packets| - 1]), packets[|packets| - 1])
  {
    hide Handle;
    var front, p := packets[..|packets| - 1], packets[|packets| - 1];
    assert packets == front + [p];
    HandleAllAppend(config, st, front, [p]);
    assert [p][1..] == [];
  }

  // ---------- the object ----------

  class Connection {
    const config: Config
    var authenticated: bool
    var isLoopback: bool
    var disconnecting: bool
    var injected: seq<InputEvent>
    var clipboard: seq<seq<byte>>
    var actions: seq<u32>
    var written: seq<byte>
    var isOpen: bool

    function State(): AgentState
      reads this
    {
      AgentState(authenticated, isLoopback, disconnecting, injected, clipboard, actions, written)
    }

    constructor (config: Config, loopback: bool)
      ensures this.config == config
      ensures State() == Start(loopback) && isOpen
    {
      this.config := config;
      authenticated, isLoopback, disconnecting := false, loopback, false;
      injected, clipboard, actions, written, isOpen := [], [], [], [], true;
      new;
      if loopback {
        authenticated := true;
      }
    }

    method HandleClientPacket(packet: Packet)
      modifies this
      ensures State() == Handle(config, old(State()), packet) && isOpen == old(isOpen)
    {
      hide CryptoEngine.Encrypt, CryptoEngine.Decrypt, ParseEvent, Encode, U32At;
      var t := packet.header.payloadType;
      var seqNo := packet.header.sequenceNumber;
      var marker := config.platform.fullMarker;
      if t == AUTH_REQUEST && packet.payload != [] {
        var decrypted := CryptoEngine.DecryptPayload(packet.payload, SESSION_KEY, Nonce(seqNo), marker);
        if decrypted.Some? && decrypted.value != [] {
          var authSuccess := config.accepts(decrypted.value);
          authenticated := authSuccess;
          var authCode: byte := if authSuccess then 0 else 1;
          var encryptedResp := CryptoEngine.EncryptPayload([authCode], SESSION_KEY, Nonce(seqNo), marker);
          var respEncoded := EncodeBuffer(AUTH_RESPONSE, seqNo, 0, encryptedResp.value);
          written := written + respEncoded[..];
          if !authSuccess {
            disconnecting := true;
          }
        }
      } else if t == INPUT_EVENT && packet.payload != [] {
        if authenticated {
          var decrypted := CryptoEngine.DecryptPayload(packet.payload, SESSION_KEY, Nonce(seqNo), marker);
          if decrypted.Some? && |decrypted.value| >= EVENT_SIZE {
            var event := ParseEvent(decrypted.value);
            if config.hasInput {
              if !isLoopback {
                injected := injected + [event];
              }
            }
          }
        }
      } else if t == CLIPBOARD_DATA && packet.payload != [] {
        if authenticated {
          var decrypted := CryptoEngine.DecryptPayload(packet.payload, SESSION_KEY, Nonce(seqNo), marker);
          if decrypted.Some? && decrypted.value != [] {
            clipboard := clipboard + [decrypted.value];
          }
        }
      } else if t == SESSION_CONTROL && packet.payload != [] {
        if authenticated {
          var decrypted := CryptoEngine.DecryptPayload(packet.payload, SESSION_KEY, Nonce(seqNo), marker);
          if decrypted.Some? && |decrypted.value| >= 4 {
            actions := actions + [U32At(decrypted.value, 0)];
          }
        }
      }
    }

    /** The read handler: a buffer local to the call, given up at the first parse error. */
    method OnReadyRead(chunk: seq<byte>)
      requires AgentDrainable(chunk)
      modifies this
      ensures State() == HandleAll(config, old(State()), AgentDrain(chunk)) && isOpen == old(isOpen)
    {
      hide Decode, Handle, TotalPacketSize;
      var buffer := chunk;
      ghost var todo := AgentDrain(chunk);
      while |buffer| >= HEADER_SIZE
        invariant todo == AgentDrain(buffer) && isOpen == old(isOpen)
        invariant forall p :: p in todo ==> p in AgentDrain(chunk)
        invariant HandleAll(config, State(), todo) == HandleAll(config, old(State()), AgentDrain(chunk))
        decreases |buffer|
      {
        var result := Decode(buffer);
        if result.Failed? {
          break;
        }
        var packet := result.packet;
        var totalPacketSize := TotalPacketSize(packet);
        ParsedFits(buffer, packet);
        assert todo == [packet] + AgentDrain(buffer[Extent(packet)..]);
        TotalPacketSizeIff(packet);
        HandleClientPacket(packet);
        buffer := buffer[totalPacketSize..];
        todo := todo[1..];
      }
    }
  }

  /** `client->write(bytes)` for every open, authenticated client of the list. */
  method Broadcast(clients: seq<Connection>, bytes: seq<byte>)
    requires forall i, j :: 0 <= i < j < |clients| ==> clients[i] != clients[j]
    modifies (set c | c in clients)`written
    ensures forall c :: c in clients ==>
              c.written == old(c.written) + (if c.isOpen && c.authenticated then bytes else [])
  {
    for i := 0 to |clients|
      invariant forall k :: 0 <= k < i ==>
                  clients[k].written == old(clients[k].written) +
                    (if clients[k].isOpen && clients[k].authenticated then bytes else [])
      invariant forall k :: i <= k < |clients| ==> clients[k].written == old(clients[k].written)
    {
      var client := clients[i];
      if client.isOpen && client.authenticated {
        client.written := client.written + bytes;
      }
    }
  }

  // ---------- run safety ----------

  /** Some request in the history was accepted and none after it rejected;
      for a loopback peer it is enough that none was rejected. */
  ghost predicate Granted(config: Config, isLoopback: bool, history: seq<Packet>) {
    || (isLoopback && forall k :: 0 <= k < |history| ==> !Rejected(config, history[k]))
    || exists j :: 0 <= j < |history| && Accepted(config, history[j]) &&
         forall k :: j < k < |history| ==> !Rejected(config, history[k])
  }

  /** The flag after any run is exactly what the history of requests grants. */
  lemma {:induction false} AuthenticatedIff(config: Config, isLoopback: bool, history: seq<Packet>)
    ensures var st := HandleAll(config, Start(isLoopback), history);
            st.isLoopback == isLoopback && (st.authenticated <==> Granted(config, isLoopback, history))
    decreases |history|
  {
    if history == [] {
    } else {
      var n := |history| - 1;
      var front, p := history[..n], history[n];
      AuthenticatedIff(config, isLoopback, front);
      HandleLast(config, Start(isLoopback), history);
      GrantedStep(config, isLoopback, history);
      HandleAuth(config, HandleAll(config, Start(isLoopback), front), p);
    }
  }

  lemma HandleAuth(config: Config, st: AgentState, p: Packet)
    ensures Handle(config, st, p).isLoopback == st.isLoopback
    ensures Handle(config, st, p).authenticated <==>
            Accepted(config, p) || (st.authenticated && !Rejected(config, p))
  {
    hide CryptoEngine.Decrypt, CryptoEngine.Encrypt, ParseEvent, Encode, U32At, Nonce;
  }

  lemma GrantedStep(config: Config, isLoopback: bool, history: seq<Packet>)
    requires history != []
    ensures var n := |history| - 1;
            Granted(config, isLoopback, history) <==>
            Accepted(config, history[n]) || (Granted(config, isLoopback, history[..n]) && !Rejected(config, history[n]))
  {
    hide Accepted, Rejected;
    var n := |history| - 1;
    var front := history[..n];
    if Granted(config, isLoopback, front) && !Rejected(config, history[n]) {
      if exists j :: 0 <= j < n && Accepted(config, front[j]) && forall k :: j < k < n ==> !Rejected(config, front[k]) {
        var j :| 0 <= j < n && Accepted(config, front[j]) && forall k :: j < k < n ==> !Rejected(config, front[k]);
        assert Accepted(config, history[j]);
        assert forall k :: j < k < n ==> history[k] == front[k];
      } else {
        assert forall k :: 0 <= k < n ==> history[k] == front[k];
      }
    }
    if Granted(config, isLoopback, history) && !Accepted(config, history[n]) {
      assert forall k :: 0 <= k < n ==> history[k] == front[k];
      if exists j :: 0 <= j < |history| && Accepted(config, history[j]) && forall k :: j < k < |history| ==> !Rejected(config, history[k]) {
        var j :| 0 <= j < |history| && Accepted(config, history[j]) && forall k :: j < k < |history| ==> !Rejected(config, history[k]);
        assert Accepted(config, front[j]);
      }
    }
  }

  /** Run safety, exactly: packet `n` of any run injects its event if and only if the peer is not
      loopback, an input backend exists, the packet carries an event, and the packets before it granted
      access; otherwise it injects nothing. */
  lemma InjectsExactlyWhenGranted(config: Config, isLoopback: bool, run: seq<Packet>, n: nat)
    requires n < |run|
    ensures var before := HandleAll(config, Start(isLoopback), run[..n]);
            var after := HandleAll(config, Start(isLoopback), run[..n + 1]);
            after.injected ==
              if !isLoopback && config.hasInput && CarriesEvent(config, run[n]) && Granted(config, isLoopback, run[..n])
              then before.injected + [EventOf(config, run[n])]
              else before.injected
  {
    hide Granted, CryptoEngine.Decrypt, CryptoEngine.Encrypt, ParseEvent, Encode, U32At, Nonce;
    AuthenticatedIff(config, isLoopback, run[..n]);
    assert run[..n + 1][..n] == run[..n];
    HandleLast(config, Start(isLoopback), run[..n + 1]);
  }

  predicate CarriesText(config: Config, p: Packet) {
    var plain := PlainOf(config, CLIPBOARD_DATA, p);
    plain.Some? && plain.value != []
  }

  predicate CarriesAction(config: Config, p: Packet) {
    var plain := PlainOf(config, SESSION_CONTROL, p);
    plain.Some? && |plain.value| >= 4
  }

  /** The clipboard and the session actions obey the same history, and, unlike input, a loopback
      peer's are performed too. */
  lemma ActsExactlyWhenGranted(config: Config, isLoopback: bool, run: seq<Packet>, n: nat)
    requires n < |run|
    ensures var before := HandleAll(config, Start(isLoopback), run[..n]);
            var after := HandleAll(config, Start(isLoopback), run[..n + 1]);
            && after.clipboard ==
                 (if CarriesText(config, run[n]) && Granted(config, isLoopback, run[..n])
                  then before.clipboard + [PlainOf(config, CLIPBOARD_DATA, run[n]).value] else before.clipboard)
            && after.actions ==
                 (if CarriesAction(config, run[n]) && Granted(config, isLoopback, run[..n])
                  then before.actions + [U32At(PlainOf(config, SESSION_CONTROL, run[n]).value, 0)] else before.actions)
  {
    hide Granted, CryptoEngine.Decrypt, CryptoEngine.Encrypt, ParseEvent, Encode, U32At, Nonce;
    AuthenticatedIff(config, isLoopback, run[..n]);
    assert run[..n + 1][..n] == run[..n];
    HandleLast(config, Start(isLoopback), run[..n + 1]);
  }

  /** A loopback connection never injects, whatever it sends. */
  lemma {:induction false} LoopbackNeverInjects(config: Config, run: seq<Packet>)
    ensures HandleAll(config, Start(true), run).injected == []
    decreases |run|
  {
    hide Granted, CarriesEvent, EventOf;
    if run == [] {
    } else {
      var n := |run| - 1;
      LoopbackNeverInjects(config, run[..n]);
      assert run[..n + 1] == run;
      InjectsExactlyWhenGranted(config, true, run, n);
    }
  }

  // ---------- what a packet means to the agent ----------

  /** A packet that does not decrypt does nothing: every change comes from an encryption under the key. */
  lemma ChangesAreSealed(config: Config, st: AgentState, p: Packet)
    requires Handle(config, st, p) != st
    ensures exists plain :: Seals(config.platform, p, plain)
  {
    hide Seals, Open, AuthReply, Encode, ParseEvent, U32At;
    if Open(config.platform, p).Some? {
      OpensIff(config.platform, p, Open(config.platform, p).value);
    }
  }

  lemma PlainIs(config: Config, t: u16, p: Packet, plain: seq<byte>)
    requires Seals(config.platform, p, plain)
    ensures PlainOf(config, t, p) == if p.header.payloadType == t then Some(plain) else None
  {
    hide Seals, Open;
    OpensIff(config.platform, p, plain);
  }

  /** A request with a password settles access, is answered, and ends the connection if refused. */
  lemma RequestIsSettled(config: Config, st: AgentState, p: Packet, password: seq<byte>)
    requires p.header.payloadType == 13 && Seals(config.platform, p, password)
    ensures Handle(config, st, p) ==
            if password == [] then st
            else st.(authenticated := config.accepts(password),
                     disconnecting := st.disconnecting || !config.accepts(password),
                     written := st.written +
                       EncodePacket(AuthReply(config.platform, p.header.sequenceNumber, config.accepts(password))))
  {
    hide Seals, PlainOf, AuthReply, Encode;
    PlainIs(config, AUTH_REQUEST, p, password);
  }

  /** The answer to request `n`: type 14 under the same number, with the one byte 0 or 1 sealed. */
  lemma ReplyIsSealed(platform: Platform, n: u64, success: bool)
    ensures var p := AuthReply(platform, n, success);
            && p.header.payloadType == 14 && p.header.sequenceNumber == n && p.header.timestampMs == 0
            && Seals(platform, p, [if success then 0 else 1])
  {
    hide CryptoEngine.Encrypt;
    KeyAndNonceFit(n);
  }

  /** An event of 24 bytes or more is injected, given access, a backend and a remote peer. */
  lemma EventIsInjected(config: Config, st: AgentState, p: Packet, e: InputEvent, more: seq<byte>)
    requires p.header.payloadType == 4 && Seals(config.platform, p, EventBytes(e) + more)
    ensures Handle(config, st, p) ==
            if st.authenticated && config.hasInput && !st.isLoopback
            then st.(injected := st.injected + [e.(modifiers := 0)]) else st
  {
    hide Seals, PlainOf, EventBytes, ParseEvent;
    PlainIs(config, INPUT_EVENT, p, EventBytes(e) + more);
    ParseIgnoresMore(e, more);
  }

  lemma ParseIgnoresMore(e: InputEvent, more: seq<byte>)
    ensures ParseEvent(EventBytes(e) + more) == e.(modifiers := 0)
  {
    hide EventBytes, FromLE;
    var s := EventBytes(e);
    var t := s + more;
    assert t[0..2] == s[0..2] && t[4..8] == s[4..8] && t[8..12] == s[8..12];
    assert t[12..16] == s[12..16] && t[16..20] == s[16..20] && t[20..24] == s[20..24];
    EventRoundTrip(e);
  }

  lemma ShortEventIsIgnored(config: Config, st: AgentState, p: Packet, plain: seq<byte>)
    requires p.header.payloadType == 4 && Seals(config.platform, p, plain) && |plain| < 24
    ensures Handle(config, st, p) == st
  {
    hide Seals, PlainOf, ParseEvent;
    PlainIs(config, INPUT_EVENT, p, plain);
  }

  /** Given access, a clipboard text is taken as it is, and an action by the number in its first four bytes. */
  lemma TextAndActionAreTaken(config: Config, st: AgentState, p: Packet, plain: seq<byte>)
    requires Seals(config.platform, p, plain)
    ensures p.header.payloadType == 6 ==>
              Handle(config, st, p) ==
              if st.authenticated && plain != [] then st.(clipboard := st.clipboard + [plain]) else st
    ensures p.header.payloadType == 15 ==>
              Handle(config, st, p) ==
              if st.authenticated && |plain| >= 4 then st.(actions := st.actions + [U32At(plain, 0)]) else st
    ensures p.header.payloadType !in {4, 6, 13, 15} ==> Handle(config, st, p) == st
  {
    hide Seals, PlainOf, U32At;
    PlainIs(config, CLIPBOARD_DATA, p, plain);
    PlainIs(config, SESSION_CONTROL, p, plain);
  }

  /** Over any run, the agent ends the connection exactly when it has rejected a request. */
  lemma {:induction false} DisconnectsIff(config: Config, isLoopback: bool, history: seq<Packet>)
    ensures HandleAll(config, Start(isLoopback), history).disconnecting <==>
            exists k :: 0 <= k < |history| && Rejected(config, history[k])
    decreases |history|
  {
    hide Handle, Rejected;
    if history == [] {
    } else {
      var n := |history| - 1;
      DisconnectsIff(config, isLoopback, history[..n]);
      HandleLast(config, Start(isLoopback), history);
      HandleDisconnects(config, HandleAll(config, Start(isLoopback), history[..n]), history[n]);
      assert forall k :: 0 <= k < n ==> history[k] == history[..n][k];
    }
  }

  lemma HandleDisconnects(config: Config, st: AgentState, p: Packet)
    ensures Handle(config, st, p).disconnecting <==> st.disconnecting || Rejected(config, p)
  {
    hide Open, AuthReply, Encode, ParseEvent, U32At;
  }

  // ---------- the read loop ----------

  /** The packets one read yields: decoding stops for good at the first error. */
  function AgentDrain(buffer: seq<byte>): seq<Packet>
    decreases |buffer|
  {
    if |buffer| < HEADER_SIZE then []
    else match Decode(buffer)
      case Failed(_) => []
      case Parsed(p) => [p] + AgentDrain(buffer[Extent(p)..])
  }

  /** Every packet the loop meets in a read is one whose extent the 32-bit sum gets right. */
  ghost predicate AgentDrainable(buffer: seq<byte>) {
    forall p :: p in AgentDrain(buffer) ==> p.header.payloadSize < TWO32 - HEADER_SIZE
  }

  /** A read under 2^32 bytes always is. */
  lemma SmallReadIsDrainable(read: seq<byte>)
    requires |read| < TWO32
    ensures AgentDrainable(read)
  {
    hide AgentDrain, EncodePacket;
    AgentDrainAccounts(read);
    forall p | p in AgentDrain(read)
      ensures p.header.payloadSize < TWO32 - HEADER_SIZE
    {
      MemberExtent(AgentDrain(read), p);
    }
  }

  /** The packets a run of reads yields; nothing is carried from one read to the next. */
  function AgentReads(chunks: seq<seq<byte>>): seq<Packet> {
    if chunks == [] then [] else AgentDrain(chunks[0]) + AgentReads(chunks[1..])
  }

  /** A read that is a whole number of packets. */
  ghost predicate WholePackets(read: seq<byte>) {
    exists packets: seq<Packet> :: AllWellFormed(packets) && read == EncodeAll(packets)
  }

  lemma {:induction false} AgentDrainEncoded(packets: seq<Packet>)
    requires AllWellFormed(packets)
    ensures AgentDrain(EncodeAll(packets)) == packets
    decreases |packets|
  {
    hide Decode, EncodePacket;
    if packets == [] {
    } else {
      var p := packets[0];
      var stream := EncodeAll(packets);
      assert EncodePacket(p) <= stream;
      DecodeIff(stream, p);
      assert stream[Extent(p)..] == EncodeAll(packets[1..]);
      AgentDrainEncoded(packets[1..]);
    }
  }

  /** What a read yields is a prefix of it, re-encoded. */
  lemma {:induction false} AgentDrainAccounts(read: seq<byte>)
    ensures AllWellFormed(AgentDrain(read))
    ensures EncodeAll(AgentDrain(read)) <= read
    decreases |read|
  {
    hide Decode, EncodePacket;
    if |read| < HEADER_SIZE || Decode(read).Failed? {
    } else {
      var p := Decode(read).packet;
      DecodeIff(read, p);
      ParsedFits(read, p);
      var rest := read[Extent(p)..];
      AgentDrainAccounts(rest);
      var later := AgentDrain(rest);
      assert ([p] + later)[1..] == later;
      assert read == EncodePacket(p) + rest;
    }
  }

  lemma {:induction false} AgentReadsAccounts(chunks: seq<seq<byte>>)
    ensures AllWellFormed(AgentReads(chunks))
    ensures |EncodeAll(AgentReads(chunks))| <= |Flatten(chunks)|
    ensures |EncodeAll(AgentReads(chunks))| == |Flatten(chunks)| ==> forall r :: r in chunks ==> WholePackets(r)
    decreases |chunks|
  {
    hide EncodePacket;
    if chunks == [] {
    } else {
      AgentDrainAccounts(chunks[0]);
      AgentReadsAccounts(chunks[1..]);
      EncodeAllAppend(AgentDrain(chunks[0]), AgentReads(chunks[1..]));
      if |EncodeAll(AgentReads(chunks))| == |Flatten(chunks)| {
        assert EncodeAll(AgentDrain(chunks[0])) == chunks[0];
        assert WholePackets(chunks[0]);
      }
    }
  }

  lemma {:induction false} AgentReadsWhole(chunks: seq<seq<byte>>)
    requires forall r :: r in chunks ==> WholePackets(r)
    ensures AllWellFormed(AgentReads(chunks))
    ensures EncodeAll(AgentReads(chunks)) == Flatten(chunks)
    decreases |chunks|
  {
    hide EncodePacket;
    if chunks == [] {
    } else {
      assert WholePackets(chunks[0]);
      var packets: seq<Packet> :| AllWellFormed(packets) && chunks[0] == EncodeAll(packets);
      AgentDrainEncoded(packets);
      AgentReadsWhole(chunks[1..]);
      EncodeAllAppend(packets, AgentReads(chunks[1..]));
    }
  }

  /** The agent keeps no leftover, so its reads yield the packets sent exactly when every read
      is a whole number of packets: each cut falls on a packet boundary. */
  lemma AgentNeedsPacketBoundaries(chunks: seq<seq<byte>>, packets: seq<Packet>)
    requires AllWellFormed(packets) && Flatten(chunks) == EncodeAll(packets)
    ensures AgentReads(chunks) == packets <==> forall r :: r in chunks ==> WholePackets(r)
  {
    hide EncodePacket, WholePackets;
    AgentReadsAccounts(chunks);
    if forall r :: r in chunks ==> WholePackets(r) {
      AgentReadsWhole(chunks);
      AgentDrainEncoded(AgentReads(chunks));
      AgentDrainEncoded(packets);
    }
  }

  // ---------- the answer to a request ----------

  /** The client reads the agent's answer as it was meant: granted exactly when the password was accepted. */
  lemma ReplyTellsClient(platform: Platform, gated: bool, sequenceNumber: u64, success: bool)
    ensures React(platform, gated, AuthReply(platform, sequenceNumber, success)) == [if success then AuthGranted else AuthDenied]
  {
    hide CryptoEngine.Decrypt, CryptoEngine.Encrypt, Nonce;
    var p := AuthReply(platform, sequenceNumber, success);
    var code: byte := if success then 0 else 1;
    KeyAndNonceFit(sequenceNumber);
    CryptoEngine.DecryptIff(p.payload, [code], SESSION_KEY, Nonce(sequenceNumber), platform.fullMarker);
  }

  // ---------- input delivery ----------

  /** The client's request is accepted exactly when its password is one the agent accepts and not
      empty: an empty plaintext gets no answer at all. */
  lemma RequestAcceptedIff(config: Config, password: seq<byte>)
    requires |password| + CryptoEngine.TAG_SIZE < TWO32
    ensures Accepted(config, AuthPacket(config.platform, password)) <==> password != [] && config.accepts(password)
    ensures Rejected(config, AuthPacket(config.platform, password)) <==> password != [] && !config.accepts(password)
  {
    hide CryptoEngine.Decrypt, CryptoEngine.Encrypt, Nonce;
    var p := AuthPacket(config.platform, password);
    KeyAndNonceFit(1);
    CryptoEngine.DecryptIff(p.payload, password, SESSION_KEY, Nonce(1), config.platform.fullMarker);
  }

  lemma InputPacketCarries(config: Config, n: u64, e: InputEvent)
    ensures var p := InputPacket(config.platform, n, e);
            CarriesEvent(config, p) && EventOf(config, p) == e.(modifiers := 0)
  {
    hide CryptoEngine.Decrypt, CryptoEngine.Encrypt, Nonce, EventBytes, ParseEvent;
    var p := InputPacket(config.platform, n, e);
    KeyAndNonceFit(n);
    CryptoEngine.DecryptIff(p.payload, EventBytes(e), SESSION_KEY, Nonce(n), config.platform.fullMarker);
    EventRoundTrip(e);
  }

  /** The events as they arrive: all but the modifiers. */
  function Received(events: seq<InputEvent>): (r: seq<InputEvent>)
    ensures |r| == |events| && forall i :: 0 <= i < |r| ==> r[i] == events[i].(modifiers := 0)
  {
    seq(|events|, i requires 0 <= i < |events| => events[i].(modifiers := 0))
  }

  lemma {:induction false} EventsAreInjected(config: Config, st: AgentState, last: u64, events: seq<InputEvent>)
    requires config.hasInput && st.authenticated && !st.isLoopback
    ensures HandleAll(config, st, InputPackets(config.platform, last, events))
            == st.(injected := st.injected + Received(events))
    decreases |events|
  {
    hide CarriesEvent, EventOf, InputPacket, Accepted, Requests;
    if events == [] {
      assert st.injected + Received(events) == st.injected;
    } else {
      var n := NextSequence(last);
      var p := InputPacket(config.platform, n, events[0]);
      var ps := InputPackets(config.platform, last, events);
      InputPacketCarries(config, n, events[0]);
      InputPacketType(config.platform, n, events[0]);
      var st' := Handle(config, st, p);
      assert st' == st.(injected := st.injected + [events[0].(modifiers := 0)]);
      assert ps[1..] == InputPackets(config.platform, n, events[1..]);
      EventsAreInjected(config, st', n, events[1..]);
      assert st'.injected + Received(events[1..]) == st.injected + Received(events);
    }
  }

  lemma InputPacketType(platform: Platform, n: u64, e: InputEvent)
    ensures InputPacket(platform, n, e).header.payloadType == INPUT_EVENT
  {
  }

  /** The whole path for input: a client that authenticates with an accepted password and then sends
      events, over reads that end on packet boundaries, has exactly those events injected, in order. */
  lemma InputIsDelivered(config: Config, password: seq<byte>, events: seq<InputEvent>, chunks: seq<seq<byte>>)
    requires |password| + CryptoEngine.TAG_SIZE < TWO32
    requires config.hasInput && password != [] && config.accepts(password)
    requires Flatten(chunks) == EncodePacket(AuthPacket(config.platform, password)) + EncodeAll(InputPackets(config.platform, 1, events))
    requires forall r :: r in chunks ==> WholePackets(r)
    ensures HandleAll(config, Start(false), AgentReads(chunks)).injected == Received(events)
  {
    hide EncodePacket, AuthPacket, InputPackets, WholePackets, Accepted, Rejected, Requests;
    var auth := AuthPacket(config.platform, password);
    var inputs := InputPackets(config.platform, 1, events);
    var packets := [auth] + inputs;
    assert packets[1..] == inputs;
    AgentNeedsPacketBoundaries(chunks, packets);
    RequestAcceptedIff(config, password);
    AuthPacketGrants(config, auth);
    var st := Handle(config, Start(false), auth);
    EventsAreInjected(config, st, 1, events);
    assert st.injected + Received(events) == Received(events);
  }

  lemma AuthPacketGrants(config: Config, auth: Packet)
    requires Accepted(config, auth)
    ensures var st := Handle(config, Start(false), auth);
            st.authenticated && !st.isLoopback && st.injected == []
  {
    hide CryptoEngine.Decrypt, CryptoEngine.Encrypt, Encode, Nonce;
  }
}
