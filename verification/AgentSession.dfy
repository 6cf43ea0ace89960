/** One viewer's connection on the agent's side: packets come in, captured frames go out, and what is
    written is a list of messages. */
module AgentSession {
  import opened Bytes
  import opened ProtocolCodec
  import opened PacketStream
  import opened SessionClient
  import opened FrameSender
  import opened InputEvents
  import opened Agent

  /** What happens on the agent: a packet of this client arrives, a frame is captured, the socket closes. */
  datatype SessionEvent =
    | Received(packet: Packet)
    | Captured(frame: FrameData)
    | Closed

  datatype SessionState = SessionState(agent: AgentState, isOpen: bool) {
    /** The frame callback writes to this client. */
    predicate Watching() {
      isOpen && agent.authenticated
    }
  }

  predicate AllFit(platform: Platform, events: seq<SessionEvent>) {
    forall i :: 0 <= i < |events| && events[i].Captured? ==> Fits(platform, events[i].frame)
  }

  function SessionStep(config: Config, s: SessionState, ev: SessionEvent): SessionState
    requires ev.Captured? ==> Fits(config.platform, ev.frame)
  {
    match ev
    case Received(p) => s.(agent := Handle(config, s.agent, p))
    case Captured(f) =>
      if s.Watching()
      then s.(agent := s.agent.(written := s.agent.written + EncodePacket(FramePacket(config.platform, f))))
      else s
    case Closed => s.(isOpen := false)
  }

  function SessionRun(config: Config, s: SessionState, events: seq<SessionEvent>): SessionState
    requires AllFit(config.platform, events)
    decreases |events|
  {
    hide Handle, Fits, FramePacket, EncodePacket;
    if events == [] then s else SessionRun(config, SessionStep(config, s, events[0]), events[1..])
  }

  // ---------- the connection object ----------

  /** One event on the connection object: the packet handler, or the frame callback. */
  method OnEvent(connection: Connection, ev: SessionEvent)
    requires ev.Captured? ==> Fits(connection.config.platform, ev.frame)
    modifies connection
    ensures SessionState(connection.State(), connection.isOpen)
            == SessionStep(connection.config, SessionState(old(connection.State()), old(connection.isOpen)), ev)
  {
    hide Handle, FramePacket, EncodePacket, Fits;
    match ev {
      case Received(p) =>
        connection.HandleClientPacket(p);
      case Captured(f) =>
        var bytes := BuildFrame(connection.config.platform, f);
        Broadcast([connection], bytes);
        assert connection in [connection];
        assert old(connection.written) + [] == old(connection.written);
      case Closed =>
        connection.isOpen := false;
    }
  }

  /** The packet handler and the frame callback over a whole run, on one connection. */
  method Serve(connection: Connection, events: seq<SessionEvent>)
    requires AllFit(connection.config.platform, events)
    modifies connection
    ensures SessionState(connection.State(), connection.isOpen)
            == SessionRun(connection.config, SessionState(old(connection.State()), old(connection.isOpen)), events)
  {
    hide SessionStep, SessionRun, Fits;
    ghost var config := connection.config;
    ghost var start := SessionState(connection.State(), connection.isOpen);
    assert events[0..] == events;
    for i := 0 to |events|
      invariant AllFit(config.platform, events[i..])
      invariant SessionRun(config, SessionState(connection.State(), connection.isOpen), events[i..])
                == SessionRun(config, start, events)
    {
      assert events[i..][1..] == events[i + 1..] && events[i..][0] == events[i];
      RunUnfold(config, SessionState(connection.State(), connection.isOpen), events[i..]);
      OnEvent(connection, events[i]);
    }
    assert events[|events|..] == [];
    RunNothing(config, SessionState(connection.State(), connection.isOpen));
  }

  lemma RunUnfold(config: Config, s: SessionState, events: seq<SessionEvent>)
    requires events != [] && AllFit(config.platform, events)
    ensures SessionRun(config, s, events) == SessionRun(config, SessionStep(config, s, events[0]), events[1..])
  {
    hide Handle, Fits, FramePacket, EncodePacket;
  }

  lemma RunNothing(config: Config, s: SessionState)
    ensures SessionRun(config, s, []) == s
  {
  }

  // ---------- what is written ----------

  /** What the agent writes to a client: answers to its requests, and pictures. */
  datatype Message =
    | Reply(sequenceNumber: u64, success: bool)
    | Picture(frame: FrameData)

  predicate MessagesFit(platform: Platform, messages: seq<Message>) {
    forall i :: 0 <= i < |messages| && messages[i].Picture? ==> Fits(platform, messages[i].frame)
  }

  function MessagePacket(platform: Platform, m: Message): (p: Packet)
    requires m.Picture? ==> Fits(platform, m.frame)
    ensures WellFormed(p)
  {
    match m
    case Reply(n, success) => AuthReply(platform, n, success)
    case Picture(f) => FramePacket(platform, f)
  }

  function MessagePackets(platform: Platform, messages: seq<Message>): (ps: seq<Packet>)
    requires MessagesFit(platform, messages)
    ensures |ps| == |messages|
    ensures forall i :: 0 <= i < |ps| ==> ps[i] == MessagePacket(platform, messages[i])
    ensures AllWellFormed(ps)
  {
    hide Fits, MessagePacket;
    seq(|messages|, i requires 0 <= i < |messages| => MessagePacket(platform, messages[i]))
  }

  /** The messages one event causes. */
  function MessagesOf(config: Config, s: SessionState, ev: SessionEvent): seq<Message> {
    match ev
    case Received(p) =>
      if Requests(config, p) then [Reply(p.header.sequenceNumber, Accepted(config, p))] else []
    case Captured(f) => if s.Watching() then [Picture(f)] else []
    case Closed => []
  }

  function Messages(config: Config, s: SessionState, events: seq<SessionEvent>): (ms: seq<Message>)
    requires AllFit(config.platform, events)
    ensures MessagesFit(config.platform, ms)
    decreases |events|
  {
    hide Handle, Fits, FramePacket, EncodePacket, Requests, Accepted;
    if events == [] then []
    else MessagesOf(config, s, events[0]) + Messages(config, SessionStep(config, s, events[0]), events[1..])
  }

  lemma MessagesUnfold(config: Config, s: SessionState, events: seq<SessionEvent>)
    requires events != [] && AllFit(config.platform, events)
    ensures Messages(config, s, events)
            == MessagesOf(config, s, events[0]) + Messages(config, SessionStep(config, s, events[0]), events[1..])
  {
    hide SessionStep, Fits, MessagesOf;
  }

  lemma MessagesFitSplit(platform: Platform, a: seq<Message>, b: seq<Message>)
    requires MessagesFit(platform, a) && MessagesFit(platform, b)
    ensures MessagesFit(platform, a + b)
    ensures MessagePackets(platform, a + b) == MessagePackets(platform, a) + MessagePackets(platform, b)
  {
    hide Fits, MessagePacket;
  }

  /** Over any run, the connection's byte stream is exactly its messages, encoded one after the other. */
  lemma {:induction false} WrittenIsMessages(config: Config, s: SessionState, events: seq<SessionEvent>)
    requires AllFit(config.platform, events)
    ensures SessionRun(config, s, events).agent.written
            == s.agent.written + EncodeAll(MessagePackets(config.platform, Messages(config, s, events)))
    decreases |events|
  {
    hide SessionStep, SessionRun, Fits, MessagesOf, Messages, MessagePacket, EncodeAll;
    if events == [] {
      RunNothing(config, s);
      NoMessages(config, s);
      assert s.agent.written + [] == s.agent.written;
    } else {
      var next := SessionStep(config, s, events[0]);
      var now, later := MessagesOf(config, s, events[0]), Messages(config, next, events[1..]);
      RunUnfold(config, s, events);
      MessagesUnfold(config, s, events);
      WrittenIsMessages(config, next, events[1..]);
      StepWrites(config, s, events[0]);
      MessagesFitSplit(config.platform, now, later);
      EncodeAllAppend(MessagePackets(config.platform, now), MessagePackets(config.platform, later));
    }
  }

  lemma NoMessages(config: Config, s: SessionState)
    ensures Messages(config, s, []) == [] && EncodeAll(MessagePackets(config.platform, [])) == []
  {
  }

  lemma StepWrites(config: Config, s: SessionState, ev: SessionEvent)
    requires ev.Captured? ==> Fits(config.platform, ev.frame)
    ensures MessagesFit(config.platform, MessagesOf(config, s, ev))
    ensures SessionStep(config, s, ev).agent.written
            == s.agent.written + EncodeAll(MessagePackets(config.platform, MessagesOf(config, s, ev)))
  {
    hide Handle, EncodePacket, FramePacket, Fits, Accepted, Requests, AuthReply;
    var ps := MessagePackets(config.platform, MessagesOf(config, s, ev));
    assert ps != [] ==> ps[1..] == [];
    assert s.agent.written + [] == s.agent.written;
    assert ps != [] ==> EncodeAll(ps) == EncodePacket(ps[0]) + [] == EncodePacket(ps[0]);
    if ev.Received? {
      HandleWrites(config, s.agent, ev.packet);
    }
  }

  lemma HandleWrites(config: Config, st: AgentState, p: Packet)
    ensures Handle(config, st, p).written ==
            if Requests(config, p)
            then st.written + EncodePacket(AuthReply(config.platform, p.header.sequenceNumber, Accepted(config, p)))
            else st.written
  {
    hide EncodePacket, AuthReply, Open, ParseEvent, U32At;
  }

  /** Of the answers before message `i`, the last one granted access; with `atStart`, none refused it will do. */
  predicate LastAnswerGrants(ms: seq<Message>, i: nat, atStart: bool)
    requires i <= |ms|
  {
    || (atStart && forall k :: 0 <= k < i ==> !Refusing(ms[k]))
    || exists j :: 0 <= j < i && Granting(ms[j]) && forall k :: j < k < i ==> !Refusing(ms[k])
  }

  predicate Granting(m: Message) {
    m.Reply? && m.success
  }

  predicate Refusing(m: Message) {
    m.Reply? && !m.success
  }

  /** A viewer is sent pictures only while access is granted: the last answer before each picture it
      gets was a success. A remote viewer starts without access. */
  lemma {:induction false} GrantedBeforePictures(config: Config, s: SessionState, events: seq<SessionEvent>, i: nat)
    requires AllFit(config.platform, events)
    requires i < |Messages(config, s, events)| && Messages(config, s, events)[i].Picture?
    ensures LastAnswerGrants(Messages(config, s, events), i, s.agent.authenticated)
    decreases |events|
  {
    hide SessionStep, Fits, Messages, MessagesOf;
    if events == [] {
      NoMessages(config, s);
    } else {
      var ms, now, next := Messages(config, s, events), MessagesOf(config, s, events[0]), SessionStep(config, s, events[0]);
      var later := Messages(config, next, events[1..]);
      MessagesUnfold(config, s, events);
      StepGrants(config, s, events[0]);
      if i >= |now| {
        GrantedBeforePictures(config, next, events[1..], i - |now|);
        assert forall k :: |now| <= k < i ==> ms[k] == later[k - |now|];
        if exists j :: 0 <= j < i - |now| && Granting(later[j]) && forall k :: j < k < i - |now| ==> !Refusing(later[k]) {
          var j :| 0 <= j < i - |now| && Granting(later[j]) && forall k :: j < k < i - |now| ==> !Refusing(later[k]);
          assert Granting(ms[j + |now|]);
        } else if now != [] && now[0].Reply? {
          assert Granting(ms[0]);
        }
      }
    }
  }

  /** Within one event: a picture needs access, and an answer settles it. */
  lemma StepGrants(config: Config, s: SessionState, ev: SessionEvent)
    requires ev.Captured? ==> Fits(config.platform, ev.frame)
    ensures var ms, next := MessagesOf(config, s, ev), SessionStep(config, s, ev);
            && |ms| <= 1
            && (ms != [] && ms[0].Picture? ==> s.agent.authenticated)
            && (ms != [] && ms[0].Reply? ==> next.agent.authenticated == ms[0].success)
            && (ms == [] || ms[0].Picture? ==> next.agent.authenticated == s.agent.authenticated)
  {
    hide Handle, Fits, FramePacket, EncodePacket, Requests, Accepted;
    if ev.Received? {
      HandleAuth(config, s.agent, ev.packet);
      AcceptedRequests(config, ev.packet);
    }
  }

  lemma AcceptedRequests(config: Config, p: Packet)
    ensures Requests(config, p) ==> (Rejected(config, p) <==> !Accepted(config, p))
    ensures Accepted(config, p) || Rejected(config, p) ==> Requests(config, p)
  {
    hide PlainOf;
  }

  /** Once its socket has closed, a client is sent no picture. */
  lemma {:induction false} ClosedIsSilent(config: Config, s: SessionState, events: seq<SessionEvent>, i: nat)
    requires AllFit(config.platform, events)
    requires events != [] && events[0].Closed?
    requires i < |Messages(config, s, events)|
    ensures Messages(config, s, events)[i].Reply?
  {
    hide SessionStep, Fits, Messages;
    MessagesUnfold(config, s, events);
    assert SessionStep(config, s, events[0]).isOpen == false by {
      ClosedStep(config, s);
    }
    SilentFrom(config, SessionStep(config, s, events[0]), events[1..], i);
  }

  lemma ClosedStep(config: Config, s: SessionState)
    ensures SessionStep(config, s, Closed) == s.(isOpen := false)
  {
  }

  lemma {:induction false} SilentFrom(config: Config, s: SessionState, events: seq<SessionEvent>, i: nat)
    requires AllFit(config.platform, events) && !s.isOpen
    requires i < |Messages(config, s, events)|
    ensures Messages(config, s, events)[i].Reply?
    decreases |events|
  {
    hide SessionStep, Fits, Messages, Requests, Accepted;
    if events == [] {
      NoMessages(config, s);
    } else {
      MessagesUnfold(config, s, events);
      StaysClosed(config, s, events[0]);
      var now := MessagesOf(config, s, events[0]);
      if i >= |now| {
        SilentFrom(config, SessionStep(config, s, events[0]), events[1..], i - |now|);
      }
    }
  }

  lemma StaysClosed(config: Config, s: SessionState, ev: SessionEvent)
    requires !s.isOpen && (ev.Captured? ==> Fits(config.platform, ev.frame))
    ensures !SessionStep(config, s, ev).isOpen
  {
    hide Handle, FramePacket, EncodePacket;
  }

  // ---------- a run with nothing but frames and harmless packets ----------

  /** No request among the packets, and the socket stays open. */
  predicate Quiet(config: Config, events: seq<SessionEvent>) {
    forall i :: 0 <= i < |events| ==> !events[i].Closed? && (events[i].Received? ==> !Requests(config, events[i].packet))
  }

  function CapturedFrames(events: seq<SessionEvent>): seq<FrameData> {
    if events == [] then []
    else (match events[0] case Captured(f) => [f] case _ => []) + CapturedFrames(events[1..])
  }

  function Pictures(frames: seq<FrameData>): (ms: seq<Message>)
    ensures |ms| == |frames|
  {
    seq(|frames|, i requires 0 <= i < |frames| => Picture(frames[i]))
  }

  /** Over a quiet stretch a watching client is sent every frame captured, and another client none. */
  lemma {:induction false} QuietMessages(config: Config, s: SessionState, events: seq<SessionEvent>)
    requires AllFit(config.platform, events) && Quiet(config, events)
    ensures Messages(config, s, events) == if s.Watching() then Pictures(CapturedFrames(events)) else []
    ensures SessionRun(config, s, events).Watching() == s.Watching()
    ensures SessionRun(config, s, events).isOpen == s.isOpen
    ensures SessionRun(config, s, events).agent.authenticated == s.agent.authenticated
    decreases |events|
  {
    hide SessionStep, SessionRun, Fits, Messages, MessagesOf, Requests;
    if events == [] {
      RunNothing(config, s);
      NoMessages(config, s);
    } else {
      var next := SessionStep(config, s, events[0]);
      RunUnfold(config, s, events);
      MessagesUnfold(config, s, events);
      QuietStep(config, s, events[0]);
      QuietMessages(config, next, events[1..]);
      FramesUnfold(events);
    }
  }

  lemma FramesUnfold(events: seq<SessionEvent>)
    requires events != []
    ensures Pictures(CapturedFrames(events)) ==
            (match events[0] case Captured(f) => [Picture(f)] case _ => []) + Pictures(CapturedFrames(events[1..]))
  {
  }

  lemma QuietStep(config: Config, s: SessionState, ev: SessionEvent)
    requires ev.Captured? ==> Fits(config.platform, ev.frame)
    requires !ev.Closed? && (ev.Received? ==> !Requests(config, ev.packet))
    ensures MessagesOf(config, s, ev) ==
            if s.Watching() && ev.Captured? then [Picture(ev.frame)] else []
    ensures SessionStep(config, s, ev).isOpen == s.isOpen
    ensures SessionStep(config, s, ev).agent.authenticated == s.agent.authenticated
  {
    hide Handle, Fits, FramePacket, EncodePacket, Requests, Accepted;
    if ev.Received? {
      QuietPacket(config, s.agent, ev.packet);
    }
  }

  lemma QuietPacket(config: Config, st: AgentState, p: Packet)
    requires !Requests(config, p)
    ensures Handle(config, st, p).authenticated == st.authenticated
  {
    hide Handle, PlainOf;
    HandleAuth(config, st, p);
  }

  lemma {:induction false} MessagesAppend(config: Config, s: SessionState, a: seq<SessionEvent>, b: seq<SessionEvent>)
    requires AllFit(config.platform, a) && AllFit(config.platform, b)
    ensures AllFit(config.platform, a + b)
    ensures Messages(config, s, a + b) == Messages(config, s, a) + Messages(config, SessionRun(config, s, a), b)
    ensures SessionRun(config, s, a + b) == SessionRun(config, SessionRun(config, s, a), b)
    decreases |a|
  {
    hide SessionStep, SessionRun, Fits, Messages, MessagesOf;
    if a == [] {
      assert a + b == b;
      RunNothing(config, s);
      NoMessages(config, s);
      assert [] + Messages(config, s, b) == Messages(config, s, b);
    } else {
      assert (a + b)[1..] == a[1..] + b;
      RunUnfold(config, s, a);
      RunUnfold(config, s, a + b);
      MessagesUnfold(config, s, a);
      MessagesUnfold(config, s, a + b);
      MessagesAppend(config, SessionStep(config, s, a[0]), a[1..], b);
    }
  }

  /** A remote client joins: nothing was sent before its accepted request, and from then on it is sent
      the answer and every frame captured. */
  lemma JoinerMessages(config: Config, before: seq<SessionEvent>, auth: Packet, after: seq<SessionEvent>)
    requires AllFit(config.platform, before) && AllFit(config.platform, after)
    requires Quiet(config, before) && Quiet(config, after) && Accepted(config, auth)
    ensures AllFit(config.platform, before + [Received(auth)] + after)
    ensures Messages(config, SessionState(Start(false), true), before + [Received(auth)] + after)
            == [Reply(auth.header.sequenceNumber, true)] + Pictures(CapturedFrames(after))
  {
    hide SessionStep, SessionRun, Fits, Messages, MessagesOf, Accepted, Quiet;
    var s, join := SessionState(Start(false), true), [Received(auth)];
    QuietMessages(config, s, before);
    var s1 := SessionRun(config, s, before);
    assert join[1..] == [];
    RunUnfold(config, s1, join);
    MessagesUnfold(config, s1, join);
    AcceptedStep(config, s1, auth);
    var s2 := SessionStep(config, s1, Received(auth));
    RunNothing(config, s2);
    NoMessages(config, s2);
    QuietMessages(config, s2, after);
    MessagesAppend(config, s, before, join);
    MessagesAppend(config, s, before + join, after);
    var reply, pictures := [Reply(auth.header.sequenceNumber, true)], Pictures(CapturedFrames(after));
    assert [] + (reply + []) + pictures == reply + pictures;
  }

  lemma AcceptedStep(config: Config, s: SessionState, auth: Packet)
    requires Accepted(config, auth)
    ensures MessagesOf(config, s, Received(auth)) == [Reply(auth.header.sequenceNumber, true)]
    ensures SessionStep(config, s, Received(auth)).isOpen == s.isOpen
    ensures SessionStep(config, s, Received(auth)).agent.authenticated
  {
    hide Handle, Accepted, Requests;
    AcceptedRequests(config, auth);
    HandleAuth(config, s.agent, auth);
  }
}
