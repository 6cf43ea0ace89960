/** The client's reconnect state machine: exponential backoff, at most five attempts, and the user's word is final. */
module Reconnect {
  import opened Wrappers

  const MAX_ATTEMPTS: nat := 5

  /** `1 << k` */
  function PowerOfTwo(k: nat): (p: nat)
    ensures p > 0
  {
    if k == 0 then 1 else 2 * PowerOfTwo(k - 1)
  }

  /** The delay before attempt `n`, in milliseconds. */
  function Delay(n: nat): nat
    requires n > 0
  {
    var d := 1000 * PowerOfTwo(n - 1);
    if d < 30000 then d else 30000
  }

  /** The handlers' fields; `timer` is the armed single-shot delay. The two logs record the
      timer starts and the connections dialled. */
  datatype LinkState = LinkState(
    isConnected: bool,
    isReconnecting: bool,
    attempts: nat,
    userDisconnected: bool,
    lastHost: string,
    timer: Option<nat>,
    scheduled: seq<nat>,
    dialled: seq<string>)

  const INITIAL: LinkState := LinkState(false, false, 0, false, "", None, [], [])

  /** Socket signals, the timer, and the user, in any order. */
  datatype Event =
    | ConnectToHost(host: string)
    | DisconnectFromHost
    | CancelReconnect
    | Connected
    | Disconnected
    | ErrorOccurred
    | TimerFires

  function Step(st: LinkState, ev: Event): LinkState {
    match ev
    case ConnectToHost(host) =>
      st.(lastHost := host, userDisconnected := false, dialled := st.dialled + [host])
    case DisconnectFromHost =>
      st.(userDisconnected := true, timer := None, isReconnecting := false)
    case CancelReconnect =>
      st.(userDisconnected := true, timer := None, isReconnecting := false, attempts := 0)
    case Connected =>
      st.(isConnected := true, attempts := 0, isReconnecting := false)
    case Disconnected =>
      if !st.userDisconnected && st.lastHost != "" && st.attempts < MAX_ATTEMPTS then
        var n := st.attempts + 1;
        st.(isConnected := false, attempts := n, isReconnecting := true,
            timer := Some(Delay(n)), scheduled := st.scheduled + [Delay(n)])
      else
        st.(isConnected := false, isReconnecting := false)
    case ErrorOccurred => st.(isConnected := false)
    case TimerFires =>
      if st.timer.None? then st
      else if st.userDisconnected || st.lastHost == "" then st.(timer := None)
      else st.(timer := None, dialled := st.dialled + [st.lastHost])
  }

  function Run(st: LinkState, events: seq<Event>): LinkState
    decreases |events|
  {
    if events == [] then st else Run(Step(st, events[0]), events[1..])
  }

  /** What every handler keeps. */
  predicate Consistent(st: LinkState) {
    && st.attempts <= MAX_ATTEMPTS
    && (st.userDisconnected ==> st.timer.None? && !st.isReconnecting)
    && (st.isReconnecting ==> 1 <= st.attempts)
  }

  // ---------- the handlers ----------

  class Session {
    var isConnected: bool
    var isReconnecting: bool
    var reconnectAttempts: nat
    var userInitiatedDisconnect: bool
    var lastHost: string
    var timer: Option<nat>
    var scheduled: seq<nat>
    var dialled: seq<string>

    function State(): LinkState
      reads this
    {
      LinkState(isConnected, isReconnecting, reconnectAttempts, userInitiatedDisconnect, lastHost, timer, scheduled, dialled)
    }

    constructor ()
      ensures State() == INITIAL && Consistent(State())
    {
      isConnected, isReconnecting, reconnectAttempts, userInitiatedDisconnect := false, false, 0, false;
      lastHost, timer, scheduled, dialled := "", None, [], [];
    }

    method DoConnectToHost(host: string)
      modifies this
      ensures State() == Step(old(State()), ConnectToHost(host))
      ensures old(Consistent(State())) ==> Consistent(State())
    {
      lastHost := host;
      userInitiatedDisconnect := false;
      dialled := dialled + [host];
    }

    method DoDisconnectFromHost()
      modifies this
      ensures State() == Step(old(State()), DisconnectFromHost)
      ensures old(Consistent(State())) ==> Consistent(State())
    {
      userInitiatedDisconnect := true;
      timer := None;
      if isReconnecting {
        isReconnecting := false;
      }
    }

    method DoCancelReconnect()
      modifies this
      ensures State() == Step(old(State()), CancelReconnect)
      ensures old(Consistent(State())) ==> Consistent(State())
    {
      userInitiatedDisconnect := true;
      timer := None;
      if isReconnecting {
        isReconnecting := false;
      }
      reconnectAttempts := 0;
    }

    method OnConnected()
      modifies this
      ensures State() == Step(old(State()), Connected)
      ensures old(Consistent(State())) ==> Consistent(State())
    {
      isConnected := true;
      reconnectAttempts := 0;
      if isReconnecting {
        isReconnecting := false;
      }
    }

    method OnDisconnected()
      modifies this
      ensures State() == Step(old(State()), Disconnected)
      ensures old(Consistent(State())) ==> Consistent(State())
    {
      isConnected := false;
      if !userInitiatedDisconnect && lastHost != "" && reconnectAttempts < MAX_ATTEMPTS {
        reconnectAttempts := reconnectAttempts + 1;
        isReconnecting := true;
        var delayMs := Delay(reconnectAttempts);
        timer := Some(delayMs);
        scheduled := scheduled + [delayMs];
      } else {
        if isReconnecting {
          isReconnecting := false;
        }
      }
    }

    method OnErrorOccurred()
      modifies this
      ensures State() == Step(old(State()), ErrorOccurred)
      ensures old(Consistent(State())) ==> Consistent(State())
    {
      isConnected := false;
    }

    /** The single-shot timer goes off, if armed. */
    method AttemptReconnect()
      modifies this
      ensures State() == Step(old(State()), TimerFires)
      ensures old(Consistent(State())) ==> Consistent(State())
    {
      if timer.None? {
        return;
      }
      timer := None;
      if userInitiatedDisconnect || lastHost == "" {
        return;
      }
      dialled := dialled + [lastHost];
    }
  }

  // ---------- what every reachable state keeps ----------

  /** A user's disconnect means no timer and no reconnecting, and reconnecting means one to five
      attempts, in every state any run reaches. */
  lemma {:induction false} RunsStayConsistent(st: LinkState, events: seq<Event>)
    requires Consistent(st)
    ensures Consistent(Run(st, events))
    decreases |events|
  {
    if events == [] {
    } else {
      RunsStayConsistent(Step(st, events[0]), events[1..]);
    }
  }

  lemma ReachableStatesAreConsistent(events: seq<Event>)
    ensures Consistent(Run(INITIAL, events))
  {
    RunsStayConsistent(INITIAL, events);
  }

  // ---------- bounded backoff ----------

  /** The delays of the first `n` attempts. */
  function Delays(n: nat): (d: seq<nat>)
    ensures |d| == n
  {
    if n == 0 then [] else Delays(n - 1) + [Delay(n)]
  }

  function Total(delays: seq<nat>): nat {
    if delays == [] then 0 else Total(delays[..|delays| - 1]) + delays[|delays| - 1]
  }

  /** The drops in a run that call for a reconnect: not asked for by the user, with a host known. */
  function Drops(st: LinkState, events: seq<Event>): nat
    decreases |events|
  {
    if events == [] then 0
    else
      (if events[0] == Disconnected && !st.userDisconnected && st.lastHost != "" then 1 else 0)
      + Drops(Step(st, events[0]), events[1..])
  }

  predicate Segment(events: seq<Event>) {
    forall i :: 0 <= i < |events| ==> events[i] != Connected && events[i] != CancelReconnect
  }

  /** In a run with no successful connect and no cancel, from `st.attempts` on, each drop schedules the
      next delay until five have been, and nothing else schedules. */
  lemma {:induction false} SegmentSchedules(st: LinkState, events: seq<Event>, before: seq<nat>)
    requires Segment(events) && st.attempts <= MAX_ATTEMPTS
    requires st.scheduled == before + Delays(st.attempts)
    ensures var after := Run(st, events);
            var n := st.attempts + Drops(st, events);
            && after.attempts == (if n <= MAX_ATTEMPTS then n else MAX_ATTEMPTS)
            && after.scheduled == before + Delays(after.attempts)
    decreases |events|
  {
    hide Delay;
    if events == [] {
    } else {
      assert events[0] != Connected && events[0] != CancelReconnect;
      var next := Step(st, events[0]);
      if next.attempts != st.attempts {
        assert next.scheduled == before + Delays(next.attempts);
      }
      SegmentSchedules(next, events[1..], before);
    }
  }

  lemma DelayValues()
    ensures Delays(5) == [1000, 2000, 4000, 8000, 16000]
    ensures forall n: nat :: n <= 5 ==> Delays(n) == [1000, 2000, 4000, 8000, 16000][..n]
  {
    assert PowerOfTwo(1) == 2 && PowerOfTwo(2) == 4 && PowerOfTwo(3) == 8 && PowerOfTwo(4) == 16;
    assert Delays(0) == [];
    assert Delays(1) == [1000];
    assert Delays(2) == [1000, 2000];
    assert Delays(3) == [1000, 2000, 4000];
    assert Delays(4) == [1000, 2000, 4000, 8000];
  }

  lemma {:induction false} TotalBounded(n: nat)
    requires n <= 5
    ensures Total(Delays(n)) == 1000 * (PowerOfTwo(n) - 1) <= 31000
  {
    assert PowerOfTwo(5) == 32;
    if n == 0 {
    } else {
      TotalBounded(n - 1);
      assert Delays(n)[..n - 1] == Delays(n - 1);
      DelayIsDoubling(n);
    }
  }

  lemma DelayIsDoubling(n: nat)
    requires 1 <= n <= 5
    ensures Delay(n) == 1000 * PowerOfTwo(n - 1) && PowerOfTwo(n) <= 32
  {
    assert PowerOfTwo(1) == 2 && PowerOfTwo(2) == 4 && PowerOfTwo(3) == 8 && PowerOfTwo(4) == 16 && PowerOfTwo(5) == 32;
  }

  /** Bounded reconnect: from zero attempts, a run with no successful connect and no cancel schedules
      the first few of 1, 2, 4, 8 and 16 seconds, one for each drop up to five, 31 seconds in all. */
  lemma BoundedReconnect(st: LinkState, events: seq<Event>)
    requires Segment(events) && st.attempts == 0
    ensures var after := Run(st, events);
            var n := if Drops(st, events) <= 5 then Drops(st, events) else 5;
            && after.scheduled == st.scheduled + [1000, 2000, 4000, 8000, 16000][..n]
            && Total(after.scheduled[|st.scheduled|..]) <= 31000
  {
    hide Delay, PowerOfTwo, Run, Drops;
    assert st.scheduled + Delays(0) == st.scheduled;
    SegmentSchedules(st, events, st.scheduled);
    DelayValues();
    var n := if Drops(st, events) <= 5 then Drops(st, events) else 5;
    TotalBounded(n);
    assert Run(st, events).scheduled[|st.scheduled|..] == Delays(n);
  }

  // ---------- the user's word is final ----------

  /** Once the user has disconnected or cancelled, and until the user connects again, nothing is
      dialled and nothing is scheduled, whatever the socket and the timer do. */
  lemma {:induction false} NoDialAfterUserStops(st: LinkState, events: seq<Event>)
    requires st.userDisconnected && st.timer.None?
    requires forall i :: 0 <= i < |events| ==> !events[i].ConnectToHost?
    ensures var after := Run(st, events);
            after.dialled == st.dialled && after.scheduled == st.scheduled && after.userDisconnected && after.timer.None?
    decreases |events|
  {
    if events == [] {
    } else {
      assert !events[0].ConnectToHost?;
      NoDialAfterUserStops(Step(st, events[0]), events[1..]);
    }
  }

  /** So a disconnect from the user's side, or from a denied authentication, is never followed by a
      reconnect of the client's own. */
  lemma DisconnectIsFinal(st: LinkState, events: seq<Event>)
    requires forall i :: 0 <= i < |events| ==> !events[i].ConnectToHost?
    ensures var after := Run(Step(st, DisconnectFromHost), events);
            after.dialled == st.dialled && after.scheduled == st.scheduled && !after.isReconnecting
  {
    hide Run;
    var stopped := Step(st, DisconnectFromHost);
    NoDialAfterUserStops(stopped, events);
    NotReconnecting(stopped, events);
  }

  lemma {:induction false} NotReconnecting(st: LinkState, events: seq<Event>)
    requires st.userDisconnected && !st.isReconnecting
    requires forall i :: 0 <= i < |events| ==> !events[i].ConnectToHost?
    ensures !Run(st, events).isReconnecting
    decreases |events|
  {
    if events == [] {
    } else {
      assert !events[0].ConnectToHost?;
      NotReconnecting(Step(st, events[0]), events[1..]);
    }
  }

  /** A connection that succeeds starts the count over: the next drop waits one second again. */
  lemma SuccessResetsBackoff(st: LinkState)
    requires !st.userDisconnected && st.lastHost != ""
    ensures Run(st, [Connected, Disconnected]).timer == Some(1000)
  {
    var up := Step(st, Connected);
    assert [Connected, Disconnected][1..] == [Disconnected] && [Disconnected][1..] == [];
    assert Run(up, [Disconnected]) == Step(up, Disconnected);
  }

  // ---------- what is dialled ----------

  lemma {:induction false} RunOneMore(st: LinkState, events: seq<Event>, ev: Event)
    ensures Run(st, events + [ev]) == Step(Run(st, events), ev)
    decreases |events|
  {
    hide Step;
    if events == [] {
      assert (events + [ev])[1..] == [] && (events + [ev])[0] == ev;
    } else {
      assert (events + [ev])[1..] == events[1..] + [ev];
      RunOneMore(Step(st, events[0]), events[1..], ev);
    }
  }

  /** The host the user asked for last. */
  function HostOf(events: seq<Event>): string {
    if events == [] then ""
    else
      var last := events[|events| - 1];
      if last.ConnectToHost? then last.host else HostOf(events[..|events| - 1])
  }

  /** The user's last word was to stop. */
  predicate Stopped(events: seq<Event>) {
    events != [] &&
    var last := events[|events| - 1];
    || last.DisconnectFromHost? || last.CancelReconnect?
    || (!last.ConnectToHost? && Stopped(events[..|events| - 1]))
  }

  /** The socket's last word was that it is connected. */
  predicate Up(events: seq<Event>) {
    events != [] &&
    var last := events[|events| - 1];
    || last.Connected?
    || (!last.Disconnected? && !last.ErrorOccurred? && Up(events[..|events| - 1]))
  }

  lemma {:induction false} StateRemembers(events: seq<Event>)
    ensures var st := Run(INITIAL, events);
            st.lastHost == HostOf(events) && st.userDisconnected == Stopped(events) && st.isConnected == Up(events)
    decreases |events|
  {
    hide Run;
    if events == [] {
      RunNothing();
    } else {
      var n := |events| - 1;
      StateRemembers(events[..n]);
      RunOneMore(INITIAL, events[..n], events[n]);
      assert events == events[..n] + [events[n]];
    }
  }

  lemma RunNothing()
    ensures Run(INITIAL, []) == INITIAL
  {
  }

  /** After any run, connecting dials the host given; the timer, if armed, dials the host the user asked
      for last; and nothing else dials. */
  lemma DialsExactly(events: seq<Event>, ev: Event)
    ensures var before, after := Run(INITIAL, events), Run(INITIAL, events + [ev]);
            after.dialled ==
              if ev.ConnectToHost? then before.dialled + [ev.host]
              else if ev == TimerFires && before.timer.Some? && HostOf(events) != "" then before.dialled + [HostOf(events)]
              else before.dialled
    ensures ev == TimerFires ==> Run(INITIAL, events + [ev]).timer == None
  {
    hide Run;
    RunOneMore(INITIAL, events, ev);
    StateRemembers(events);
    ReachableStatesAreConsistent(events);
  }

  /** A drop that nobody asked for is followed by a redial: with `k` attempts made since the last success,
      the timer is armed with the k-th of 1, 2, 4, 8 and 16 seconds and, when it fires, the last host is dialled. */
  lemma DropRedials(events: seq<Event>)
    requires !Stopped(events) && HostOf(events) != ""
    ensures var st := Run(INITIAL, events);
            var dropped := Run(INITIAL, events + [Disconnected]);
            var fired := Run(INITIAL, events + [Disconnected] + [TimerFires]);
            if st.attempts < 5
            then
              && dropped.timer == Some([1000, 2000, 4000, 8000, 16000][st.attempts])
              && dropped.isReconnecting && dropped.attempts == st.attempts + 1
              && fired.dialled == st.dialled + [HostOf(events)]
            else
              !dropped.isReconnecting && dropped.timer == st.timer && dropped.scheduled == st.scheduled
  {
    hide Run, HostOf, Stopped, Up, Delay;
    var st := Run(INITIAL, events);
    RunOneMore(INITIAL, events, Disconnected);
    RunOneMore(INITIAL, events + [Disconnected], TimerFires);
    StateRemembers(events);
    if st.attempts < 5 {
      DelayAt(st.attempts);
    }
  }

  lemma DelayAt(k: nat)
    requires k < 5
    ensures Delay(k + 1) == [1000, 2000, 4000, 8000, 16000][k]
  {
    assert PowerOfTwo(1) == 2 && PowerOfTwo(2) == 4 && PowerOfTwo(3) == 8 && PowerOfTwo(4) == 16;
  }

  /** A cancel starts the count over as a success does: connect again, and the next drop waits one second. */
  lemma CancelResetsBackoff(st: LinkState, host: string)
    requires host != ""
    ensures Step(Step(Step(st, CancelReconnect), ConnectToHost(host)), Disconnected).timer == Some(1000)
  {
    DelayAt(0);
  }
}
