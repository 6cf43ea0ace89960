/** Capture, connection, stream and viewer put together: when what is on the viewer is what is on the screen. */
module ScreenToViewer {
  import opened Bytes
  import opened Wrappers
  import opened ProtocolCodec
  import opened PacketStream
  import opened SessionClient
  import opened FrameSender
  import opened AgentSession
  import opened EndToEnd
  import opened Capture
  import Agent

  /** A capture run of the calls `screens`, and a remote viewer whose request `auth` arrives after the
      first `joined` of them. The agent's events before and after it are `before` and `after`, and the
      viewer reads `chunks`. */
  datatype Viewing = Viewing(
    config: Agent.Config,
    width: u32,
    height: u32,
    screens: seq<Option<seq<byte>>>,
    joined: nat,
    before: seq<SessionEvent>,
    auth: Packet,
    after: seq<SessionEvent>,
    chunks: seq<seq<byte>>)
  {
    function Events(): seq<SessionEvent> {
      before + [Received(auth)] + after
    }

    /** The frames returned go by as they were captured, the request is the only one and is accepted,
        and the reads cut what is written. */
    ghost predicate Valid() {
      && joined <= |screens|
      && FramesOf(CapturedFrames(before), width, height, screens[..joined])
      && FramesOf(CapturedFrames(before) + CapturedFrames(after), width, height, screens)
      && Quiet(config, before) && Quiet(config, after) && Agent.Accepted(config, auth)
      && AllFit(config.platform, Events())
      && (forall i :: 0 <= i < |Events()| && Events()[i].Captured? ==> Deliverable(config.platform, Events()[i].frame))
      && Flatten(chunks) == SessionRun(config, SessionState(Agent.Start(false), true), Events()).agent.written
    }

    function Shown(): seq<Effect> {
      Effects(config.platform, false, Reads([], chunks).packets)
    }
  }

  /** Over any run, missed images included, the viewer is granted access and then shown every frame
      returned since it joined. There is one exactly when some call since did not repeat the display's
      last image, and the last one is then the last frame the capture returned. */
  lemma ViewerShowsTheRest(v: Viewing)
    requires v.Valid()
    ensures var shown := v.Shown();
            && shown == [AuthGranted] + EndToEnd.Shown(CapturedFrames(v.after))
            && (|shown| > 1 <==> exists k :: v.joined <= k < |v.screens| && !Repeats(v.screens, k))
            && (|shown| > 1 ==> Run(v.width, v.height, v.screens).shown.Some?
                                && shown[|shown| - 1] == FrameShown(v.width, v.height, Run(v.width, v.height, v.screens).shown.value))
  {
    hide Deliverable, Fits, Quiet, Agent.Accepted, SessionRun, CapturedFrames, Effects, Reads, Returned, Run, Repeats;
    forall i | 0 <= i < |v.after| && v.after[i].Captured?
      ensures Deliverable(v.config.platform, v.after[i].frame)
    {
      assert v.after[i] == v.Events()[|v.before| + 1 + i];
    }
    JoinerSeesTheRest(v.config, v.before, v.auth, v.after, v.chunks);
    ReturnedSince(v.width, v.height, v.screens, v.joined);
    ShownIsLastReturned(v.width, v.height, v.screens);
    var frames := CapturedFrames(v.before) + CapturedFrames(v.after);
    assert CapturedFrames(v.after) != [] ==> frames[|frames| - 1] == CapturedFrames(v.after)[|CapturedFrames(v.after)| - 1];
  }

  /** The first capture, or one that differs from the capture before. */
  predicate Changes(screens: seq<Option<seq<byte>>>, k: nat)
    requires k < |screens|
  {
    k == 0 || screens[k] != screens[k - 1]
  }

  /** Over display captures, with unchanged screens suppressed and the stream cut anywhere: a viewer is
      shown a picture exactly when the screen was captured for the first time, or changed, since it
      joined, and the last picture is then the current screen. */
  lemma ViewerShowsTheScreen(v: Viewing)
    requires v.Valid()
    requires forall i :: 0 <= i < |v.screens| ==> v.screens[i].Some?
    ensures var shown := v.Shown();
            && (|shown| > 1 <==> exists k :: v.joined <= k < |v.screens| && Changes(v.screens, k))
            && (|shown| > 1 ==> shown[|shown| - 1] == FrameShown(v.width, v.height, v.screens[|v.screens| - 1].value))
  {
    hide Viewing.Valid, Viewing.Shown, Run, Repeats;
    ViewerShowsTheRest(v);
    forall k | 0 <= k < |v.screens|
      ensures Repeats(v.screens, k) <==> !Changes(v.screens, k)
    {
      RepeatsIff(v.screens, k);
      NoEmptyScreen(v, k);
    }
    if v.screens != [] {
      ViewerAgreesWithScreen(v.width, v.height, v.screens);
    }
  }

  /** An empty screen would have been returned, and is no deliverable frame. */
  lemma NoEmptyScreen(v: Viewing, k: nat)
    requires v.Valid()
    requires k < |v.screens|
    ensures v.screens[k] != Some([])
  {
    hide Fits, Quiet, Agent.Accepted, SessionRun, CapturedFrames, Returned, Deliverable, Flatten;
    if v.screens[k] == Some([]) {
      EmptyIsReturned(v.width, v.height, v.screens, k);
      var frames := CapturedFrames(v.before) + CapturedFrames(v.after);
      var i :| 0 <= i < |frames| && Returned(v.width, v.height, v.screens)[i] == [];
      assert forall j :: 0 <= j < |v.before| ==> v.before[j] == v.Events()[j];
      assert forall j :: 0 <= j < |v.after| ==> v.after[j] == v.Events()[|v.before| + 1 + j];
      CapturedDeliverable(v.config.platform, v.before);
      CapturedDeliverable(v.config.platform, v.after);
      assert frames[i] in CapturedFrames(v.before) || frames[i] in CapturedFrames(v.after);
      NotEmpty(v.config.platform, frames[i]);
    }
  }

  lemma NotEmpty(platform: Platform, f: FrameData)
    requires Deliverable(platform, f)
    ensures f.pixelData != []
  {
    AreaPositive(f.width, f.height);
  }

  lemma {:induction false} EmptyIsReturned(width: nat, height: nat, screens: seq<Option<seq<byte>>>, k: nat)
    requires k < |screens| && screens[k] == Some([])
    ensures [] in Returned(width, height, screens)
    decreases |screens|
  {
    hide TestPattern, Run;
    if k == |screens| - 1 {
      var all := Returned(width, height, screens);
      assert all[|all| - 1] == [];
    } else {
      EmptyIsReturned(width, height, screens[..|screens| - 1], k);
    }
  }

  /** The screen is not always on the viewer: one who joins after the first of two equal captures is
      granted access and shown nothing. */
  lemma StaticScreenIsNotShown(config: Agent.Config, f: FrameData, auth: Packet, chunks: seq<seq<byte>>)
    requires f.pixelData != [] && Agent.Accepted(config, auth)
    requires AllFit(config.platform, [Captured(f)] + [Received(auth)] + [])
    requires Flatten(chunks)
             == SessionRun(config, SessionState(Agent.Start(false), true), [Captured(f)] + [Received(auth)] + []).agent.written
    ensures Returned(f.width, f.height, [Some(f.pixelData), Some(f.pixelData)]) == [f.pixelData]
    ensures Effects(config.platform, false, Reads([], chunks).packets) == [AuthGranted]
  {
    hide Fits, Agent.Accepted, SessionRun, Effects, Reads, Quiet, Deliverable, Returned, Flatten, CapturedFrames;
    QuietEnds(config, f);
    JoinerSeesTheRest(config, [Captured(f)], auth, [], chunks);
    ReturnedTwice(f.width, f.height, f.pixelData);
  }

  lemma QuietEnds(config: Agent.Config, f: FrameData)
    ensures Quiet(config, [Captured(f)]) && Quiet(config, []) && CapturedFrames([]) == []
  {
  }

  lemma ReturnedTwice(width: nat, height: nat, pixels: seq<byte>)
    requires pixels != []
    ensures Returned(width, height, [Some(pixels), Some(pixels)]) == [pixels]
  {
    hide TestPattern;
    var once, twice := [Some(pixels)], [Some(pixels), Some(pixels)];
    assert once[..0] == [] && twice[..1] == once;
    assert Returned(width, height, []) == [];
    assert Run(width, height, once).prev == pixels;
  }
}
