// What the host of a slave can conclude from the MIDI it got.
module HostMirror {
  import opened Bytes
  import opened RelaySpec
  import opened FollowSpec
  import opened FollowRuns

  /** A host that only listens: transport, last CC#100 and CC#7 value (NEVER before the first one), the Starts (true)
      and Stops (false) it received, and the position of the last full frame. */
  datatype Host = Host(playing: bool, index: byte, volume: byte, transport: seq<bool>, position: Option<u32>)

  const BOOT_HOST := Host(false, NEVER, NEVER, [], None)

  function Receive(h: Host, m: Midi): Host {
    match m
    case CC100(v) => h.(index := v)
    case CC7(v) => h.(volume := v)
    case Start => h.(playing := true, transport := h.transport + [true])
    case Stop => h.(playing := false, transport := h.transport + [false])
    case FullFrame(position) => h.(position := Some(position))
    case TimeCode(_) => h
  }

  function Replay(trace: seq<Midi>): Host {
    if |trace| == 0 then BOOT_HOST else Receive(Replay(trace[..|trace| - 1]), trace[|trace| - 1])
  }

  lemma ReplayNext(trace: seq<Midi>, m: Midi)
    ensures Replay(trace + [m]) == Receive(Replay(trace), m)
  {
    assert (trace + [m])[..|trace|] == trace;
  }

  predicate Alternates(transport: seq<bool>) {
    forall i :: 0 <= i < |transport| - 1 ==> transport[i] != transport[i + 1]
  }

  /** The transport half: the host plays iff the slave does, and only a first contact may Stop unasked. */
  predicate TransportOk(s: MediaSyncState, h: Host) {
    && s.currentState <= 1
    && h.playing == (s.currentState == 1)
    && Alternates(h.transport)
    && (if h.transport == [] then s.currentState == 0 else h.transport[|h.transport| - 1] == h.playing)
    && (s.currentState == 0 && s.lastSentIndex == NEVER ==> h.transport == [])
  }

  predicate ControlsOk(s: MediaSyncState, h: Host) {
    && h.index == s.lastSentIndex
    && (s.lastSentIndex <= 127 || s.lastSentIndex == NEVER)
    && h.volume == s.lastSentVolume
    && (s.lastSentVolume <= 100 || s.lastSentVolume == NEVER)
  }

  predicate PlaysIndex(s: MediaSyncState, h: Host) {
    s.currentState == 1 && s.currentIndex > 0 ==> h.index == s.currentIndex
  }

  predicate Mirrors(f: Follow) {
    var h := Replay(f.out);
    TransportOk(f.sync, h) && ControlsOk(f.sync, h) && PlaysIndex(f.sync, h)
  }

  /** After the anchor moved and the index went out, the host is up to date except for Start or Stop. */
  lemma IndexKeepsControls(f: Follow, p: Packet, now: int)
    requires ControlsOk(f.sync, Replay(f.out)) && p.mediaIndex <= 127
    ensures
      var g := SendIndex(f, p, now);
      && ControlsOk(g.sync, Replay(g.out))
      && (p.mediaIndex != 0 ==> g.sync.lastSentIndex == p.mediaIndex)
      && (p.mediaIndex == 0 ==> g.sync.lastSentIndex == f.sync.lastSentIndex)
      && g.sync == f.sync.(lastSentIndex := g.sync.lastSentIndex, lastCC100SendTime := g.sync.lastCC100SendTime)
      && Replay(g.out) == Replay(f.out).(index := g.sync.lastSentIndex)
  {
    ReplayNext(f.out, CC100(p.mediaIndex));
  }

  lemma JumpOnlySeeks(f: Follow, jumped: bool, position: u32)
    ensures
      var g := SendJump(f, jumped, position);
      && g.sync == f.sync
      && Replay(g.out) == if jumped then Replay(f.out).(position := Some(position)) else Replay(f.out)
  {
    ReplayNext(f.out, FullFrame(position));
  }

  lemma VolumeIsReplayed(f: Follow, p: Packet, now: int)
    requires Replay(f.out).volume == f.sync.lastSentVolume
    ensures
      var g := SendVolume(f, p, now);
      Replay(g.out) == Replay(f.out).(volume := g.sync.lastSentVolume)
  {
    if p.volume.Some? {
      var v: byte := if p.volume.value > 100 then 100 else p.volume.value;
      var h := Replay(f.out);
      ReplayNext(f.out, CC7(v));
      assert Receive(h, CC7(v)) == h.(volume := v);
      if v == f.sync.lastSentVolume {
        assert h.(volume := v) == h;
      }
    }
  }

  lemma VolumeIsClamped(f: Follow, p: Packet, now: int)
    requires f.sync.lastSentVolume <= 100 || f.sync.lastSentVolume == NEVER
    ensures var v := SendVolume(f, p, now).sync.lastSentVolume; v <= 100 || v == NEVER
  {
  }

  lemma VolumeKeepsControls(f: Follow, p: Packet, now: int)
    requires ControlsOk(f.sync, Replay(f.out))
    ensures
      var g := SendVolume(f, p, now);
      ControlsOk(g.sync, Replay(g.out)) && Replay(g.out) == Replay(f.out).(volume := g.sync.lastSentVolume)
  {
    VolumeIsReplayed(f, p, now);
    VolumeIsClamped(f, p, now);
  }

  /** What the slave and its host agree on when only Start or Stop is still to be sent. */
  predicate Ready(f: Follow, starts: bool, stops: bool) {
    var h := Replay(f.out);
    && ControlsOk(f.sync, h) && Alternates(h.transport) && f.sync.currentState <= 1
    && (if h.transport == [] then !h.playing else h.transport[|h.transport| - 1] == h.playing)
    && (f.sync.currentState == 1 && f.sync.currentIndex > 0 ==> h.index == f.sync.currentIndex)
    && (starts ==> !h.playing && f.sync.currentState == 1)
    && (stops ==> f.sync.currentState == 0 && (h.playing || h.transport == []))
    && (!starts && !stops ==> h.playing == (f.sync.currentState == 1))
    && (!stops && f.sync.currentState == 0 && f.sync.lastSentIndex == NEVER ==> h.transport == [])
  }

  lemma StartMirrors(f: Follow, stops: bool, position: u32, now: int)
    requires Ready(f, true, stops)
    ensures Mirrors(SendTransport(f, true, stops, position, now))
  {
    ReplayNext(f.out, FullFrame(position));
    ReplayNext(f.out + [FullFrame(position)], Start);
  }

  lemma StopMirrors(f: Follow, position: u32, now: int)
    requires Ready(f, false, true)
    ensures Mirrors(SendTransport(f, false, true, position, now))
  {
    ReplayNext(f.out, CC100(0));
    ReplayNext(f.out + [CC100(0)], Stop);
  }

  lemma RepeatMirrors(f: Follow, position: u32, now: int)
    requires Ready(f, false, false)
    ensures Mirrors(SendTransport(f, false, false, position, now))
  {
    ReplayNext(f.out, CC100(f.sync.currentIndex));
  }

  lemma TransitionMirrors(f: Follow, starts: bool, stops: bool, position: u32, now: int)
    requires Ready(f, starts, stops)
    ensures Mirrors(SendTransport(f, starts, stops, position, now))
  {
    if starts {
      StartMirrors(f, stops, position, now);
    } else if stops {
      StopMirrors(f, position, now);
    } else {
      RepeatMirrors(f, position, now);
    }
  }

  lemma FollowMirrors(f: Follow, p: Packet, meshNow: u32, now: int)
    requires Mirrors(f) && p.state <= 1 && p.mediaIndex <= 127
    ensures Mirrors(FollowPacket(f, p, meshNow, now))
  {
    var delta := TimeDelta(meshNow, p);
    var position := Compensated(p, delta);
    var anchored := f.(sync := Anchor(f.sync.(coarse := !Trustworthy(delta)), p, position, now));
    var indexed := SendIndex(anchored, p, now);
    var jumped := Jumped(f.sync, p, position, now);
    IndexKeepsControls(anchored, p, now);
    JumpOnlySeeks(indexed, jumped, position);
    var told := SendJump(indexed, jumped, position);
    VolumeKeepsControls(told, p, now);
    TransitionMirrors(SendVolume(told, p, now), Starts(f.sync, p), Stops(f.sync, p), position, now);
  }

  lemma LinkTickMirrors(f: Follow, now: int)
    requires Mirrors(f)
    ensures Mirrors(LinkTick(f, now))
  {
    ReplayNext(f.out, CC100(0));
    ReplayNext(f.out + [CC100(0)], Stop);
  }

  lemma ClockTickMirrors(f: Follow, now: int)
    requires Mirrors(f)
    ensures Mirrors(ClockTick(f, now))
  {
    ReplayNext(f.out, TimeCode(Expected(f.sync, now)));
  }

  lemma ApplyMirrors(f: Follow, layer: seq<byte>, e: Event)
    requires Mirrors(f) && OnProtocol(e)
    ensures Mirrors(Apply(f, layer, e))
  {
    match e
    case Frame(origin, p, meshNow, now) =>
      if Accepted(f, layer, e) {
        FollowMirrors(CountPacket(Relock(f, origin, now), p), p, meshNow, now);
      }
    case Tick(now) =>
      LinkTickMirrors(f, now);
      ClockTickMirrors(LinkTick(f, now), now);
    case Pin(_, _) =>
    case Release =>
    case SetLossPolicy(_) =>
  }

  /** Host mirror over every run since boot, link losses, re-locks and policy changes included: the host
      plays iff the slave follows a playing master, its last CC#100 and CC#7 are the slave's, a playing
      nonzero index is the host's, and the Starts and Stops it received strictly alternate. */
  lemma {:induction false} RunMirrors(stopOnLoss: bool, layer: seq<byte>, events: seq<Event>)
    requires forall i :: 0 <= i < |events| ==> OnProtocol(events[i])
    ensures
      var f := Exec(BootFollow(stopOnLoss), layer, events);
      var h := Replay(f.out);
      && h.playing == (f.sync.currentState == 1)
      && h.index == f.sync.lastSentIndex
      && h.volume == f.sync.lastSentVolume && (h.volume <= 100 || h.volume == NEVER)
      && (f.sync.currentState == 1 && f.sync.currentIndex > 0 ==> h.index == f.sync.currentIndex)
      && Alternates(h.transport)
    ensures Mirrors(Exec(BootFollow(stopOnLoss), layer, events))
  {
    if |events| > 0 {
      var init := events[..|events| - 1];
      RunMirrors(stopOnLoss, layer, init);
      ApplyMirrors(Exec(BootFollow(stopOnLoss), layer, init), layer, events[|events| - 1]);
    }
  }

  // ----- where the host plays -----

  lemma StartSeeks(out: seq<Midi>, position: u32)
    ensures Replay(out + [FullFrame(position)] + [Start]).position == Some(position)
  {
    ReplayNext(out, FullFrame(position));
    ReplayNext(out + [FullFrame(position)], Start);
  }

  lemma StopNeverSeeks(out: seq<Midi>)
    ensures Replay(out + [CC100(0)] + [Stop]).position == Replay(out).position
  {
    ReplayNext(out, CC100(0));
    ReplayNext(out + [CC100(0)], Stop);
  }

  lemma TransportSeeks(f: Follow, starts: bool, stops: bool, position: u32, now: int)
    ensures
      var g := SendTransport(f, starts, stops, position, now);
      Replay(g.out).position == if starts then Some(position) else Replay(f.out).position
  {
    if starts {
      StartSeeks(f.out, position);
    } else if stops {
      StopNeverSeeks(f.out);
    } else {
      ReplayNext(f.out, CC100(f.sync.currentIndex));
    }
  }

  lemma IndexNeverSeeks(f: Follow, p: Packet, now: int)
    ensures Replay(SendIndex(f, p, now).out).position == Replay(f.out).position
  {
    ReplayNext(f.out, CC100(p.mediaIndex));
  }

  lemma VolumeNeverSeeks(f: Follow, p: Packet, now: int)
    ensures Replay(SendVolume(f, p, now).out).position == Replay(f.out).position
  {
    if p.volume.Some? {
      ReplayNext(f.out, CC7(if p.volume.value > 100 then 100 else p.volume.value));
    }
  }

  /** How far the event moves the line the slave plays. */
  function Moved(f: Follow, g: Follow, now: int): int {
    Int32(U32(Expected(g.sync, now) - Expected(f.sync, now)))
  }

  lemma SpokenSeeks(f: Follow, p: Packet, jumped: bool, position: u32, now: int)
    ensures Replay(SendVolume(SendJump(SendIndex(f, p, now), jumped, position), p, now).out).position ==
            if jumped then Some(position) else Replay(f.out).position
  {
    var indexed := SendIndex(f, p, now);
    IndexNeverSeeks(f, p, now);
    JumpOnlySeeks(indexed, jumped, position);
    VolumeNeverSeeks(SendJump(indexed, jumped, position), p, now);
  }

  lemma PacketSeeks(f: Follow, p: Packet, meshNow: u32, now: int)
    requires p.state <= 1
    ensures
      var g := FollowPacket(f, p, meshNow, now);
      var seeks := p.state == 1 && (f.sync.currentState == 0 ||
                                    (f.sync.currentState == 1 && !(-1000 <= Moved(f, g, now) <= 1000)));
      Replay(g.out).position == if seeks then Some(Expected(g.sync, now)) else Replay(f.out).position
  {
    var delta := TimeDelta(meshNow, p);
    var position := Compensated(p, delta);
    var anchored := f.(sync := Anchor(f.sync.(coarse := !Trustworthy(delta)), p, position, now));
    var jumped := Jumped(f.sync, p, position, now);
    var spoken := SendVolume(SendJump(SendIndex(anchored, p, now), jumped, position), p, now);
    SpokenSeeks(anchored, p, jumped, position, now);
    TransportSeeks(spoken, Starts(f.sync, p), Stops(f.sync, p), position, now);
    assert p.state == 1 ==> Expected(FollowPacket(f, p, meshNow, now).sync, now) == position;
  }

  lemma LinkNeverSeeks(f: Follow, now: int)
    ensures Replay(LinkTick(f, now).out).position == Replay(f.out).position
  {
    if LinkTick(f, now).out != f.out {
      StopNeverSeeks(f.out);
      assert LinkTick(f, now).out == f.out + [CC100(0)] + [Stop];
    }
  }

  lemma TickNeverSeeks(f: Follow, now: int)
    ensures Replay(OnTick(f, now).out).position == Replay(f.out).position
  {
    LinkNeverSeeks(f, now);
    var g := LinkTick(f, now);
    ReplayNext(g.out, TimeCode(Expected(g.sync, now)));
  }

  /** The event makes a slave in state `f` seek its host. */
  predicate Seeks(f: Follow, layer: seq<byte>, e: Event) {
    Accepted(f, layer, e) && e.packet.state == 1 &&
    (f.sync.currentState == 0 || !(-1000 <= Moved(f, Apply(f, layer, e), e.now) <= 1000))
  }

  /** The lock and the gap counter come before the packet, and leave what the host hears and the line alone. */
  lemma AcceptedIs(f: Follow, layer: seq<byte>, e: Event) returns (base: Follow)
    requires Accepted(f, layer, e)
    ensures Apply(f, layer, e) == FollowPacket(base, e.packet, e.meshNow, e.now)
    ensures base.out == f.out && Expected(base.sync, e.now) == Expected(f.sync, e.now)
    ensures base.sync == f.sync.(lastSeq := base.sync.lastSeq, haveSeq := base.sync.haveSeq,
                                 syncGaps := base.sync.syncGaps)
  {
    base := CountPacket(Relock(f, e.origin, e.now), e.packet);
  }

  lemma AcceptedSeeks(f: Follow, layer: seq<byte>, e: Event)
    requires f.sync.currentState <= 1 && OnProtocol(e) && Accepted(f, layer, e)
    ensures
      var g := Apply(f, layer, e);
      Replay(g.out).position == if Seeks(f, layer, e) then Some(Expected(g.sync, e.now)) else Replay(f.out).position
  {
    var base := AcceptedIs(f, layer, e);
    PacketSeeks(base, e.packet, e.meshNow, e.now);
    assert Moved(base, Apply(f, layer, e), e.now) == Moved(f, Apply(f, layer, e), e.now);
  }

  /** Over every run since boot: an event makes the host seek exactly if the slave accepts a playing packet that starts
      it or moves the line it plays by more than a second, and always to the line the slave plays from then on. */
  lemma HostSeeksIff(stopOnLoss: bool, layer: seq<byte>, events: seq<Event>, e: Event)
    requires OnProtocol(e) && forall i :: 0 <= i < |events| ==> OnProtocol(events[i])
    ensures
      var f := Exec(BootFollow(stopOnLoss), layer, events);
      var g := Apply(f, layer, e);
      Replay(g.out).position == if Seeks(f, layer, e) then Some(Expected(g.sync, e.now)) else Replay(f.out).position
  {
    RunMirrors(stopOnLoss, layer, events);
    var f := Exec(BootFollow(stopOnLoss), layer, events);
    if e.Tick? {
      TickNeverSeeks(f, e.now);
    } else if Accepted(f, layer, e) {
      AcceptedSeeks(f, layer, e);
    }
  }

  /** `b` adds to the trace `a`, but no `m`. */
  predicate Omits(a: seq<Midi>, b: seq<Midi>, m: Midi) {
    a <= b && m !in b[|a|..]
  }

  lemma OmitsThen(a: seq<Midi>, b: seq<Midi>, c: seq<Midi>, m: Midi)
    requires Omits(a, b, m) && Omits(b, c, m)
    ensures Omits(a, c, m)
  {
    assert c[|a|..] == b[|a|..] + c[|b|..];
  }

  lemma SpeaksWithoutStart(f: Follow, p: Packet, jumped: bool, position: u32, now: int)
    ensures Omits(f.out, SendVolume(SendJump(SendIndex(f, p, now), jumped, position), p, now).out, Start)
  {
    var indexed := SendIndex(f, p, now);
    var told := SendJump(indexed, jumped, position);
    assert Omits(f.out, indexed.out, Start) && Omits(indexed.out, told.out, Start);
    assert Omits(told.out, SendVolume(told, p, now).out, Start);
    OmitsThen(f.out, indexed.out, told.out, Start);
    OmitsThen(f.out, told.out, SendVolume(told, p, now).out, Start);
  }

  /** A trace that ends in a full frame and a Start. */
  predicate EndsInStart(out: seq<Midi>, position: u32) {
    |out| >= 2 && out[|out| - 2] == FullFrame(position) && out[|out| - 1] == Start
  }

  lemma TransportStarts(a: seq<Midi>, f: Follow, starts: bool, stops: bool, position: u32, now: int)
    requires Omits(a, f.out, Start)
    ensures
      var g := SendTransport(f, starts, stops, position, now);
      if starts then EndsInStart(g.out, position) else Omits(a, g.out, Start)
  {
    var g := SendTransport(f, starts, stops, position, now);
    if !starts {
      assert Omits(f.out, g.out, Start);
      OmitsThen(a, f.out, g.out, Start);
    }
  }

  lemma StartComesLast(f: Follow, p: Packet, meshNow: u32, now: int)
    ensures
      var g := FollowPacket(f, p, meshNow, now);
      if Starts(f.sync, p) then EndsInStart(g.out, Expected(g.sync, now)) else Omits(f.out, g.out, Start)
  {
    var delta := TimeDelta(meshNow, p);
    var position := Compensated(p, delta);
    var anchored := f.(sync := Anchor(f.sync.(coarse := !Trustworthy(delta)), p, position, now));
    var jumped := Jumped(f.sync, p, position, now);
    SpeaksWithoutStart(anchored, p, jumped, position, now);
    TransportStarts(f.out, SendVolume(SendJump(SendIndex(anchored, p, now), jumped, position), p, now),
                    Starts(f.sync, p), Stops(f.sync, p), position, now);
    assert p.state == 1 ==> Expected(FollowPacket(f, p, meshNow, now).sync, now) == position;
  }

  lemma ReplayEnd(out: seq<Midi>, position: u32)
    requires EndsInStart(out, position)
    ensures Replay(out).playing && Replay(out).position == Some(position)
  {
    var init := out[..|out| - 1];
    assert Replay(init) == Receive(Replay(init[..|init| - 1]), FullFrame(position));
  }

  /** And a Start always comes right behind a full frame of that line. */
  lemma StartIsOnLine(f: Follow, layer: seq<byte>, e: Event)
    requires Tells(f, layer, e, Start)
    ensures
      var g := Apply(f, layer, e);
      && e.Frame? && e.packet.state == 1 && f.sync.currentState == 0
      && EndsInStart(g.out, Expected(g.sync, e.now))
      && Replay(g.out).playing && Replay(g.out).position == Some(Expected(g.sync, e.now))
  {
    if Accepted(f, layer, e) {
      var base := AcceptedIs(f, layer, e);
      StartComesLast(base, e.packet, e.meshNow, e.now);
      ReplayEnd(Apply(f, layer, e).out, Expected(Apply(f, layer, e).sync, e.now));
    }
  }

  predicate PolicyHeld(events: seq<Event>, stop: bool) {
    forall i :: 0 <= i < |events| ==> events[i].SetLossPolicy? ==> events[i].stop == stop
  }

  /** Under a constant STOP policy a playing slave is never freewheeling. */
  lemma {:induction false} StopPolicyNeverFreewheels(layer: seq<byte>, events: seq<Event>)
    requires PolicyHeld(events, true)
    ensures
      var s := Exec(BootFollow(true), layer, events).sync;
      s.stopOnLinkLost && (s.currentState == 1 ==> !s.linkLost)
  {
    if |events| > 0 {
      StopPolicyNeverFreewheels(layer, events[..|events| - 1]);
    }
  }

  /** Under a constant STOP policy a tick leaves the host playing iff the slave was playing and heard its
      master within the last ten seconds. */
  lemma SilenceStopsHost(layer: seq<byte>, events: seq<Event>, now: int)
    requires PolicyHeld(events, true) && forall i :: 0 <= i < |events| ==> OnProtocol(events[i])
    ensures
      var f := Exec(BootFollow(true), layer, events);
      Replay(OnTick(f, now).out).playing <==> f.sync.currentState == 1 && now - f.sync.lastSyncTime <= 10000
  {
    var f := Exec(BootFollow(true), layer, events);
    StopPolicyNeverFreewheels(layer, events);
    RunMirrors(true, layer, events);
    LinkTickMirrors(f, now);
    ClockTickMirrors(LinkTick(f, now), now);
  }

  /** No packet accepted and no policy set: the master has gone, whatever else is on the air or asked by the host. */
  predicate Silent(f: Follow, layer: seq<byte>, events: seq<Event>) {
    forall i :: 0 <= i < |events| ==>
      !events[i].SetLossPolicy? && !Accepted(Exec(f, layer, events[..i]), layer, events[i])
  }

  lemma TickIsSilent(f: Follow, now: int)
    requires !f.sync.stopOnLinkLost
    ensures Replay(OnTick(f, now).out) == Replay(f.out)
  {
    ReplayNext(f.out, TimeCode(Expected(LinkTick(f, now).sync, now)));
  }

  /** Same transport, and the same line to read positions from. */
  predicate SamePlayback(s: MediaSyncState, t: MediaSyncState) {
    && t.currentState == s.currentState && t.stopOnLinkLost == s.stopOnLinkLost
    && t.currentPositionMs == s.currentPositionMs && t.localClockStartTime == s.localClockStartTime
  }

  lemma SilentStep(f: Follow, layer: seq<byte>, e: Event)
    requires !f.sync.stopOnLinkLost && !e.SetLossPolicy? && !Accepted(f, layer, e)
    ensures Replay(Apply(f, layer, e).out) == Replay(f.out) && SamePlayback(f.sync, Apply(f, layer, e).sync)
  {
    if e.Tick? {
      TickIsSilent(f, e.now);
    }
  }

  /** Under FREEWHEEL no silence, however long, changes what the host plays, its transport, index or volume; and the
      slave goes on along the same line as if its master were there. */
  lemma {:induction false} SilenceFreewheels(f: Follow, layer: seq<byte>, events: seq<Event>)
    requires !f.sync.stopOnLinkLost && Silent(f, layer, events)
    ensures Replay(Exec(f, layer, events).out) == Replay(f.out)
    ensures SamePlayback(f.sync, Exec(f, layer, events).sync)
  {
    if |events| > 0 {
      var init, e := events[..|events| - 1], events[|events| - 1];
      SilentPrefix(f, layer, events);
      SilenceFreewheels(f, layer, init);
      assert !e.SetLossPolicy? && !Accepted(Exec(f, layer, init), layer, e);
      SilentStep(Exec(f, layer, init), layer, e);
    }
  }

  lemma SilentPrefix(f: Follow, layer: seq<byte>, events: seq<Event>)
    requires |events| > 0 && Silent(f, layer, events)
    ensures Silent(f, layer, events[..|events| - 1])
  {
    var init := events[..|events| - 1];
    forall i | 0 <= i < |init|
      ensures !init[i].SetLossPolicy? && !Accepted(Exec(f, layer, init[..i]), layer, init[i])
    {
      assert init[..i] == events[..i] && init[i] == events[i];
    }
  }

  // ----- first contact -----

  /** The slave has told its host something about a master. */
  predicate Contacted(s: MediaSyncState) {
    s.lastSentIndex != NEVER || s.currentState == 1
  }

  lemma StepContacts(f: Follow, layer: seq<byte>, e: Event)
    requires f.sync.currentState <= 1 && OnProtocol(e)
    ensures Contacted(Apply(f, layer, e).sync) <==> Contacted(f.sync) || Accepted(f, layer, e)
  {
  }

  lemma {:induction false} RunContacts(stopOnLoss: bool, layer: seq<byte>, events: seq<Event>)
    requires forall i :: 0 <= i < |events| ==> OnProtocol(events[i])
    ensures Contacted(Exec(BootFollow(stopOnLoss), layer, events).sync) <==>
            AnyAccepted(BootFollow(stopOnLoss), layer, events)
  {
    if |events| > 0 {
      var init := events[..|events| - 1];
      RunContacts(stopOnLoss, layer, init);
      RunMirrors(stopOnLoss, layer, init);
      StepContacts(Exec(BootFollow(stopOnLoss), layer, init), layer, events[|events| - 1]);
    }
  }

  /** The host of a slave knows nothing of any master, neither index nor transport, exactly until the first packet is
      accepted: that one always tells it, a stopped master included. */
  lemma HostToldIff(stopOnLoss: bool, layer: seq<byte>, events: seq<Event>)
    requires forall i :: 0 <= i < |events| ==> OnProtocol(events[i])
    ensures
      var h := Replay(Exec(BootFollow(stopOnLoss), layer, events).out);
      h.index != NEVER || h.transport != [] <==> AnyAccepted(BootFollow(stopOnLoss), layer, events)
  {
    RunContacts(stopOnLoss, layer, events);
    RunMirrors(stopOnLoss, layer, events);
  }
}
