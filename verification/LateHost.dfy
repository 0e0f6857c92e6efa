// What a host that starts listening in the middle of a run is told, and how often (the periodic repeats of
// src/receiver_mode.cpp and the time code of src/main.cpp).
module LateHost {
  import opened Bytes
  import opened RelaySpec
  import opened FollowSpec
  import opened FollowRuns
  import opened HostMirror

  /** The volume sent for a packet's volume. */
  function Level(v: byte): byte {
    if v > 100 then 100 else v
  }

  /** Event k of a run since boot, a packet, made the slave send `m` at time `at`. */
  predicate SentAt(stopOnLoss: bool, layer: seq<byte>, events: seq<Event>, k: nat, m: Midi, at: int) {
    && k < |events| && events[k].Frame? && events[k].now == at
    && Tells(Exec(BootFollow(stopOnLoss), layer, events[..k]), layer, events[k], m)
  }

  predicate Timed(e: Event) {
    e.Frame? || e.Tick? || e.Pin?
  }

  /** The clock the events read does not go back. */
  predicate InTime(events: seq<Event>) {
    forall i, j :: 0 <= i < j < |events| && Timed(events[i]) && Timed(events[j]) ==> events[i].now <= events[j].now
  }

  /** Event k sent `m` less than `ms` before `now`, and not after it. */
  predicate SentWithin(stopOnLoss: bool, layer: seq<byte>, events: seq<Event>, k: nat, m: Midi, now: int, ms: int) {
    && k < |events| && events[k].Frame? && now - events[k].now < ms
    && (InTime(events) ==> events[k].now <= now)
    && SentAt(stopOnLoss, layer, events, k, m, events[k].now)
  }

  predicate AllOnProtocol(events: seq<Event>) {
    forall i :: 0 <= i < |events| ==> OnProtocol(events[i])
  }

  lemma SentEarlier(stopOnLoss: bool, layer: seq<byte>, events: seq<Event>, k: nat, m: Midi, at: int)
    requires |events| > 0 && SentAt(stopOnLoss, layer, events[..|events| - 1], k, m, at)
    ensures SentAt(stopOnLoss, layer, events, k, m, at)
  {
    assert events[..|events| - 1][..k] == events[..k];
  }

  // ----- one packet -----

  /** What one packet adds to the trace, part by part. */
  lemma IndexOut(f: Follow, p: Packet, now: int)
    ensures
      var g := SendIndex(f, p, now);
      if f.sync.lastSentIndex != p.mediaIndex && p.mediaIndex != 0
      then
        && g.out == f.out + [CC100(p.mediaIndex)]
        && g.sync.lastSentIndex == p.mediaIndex && g.sync.lastCC100SendTime == now
      else g == f
  {
  }

  lemma VolumeOut(f: Follow, p: Packet, now: int)
    ensures
      var g := SendVolume(f, p, now);
      && (g.out == f.out || g.out == f.out + [CC7(g.sync.lastSentVolume)])
      && (g.out == f.out ==>
            g.sync.lastSentVolume == f.sync.lastSentVolume && g.sync.lastCC7SendTime == f.sync.lastCC7SendTime)
      && (g.out != f.out ==> g.sync.lastCC7SendTime == now)
      && (p.volume.Some? ==>
            g.sync.lastSentVolume == Level(p.volume.value) &&
            now - g.sync.lastCC7SendTime < CC7_REPEAT_INTERVAL_MS)
  {
  }

  lemma TransportOut(f: Follow, starts: bool, stops: bool, position: u32, now: int)
    ensures
      var g := SendTransport(f, starts, stops, position, now);
      && f.out <= g.out
      && (g.sync.lastSentIndex == 0 ||
          (g.sync.lastSentIndex == f.sync.lastSentIndex &&
           (g.sync.lastCC100SendTime == f.sync.lastCC100SendTime ||
            (g.sync.lastCC100SendTime == now && g.out == f.out + [CC100(f.sync.currentIndex)] &&
             f.sync.currentState == 1 && f.sync.currentIndex > 0))))
      && (!starts && !stops && f.sync.currentState == 1 && f.sync.currentIndex > 0 ==>
            now - g.sync.lastCC100SendTime < CC100_REPEAT_INTERVAL_MS)
  {
  }

  /** The slave's own books after a packet: what it last sent, it sent now, or had sent already. */
  predicate Booked(f: Follow, g: Follow, now: int) {
    && f.out <= g.out
    && (g.sync.lastSentIndex == 0 ||
        (g.sync.lastSentIndex == f.sync.lastSentIndex && g.sync.lastCC100SendTime == f.sync.lastCC100SendTime) ||
        (g.sync.lastCC100SendTime == now && CC100(g.sync.lastSentIndex) in g.out[|f.out|..]))
    && ((g.sync.lastSentVolume == f.sync.lastSentVolume && g.sync.lastCC7SendTime == f.sync.lastCC7SendTime) ||
        (g.sync.lastCC7SendTime == now && CC7(g.sync.lastSentVolume) in g.out[|f.out|..]))
  }

  lemma InTail(a: seq<Midi>, b: seq<Midi>, c: seq<Midi>, m: Midi)
    requires a <= b <= c && m in b[|a|..]
    ensures m in c[|a|..]
  {
    assert b[|a|..] <= c[|a|..];
  }

  lemma BookedThen(f: Follow, g: Follow, h: Follow, now: int)
    requires Booked(f, g, now) && Booked(g, h, now)
    ensures Booked(f, h, now)
  {
    if CC100(h.sync.lastSentIndex) in g.out[|f.out|..] {
      InTail(f.out, g.out, h.out, CC100(h.sync.lastSentIndex));
    }
    if CC7(h.sync.lastSentVolume) in g.out[|f.out|..] {
      InTail(f.out, g.out, h.out, CC7(h.sync.lastSentVolume));
    }
    assert h.out[|f.out|..] == g.out[|f.out|..] + h.out[|g.out|..];
  }

  lemma FollowBooks(f: Follow, p: Packet, meshNow: u32, now: int)
    requires Mirrors(f) && p.state <= 1 && p.mediaIndex <= 127
    ensures Booked(f, FollowPacket(f, p, meshNow, now), now)
    ensures
      var g := FollowPacket(f, p, meshNow, now).sync;
      && (f.sync.currentState == 1 && p.state == 1 && p.mediaIndex > 0 ==>
            g.lastSentIndex == p.mediaIndex && now - g.lastCC100SendTime < CC100_REPEAT_INTERVAL_MS)
      && (p.volume.Some? ==>
            g.lastSentVolume == Level(p.volume.value) &&
            now - g.lastCC7SendTime < CC7_REPEAT_INTERVAL_MS)
  {
    var delta := TimeDelta(meshNow, p);
    var position := Compensated(p, delta);
    var anchored := f.(sync := Anchor(f.sync.(coarse := !Trustworthy(delta)), p, position, now));
    var indexed := SendIndex(anchored, p, now);
    var told := SendJump(indexed, Jumped(f.sync, p, position, now), position);
    var spoken := SendVolume(told, p, now);
    IndexOut(anchored, p, now);
    VolumeOut(told, p, now);
    TransportOut(spoken, Starts(f.sync, p), Stops(f.sync, p), position, now);
    assert Booked(f, indexed, now);
    assert Booked(indexed, told, now);
    assert Booked(told, spoken, now);
    BookedThen(f, indexed, told, now);
    BookedThen(f, told, spoken, now);
    var done := FollowPacket(f, p, meshNow, now);
    assert p.mediaIndex > 0 ==> spoken.sync.lastSentIndex == spoken.sync.currentIndex;
    assert Booked(spoken, done, now);
    BookedThen(f, spoken, done, now);
  }

  // ----- runs -----

  /** Booked, for one event of a run. */
  predicate StepBooked(f: Follow, layer: seq<byte>, e: Event) {
    var g := Apply(f, layer, e);
    && (g.sync.lastSentIndex == 0 ||
        (g.sync.lastSentIndex == f.sync.lastSentIndex && g.sync.lastCC100SendTime == f.sync.lastCC100SendTime) ||
        (e.Frame? && g.sync.lastCC100SendTime == e.now && Tells(f, layer, e, CC100(g.sync.lastSentIndex))))
    && ((g.sync.lastSentVolume == f.sync.lastSentVolume && g.sync.lastCC7SendTime == f.sync.lastCC7SendTime) ||
        (e.Frame? && g.sync.lastCC7SendTime == e.now && Tells(f, layer, e, CC7(g.sync.lastSentVolume))))
  }

  lemma FrameBooks(f: Follow, layer: seq<byte>, e: Event)
    requires Mirrors(f) && OnProtocol(e) && Accepted(f, layer, e)
    ensures StepBooked(f, layer, e)
  {
    var base := CountPacket(Relock(f, e.origin, e.now), e.packet);
    FollowBooks(base, e.packet, e.meshNow, e.now);
    assert Apply(f, layer, e) == FollowPacket(base, e.packet, e.meshNow, e.now);
  }

  lemma StepBooks(f: Follow, layer: seq<byte>, e: Event)
    requires Mirrors(f) && OnProtocol(e)
    ensures StepBooked(f, layer, e)
  {
    if Accepted(f, layer, e) {
      FrameBooks(f, layer, e);
    }
  }

  lemma {:induction false} IndexWasSent(stopOnLoss: bool, layer: seq<byte>, events: seq<Event>) returns (k: nat)
    requires AllOnProtocol(events)
    requires Exec(BootFollow(stopOnLoss), layer, events).sync.lastSentIndex !in [0, NEVER]
    ensures
      var s := Exec(BootFollow(stopOnLoss), layer, events).sync;
      SentAt(stopOnLoss, layer, events, k, CC100(s.lastSentIndex), s.lastCC100SendTime)
  {
    var last := |events| - 1;
    var init := events[..last];
    var before, after := Exec(BootFollow(stopOnLoss), layer, init), Exec(BootFollow(stopOnLoss), layer, events);
    RunMirrors(stopOnLoss, layer, init);
    StepBooks(before, layer, events[last]);
    if after.sync.lastSentIndex == before.sync.lastSentIndex &&
       after.sync.lastCC100SendTime == before.sync.lastCC100SendTime {
      k := IndexWasSent(stopOnLoss, layer, init);
      SentEarlier(stopOnLoss, layer, events, k, CC100(after.sync.lastSentIndex), after.sync.lastCC100SendTime);
    } else {
      k := last;
    }
  }

  lemma {:induction false} VolumeWasSent(stopOnLoss: bool, layer: seq<byte>, events: seq<Event>) returns (k: nat)
    requires AllOnProtocol(events)
    requires Exec(BootFollow(stopOnLoss), layer, events).sync.lastSentVolume != NEVER
    ensures
      var s := Exec(BootFollow(stopOnLoss), layer, events).sync;
      SentAt(stopOnLoss, layer, events, k, CC7(s.lastSentVolume), s.lastCC7SendTime)
  {
    var last := |events| - 1;
    var init := events[..last];
    var before, after := Exec(BootFollow(stopOnLoss), layer, init), Exec(BootFollow(stopOnLoss), layer, events);
    RunMirrors(stopOnLoss, layer, init);
    StepBooks(before, layer, events[last]);
    if after.sync.lastSentVolume == before.sync.lastSentVolume &&
       after.sync.lastCC7SendTime == before.sync.lastCC7SendTime {
      k := VolumeWasSent(stopOnLoss, layer, init);
      SentEarlier(stopOnLoss, layer, events, k, CC7(after.sync.lastSentVolume), after.sync.lastCC7SendTime);
    } else {
      k := last;
    }
  }

  lemma WithinNow(stopOnLoss: bool, layer: seq<byte>, events: seq<Event>, k: nat, m: Midi, at: int, now: int)
    requires SentAt(stopOnLoss, layer, events, k, m, at) && now - at < 1000
    requires |events| > 0 && Timed(events[|events| - 1]) && events[|events| - 1].now == now
    ensures SentWithin(stopOnLoss, layer, events, k, m, now, 1000)
  {
  }

  /** A host that starts listening late: when a slave that already plays accepts a playing packet of a nonzero
      index, that very index was sent as CC#100 with the packet or less than a second before it. */
  lemma LateHostHearsIndex(stopOnLoss: bool, layer: seq<byte>, events: seq<Event>, e: Event)
    requires AllOnProtocol(events + [e])
    requires
      var f := Exec(BootFollow(stopOnLoss), layer, events);
      f.sync.currentState == 1 && Accepted(f, layer, e) && e.packet.state == 1 && e.packet.mediaIndex > 0
    ensures exists k: nat ::
              SentWithin(stopOnLoss, layer, events + [e], k, CC100(e.packet.mediaIndex), e.now,
                         CC100_REPEAT_INTERVAL_MS)
  {
    var f := Exec(BootFollow(stopOnLoss), layer, events);
    AcceptedStep(stopOnLoss, layer, events, e);
    FollowBooks(CountPacket(Relock(f, e.origin, e.now), e.packet), e.packet, e.meshNow, e.now);
    var after := Exec(BootFollow(stopOnLoss), layer, events + [e]).sync;
    var k := IndexWasSent(stopOnLoss, layer, events + [e]);
    WithinNow(stopOnLoss, layer, events + [e], k, CC100(e.packet.mediaIndex), after.lastCC100SendTime, e.now);
  }

  /** And whenever it accepts a packet that carries a volume, that volume, clamped to 100, was sent as CC#7. */
  lemma LateHostHearsVolume(stopOnLoss: bool, layer: seq<byte>, events: seq<Event>, e: Event)
    requires AllOnProtocol(events + [e])
    requires Accepted(Exec(BootFollow(stopOnLoss), layer, events), layer, e) && e.packet.volume.Some?
    ensures exists k: nat ::
              SentWithin(stopOnLoss, layer, events + [e], k, CC7(Level(e.packet.volume.value)), e.now,
                         CC7_REPEAT_INTERVAL_MS)
  {
    var f := Exec(BootFollow(stopOnLoss), layer, events);
    AcceptedStep(stopOnLoss, layer, events, e);
    FollowBooks(CountPacket(Relock(f, e.origin, e.now), e.packet), e.packet, e.meshNow, e.now);
    var after := Exec(BootFollow(stopOnLoss), layer, events + [e]).sync;
    var k := VolumeWasSent(stopOnLoss, layer, events + [e]);
    WithinNow(stopOnLoss, layer, events + [e], k, CC7(Level(e.packet.volume.value)), after.lastCC7SendTime, e.now);
  }

  lemma AcceptedStep(stopOnLoss: bool, layer: seq<byte>, events: seq<Event>, e: Event)
    requires AllOnProtocol(events + [e])
    requires Accepted(Exec(BootFollow(stopOnLoss), layer, events), layer, e)
    ensures
      var f := Exec(BootFollow(stopOnLoss), layer, events);
      && Exec(BootFollow(stopOnLoss), layer, events + [e]) ==
         FollowPacket(CountPacket(Relock(f, e.origin, e.now), e.packet), e.packet, e.meshNow, e.now)
      && Mirrors(CountPacket(Relock(f, e.origin, e.now), e.packet))
      && OnProtocol(e)
  {
    assert (events + [e])[..|events|] == events;
    assert (events + [e])[|events|] == e;
    assert forall i :: 0 <= i < |events| ==> OnProtocol((events + [e])[i]) && (events + [e])[i] == events[i];
    RunMirrors(stopOnLoss, layer, events);
  }

  // ----- and no more often than that -----

  /** What the trace adds to `a` holds a CC#100. */
  ghost predicate HasIndex(a: seq<Midi>, b: seq<Midi>) {
    exists i :: |a| <= i < |b| && b[i].CC100?
  }

  ghost predicate HasVolume(a: seq<Midi>, b: seq<Midi>) {
    exists i :: |a| <= i < |b| && b[i].CC7?
  }

  /** The index books change only with a CC#100, and then hold the time of it. */
  predicate SameIndex(s: MediaSyncState, t: MediaSyncState) {
    t.lastSentIndex == s.lastSentIndex && t.lastCC100SendTime == s.lastCC100SendTime
  }

  predicate SameVolume(s: MediaSyncState, t: MediaSyncState) {
    t.lastSentVolume == s.lastSentVolume && t.lastCC7SendTime == s.lastCC7SendTime
  }

  ghost predicate Books(f: Follow, g: Follow, now: int) {
    && f.out <= g.out
    && (if HasIndex(f.out, g.out) then g.sync.lastCC100SendTime == now else SameIndex(f.sync, g.sync))
    && (if HasVolume(f.out, g.out) then g.sync.lastCC7SendTime == now else SameVolume(f.sync, g.sync))
  }

  lemma BooksThen(f: Follow, g: Follow, h: Follow, now: int)
    requires Books(f, g, now) && Books(g, h, now)
    ensures Books(f, h, now)
  {
    if i :| |f.out| <= i < |g.out| && g.out[i].CC100? {
      assert h.out[i].CC100?;
    }
    if i :| |f.out| <= i < |g.out| && g.out[i].CC7? {
      assert h.out[i].CC7?;
    }
  }

  lemma IndexBooks(f: Follow, p: Packet, now: int)
    ensures Books(f, SendIndex(f, p, now), now)
  {
    var g := SendIndex(f, p, now);
    assert |g.out| > |f.out| ==> g.out[|f.out|].CC100?;
  }

  lemma VolumeBooks(f: Follow, p: Packet, now: int)
    ensures Books(f, SendVolume(f, p, now), now)
  {
    var g := SendVolume(f, p, now);
    assert |g.out| > |f.out| ==> g.out[|f.out|].CC7?;
  }

  lemma TransportBooks(f: Follow, starts: bool, stops: bool, position: u32, now: int)
    ensures Books(f, SendTransport(f, starts, stops, position, now), now)
  {
    var g := SendTransport(f, starts, stops, position, now);
    assert !starts && |g.out| > |f.out| ==> g.out[|f.out|].CC100?;
  }

  lemma PacketBooks(f: Follow, p: Packet, meshNow: u32, now: int)
    ensures Books(f, FollowPacket(f, p, meshNow, now), now)
  {
    var delta := TimeDelta(meshNow, p);
    var position := Compensated(p, delta);
    var anchored := f.(sync := Anchor(f.sync.(coarse := !Trustworthy(delta)), p, position, now));
    var indexed := SendIndex(anchored, p, now);
    var told := SendJump(indexed, Jumped(f.sync, p, position, now), position);
    var spoken := SendVolume(told, p, now);
    IndexBooks(anchored, p, now);
    VolumeBooks(told, p, now);
    TransportBooks(spoken, Starts(f.sync, p), Stops(f.sync, p), position, now);
    assert Books(f, indexed, now) && Books(indexed, told, now);
    BooksThen(f, indexed, told, now);
    BooksThen(f, told, spoken, now);
    BooksThen(f, spoken, FollowPacket(f, p, meshNow, now), now);
  }

  /** No packet repeats the index the host has, or the volume, within a second of the last one. */
  lemma SpeaksNothingTwice(f: Follow, p: Packet, meshNow: u32, now: int)
    ensures
      var g := FollowPacket(f, p, meshNow, now);
      && (f.sync.lastSentIndex != 0 && now - f.sync.lastCC100SendTime < 1000 ==>
            Omits(f.out, g.out, CC100(f.sync.lastSentIndex)))
      && (now - f.sync.lastCC7SendTime < 1000 ==> Omits(f.out, g.out, CC7(f.sync.lastSentVolume)))
  {
    var delta := TimeDelta(meshNow, p);
    var position := Compensated(p, delta);
    var anchored := f.(sync := Anchor(f.sync.(coarse := !Trustworthy(delta)), p, position, now));
    var jumped := Jumped(f.sync, p, position, now);
    if f.sync.lastSentIndex != 0 && now - f.sync.lastCC100SendTime < 1000 {
      OmitsIndex(anchored, p, jumped, position, Starts(f.sync, p), Stops(f.sync, p), now);
    }
    if now - f.sync.lastCC7SendTime < 1000 {
      OmitsVolume(anchored, p, jumped, position, Starts(f.sync, p), Stops(f.sync, p), now);
    }
  }

  lemma OmitsIndex(f: Follow, p: Packet, jumped: bool, position: u32, starts: bool, stops: bool, now: int)
    requires f.sync.lastSentIndex != 0 && now - f.sync.lastCC100SendTime < 1000
    ensures
      var spoken := SendVolume(SendJump(SendIndex(f, p, now), jumped, position), p, now);
      Omits(f.out, SendTransport(spoken, starts, stops, position, now).out, CC100(f.sync.lastSentIndex))
  {
    var m := CC100(f.sync.lastSentIndex);
    var indexed := SendIndex(f, p, now);
    var told := SendJump(indexed, jumped, position);
    var spoken := SendVolume(told, p, now);
    assert Omits(f.out, indexed.out, m) && Omits(indexed.out, told.out, m) && Omits(told.out, spoken.out, m);
    OmitsThen(f.out, indexed.out, told.out, m);
    OmitsThen(f.out, told.out, spoken.out, m);
    IndexOnce(spoken, starts, stops, position, now, f.sync.lastSentIndex);
    OmitsThen(f.out, spoken.out, SendTransport(spoken, starts, stops, position, now).out, m);
  }

  lemma OmitsVolume(f: Follow, p: Packet, jumped: bool, position: u32, starts: bool, stops: bool, now: int)
    requires now - f.sync.lastCC7SendTime < 1000
    ensures
      var spoken := SendVolume(SendJump(SendIndex(f, p, now), jumped, position), p, now);
      Omits(f.out, SendTransport(spoken, starts, stops, position, now).out, CC7(f.sync.lastSentVolume))
  {
    var m := CC7(f.sync.lastSentVolume);
    var indexed := SendIndex(f, p, now);
    var told := SendJump(indexed, jumped, position);
    var spoken := SendVolume(told, p, now);
    assert Omits(f.out, indexed.out, m) && Omits(indexed.out, told.out, m);
    OmitsThen(f.out, indexed.out, told.out, m);
    VolumeOnce(told, p, now);
    OmitsThen(f.out, told.out, spoken.out, m);
    TransportKeepsVolume(spoken, starts, stops, position, now, f.sync.lastSentVolume);
    OmitsThen(f.out, spoken.out, SendTransport(spoken, starts, stops, position, now).out, m);
  }

  lemma IndexOnce(f: Follow, starts: bool, stops: bool, position: u32, now: int, v: byte)
    requires v != 0 && now - f.sync.lastCC100SendTime < 1000
    ensures Omits(f.out, SendTransport(f, starts, stops, position, now).out, CC100(v))
  {
  }

  lemma VolumeOnce(f: Follow, p: Packet, now: int)
    requires now - f.sync.lastCC7SendTime < 1000
    ensures Omits(f.out, SendVolume(f, p, now).out, CC7(f.sync.lastSentVolume))
  {
  }

  lemma TransportKeepsVolume(f: Follow, starts: bool, stops: bool, position: u32, now: int, v: byte)
    ensures Omits(f.out, SendTransport(f, starts, stops, position, now).out, CC7(v))
  {
  }

  /** The event makes the slave send some CC#100, or some CC#7. */
  ghost predicate TellsIndex(f: Follow, layer: seq<byte>, e: Event) {
    HasIndex(f.out, Apply(f, layer, e).out)
  }

  ghost predicate TellsVolume(f: Follow, layer: seq<byte>, e: Event) {
    HasVolume(f.out, Apply(f, layer, e).out)
  }

  lemma TickKeepsBooks(f: Follow, now: int)
    ensures
      var g := OnTick(f, now);
      && (HasIndex(f.out, g.out) || SameIndex(f.sync, g.sync))
      && !HasVolume(f.out, g.out) && SameVolume(f.sync, g.sync)
  {
    if LinkTick(f, now).out != f.out {
      assert OnTick(f, now).out[|f.out|] == CC100(0);
    }
  }

  lemma StepKeepsBooks(f: Follow, layer: seq<byte>, e: Event)
    ensures !TellsIndex(f, layer, e) ==> SameIndex(f.sync, Apply(f, layer, e).sync)
    ensures !TellsVolume(f, layer, e) ==> SameVolume(f.sync, Apply(f, layer, e).sync)
    ensures e.Frame? && TellsIndex(f, layer, e) ==> Apply(f, layer, e).sync.lastCC100SendTime == e.now
    ensures TellsVolume(f, layer, e) ==> e.Frame? && Apply(f, layer, e).sync.lastCC7SendTime == e.now
  {
    if Accepted(f, layer, e) {
      var base := AcceptedIs(f, layer, e);
      PacketBooks(base, e.packet, e.meshNow, e.now);
    } else if e.Tick? {
      TickKeepsBooks(f, e.now);
    } else {
      assert Apply(f, layer, e).out == f.out;
    }
  }

  /** No event of the run tells the host an index, or a volume. */
  ghost predicate NoIndex(f: Follow, layer: seq<byte>, events: seq<Event>) {
    |events| == 0 ||
    (NoIndex(f, layer, events[..|events| - 1]) &&
     !TellsIndex(Exec(f, layer, events[..|events| - 1]), layer, events[|events| - 1]))
  }

  ghost predicate NoVolume(f: Follow, layer: seq<byte>, events: seq<Event>) {
    |events| == 0 ||
    (NoVolume(f, layer, events[..|events| - 1]) &&
     !TellsVolume(Exec(f, layer, events[..|events| - 1]), layer, events[|events| - 1]))
  }

  lemma {:induction false} QuietKeepsBooks(f: Follow, layer: seq<byte>, events: seq<Event>)
    ensures NoIndex(f, layer, events) ==> SameIndex(f.sync, Exec(f, layer, events).sync)
    ensures NoVolume(f, layer, events) ==> SameVolume(f.sync, Exec(f, layer, events).sync)
  {
    if |events| > 0 {
      var init := events[..|events| - 1];
      QuietKeepsBooks(f, layer, init);
      StepKeepsBooks(Exec(f, layer, init), layer, events[|events| - 1]);
    }
  }

  lemma RepeatsWait(f: Follow, layer: seq<byte>, e: Event)
    requires e.Frame?
    ensures f.sync.lastSentIndex != 0 && Tells(f, layer, e, CC100(f.sync.lastSentIndex)) ==>
              e.now - f.sync.lastCC100SendTime >= 1000
    ensures Tells(f, layer, e, CC7(f.sync.lastSentVolume)) ==> e.now - f.sync.lastCC7SendTime >= 1000
  {
    if Accepted(f, layer, e) {
      var base := AcceptedIs(f, layer, e);
      SpeaksNothingTwice(base, e.packet, e.meshNow, e.now);
    }
  }

  /** From any state: a packet left the host with a nonzero index, and no CC#100 went out since. The next packet that
      tells the host that same index comes at least a second later. */
  lemma IndexRepeatsSpaced(f: Follow, layer: seq<byte>, first: Event, between: seq<Event>, second: Event)
    requires first.Frame? && second.Frame? && TellsIndex(f, layer, first)
    requires
      var held := Apply(f, layer, first);
      && held.sync.lastSentIndex != 0
      && NoIndex(held, layer, between)
      && Tells(Exec(held, layer, between), layer, second, CC100(held.sync.lastSentIndex))
    ensures second.now - first.now >= 1000
  {
    StepKeepsBooks(f, layer, first);
    QuietKeepsBooks(Apply(f, layer, first), layer, between);
    RepeatsWait(Exec(Apply(f, layer, first), layer, between), layer, second);
  }

  /** And so for the volume. */
  lemma VolumeRepeatsSpaced(f: Follow, layer: seq<byte>, first: Event, between: seq<Event>, second: Event)
    requires second.Frame? && TellsVolume(f, layer, first)
    requires
      var held := Apply(f, layer, first);
      && NoVolume(held, layer, between)
      && Tells(Exec(held, layer, between), layer, second, CC7(held.sync.lastSentVolume))
    ensures second.now - first.now >= 1000
  {
    StepKeepsBooks(f, layer, first);
    QuietKeepsBooks(Apply(f, layer, first), layer, between);
    RepeatsWait(Exec(Apply(f, layer, first), layer, between), layer, second);
  }

  // ----- time code -----

  /** The event makes the slave send a time code. */
  ghost predicate Codes(f: Follow, layer: seq<byte>, e: Event) {
    exists position :: Tells(f, layer, e, TimeCode(position))
  }

  predicate IsCode(m: Midi) {
    m.TimeCode?
  }

  lemma PacketCodesNothing(f: Follow, p: Packet, meshNow: u32, now: int)
    ensures
      var g := FollowPacket(f, p, meshNow, now);
      f.out <= g.out && forall i :: |f.out| <= i < |g.out| ==> !IsCode(g.out[i])
  {
  }

  lemma CodeHasPlace(f: Follow, layer: seq<byte>, e: Event)
    requires Codes(f, layer, e)
    ensures
      var out := Apply(f, layer, e).out;
      |f.out| <= |out| && exists i :: |f.out| <= i < |out| && IsCode(out[i])
  {
    var position :| Tells(f, layer, e, TimeCode(position));
    var out := Apply(f, layer, e).out;
    var j :| 0 <= j < |out[|f.out|..]| && out[|f.out|..][j] == TimeCode(position);
    assert out[|f.out| + j] == TimeCode(position);
  }

  lemma StepCodes(f: Follow, layer: seq<byte>, e: Event)
    ensures Apply(f, layer, e).sync.lastMTCUpdateTime >= f.sync.lastMTCUpdateTime
    ensures Codes(f, layer, e) ==>
              && e.Tick? && e.now >= f.sync.lastMTCUpdateTime + MTC_INTERVAL_MS
              && Apply(f, layer, e).sync.lastMTCUpdateTime == e.now
  {
    if e.Frame? {
      if Accepted(f, layer, e) {
        PacketCodesNothing(CountPacket(Relock(f, e.origin, e.now), e.packet), e.packet, e.meshNow, e.now);
      }
    }
    if Codes(f, layer, e) {
      CodeHasPlace(f, layer, e);
    }
  }

  lemma {:induction false} CodeTimeGrows(f: Follow, layer: seq<byte>, events: seq<Event>)
    ensures Exec(f, layer, events).sync.lastMTCUpdateTime >= f.sync.lastMTCUpdateTime
  {
    if |events| > 0 {
      CodeTimeGrows(f, layer, events[..|events| - 1]);
      StepCodes(Exec(f, layer, events[..|events| - 1]), layer, events[|events| - 1]);
    }
  }

  /** From any state and over any events in between, two time codes are at least a frame (33 ms) apart. */
  lemma TimeCodesSpaced(f: Follow, layer: seq<byte>, first: Event, between: seq<Event>, second: Event)
    requires Codes(f, layer, first)
    requires Codes(Exec(Apply(f, layer, first), layer, between), layer, second)
    ensures first.Tick? && second.Tick? && second.now - first.now >= 33
  {
    StepCodes(f, layer, first);
    CodeTimeGrows(Apply(f, layer, first), layer, between);
    StepCodes(Exec(Apply(f, layer, first), layer, between), layer, second);
  }

  /** What a tick sends, from any state: the time code of the line the slave plays, exactly if it plays after the tick
      and its last time code is at least a frame old, whether its link is lost or not. */
  lemma TickCodesIff(f: Follow, layer: seq<byte>, e: Event)
    requires e.Tick?
    ensures
      var g := Apply(f, layer, e);
      if g.sync.currentState == 1 && e.now - f.sync.lastMTCUpdateTime >= 33
      then g.out == f.out + [TimeCode(Expected(f.sync, e.now))] && g.sync.lastMTCUpdateTime == e.now
      else f.out <= g.out && (forall i :: |f.out| <= i < |g.out| ==> !IsCode(g.out[i])) &&
           g.sync.lastMTCUpdateTime == f.sync.lastMTCUpdateTime
  {
  }

  lemma CodesIff(f: Follow, layer: seq<byte>, e: Event)
    ensures Codes(f, layer, e) <==>
            e.Tick? && Apply(f, layer, e).sync.currentState == 1 && e.now - f.sync.lastMTCUpdateTime >= 33
    ensures Apply(f, layer, e).sync.lastMTCUpdateTime ==
            if Codes(f, layer, e) then e.now else f.sync.lastMTCUpdateTime
  {
    StepCodes(f, layer, e);
    if e.Tick? {
      TickCodesIff(f, layer, e);
      var code, out := TimeCode(Expected(f.sync, e.now)), Apply(f, layer, e).out;
      if Apply(f, layer, e).sync.currentState == 1 && e.now - f.sync.lastMTCUpdateTime >= 33 {
        assert out[|f.out|..] == [code];
        assert Tells(f, layer, e, code);
      } else if Codes(f, layer, e) {
        CodeHasPlace(f, layer, e);
      }
    }
  }

  ghost predicate CodesAt(f: Follow, layer: seq<byte>, events: seq<Event>, i: nat)
    requires i < |events|
  {
    Codes(Exec(f, layer, events[..i]), layer, events[i])
  }

  lemma {:induction false} NoCodeKeepsTime(f: Follow, layer: seq<byte>, events: seq<Event>, n: nat)
    requires n <= |events| && forall i :: 0 <= i < n ==> !CodesAt(f, layer, events, i)
    ensures Exec(f, layer, events[..n]).sync.lastMTCUpdateTime == f.sync.lastMTCUpdateTime
  {
    if n > 0 {
      NoCodeKeepsTime(f, layer, events, n - 1);
      assert events[..n][..n - 1] == events[..n - 1] && !CodesAt(f, layer, events, n - 1);
      CodesIff(Exec(f, layer, events[..n - 1]), layer, events[n - 1]);
    }
  }

  /** From any state and over any events: the next time code after `first` goes out at the first tick that is at least
      33 ms later and leaves the slave playing, and it is that of the line the slave then plays. */
  lemma NextCodeIff(f: Follow, layer: seq<byte>, first: Event, between: seq<Event>, tick: Event)
    requires Codes(f, layer, first) && tick.Tick?
    requires
      var coded := Apply(f, layer, first);
      forall i :: 0 <= i < |between| ==> !CodesAt(coded, layer, between, i)
    ensures
      var g := Exec(Apply(f, layer, first), layer, between);
      var h := Apply(g, layer, tick);
      if h.sync.currentState == 1 && tick.now - first.now >= 33
      then h.out == g.out + [TimeCode(Expected(g.sync, tick.now))]
      else !Codes(g, layer, tick)
  {
    var coded := Apply(f, layer, first);
    StepCodes(f, layer, first);
    NoCodeKeepsTime(coded, layer, between, |between|);
    assert between[..|between|] == between;
    CodesIff(Exec(coded, layer, between), layer, tick);
    TickCodesIff(Exec(coded, layer, between), layer, tick);
  }

  /** The time of the last tick of the events, `at` if there is none. */
  function LastTick(at: int, events: seq<Event>): int {
    if |events| == 0 then at
    else if events[|events| - 1].Tick? then events[|events| - 1].now
    else LastTick(at, events[..|events| - 1])
  }

  /** Ticks come at most `period` ms apart, from `at` on. */
  predicate Ticking(at: int, events: seq<Event>, period: int) {
    forall i :: 0 <= i < |events| && events[i].Tick? ==> events[i].now <= LastTick(at, events[..i]) + period
  }

  predicate PlaysAfter(f: Follow, layer: seq<byte>, events: seq<Event>, i: nat)
    requires i < |events|
  {
    Apply(Exec(f, layer, events[..i]), layer, events[i]).sync.currentState == 1
  }

  predicate IsDue(e: Event, due: int) {
    e.Tick? && e.now >= due
  }

  /** Event i is the first tick at or after `due`. */
  predicate FirstDue(events: seq<Event>, due: int, i: nat) {
    i < |events| && IsDue(events[i], due) && forall j :: 0 <= j < i ==> !IsDue(events[j], due)
  }

  lemma {:induction false} FindDue(events: seq<Event>, due: int, k: nat) returns (i: nat)
    requires k < |events| && IsDue(events[k], due)
    ensures i <= k && FirstDue(events, due, i)
    decreases k
  {
    if j :| 0 <= j < k && IsDue(events[j], due) {
      i := FindDue(events, due, j);
    } else {
      i := k;
    }
  }

  lemma {:induction false} LastTickBefore(at: int, events: seq<Event>, due: int)
    requires at < due && forall j :: 0 <= j < |events| ==> !IsDue(events[j], due)
    ensures LastTick(at, events) < due
  {
    if |events| > 0 {
      assert !IsDue(events[|events| - 1], due);
      LastTickBefore(at, events[..|events| - 1], due);
    }
  }

  /** Time codes are only sent by ticks at least 33 ms after the last one. */
  lemma NoneBeforeDue(f: Follow, layer: seq<byte>, events: seq<Event>, due: int, n: nat)
    requires n <= |events| && f.sync.lastMTCUpdateTime + 33 >= due
    requires forall j :: 0 <= j < n ==> !IsDue(events[j], due)
    ensures forall j :: 0 <= j < n ==> !CodesAt(f, layer, events, j)
  {
    forall j | 0 <= j < n ensures !CodesAt(f, layer, events, j) {
      CodeTimeGrows(f, layer, events[..j]);
      CodesIff(Exec(f, layer, events[..j]), layer, events[j]);
      assert !IsDue(events[j], due);
    }
  }

  /** A slave that goes on playing keeps its host timed: with ticks at most `period` ms apart, the next time code
      follows the last one after less than 33 + `period` ms, with or without a master. */
  lemma TimeCodesKeepComing(f: Follow, layer: seq<byte>, first: Event, events: seq<Event>, period: int, k: nat)
    requires Codes(f, layer, first) && Ticking(first.now, events, period)
    requires k < |events| && IsDue(events[k], first.now + 33)
    requires forall i :: 0 <= i < |events| ==> PlaysAfter(Apply(f, layer, first), layer, events, i)
    ensures exists i :: 0 <= i <= k && CodesAt(Apply(f, layer, first), layer, events, i) &&
                        first.now + 33 <= events[i].now < first.now + 33 + period
  {
    var coded, due := Apply(f, layer, first), first.now + 33;
    StepCodes(f, layer, first);
    var i := FindDue(events, due, k);
    NoneBeforeDue(coded, layer, events, due, i);
    NoCodeKeepsTime(coded, layer, events, i);
    CodesIff(Exec(coded, layer, events[..i]), layer, events[i]);
    assert PlaysAfter(coded, layer, events, i);
    assert CodesAt(coded, layer, events, i);
    forall j | 0 <= j < |events[..i]| ensures !IsDue(events[..i][j], due) {
      assert !IsDue(events[j], due);
    }
    LastTickBefore(first.now, events[..i], due);
  }
}
