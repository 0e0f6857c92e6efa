// The mesh clock across a fleet: drift-free hardware clocks, beacons heard late, twice or never.
module ClockNetwork {
  import opened Bytes
  import opened RelaySpec
  import opened MeshClock

  /** A beacon on the air: who sent it, when, and the 10 bytes. */
  datatype Flying = Flying(from: nat, at: nat, packet: seq<byte>)

  /** Node i's hardware clock reads bases[i] + t at time t. */
  datatype Fleet = Fleet(bases: seq<nat>, clocks: seq<Clock>, sent: seq<Flying>)

  datatype Step =
    | Send(i: nat, at: nat)
    | Hear(j: nat, k: nat, at: nat)

  /** What the mesh clock of node i shows, less the time since the origin of time. */
  function MeshOffset(f: Fleet, i: nat): nat
    requires i < |f.bases| == |f.clocks|
  {
    f.bases[i] + f.clocks[i].offset
  }

  /** Any beacon sent at least `flight` microseconds ago may be heard, by anyone but its sender, any number of times. */
  predicate CanStep(f: Fleet, flight: nat, s: Step) {
    && |f.bases| == |f.clocks|
    && match s
       case Send(i, at) => i < |f.clocks|
       case Hear(j, k, at) =>
         j < |f.clocks| && k < |f.sent| && f.sent[k].from != j && at >= f.sent[k].at + flight
  }

  function Next(f: Fleet, flight: nat, lead: nat, s: Step): Fleet
    requires CanStep(f, flight, s)
  {
    match s
    case Send(i, at) => f.(sent := f.sent + [Flying(i, at, Beacon(MeshOffset(f, i) + at + lead))])
    case Hear(j, k, at) =>
      f.(clocks := f.clocks[j := Receive(f.clocks[j], f.sent[k].packet, f.bases[j] + at, at / 1000)])
  }

  predicate Run(f: Fleet, flight: nat, lead: nat, steps: seq<Step>)
    decreases |steps|
  {
    |steps| == 0 || (CanStep(f, flight, steps[0]) && Run(Next(f, flight, lead, steps[0]), flight, lead, steps[1..]))
  }

  function Exec(f: Fleet, flight: nat, lead: nat, steps: seq<Step>): Fleet
    requires Run(f, flight, lead, steps)
    decreases |steps|
  {
    if |steps| == 0 then f else Exec(Next(f, flight, lead, steps[0]), flight, lead, steps[1..])
  }

  function Hearings(steps: seq<Step>): nat {
    if |steps| == 0 then 0 else (if steps[0].Hear? then 1 else 0) + Hearings(steps[1..])
  }

  /** How far a beacon can push its hearer beyond its sender: the lead of the stamp over the real flight time. */
  function Excess(flight: nat, lead: nat): nat {
    if lead > flight then lead - flight else 0
  }

  /** No mesh clock is beyond `bound`, and no beacon on the air promises more than that plus the lead. */
  predicate Bounded(f: Fleet, lead: nat, bound: nat) {
    && |f.bases| == |f.clocks|
    && (forall i :: 0 <= i < |f.clocks| ==> MeshOffset(f, i) <= bound)
    && forall k :: 0 <= k < |f.sent| ==>
         match ReadBeacon(f.sent[k].packet)
         case Some(stamp) => stamp <= f.sent[k].at + lead + bound
         case None => false
  }

  lemma SendBounded(f: Fleet, flight: nat, lead: nat, i: nat, at: nat, bound: nat)
    requires CanStep(f, flight, Send(i, at)) && Bounded(f, lead, bound)
    ensures Bounded(Next(f, flight, lead, Send(i, at)), lead, bound)
  {
    BeaconRoundTrip(MeshOffset(f, i) + at + lead);
    var g := Next(f, flight, lead, Send(i, at));
    assert forall j :: 0 <= j < |f.clocks| ==> MeshOffset(g, j) == MeshOffset(f, j);
  }

  lemma HearBounded(f: Fleet, flight: nat, lead: nat, j: nat, k: nat, at: nat, bound: nat)
    requires CanStep(f, flight, Hear(j, k, at)) && Bounded(f, lead, bound)
    ensures Bounded(Next(f, flight, lead, Hear(j, k, at)), lead, bound + Excess(flight, lead))
  {
    var g := Next(f, flight, lead, Hear(j, k, at));
    forall i | 0 <= i < |f.clocks|
      ensures MeshOffset(g, i) <= bound + Excess(flight, lead)
    {
      assert MeshOffset(f, i) <= bound;
    }
  }

  /** After k receptions, by whichever nodes and in whichever order, the furthest mesh clock is at most k times
      the excess beyond where the furthest one began. */
  lemma {:induction false} MeshClockBound(f: Fleet, flight: nat, lead: nat, steps: seq<Step>, bound: nat)
    requires Run(f, flight, lead, steps) && Bounded(f, lead, bound)
    ensures Bounded(Exec(f, flight, lead, steps), lead, bound + Hearings(steps) * Excess(flight, lead))
    decreases |steps|
  {
    if |steps| > 0 {
      var s, e := steps[0], Excess(flight, lead);
      match s
      case Send(i, at) => {
        SendBounded(f, flight, lead, i, at, bound);
        MeshClockBound(Next(f, flight, lead, s), flight, lead, steps[1..], bound);
      }
      case Hear(j, k, at) => {
        HearBounded(f, flight, lead, j, k, at, bound);
        MeshClockBound(Next(f, flight, lead, s), flight, lead, steps[1..], bound + e);
        assert (1 + Hearings(steps[1..])) * e == e + Hearings(steps[1..]) * e;
      }
    }
  }

  /** No run ever takes a mesh clock backward. */
  lemma {:induction false} NeverBackward(f: Fleet, flight: nat, lead: nat, steps: seq<Step>, i: nat)
    requires |f.bases| == |f.clocks| && i < |f.clocks| && Run(f, flight, lead, steps)
    ensures
      var g := Exec(f, flight, lead, steps);
      |g.bases| == |g.clocks| == |f.clocks| && MeshOffset(f, i) <= MeshOffset(g, i)
    decreases |steps|
  {
    if |steps| > 0 {
      var g := Next(f, flight, lead, steps[0]);
      assert MeshOffset(f, i) <= MeshOffset(g, i);
      NeverBackward(g, flight, lead, steps[1..], i);
    }
  }

  // ----- who really moves by the whole excess -----

  /** Node j takes the whole of a step to `bound + excess`: it is not synced yet, or more than LARGE_STEP_US behind. */
  predicate Jumps(f: Fleet, j: nat, excess: nat, bound: nat)
    requires j < |f.bases| == |f.clocks|
  {
    !f.clocks[j].synced || MeshOffset(f, j) + LARGE_STEP_US < bound + excess
  }

  /** How far one reception can take node j beyond `bound`. */
  function Growth(f: Fleet, j: nat, excess: nat, bound: nat): nat
    requires j < |f.bases| == |f.clocks|
  {
    if Jumps(f, j, excess, bound) then excess else excess / 4
  }

  lemma HearGrows(f: Fleet, flight: nat, lead: nat, j: nat, k: nat, at: nat, bound: nat)
    requires CanStep(f, flight, Hear(j, k, at)) && Bounded(f, lead, bound)
    ensures Bounded(Next(f, flight, lead, Hear(j, k, at)), lead, bound + Growth(f, j, Excess(flight, lead), bound))
  {
    var g := Next(f, flight, lead, Hear(j, k, at));
    forall i | 0 <= i < |f.clocks|
      ensures MeshOffset(g, i) <= bound + Growth(f, j, Excess(flight, lead), bound)
    {
      assert MeshOffset(f, i) <= bound;
    }
  }

  /** The bound after a run, reception by reception. */
  function RunBound(f: Fleet, flight: nat, lead: nat, steps: seq<Step>, bound: nat): nat
    requires Run(f, flight, lead, steps)
    decreases |steps|
  {
    if |steps| == 0 then bound
    else
      var s := steps[0];
      RunBound(Next(f, flight, lead, s), flight, lead, steps[1..],
               bound + if s.Hear? then Growth(f, s.j, Excess(flight, lead), bound) else 0)
  }

  /** Over any run the whole excess is charged only to receptions of nodes not synced or far behind. */
  lemma {:induction false} SharpBound(f: Fleet, flight: nat, lead: nat, steps: seq<Step>, bound: nat)
    requires Run(f, flight, lead, steps) && Bounded(f, lead, bound)
    ensures Bounded(Exec(f, flight, lead, steps), lead, RunBound(f, flight, lead, steps, bound))
    decreases |steps|
  {
    if |steps| > 0 {
      var s, later := steps[0], bound;
      match s {
        case Send(i, at) => SendBounded(f, flight, lead, i, at, bound);
        case Hear(j, k, at) =>
          HearGrows(f, flight, lead, j, k, at, bound);
          later := bound + Growth(f, j, Excess(flight, lead), bound);
      }
      SharpBound(Next(f, flight, lead, s), flight, lead, steps[1..], later);
    }
  }

  /** All synced, and none below `low`. */
  predicate Close(f: Fleet, low: nat) {
    |f.bases| == |f.clocks| && forall i :: 0 <= i < |f.clocks| ==> f.clocks[i].synced && low <= MeshOffset(f, i)
  }

  lemma StepKeepsClose(f: Fleet, flight: nat, lead: nat, s: Step, low: nat)
    requires CanStep(f, flight, s) && Close(f, low)
    ensures Close(Next(f, flight, lead, s), low)
  {
    var g := Next(f, flight, lead, s);
    forall i | 0 <= i < |f.clocks| ensures g.clocks[i].synced && low <= MeshOffset(g, i) {
      assert f.clocks[i].synced && low <= MeshOffset(f, i);
    }
  }

  function Drift(steps: seq<Step>, q: nat): nat {
    if |steps| == 0 then 0 else (if steps[0].Hear? then q else 0) + Drift(steps[1..], q)
  }

  lemma {:induction false} DriftIs(steps: seq<Step>, q: nat)
    ensures Drift(steps, q) == Hearings(steps) * q
  {
    if |steps| > 0 {
      DriftIs(steps[1..], q);
      assert (1 + Hearings(steps[1..])) * q == q + Hearings(steps[1..]) * q;
    }
  }

  lemma {:induction false} RunBoundIsDrift(f: Fleet, flight: nat, lead: nat, steps: seq<Step>, bound: nat, low: nat)
    requires Run(f, flight, lead, steps) && Close(f, low)
    requires
      var e := Excess(flight, lead);
      bound + Drift(steps, e / 4) + e <= low + LARGE_STEP_US
    ensures RunBound(f, flight, lead, steps, bound) == bound + Drift(steps, Excess(flight, lead) / 4)
    decreases |steps|
  {
    if |steps| > 0 {
      var s, q := steps[0], Excess(flight, lead) / 4;
      assert s.Hear? ==> !Jumps(f, s.j, Excess(flight, lead), bound);
      StepKeepsClose(f, flight, lead, s, low);
      RunBoundIsDrift(Next(f, flight, lead, s), flight, lead, steps[1..], bound + if s.Hear? then q else 0, low);
    }
  }

  /** A synced fleet drifts by at most a quarter of the excess per reception, for as long as even the furthest clock
      cannot get LARGE_STEP_US ahead of the last. */
  lemma SyncedFleetBound(f: Fleet, flight: nat, lead: nat, steps: seq<Step>, bound: nat, low: nat)
    requires Run(f, flight, lead, steps) && Bounded(f, lead, bound) && Close(f, low)
    requires
      var e := Excess(flight, lead);
      bound + Hearings(steps) * (e / 4) + e <= low + LARGE_STEP_US
    ensures
      var e := Excess(flight, lead);
      Bounded(Exec(f, flight, lead, steps), lead, bound + Hearings(steps) * (e / 4))
  {
    DriftIs(steps, Excess(flight, lead) / 4);
    RunBoundIsDrift(f, flight, lead, steps, bound, low);
    SharpBound(f, flight, lead, steps, bound);
  }

  // ----- both bounds are attained -----

  /** Node i sends and node j hears it after the shortest flight. */
  function Push(f: Fleet, flight: nat, i: nat, j: nat, at: nat): seq<Step> {
    [Send(i, at), Hear(j, |f.sent|, at + flight)]
  }

  lemma RunTwo(f: Fleet, flight: nat, lead: nat, a: Step, b: Step)
    requires CanStep(f, flight, a) && CanStep(Next(f, flight, lead, a), flight, b)
    ensures Run(f, flight, lead, [a, b])
    ensures Exec(f, flight, lead, [a, b]) == Next(Next(f, flight, lead, a), flight, lead, b)
  {
    var g := Next(f, flight, lead, a);
    var h := Next(g, flight, lead, b);
    assert [a, b][1..] == [b] && [b][1..] == [];
    assert Run(h, flight, lead, []) && Exec(h, flight, lead, []) == h;
    assert Run(g, flight, lead, [b]) && Exec(g, flight, lead, [b]) == h;
  }

  lemma AdjustMoves(c: Clock, base: nat, heard: nat, nowMs: nat, m: nat, e: nat)
    requires base + c.offset <= m
    ensures
      var o := base + c.offset;
      base + Adjust(c, base + heard, m + e + heard, nowMs).offset ==
      if !c.synced || o + LARGE_STEP_US < m + e then m + e else o + (m + e - o) / 4
  {
  }

  lemma HearMoves(f: Fleet, flight: nat, lead: nat, j: nat, k: nat, at: nat, m: nat, e: nat) returns (g: Fleet)
    requires CanStep(f, flight, Hear(j, k, at)) && ReadBeacon(f.sent[k].packet) == Some(m + e + at)
    requires MeshOffset(f, j) <= m
    ensures g == Next(f, flight, lead, Hear(j, k, at))
    ensures g.bases == f.bases && |g.clocks| == |f.clocks|
    ensures forall l :: 0 <= l < |f.clocks| && l != j ==> g.clocks[l] == f.clocks[l]
    ensures
      var o := MeshOffset(f, j);
      MeshOffset(g, j) == if Jumps(f, j, e, m) then m + e else o + (m + e - o) / 4
  {
    AdjustMoves(f.clocks[j], f.bases[j], at, at / 1000, m, e);
    g := Next(f, flight, lead, Hear(j, k, at));
  }

  lemma StampFits(stamp: nat)
    requires stamp < 0x100_0000_0000_0000
    ensures ReadBeacon(Beacon(stamp)) == Some(stamp)
  {
    BeaconRoundTrip(stamp);
  }

  lemma SendStamps(f: Fleet, flight: nat, lead: nat, i: nat, at: nat) returns (g: Fleet)
    requires CanStep(f, flight, Send(i, at)) && MeshOffset(f, i) + at + lead < 0x100_0000_0000_0000
    ensures g == Next(f, flight, lead, Send(i, at)) && g.bases == f.bases && g.clocks == f.clocks
    ensures |g.sent| == |f.sent| + 1 && g.sent[|f.sent|].from == i && g.sent[|f.sent|].at == at
    ensures ReadBeacon(g.sent[|f.sent|].packet) == Some(MeshOffset(f, i) + at + lead)
  {
    StampFits(MeshOffset(f, i) + at + lead);
    g := Next(f, flight, lead, Send(i, at));
  }

  lemma PushMoves(f: Fleet, flight: nat, lead: nat, i: nat, j: nat, at: nat, m: nat) returns (g: Fleet)
    requires |f.bases| == |f.clocks| && i < |f.clocks| && j < |f.clocks| && i != j
    requires MeshOffset(f, i) == m && MeshOffset(f, j) <= m && flight <= lead && m + at + lead < 0x100_0000_0000_0000
    ensures Run(f, flight, lead, Push(f, flight, i, j, at)) && Exec(f, flight, lead, Push(f, flight, i, j, at)) == g
    ensures g.bases == f.bases && |g.clocks| == |f.clocks|
    ensures forall l :: 0 <= l < |f.clocks| && l != j ==> g.clocks[l] == f.clocks[l]
    ensures
      var e, o := Excess(flight, lead), MeshOffset(f, j);
      MeshOffset(g, j) == if Jumps(f, j, e, m) then m + e else o + (m + e - o) / 4
  {
    var sent := SendStamps(f, flight, lead, i, at);
    g := HearMoves(sent, flight, lead, j, |f.sent|, at + flight, m, lead - flight);
    RunTwo(f, flight, lead, Send(i, at), Hear(j, |f.sent|, at + flight));
  }

  lemma {:induction false} RunThen(f: Fleet, flight: nat, lead: nat, a: seq<Step>, b: seq<Step>)
    requires Run(f, flight, lead, a) && Run(Exec(f, flight, lead, a), flight, lead, b)
    ensures Run(f, flight, lead, a + b)
    ensures Exec(f, flight, lead, a + b) == Exec(Exec(f, flight, lead, a), flight, lead, b)
    ensures Hearings(a + b) == Hearings(a) + Hearings(b)
    decreases |a|
  {
    if |a| == 0 {
      assert a + b == b;
    } else {
      assert (a + b)[1..] == a[1..] + b;
      RunThen(Next(f, flight, lead, a[0]), flight, lead, a[1..], b);
    }
  }

  /** A beacon can be passed along these nodes, each of which jumps: the excess is a large step, or they hear for the
      first time. */
  predicate Passes(f: Fleet, path: seq<nat>, excess: nat) {
    && |f.bases| == |f.clocks| && |path| > 0
    && (forall i :: 0 <= i < |path| ==> path[i] < |f.clocks|)
    && (forall i :: 0 <= i < |path| - 1 ==> path[i] != path[i + 1])
    && (excess > LARGE_STEP_US ||
        ((forall i, j :: 0 <= i < j < |path| ==> path[i] != path[j]) &&
         forall i :: 0 < i < |path| ==> !f.clocks[path[i]].synced))
  }

  /** Node `first` shows m, and nobody shows more. */
  predicate Leading(f: Fleet, first: nat, m: nat) {
    && |f.bases| == |f.clocks| && first < |f.clocks| && MeshOffset(f, first) == m
    && forall i :: 0 <= i < |f.clocks| ==> MeshOffset(f, i) <= m
  }

  lemma PushPasses(f: Fleet, flight: nat, lead: nat, path: seq<nat>, m: nat, at: nat) returns (g: Fleet)
    requires flight <= lead && |path| > 1 && Passes(f, path, lead - flight) && Leading(f, path[0], m)
    requires m + at + lead < 0x100_0000_0000_0000
    ensures
      var push := Push(f, flight, path[0], path[1], at);
      Run(f, flight, lead, push) && Exec(f, flight, lead, push) == g
    ensures Passes(g, path[1..], lead - flight) && Leading(g, path[1], m + (lead - flight))
    ensures |g.clocks| == |f.clocks|
  {
    assert path[0] != path[1] && MeshOffset(f, path[1]) <= m;
    g := PushMoves(f, flight, lead, path[0], path[1], at, m);
    forall i | 0 <= i < |g.clocks| ensures MeshOffset(g, i) <= m + (lead - flight) {
      assert MeshOffset(f, i) <= m;
    }
  }

  function Times(n: nat, x: nat): nat {
    if n == 0 then 0 else x + Times(n - 1, x)
  }

  lemma {:induction false} TimesIs(n: nat, x: nat)
    ensures Times(n, x) == n * x
  {
    if n > 0 {
      TimesIs(n - 1, x);
      assert n * x == x + (n - 1) * x;
    }
  }

  lemma {:induction false} PassAlong(f: Fleet, flight: nat, lead: nat, path: seq<nat>, m: nat, at: nat)
    returns (steps: seq<Step>)
    requires flight <= lead && Passes(f, path, lead - flight) && Leading(f, path[0], m)
    requires m + at + Times(|path|, lead) < 0x100_0000_0000_0000
    ensures Run(f, flight, lead, steps) && Hearings(steps) == |path| - 1
    ensures Leading(Exec(f, flight, lead, steps), path[|path| - 1], m + Times(|path| - 1, lead - flight))
    decreases |path|
  {
    if |path| == 1 {
      steps := [];
    } else {
      var push, e := Push(f, flight, path[0], path[1], at), lead - flight;
      var g := PushPasses(f, flight, lead, path, m, at);
      assert Times(|path|, lead) == lead + Times(|path| - 1, lead);
      var rest := PassAlong(g, flight, lead, path[1..], m + e, at + flight);
      RunThen(f, flight, lead, push, rest);
      assert Hearings(push) == 1 && Times(|path| - 1, e) == e + Times(|path| - 2, e);
      steps := push + rest;
    }
  }

  /** MeshClockBound is attained, by any number of receptions if the excess is a large step, and otherwise by any nodes
      that hear for the first time: each of k receptions takes the furthest clock the whole excess further. */
  lemma BoundIsAttained(f: Fleet, flight: nat, lead: nat, path: seq<nat>, m: nat, at: nat) returns (steps: seq<Step>)
    requires flight <= lead && Passes(f, path, lead - flight) && Leading(f, path[0], m)
    requires m + at + |path| * lead < 0x100_0000_0000_0000
    ensures Run(f, flight, lead, steps) && Hearings(steps) == |path| - 1
    ensures Leading(Exec(f, flight, lead, steps), path[|path| - 1], m + Hearings(steps) * Excess(flight, lead))
  {
    TimesIs(|path|, lead);
    TimesIs(|path| - 1, lead - flight);
    steps := PassAlong(f, flight, lead, path, m, at);
  }

  // ----- when agreement lasts -----

  /** Every node synced, all mesh clocks equal, nothing on the air. */
  predicate Agreed(f: Fleet, m: nat) {
    && |f.bases| == |f.clocks| && f.sent == []
    && forall i :: 0 <= i < |f.clocks| ==> f.clocks[i].synced && MeshOffset(f, i) == m
  }

  /** All mesh clocks still at m, and every beacon on the air stamped from there. */
  predicate Holding(f: Fleet, lead: nat, m: nat) {
    && |f.bases| == |f.clocks|
    && (forall i :: 0 <= i < |f.clocks| ==> f.clocks[i].synced && MeshOffset(f, i) == m)
    && Bounded(f, lead, m)
  }

  lemma {:induction false} HoldingHolds(f: Fleet, flight: nat, lead: nat, steps: seq<Step>, m: nat)
    requires Run(f, flight, lead, steps) && Holding(f, lead, m) && lead <= flight + 3
    ensures Holding(Exec(f, flight, lead, steps), lead, m)
    decreases |steps|
  {
    if |steps| > 0 {
      var g := Next(f, flight, lead, steps[0]);
      match steps[0] {
        case Send(i, at) => SendBounded(f, flight, lead, i, at, m);
        case Hear(j, k, at) =>
          assert MeshOffset(f, j) == m;
          assert g.clocks[j].offset == f.clocks[j].offset;
          assert forall i :: 0 <= i < |f.clocks| ==> MeshOffset(g, i) == m;
      }
      HoldingHolds(g, flight, lead, steps[1..], m);
    }
  }

  /** Two nodes in agreement: one beacon, heard as soon as it can be, pushes the other one ahead. */
  function OneBeacon(flight: nat): seq<Step> {
    [Send(0, 0), Hear(1, 0, flight)]
  }

  /** A fleet in agreement is never disturbed, by any run, exactly when the stamps lead the real flight time by
      at most 3 us. Otherwise the very first beacon can move a clock ahead of every reference there was. */
  lemma AgreementLastsIff(f: Fleet, flight: nat, lead: nat, m: nat)
    requires Agreed(f, m) && |f.clocks| >= 2 && m + flight + lead < 0x100_0000_0000_0000
    ensures lead <= flight + 3 <==>
            forall steps, i: nat :: Run(f, flight, lead, steps) && i < |f.clocks| ==>
              MeshOffsetAfter(f, flight, lead, steps, i) == m
  {
    if lead <= flight + 3 {
      forall steps, i: nat | Run(f, flight, lead, steps) && i < |f.clocks|
        ensures MeshOffsetAfter(f, flight, lead, steps, i) == m
      {
        HoldingHolds(f, flight, lead, steps, m);
        NeverBackward(f, flight, lead, steps, i);
      }
    } else {
      FirstBeaconPushes(f, flight, lead, m);
    }
  }

  function MeshOffsetAfter(f: Fleet, flight: nat, lead: nat, steps: seq<Step>, i: nat): nat
    requires |f.bases| == |f.clocks| && i < |f.clocks| && Run(f, flight, lead, steps)
  {
    NeverBackward(f, flight, lead, steps, i);
    MeshOffset(Exec(f, flight, lead, steps), i)
  }

  /** It takes the hearer ahead by the whole excess if that is a large step, and by a quarter of it otherwise. */
  lemma FirstBeaconPushes(f: Fleet, flight: nat, lead: nat, m: nat)
    requires Agreed(f, m) && |f.clocks| >= 2 && flight <= lead && m + lead < 0x100_0000_0000_0000
    ensures Run(f, flight, lead, OneBeacon(flight))
    ensures MeshOffsetAfter(f, flight, lead, OneBeacon(flight), 1) ==
            m + if lead - flight > LARGE_STEP_US then lead - flight else (lead - flight) / 4
  {
    assert MeshOffset(f, 0) == m && MeshOffset(f, 1) == m && f.clocks[1].synced;
    var g := PushMoves(f, flight, lead, 0, 1, 0, m);
    assert OneBeacon(flight) == Push(f, flight, 0, 1, 0);
  }
}
