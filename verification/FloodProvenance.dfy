// What every relayed frame and every waiting forward is, in every reachable state of a fleet of
// conforming nodes: whose packet it carries, unaltered, after how many hops and how long.
module FloodProvenance {
  import opened Bytes
  import opened RelaySpec
  import opened FloodNetwork
  import opened MediaPacket

  ghost predicate Known(net: Net, t: Tag)
    requires Shape(net)
  {
    t.owner < |net.nodes| && t.idx < |net.nodes[t.owner].minted|
  }

  ghost function Original(net: Net, t: Tag): Minted
    requires Shape(net) && Known(net, t)
  {
    net.nodes[t.owner].minted[t.idx]
  }

  /** Longest time h hops may take: per hop one flight, one drawn delay and one poll period, less the millisecond by
      which the last poll before the delay ran out came before it. */
  function HopsTime(h: nat, radio: Radio): nat {
    if h == 0 then 0 else HopsTime(h - 1, radio) + (MESH_RELAY_DELAY_MAX_MS - 1) + radio.poll + radio.flight
  }

  /** The idx-th packet of its master, as the master writes it. */
  predicate MintedOk(m: Minted, idx: nat) {
    && m.frame == MediaFrame(m.media, SeqOf(idx))
    && |m.frame| == MEDIA_SYNC_LEN && m.frame[0] == ESPNOW_MSG_MEDIA_SYNC
    && m.frame[29..31] == Le16(SeqOf(idx))
  }

  ghost predicate DirectOk(net: Net, c: Copy)
    requires Shape(net)
  {
    && Known(net, c.tag)
    && c.src == net.macs[c.tag.owner]
    && c.frame == Original(net, c.tag).frame
    && c.sentAt == Original(net, c.tag).at
  }

  ghost predicate RelayOk(net: Net, c: Copy, radio: Radio)
    requires Shape(net)
  {
    && Known(net, c.tag)
    && c.src != net.macs[c.tag.owner]
    && |c.frame| == RELAY_HEADER_LEN + MEDIA_SYNC_LEN
    && 1 <= c.frame[9] <= MAX_HOPS
    && c.frame == RelayFrame(net.macs[c.tag.owner], SeqOf(c.tag.idx), c.frame[9], Original(net, c.tag).frame)
    && Original(net, c.tag).at + MESH_RELAY_DELAY_MIN_MS * c.frame[9] <= c.sentAt
    && c.sentAt <= Original(net, c.tag).at + HopsTime(c.frame[9], radio)
  }

  ghost predicate CopyOk(net: Net, c: Copy, radio: Radio)
    requires Shape(net)
  {
    c.sentAt <= net.now && (DirectOk(net, c) || RelayOk(net, c, radio))
  }

  ghost predicate PendingOk(net: Net, j: nat, p: Pending, t: Tag, radio: Radio)
    requires Shape(net) && j < |net.nodes|
  {
    && Known(net, t)
    && t.owner != j
    && p.origin == net.macs[t.owner]
    && p.seqNo == SeqOf(t.idx)
    && 1 <= p.hop <= MAX_HOPS
    && p.payload == Original(net, t).frame
    && net.nodes[j].lastPoll < p.sendTime
    && Original(net, t).at + MESH_RELAY_DELAY_MIN_MS * p.hop <= p.sendTime
    && p.sendTime + radio.poll <= Original(net, t).at + HopsTime(p.hop, radio) + 1
  }

  ghost predicate NodeOk(net: Net, j: nat, radio: Radio)
    requires Shape(net) && j < |net.nodes|
  {
    var n := net.nodes[j];
    && n.lastPoll <= net.now
    && (forall i :: 0 <= i < |n.minted| ==> MintedOk(n.minted[i], i))
    && (forall k :: 0 <= k < MAX_PENDING_RELAYS ==>
          n.tables.pending[k].active ==> PendingOk(net, j, n.tables.pending[k], n.tags[k], radio))
  }

  ghost predicate Sound(net: Net, radio: Radio)
    requires Shape(net)
  {
    && (forall i, j :: 0 <= i < j < |net.macs| ==> net.macs[i] != net.macs[j])
    && (forall j :: 0 <= j < |net.nodes| ==> NodeOk(net, j, radio))
    && (forall k :: 0 <= k < |net.air| ==> CopyOk(net, net.air[k], radio))
  }

  // ----- what a step must not disturb -----

  /** `b` is `a` after nodes minted more packets and time went on. */
  ghost predicate Extends(a: Net, b: Net)
    requires Shape(a) && Shape(b)
  {
    && a.macs == b.macs && |a.nodes| == |b.nodes| && a.now <= b.now
    && forall j :: 0 <= j < |a.nodes| ==> a.nodes[j].minted <= b.nodes[j].minted
  }

  lemma CopyStays(a: Net, b: Net, c: Copy, radio: Radio)
    requires Shape(a) && Shape(b) && Extends(a, b) && CopyOk(a, c, radio)
    ensures CopyOk(b, c, radio)
  {
  }

  lemma PendingStays(a: Net, b: Net, j: nat, p: Pending, t: Tag, radio: Radio)
    requires Shape(a) && Shape(b) && Extends(a, b) && j < |a.nodes| && PendingOk(a, j, p, t, radio)
    requires b.nodes[j].lastPoll == a.nodes[j].lastPoll
    ensures PendingOk(b, j, p, t, radio)
  {
  }

  lemma NodeStays(a: Net, b: Net, j: nat, radio: Radio)
    requires Shape(a) && Shape(b) && Extends(a, b) && j < |a.nodes| && NodeOk(a, j, radio)
    requires b.nodes[j].(minted := a.nodes[j].minted) == a.nodes[j]
    requires forall i :: |a.nodes[j].minted| <= i < |b.nodes[j].minted| ==> MintedOk(b.nodes[j].minted[i], i)
    ensures NodeOk(b, j, radio)
  {
    forall k | 0 <= k < MAX_PENDING_RELAYS && b.nodes[j].tables.pending[k].active
      ensures PendingOk(b, j, b.nodes[j].tables.pending[k], b.nodes[j].tags[k], radio)
    {
      PendingStays(a, b, j, a.nodes[j].tables.pending[k], a.nodes[j].tags[k], radio);
    }
  }

  // ----- the steps -----

  lemma MintKeepsSound(net: Net, s: Step, radio: Radio)
    requires Shape(net) && Sound(net, radio) && CanStep(net, s) && s.Mint?
    ensures Sound(Next(net, s), radio)
  {
    var after := Next(net, s);
    var idx := |net.nodes[s.i].minted|;
    FieldsAt(s.media, SeqOf(idx));
    assert MintedOk(Minted(s.media, MediaFrame(s.media, SeqOf(idx)), s.at), idx);
    forall j | 0 <= j < |net.nodes| ensures NodeOk(after, j, radio) {
      NodeStays(net, after, j, radio);
    }
    forall k | 0 <= k < |after.air| ensures CopyOk(after, after.air[k], radio) {
      if k < |net.air| {
        CopyStays(net, after, net.air[k], radio);
      }
    }
  }

  /** The candidate a conforming copy offers is exactly the tagged packet, some hops on. */
  lemma CopyOffers(net: Net, c: Copy, radio: Radio)
    requires Shape(net) && Sound(net, radio) && CopyOk(net, c, radio)
    ensures Known(net, c.tag) && Parse(c.src, c.frame).Some?
    ensures
      var cand := Parse(c.src, c.frame).value;
      && cand.origin == net.macs[c.tag.owner]
      && cand.seqNo == SeqOf(c.tag.idx)
      && cand.inner == Original(net, c.tag).frame
      && cand.hop <= MAX_HOPS
      && cand.isRelay == (cand.hop > 0)
      && Original(net, c.tag).at + MESH_RELAY_DELAY_MIN_MS * cand.hop <= c.sentAt
      && c.sentAt <= Original(net, c.tag).at + HopsTime(cand.hop, radio)
  {
    var inner := Original(net, c.tag).frame;
    assert NodeOk(net, c.tag.owner, radio) && MintedOk(Original(net, c.tag), c.tag.idx);
    if RelayOk(net, c, radio) {
      EnvelopeRoundTrip(net.macs[c.tag.owner], SeqOf(c.tag.idx), c.frame[9], inner, c.src);
    } else {
      SeqRoundTrip(SeqOf(c.tag.idx));
    }
  }

  lemma SeqRoundTrip(w: word)
    ensures FromLe16(Le16(w)) == w
  {
  }

  lemma ScheduledOk(net: Net, c: Copy, delay: nat, at: nat, radio: Radio)
    requires Shape(net) && Sound(net, radio) && CopyOk(net, c, radio) && c.to < |net.nodes|
    requires net.now <= at <= c.sentAt + radio.flight
    requires MESH_RELAY_DELAY_MIN_MS <= delay <= MESH_RELAY_DELAY_MAX_MS
    requires Parse(c.src, c.frame).Some?
    requires
      var cand := Parse(c.src, c.frame).value;
      cand.origin != net.macs[c.to] && NextHop(cand.hop) <= MAX_HOPS
    ensures
      var cand := Parse(c.src, c.frame).value;
      PendingOk(net, c.to, Pending(true, at + delay, cand.origin, cand.seqNo, NextHop(cand.hop), Clamp(cand.inner)),
                c.tag, radio)
  {
    CopyOffers(net, c, radio);
    assert NodeOk(net, c.to, radio) && NodeOk(net, c.tag.owner, radio);
    assert MintedOk(Original(net, c.tag), c.tag.idx);
  }

  lemma HearKeepsPending(net: Net, k: nat, delay: nat, at: nat, radio: Radio)
    requires Shape(net) && Sound(net, radio) && k < |net.air| && net.now <= at <= net.air[k].sentAt + radio.flight
    requires MESH_RELAY_DELAY_MIN_MS <= delay <= MESH_RELAY_DELAY_MAX_MS
    ensures
      var c := net.air[k];
      var node := Hear(net.nodes[c.to], net.macs[c.to], c, at + delay);
      forall q :: 0 <= q < MAX_PENDING_RELAYS ==>
        node.tables.pending[q].active ==> PendingOk(net, c.to, node.tables.pending[q], node.tags[q], radio)
  {
    var c := net.air[k];
    var before := net.nodes[c.to];
    var node := Hear(before, net.macs[c.to], c, at + delay);
    var cand := Parse(c.src, c.frame);
    assert NodeOk(net, c.to, radio) && CopyOk(net, c, radio);
    if cand.Some? && cand.value.origin != net.macs[c.to] {
      var slot := ScheduleSlot(before.tables, net.macs[c.to], cand.value);
      if slot.Some? {
        ScheduledOk(net, c, delay, at, radio);
      }
      forall q | 0 <= q < MAX_PENDING_RELAYS && node.tables.pending[q].active
        ensures PendingOk(net, c.to, node.tables.pending[q], node.tags[q], radio)
      {
        if slot != Some(q) {
          assert node.tables.pending[q] == before.tables.pending[q];
        }
      }
    }
  }

  /** A node that minted and polled nothing is sound if its forwards were, before time went on. */
  lemma ForwardsMakeNode(a: Net, b: Net, j: nat, radio: Radio)
    requires Shape(a) && Shape(b) && Extends(a, b) && j < |a.nodes| && NodeOk(a, j, radio)
    requires b.nodes[j].lastPoll == a.nodes[j].lastPoll && b.nodes[j].minted == a.nodes[j].minted
    requires forall q :: 0 <= q < MAX_PENDING_RELAYS ==> b.nodes[j].tables.pending[q].active ==>
               PendingOk(a, j, b.nodes[j].tables.pending[q], b.nodes[j].tags[q], radio)
    ensures NodeOk(b, j, radio)
  {
    forall q | 0 <= q < MAX_PENDING_RELAYS && b.nodes[j].tables.pending[q].active
      ensures PendingOk(b, j, b.nodes[j].tables.pending[q], b.nodes[j].tags[q], radio)
    {
      PendingStays(a, b, j, b.nodes[j].tables.pending[q], b.nodes[j].tags[q], radio);
    }
  }

  /** `after` is `net` once `to` heard copy k of the air and nothing else happened. */
  ghost predicate Delivered(net: Net, k: nat, delay: nat, at: nat, after: Net)
    requires Shape(net) && k < |net.air|
  {
    var c := net.air[k];
    && Shape(after) && Extends(net, after)
    && after.nodes[c.to] == Hear(net.nodes[c.to], net.macs[c.to], c, at + delay)
    && (forall j :: 0 <= j < |net.nodes| && j != c.to ==> after.nodes[j] == net.nodes[j])
    && after.air == Without(net.air, k)
  }

  lemma DeliverIs(net: Net, s: Step)
    requires Shape(net) && CanStep(net, s) && s.Deliver?
    ensures Delivered(net, s.k, s.delay, s.at, Next(net, s))
  {
  }

  lemma HearerIsOk(net: Net, k: nat, delay: nat, at: nat, after: Net, radio: Radio)
    requires Shape(net) && Sound(net, radio) && k < |net.air| && net.now <= at <= net.air[k].sentAt + radio.flight
    requires MESH_RELAY_DELAY_MIN_MS <= delay <= MESH_RELAY_DELAY_MAX_MS && Delivered(net, k, delay, at, after)
    ensures NodeOk(after, net.air[k].to, radio)
  {
    assert NodeOk(net, net.air[k].to, radio);
    HearKeepsPending(net, k, delay, at, radio);
    ForwardsMakeNode(net, after, net.air[k].to, radio);
  }

  lemma DeliveredIsSound(net: Net, k: nat, delay: nat, at: nat, after: Net, radio: Radio)
    requires Shape(net) && Sound(net, radio) && k < |net.air| && net.now <= at <= net.air[k].sentAt + radio.flight
    requires MESH_RELAY_DELAY_MIN_MS <= delay <= MESH_RELAY_DELAY_MAX_MS && Delivered(net, k, delay, at, after)
    ensures Sound(after, radio)
  {
    forall j | 0 <= j < |net.nodes| ensures NodeOk(after, j, radio) {
      assert NodeOk(net, j, radio);
      if j == net.air[k].to {
        HearerIsOk(net, k, delay, at, after, radio);
      } else {
        NodeStays(net, after, j, radio);
      }
    }
    forall q | 0 <= q < |after.air| ensures CopyOk(after, after.air[q], radio) {
      CopyStays(net, after, net.air[if q < k then q else q + 1], radio);
    }
  }

  lemma DeliverKeepsSound(net: Net, s: Step, radio: Radio)
    requires Shape(net) && Sound(net, radio) && CanStep(net, s) && s.Deliver? && OnTime(net, s, radio)
    ensures Sound(Next(net, s), radio)
  {
    DeliverIs(net, s);
    DeliveredIsSound(net, s.k, s.delay, s.at, Next(net, s), radio);
  }

  lemma LoseKeepsSound(net: Net, s: Step, radio: Radio)
    requires Shape(net) && Sound(net, radio) && CanStep(net, s) && s.Lose?
    ensures Sound(Next(net, s), radio)
  {
    var after := Next(net, s);
    forall j | 0 <= j < |net.nodes| ensures NodeOk(after, j, radio) {
      NodeStays(net, after, j, radio);
    }
    forall k | 0 <= k < |after.air| ensures CopyOk(after, after.air[k], radio) {
      CopyStays(net, after, net.air[if k < s.k then k else k + 1], radio);
    }
  }

  lemma FiredIsRelay(net: Net, i: nat, k: nat, at: nat, radio: Radio)
    requires Shape(net) && Sound(net, radio) && i < |net.nodes| && k < MAX_PENDING_RELAYS
    requires Due(net.nodes[i].tables.pending[k], at) && at <= net.nodes[i].lastPoll + radio.poll
    ensures
      RelayOk(net, Copy(0, net.macs[i], Envelope(net.nodes[i].tables.pending[k]), at, net.nodes[i].tags[k]), radio)
  {
    var t := net.nodes[i].tags[k];
    assert NodeOk(net, i, radio) && PendingOk(net, i, net.nodes[i].tables.pending[k], t, radio);
    assert NodeOk(net, t.owner, radio) && MintedOk(Original(net, t), t.idx);
    assert net.macs[i] != net.macs[t.owner];
  }

  lemma FireKeepsNodes(net: Net, i: nat, k: nat, at: nat, radio: Radio, j: nat)
    requires Shape(net) && Sound(net, radio) && i < |net.nodes| && k < MAX_PENDING_RELAYS && j < |net.nodes|
    ensures Shape(FireSlot(net, i, k, at)) && NodeOk(FireSlot(net, i, k, at), j, radio)
  {
    var after := FireSlot(net, i, k, at);
    assert NodeOk(net, j, radio);
    ForwardsMakeNode(net, after, j, radio);
  }

  lemma FiredCopiesAreOk(net: Net, after: Net, c: Copy, radio: Radio)
    requires Shape(net) && Shape(after) && Sound(net, radio) && Extends(net, after)
    requires c.sentAt <= net.now && RelayOk(net, c, radio)
    requires forall q :: |net.air| <= q < |after.air| ==> after.air[q] == c.(to := after.air[q].to)
    requires net.air <= after.air
    ensures forall q :: 0 <= q < |after.air| ==> CopyOk(after, after.air[q], radio)
  {
    forall q | 0 <= q < |after.air| ensures CopyOk(after, after.air[q], radio) {
      CopyStays(net, after, if q < |net.air| then net.air[q] else c.(to := after.air[q].to), radio);
    }
  }

  lemma FireKeepsSound(net: Net, i: nat, k: nat, at: nat, radio: Radio)
    requires Shape(net) && Sound(net, radio) && i < |net.nodes| && k < MAX_PENDING_RELAYS
    requires at == net.now && at <= net.nodes[i].lastPoll + radio.poll
    ensures Shape(FireSlot(net, i, k, at)) && Sound(FireSlot(net, i, k, at), radio)
  {
    var p := net.nodes[i].tables.pending[k];
    if Due(p, at) {
      var after := FireSlot(net, i, k, at);
      FiredIsRelay(net, i, k, at, radio);
      FiredCopiesAreOk(net, after, Copy(0, net.macs[i], Envelope(p), at, net.nodes[i].tags[k]), radio);
      forall j | 0 <= j < |net.nodes| ensures NodeOk(after, j, radio) {
        FireKeepsNodes(net, i, k, at, radio, j);
      }
    }
  }

  lemma {:induction false} FireAllKeepsSound(net: Net, i: nat, n: nat, at: nat, radio: Radio)
    requires Shape(net) && Sound(net, radio) && i < |net.nodes| && n <= MAX_PENDING_RELAYS
    requires at == net.now && at <= net.nodes[i].lastPoll + radio.poll
    ensures Sound(FireSlots(net, i, n, at), radio)
    ensures FireSlots(net, i, n, at).nodes[i].lastPoll == net.nodes[i].lastPoll
  {
    if n > 0 {
      FireAllKeepsSound(net, i, n - 1, at, radio);
      FireKeepsSound(FireSlots(net, i, n - 1, at), i, n - 1, at, radio);
    }
  }

  /** Time alone disturbs nothing. */
  lemma LaterIsSound(net: Net, at: nat, radio: Radio)
    requires Shape(net) && Sound(net, radio) && net.now <= at
    ensures Shape(net.(now := at)) && Sound(net.(now := at), radio)
  {
    var after := net.(now := at);
    forall j | 0 <= j < |net.nodes| ensures NodeOk(after, j, radio) {
      NodeStays(net, after, j, radio);
    }
  }

  lemma {:induction false} FireSlotsAt(net: Net, i: nat, n: nat, at: nat)
    requires Shape(net) && i < |net.nodes| && n <= MAX_PENDING_RELAYS
    ensures FireSlots(net.(now := at), i, n, at) == FireSlots(net, i, n, at).(now := at)
  {
    if n > 0 {
      FireSlotsAt(net, i, n - 1, at);
    }
  }

  lemma PollKeepsSound(net: Net, s: Step, radio: Radio)
    requires Shape(net) && Sound(net, radio) && CanStep(net, s) && s.Poll? && OnTime(net, s, radio)
    ensures Sound(Next(net, s), radio)
  {
    var later := net.(now := s.at);
    LaterIsSound(net, s.at, radio);
    FireSlotsAt(net, s.i, MAX_PENDING_RELAYS, s.at);
    FireAllKeepsSound(later, s.i, MAX_PENDING_RELAYS, s.at, radio);
    PollDone(FireSlots(later, s.i, MAX_PENDING_RELAYS, s.at), s.i, s.at, radio);
  }

  /** After a poll at `at` nothing due is left, so the poll time can be recorded. */
  lemma PollDone(net: Net, i: nat, at: nat, radio: Radio)
    requires Shape(net) && Sound(net, radio) && i < |net.nodes| && net.now == at
    requires forall k :: 0 <= k < MAX_PENDING_RELAYS ==> !Due(net.nodes[i].tables.pending[k], at)
    ensures
      var after := net.(nodes := net.nodes[i := net.nodes[i].(lastPoll := at)]);
      Shape(after) && Sound(after, radio)
  {
    var after := net.(nodes := net.nodes[i := net.nodes[i].(lastPoll := at)]);
    forall j | 0 <= j < |net.nodes| ensures NodeOk(after, j, radio) {
      assert NodeOk(net, j, radio);
      if j != i {
        NodeStays(net, after, j, radio);
      }
    }
    forall q | 0 <= q < |after.air| ensures CopyOk(after, after.air[q], radio) {
      CopyStays(net, after, net.air[q], radio);
    }
  }

  lemma StepKeepsSound(net: Net, s: Step, radio: Radio)
    requires Shape(net) && Sound(net, radio) && CanStep(net, s) && OnTime(net, s, radio)
    ensures Sound(Next(net, s), radio)
  {
    match s
    case Mint(_, _, _) => MintKeepsSound(net, s, radio);
    case Deliver(_, _, _) => DeliverKeepsSound(net, s, radio);
    case Lose(_) => LoseKeepsSound(net, s, radio);
    case Poll(_, _) => PollKeepsSound(net, s, radio);
  }

  lemma {:induction false} RunKeepsSound(net: Net, steps: seq<Step>, radio: Radio)
    requires Shape(net) && Sound(net, radio) && Run(net, steps) && TimedRun(net, steps, radio)
    ensures Sound(Exec(net, steps), radio)
    decreases |steps|
  {
    if |steps| > 0 {
      StepKeepsSound(net, steps[0], radio);
      RunKeepsSound(Next(net, steps[0]), steps[1..], radio);
    }
  }

  lemma BootIsSound(net: Net, radio: Radio)
    requires Boot(net) && Shape(net)
    ensures Sound(net, radio)
  {
    forall j | 0 <= j < |net.nodes| ensures NodeOk(net, j, radio) {
      assert FreshNode(net.nodes[j], net.now);
    }
  }

  // ----- results -----

  /** Every finite run meets the timing hypothesis for a radio slow enough. */
  lemma {:induction false} EveryRunIsTimed(net: Net, steps: seq<Step>)
    requires Shape(net) && Run(net, steps)
    ensures net.now <= Exec(net, steps).now
    ensures forall t :: Exec(net, steps).now <= t ==> TimedRun(net, steps, Radio(t, t))
    decreases |steps|
  {
    if |steps| > 0 {
      EveryRunIsTimed(Next(net, steps[0]), steps[1..]);
    }
  }

  /** A relayed copy parses to the tagged packet, and its sender is not that packet's origin. */
  ghost predicate Faithful(net: Net, c: Copy)
    requires Shape(net)
  {
    && Known(net, c.tag)
    && c.src != net.macs[c.tag.owner]
    && Parse(c.src, c.frame).Some?
    && 1 <= Parse(c.src, c.frame).value.hop <= MAX_HOPS
    && Parse(c.src, c.frame).value ==
       Candidate(net.macs[c.tag.owner], SeqOf(c.tag.idx), Parse(c.src, c.frame).value.hop,
                 Original(net, c.tag).frame, true)
  }

  /** A waiting forward holds the tagged packet, stamped with that packet's own sequence number. */
  ghost predicate HoldsOriginal(net: Net, j: nat, k: nat)
    requires Shape(net) && j < |net.nodes| && k < MAX_PENDING_RELAYS
  {
    var p, t := net.nodes[j].tables.pending[k], net.nodes[j].tags[k];
    && Known(net, t)
    && t.owner != j
    && p.origin == net.macs[t.owner]
    && 1 <= p.hop <= MAX_HOPS
    && p.payload == Original(net, t).frame
    && |p.payload| == MEDIA_SYNC_LEN
    && FromLe16(p.payload[29..31]) == p.seqNo == SeqOf(t.idx)
  }

  predicate IsRelayFrame(frame: seq<byte>) {
    |frame| > 0 && frame[0] == ESPNOW_MSG_MESH_RELAY
  }

  lemma RelayIsFaithful(net: Net, c: Copy, radio: Radio)
    requires Shape(net) && Sound(net, radio) && CopyOk(net, c, radio) && IsRelayFrame(c.frame)
    ensures Faithful(net, c)
    ensures
      var h := Parse(c.src, c.frame).value.hop;
      Original(net, c.tag).at + 5 * h <= c.sentAt <= Original(net, c.tag).at + h * (29 + radio.poll + radio.flight)
  {
    CopyOffers(net, c, radio);
    assert NodeOk(net, c.tag.owner, radio) && MintedOk(Original(net, c.tag), c.tag.idx);
    HopsTimeIs(Parse(c.src, c.frame).value.hop, radio);
  }

  lemma {:induction false} HopsTimeIs(h: nat, radio: Radio)
    ensures HopsTime(h, radio) == h * (29 + radio.poll + radio.flight)
  {
    if h > 0 {
      HopsTimeIs(h - 1, radio);
      assert h * (29 + radio.poll + radio.flight) ==
             (h - 1) * (29 + radio.poll + radio.flight) + (29 + radio.poll + radio.flight);
    }
  }

  /** Provenance over every run: each relay on the air and each waiting forward carries, byte for byte,
      what its origin minted under that sequence number, within the hop budget, and is never in the
      hands of that origin. */
  lemma RelaysCarryOriginals(net: Net, steps: seq<Step>)
    requires Boot(net) && Shape(net) && Run(net, steps)
    ensures
      var r := Exec(net, steps);
      forall k :: 0 <= k < |r.air| ==> IsRelayFrame(r.air[k].frame) ==> Faithful(r, r.air[k])
    ensures
      var r := Exec(net, steps);
      forall j, k :: 0 <= j < |r.nodes| && 0 <= k < MAX_PENDING_RELAYS ==>
        r.nodes[j].tables.pending[k].active ==> HoldsOriginal(r, j, k)
  {
    var r := Exec(net, steps);
    var radio := Radio(r.now, r.now);
    EveryRunIsTimed(net, steps);
    BootIsSound(net, radio);
    RunKeepsSound(net, steps, radio);
    forall k | 0 <= k < |r.air| && IsRelayFrame(r.air[k].frame) ensures Faithful(r, r.air[k]) {
      RelayIsFaithful(r, r.air[k], radio);
    }
    forall j, k | 0 <= j < |r.nodes| && 0 <= k < MAX_PENDING_RELAYS && r.nodes[j].tables.pending[k].active
      ensures HoldsOriginal(r, j, k)
    {
      assert NodeOk(r, j, radio);
      var t := r.nodes[j].tags[k];
      assert NodeOk(r, t.owner, radio) && MintedOk(Original(r, t), t.idx);
    }
  }

  /** Latency over every run with poll spacing at most P and flight at most F: a hop-h relay is sent
      between 5h and h * (29 + P + F) ms after its packet was minted. */
  lemma RelayLatency(net: Net, steps: seq<Step>, radio: Radio)
    requires Boot(net) && Shape(net) && Run(net, steps) && TimedRun(net, steps, radio)
    ensures
      var r := Exec(net, steps);
      forall k :: 0 <= k < |r.air| ==> IsRelayFrame(r.air[k].frame) ==>
        && Faithful(r, r.air[k])
        && (var c := r.air[k];
            var h := Parse(c.src, c.frame).value.hop;
            Original(r, c.tag).at + 5 * h <= c.sentAt <=
            Original(r, c.tag).at + h * (29 + radio.poll + radio.flight))
  {
    var r := Exec(net, steps);
    BootIsSound(net, radio);
    RunKeepsSound(net, steps, radio);
    forall k | 0 <= k < |r.air| && IsRelayFrame(r.air[k].frame)
      ensures
        && Faithful(r, r.air[k])
        && (var c := r.air[k];
            var h := Parse(c.src, c.frame).value.hop;
            Original(r, c.tag).at + 5 * h <= c.sentAt <=
            Original(r, c.tag).at + h * (29 + radio.poll + radio.flight))
    {
      RelayIsFaithful(r, r.air[k], radio);
    }
  }
}
