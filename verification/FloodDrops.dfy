// What ends a waiting forward: the first poll after its delay, or a relay of the same packet by somebody else.
module FloodDrops {
  import opened Bytes
  import opened RelaySpec
  import opened FloodNetwork
  import opened FloodProvenance
  import opened FloodSends

  // ----- one step -----

  /** The candidate is somebody's relay of the packet that waits in `p`. */
  predicate RelayOf(c: Candidate, p: Pending) {
    c.isRelay && c.origin == p.origin && c.seqNo == p.seqNo
  }

  /** A candidate from somebody else leaves every waiting forward alone, except those of the packet it relays: these are
      dropped, their slots idle or taken by the candidate itself. */
  lemma SuppressesExactly(t: Tables, me: Mac, c: Candidate, sendTime: nat, k: nat)
    requires t.Wf() && k < MAX_PENDING_RELAYS && t.pending[k].active && c.origin != me
    ensures
      var q := HandleCandidate(t, me, c, sendTime).pending[k];
      if RelayOf(c, t.pending[k]) then !q.active || ScheduleSlot(t, me, c) == Some(k) else q == t.pending[k]
  {
  }

  /** What a step does to the forward waiting in slot k of node j. */
  lemma ForwardEnds(net: Net, s: Step, j: nat, k: nat)
    requires Shape(net) && CanStep(net, s) && j < |net.nodes| && k < MAX_PENDING_RELAYS
    requires net.nodes[j].tables.pending[k].active
    ensures
      var p, q := net.nodes[j].tables.pending[k], Next(net, s).nodes[j].tables.pending[k];
      match s
      case Poll(i, at) => q == if i == j && p.sendTime <= at then p.(active := false) else p
      case Deliver(n, _, _) =>
        !q.active ==>
          && net.air[n].to == j && Parse(net.air[n].src, net.air[n].frame).Some?
          && RelayOf(Parse(net.air[n].src, net.air[n].frame).value, p)
      case Mint(_, _, _) => q == p
      case Lose(_) => q == p
  {
    match s
    case Deliver(n, delay, at) =>
      var c := net.air[n];
      var cand := Parse(c.src, c.frame);
      if c.to == j && cand.Some? && cand.value.origin != net.macs[j] {
        SuppressesExactly(net.nodes[j].tables, net.macs[j], cand.value, at + delay, k);
      }
    case Poll(i, at) => PollSendsFired(net, i, MAX_PENDING_RELAYS, at);
    case Mint(_, _, _) =>
    case Lose(_) =>
  }

  // ----- whole runs -----

  /** Up to the 16 bits of a seq. */
  predicate SamePacket(a: Tag, b: Tag) {
    a.owner == b.owner && SeqOf(a.idx) == SeqOf(b.idx)
  }

  ghost predicate HearsRelay(net: Net, s: Step, j: nat, t: Tag)
    requires Shape(net) && CanStep(net, s)
  {
    s.Deliver? && net.air[s.k].to == j && IsRelayFrame(net.air[s.k].frame) && SamePacket(net.air[s.k].tag, t)
  }

  /** Somebody's relay of packet t reaches node j in the run. */
  ghost predicate HearsRelayIn(net: Net, steps: seq<Step>, j: nat, t: Tag)
    requires Shape(net) && Run(net, steps)
    decreases |steps|
  {
    |steps| > 0 && (HearsRelay(net, steps[0], j, t) || HearsRelayIn(Next(net, steps[0]), steps[1..], j, t))
  }

  lemma {:induction false} DropsFind(ps: seq<Pending>, tags: seq<Tag>, t: Tag, origin: Mac, seqNo: word, n: nat)
    returns (k: nat)
    requires n <= |ps| && n <= |tags| && Drops(ps, tags, t, origin, seqNo, n) > 0
    ensures k < n && ps[k].active && tags[k] == t && IsFor(ps[k], origin, seqNo)
  {
    if IsFor(ps[n - 1], origin, seqNo) && tags[n - 1] == t {
      k := n - 1;
    } else {
      k := DropsFind(ps, tags, t, origin, seqNo, n - 1);
    }
  }

  lemma DropNeedsRelay(net: Net, s: Step, radio: Radio, j: nat, t: Tag)
    requires Shape(net) && Sound(net, radio) && CanStep(net, s) && j < |net.nodes| && DropsIn(net, s, j, t) > 0
    ensures HearsRelay(net, s, j, t)
  {
    var c, n := net.air[s.k], net.nodes[j];
    assert CopyOk(net, c, radio) && NodeOk(net, j, radio);
    CopyOffers(net, c, radio);
    var cand := Parse(c.src, c.frame).value;
    var k := DropsFind(n.tables.pending, n.tags, t, cand.origin, cand.seqNo, MAX_PENDING_RELAYS);
    assert PendingOk(net, j, n.tables.pending[k], t, radio);
    assert net.macs[c.tag.owner] == net.macs[t.owner];
  }

  lemma {:induction false} DropsNeedRelays(net: Net, steps: seq<Step>, radio: Radio, j: nat, t: Tag)
    requires Shape(net) && Sound(net, radio) && Run(net, steps) && TimedRun(net, steps, radio) && j < |net.nodes|
    ensures TimesDropped(net, steps, j, t) > 0 ==> HearsRelayIn(net, steps, j, t)
    decreases |steps|
  {
    if |steps| > 0 {
      if DropsIn(net, steps[0], j, t) > 0 {
        DropNeedsRelay(net, steps[0], radio, j, t);
      }
      StepKeepsSound(net, steps[0], radio);
      DropsNeedRelays(Next(net, steps[0]), steps[1..], radio, j, t);
    }
  }

  /** Over every run from boot: a node drops a forward only if somebody else's relay of that very packet reached it. */
  lemma OnlyRelaysSuppress(net: Net, steps: seq<Step>, j: nat, t: Tag)
    requires Boot(net) && Shape(net) && Run(net, steps) && j < |net.nodes|
    ensures TimesDropped(net, steps, j, t) > 0 ==> HearsRelayIn(net, steps, j, t)
  {
    var radio := Radio(Exec(net, steps).now, Exec(net, steps).now);
    EveryRunIsTimed(net, steps);
    BootIsSound(net, radio);
    DropsNeedRelays(net, steps, radio, j, t);
  }

  // ----- a forward nobody else relays is sent -----

  /** No forward waits longer than the longest delay. */
  ghost predicate Soon(net: Net)
    requires Shape(net)
  {
    forall j, k :: 0 <= j < |net.nodes| && 0 <= k < MAX_PENDING_RELAYS && net.nodes[j].tables.pending[k].active ==>
      net.nodes[j].tables.pending[k].sendTime <= net.now + 30
  }

  lemma HearSoon(n: Node, me: Mac, c: Copy, sendTime: nat, k: nat)
    requires n.tables.Wf() && |n.tags| == MAX_PENDING_RELAYS && k < MAX_PENDING_RELAYS
    ensures
      var q := Hear(n, me, c, sendTime).tables.pending[k];
      q.active ==> q.sendTime == sendTime || (n.tables.pending[k].active && q == n.tables.pending[k])
  {
  }

  lemma SlotSoon(net: Net, s: Step, j: nat, k: nat)
    requires Shape(net) && Soon(net) && CanStep(net, s) && j < |net.nodes| && k < MAX_PENDING_RELAYS
    ensures
      var q := Next(net, s).nodes[j].tables.pending[k];
      q.active ==> q.sendTime <= Next(net, s).now + 30
  {
    if s.Deliver? && net.air[s.k].to == j {
      HearSoon(net.nodes[j], net.macs[j], net.air[s.k], s.at + s.delay, k);
    } else if s.Poll? {
      PollSendsFired(net, s.i, MAX_PENDING_RELAYS, s.at);
    }
  }

  lemma StepSoon(net: Net, s: Step)
    requires Shape(net) && Soon(net) && CanStep(net, s)
    ensures Soon(Next(net, s))
  {
    var next := Next(net, s);
    forall j, k | 0 <= j < |net.nodes| && 0 <= k < MAX_PENDING_RELAYS && next.nodes[j].tables.pending[k].active
      ensures next.nodes[j].tables.pending[k].sendTime <= next.now + 30
    {
      SlotSoon(net, s, j, k);
    }
  }

  lemma {:induction false} RunSoon(net: Net, steps: seq<Step>)
    requires Shape(net) && Soon(net) && Run(net, steps)
    ensures Soon(Exec(net, steps))
    decreases |steps|
  {
    if |steps| > 0 {
      StepSoon(net, steps[0]);
      RunSoon(Next(net, steps[0]), steps[1..]);
    }
  }

  lemma {:induction false} NoneWaitFor(ps: seq<Pending>, tags: seq<Tag>, t: Tag, n: nat)
    requires n <= |ps| && n <= |tags| && forall k :: 0 <= k < n ==> !(ps[k].active && tags[k] == t)
    ensures Waits(ps, tags, t, n) == 0
  {
    if n > 0 {
      NoneWaitFor(ps, tags, t, n - 1);
    }
  }

  /** Over every run from boot: a packet of which node j hears nobody's relay has been sent by j as often as j scheduled
      it, once j polls after its delay, which is at most 30 ms. */
  lemma UnrelayedIsSent(net: Net, steps: seq<Step>, j: nat, t: Tag, at: nat)
    requires Boot(net) && Shape(net) && Run(net, steps) && j < |net.nodes| && !HearsRelayIn(net, steps, j, t)
    requires Exec(net, steps).now <= at
    requires
      var n := Exec(net, steps).nodes[j];
      forall k :: 0 <= k < MAX_PENDING_RELAYS && n.tables.pending[k].active && n.tags[k] == t ==>
        n.tables.pending[k].sendTime <= at
    ensures
      var r := Exec(net, steps);
      var polled := Next(r, Poll(j, at)).nodes[j];
      polled.sent[t] == polled.scheduled[t] == r.nodes[j].scheduled[t]
  {
    OnlyRelaysSuppress(net, steps, j, t);
    ForwardsAreConserved(net, steps, j, t);
    var r := Exec(net, steps);
    var polled := Next(r, Poll(j, at)).nodes[j];
    StepBalances(r, Poll(j, at), j, t);
    PollBalances(r, j, MAX_PENDING_RELAYS, at, t);
    NoneWaitFor(polled.tables.pending, polled.tags, t, MAX_PENDING_RELAYS);
  }

  lemma DelayIsShort(net: Net, steps: seq<Step>, j: nat, k: nat)
    requires Boot(net) && Shape(net) && Run(net, steps) && j < |net.nodes| && k < MAX_PENDING_RELAYS
    ensures
      var p := Exec(net, steps).nodes[j].tables.pending[k];
      p.active ==> p.sendTime <= Exec(net, steps).now + 30
  {
    forall i | 0 <= i < |net.nodes| ensures FreshNode(net.nodes[i], net.now) {
    }
    RunSoon(net, steps);
  }
}
