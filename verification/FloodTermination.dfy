// Controlled flooding always terminates: whatever frames are on the air, whatever the topology, loss,
// duplication of paths and interleaving, and without any help from dedup. The argument is the hop
// budget alone, so it also covers frames no conforming node would send (hop 0, or 255 which wraps).
module FloodTermination {
  import opened Bytes
  import opened RelaySpec
  import opened FloodNetwork
  import opened MediaPacket

  // ----- weighted sums over the air and the pending tables -----

  type FrameWeight = (Mac, seq<byte>) -> nat
  type HopWeight = byte -> nat

  function AirSum(w: FrameWeight, air: seq<Copy>): nat {
    if |air| == 0 then 0 else AirSum(w, air[..|air| - 1]) + w(air[|air| - 1].src, air[|air| - 1].frame)
  }

  function SlotWeight(v: HopWeight, p: Pending): nat {
    if p.active then v(p.hop) else 0
  }

  function TableSum(v: HopWeight, ps: seq<Pending>): nat {
    if |ps| == 0 then 0 else TableSum(v, ps[..|ps| - 1]) + SlotWeight(v, ps[|ps| - 1])
  }

  function FleetSum(v: HopWeight, nodes: seq<Node>): nat {
    if |nodes| == 0 then 0 else
      FleetSum(v, nodes[..|nodes| - 1]) + TableSum(v, nodes[|nodes| - 1].tables.pending)
  }

  /** k * x by repeated addition, which is all the argument needs. */
  function Times(k: nat, x: nat): nat {
    if k == 0 then 0 else Times(k - 1, x) + x
  }

  lemma TimesNext(k: nat, x: nat)
    ensures Times(k + 1, x) == x + Times(k, x)
  {
  }

  lemma {:induction false} TimesIsProduct(k: nat, x: nat)
    ensures Times(k, x) == k * x
  {
    if k > 0 {
      TimesIsProduct(k - 1, x);
      assert k * x == (k - 1) * x + x;
    }
  }

  lemma {:induction false} TimesMonotone(k: nat, x: nat, y: nat)
    requires x <= y
    ensures Times(k, x) <= Times(k, y)
  {
    if k > 0 {
      TimesMonotone(k - 1, x, y);
    }
  }

  lemma {:induction false} AirSumConcat(w: FrameWeight, a: seq<Copy>, b: seq<Copy>)
    ensures AirSum(w, a + b) == AirSum(w, a) + AirSum(w, b)
  {
    if |b| == 0 {
      assert a + b == a;
    } else {
      assert (a + b)[..|a + b| - 1] == a + b[..|b| - 1];
      AirSumConcat(w, a, b[..|b| - 1]);
    }
  }

  lemma {:induction false} AirSumWithout(w: FrameWeight, air: seq<Copy>, k: nat)
    requires k < |air|
    ensures AirSum(w, Without(air, k)) + w(air[k].src, air[k].frame) == AirSum(w, air)
  {
    var last := |air| - 1;
    if k == last {
      assert Without(air, k) == air[..last];
    } else {
      assert Without(air, k)[..last - 1] == Without(air[..last], k);
      AirSumWithout(w, air[..last], k);
    }
  }

  lemma AirSumOne(w: FrameWeight, air: seq<Copy>, c: Copy)
    ensures AirSum(w, air + [c]) == AirSum(w, air) + w(c.src, c.frame)
  {
    assert (air + [c])[..|air|] == air;
  }

  lemma {:induction false} BroadcastSum(w: FrameWeight, n: nat, sender: nat, c: Copy)
    ensures AirSum(w, Broadcast(n, sender, c)) == Times(|Broadcast(n, sender, c)|, w(c.src, c.frame))
  {
    if n > 0 {
      var init, all := Broadcast(n - 1, sender, c), Broadcast(n, sender, c);
      BroadcastSum(w, n - 1, sender, c);
      if n - 1 == sender {
        assert all == init;
      } else {
        AirSumOne(w, init, c.(to := n - 1));
        TimesNext(|init|, w(c.src, c.frame));
      }
    }
  }

  lemma {:induction false} TableSumUpdate(v: HopWeight, ps: seq<Pending>, k: nat, p: Pending)
    requires k < |ps|
    ensures TableSum(v, ps[k := p]) + SlotWeight(v, ps[k]) == TableSum(v, ps) + SlotWeight(v, p)
  {
    var last := |ps| - 1;
    if k == last {
      assert ps[k := p][..last] == ps[..last];
    } else {
      assert ps[k := p][..last] == ps[..last][k := p];
      TableSumUpdate(v, ps[..last], k, p);
    }
  }

  lemma {:induction false} TableSumSuppress(v: HopWeight, ps: seq<Pending>, origin: Mac, seqNo: word)
    ensures TableSum(v, Suppress(ps, origin, seqNo)) <= TableSum(v, ps)
  {
    if |ps| > 0 {
      var last := |ps| - 1;
      assert Suppress(ps, origin, seqNo)[..last] == Suppress(ps[..last], origin, seqNo);
      TableSumSuppress(v, ps[..last], origin, seqNo);
    }
  }

  lemma {:induction false} TableSumIdle(v: HopWeight, ps: seq<Pending>)
    requires forall k :: 0 <= k < |ps| ==> !ps[k].active
    ensures TableSum(v, ps) == 0
  {
    if |ps| > 0 {
      TableSumIdle(v, ps[..|ps| - 1]);
    }
  }

  lemma {:induction false} FleetSumUpdate(v: HopWeight, nodes: seq<Node>, i: nat, node: Node)
    requires i < |nodes|
    ensures FleetSum(v, nodes[i := node]) + TableSum(v, nodes[i].tables.pending) ==
            FleetSum(v, nodes) + TableSum(v, node.tables.pending)
  {
    var last := |nodes| - 1;
    if i == last {
      assert nodes[i := node][..last] == nodes[..last];
    } else {
      assert nodes[i := node][..last] == nodes[..last][i := node];
      FleetSumUpdate(v, nodes[..last], i, node);
    }
  }

  lemma {:induction false} FleetSumBoot(v: HopWeight, nodes: seq<Node>)
    requires forall i :: 0 <= i < |nodes| ==> nodes[i].tables == EmptyTables()
    ensures FleetSum(v, nodes) == 0
  {
    if |nodes| > 0 {
      FleetSumBoot(v, nodes[..|nodes| - 1]);
      TableSumIdle(v, nodes[|nodes| - 1].tables.pending);
    }
  }

  // ----- potential -----

  /** Everything one undelivered copy with hop `h` can still cause among `m` listeners per broadcast:
      relay transmissions, plus `unit` for every copy consumed. */
  function CopyCost(unit: nat, m: nat, h: byte): nat
    decreases if NextHop(h) <= MAX_HOPS then 2 * (MAX_HOPS + 1 - NextHop(h)) + 1 else 1
  {
    unit + PendingCost(unit, m, NextHop(h))
  }

  function PendingCost(unit: nat, m: nat, h: byte): nat
    decreases if h <= MAX_HOPS then 2 * (MAX_HOPS + 1 - h) else 0
  {
    if h > MAX_HOPS then 0 else 1 + Times(m, CopyCost(unit, m, h))
  }

  function FrameCost(unit: nat, m: nat, src: Mac, frame: seq<byte>): nat {
    var cand := Parse(src, frame);
    if cand.None? then unit else CopyCost(unit, m, cand.value.hop)
  }

  function FrameCosts(unit: nat, m: nat): FrameWeight {
    (src, frame) => FrameCost(unit, m, src, frame)
  }

  function PendingCosts(unit: nat, m: nat): HopWeight {
    h => PendingCost(unit, m, h)
  }

  ghost function Potential(unit: nat, net: Net): nat
    requires |net.nodes| > 0
  {
    AirSum(FrameCosts(unit, |net.nodes| - 1), net.air) + FleetSum(PendingCosts(unit, |net.nodes| - 1), net.nodes)
  }

  // ----- steps -----

  /** The only fact about the tables the argument needs: nothing waits beyond the hop budget. */
  ghost predicate Budgeted(net: Net)
    requires Shape(net)
  {
    forall i :: 0 <= i < |net.nodes| ==> BudgetedTable(net.nodes[i].tables.pending)
  }

  predicate BudgetedTable(ps: seq<Pending>) {
    forall k :: 0 <= k < |ps| ==> ps[k].active ==> ps[k].hop <= MAX_HOPS
  }

  lemma HearCost(unit: nat, m: nat, node: Node, me: Mac, c: Copy, sendTime: nat)
    requires node.tables.Wf() && |node.tags| == MAX_PENDING_RELAYS && BudgetedTable(node.tables.pending)
    ensures BudgetedTable(Hear(node, me, c, sendTime).tables.pending)
    ensures TableSum(PendingCosts(unit, m), Hear(node, me, c, sendTime).tables.pending) + unit <=
            TableSum(PendingCosts(unit, m), node.tables.pending) + FrameCost(unit, m, c.src, c.frame)
  {
    var v := PendingCosts(unit, m);
    var cand := Parse(c.src, c.frame);
    if cand.Some? && cand.value.origin != me {
      var ps := AfterSuppression(node.tables, cand.value);
      TableSumSuppress(v, node.tables.pending, cand.value.origin, cand.value.seqNo);
      var slot := ScheduleSlot(node.tables, me, cand.value);
      var after := Hear(node, me, c, sendTime).tables.pending;
      if slot.Some? {
        var p := after[slot.value];
        assert after == ps[slot.value := p] && p.hop == NextHop(cand.value.hop) <= MAX_HOPS;
        TableSumUpdate(v, ps, slot.value, p);
      } else {
        assert after == ps;
      }
    }
  }

  lemma EnvelopeCost(unit: nat, m: nat, p: Pending, src: Mac)
    ensures FrameCost(unit, m, src, Envelope(p)) <= CopyCost(unit, m, p.hop)
  {
    if |p.payload| >= MEDIA_SYNC_MIN_LEN {
      EnvelopeRoundTrip(p.origin, p.seqNo, p.hop, p.payload, src);
    }
  }

  /** What a broadcast adds to the air. */
  lemma BroadcastCost(unit: nat, n: nat, sender: nat, air: seq<Copy>, c: Copy)
    requires sender < n
    ensures AirSum(FrameCosts(unit, n - 1), air + Broadcast(n, sender, c)) ==
            AirSum(FrameCosts(unit, n - 1), air) + Times(n - 1, FrameCost(unit, n - 1, c.src, c.frame))
  {
    AirSumConcat(FrameCosts(unit, n - 1), air, Broadcast(n, sender, c));
    BroadcastSum(FrameCosts(unit, n - 1), n, sender, c);
  }

  /** A pending forward pays for its own transmission and for every copy it broadcasts. */
  lemma FireSlotCost(unit: nat, net: Net, i: nat, k: nat, at: nat)
    requires Shape(net) && Budgeted(net) && i < |net.nodes| && k < MAX_PENDING_RELAYS
    ensures Shape(FireSlot(net, i, k, at)) && Budgeted(FireSlot(net, i, k, at))
    ensures Potential(unit, FireSlot(net, i, k, at)) + (if Due(net.nodes[i].tables.pending[k], at) then 1 else 0) <=
            Potential(unit, net)
  {
    var ps := net.nodes[i].tables.pending;
    if Due(ps[k], at) {
      FireSlotCostDue(unit, net, i, k, at, FireSlot(net, i, k, at));
    }
  }

  /** The forwards of the fleet without the one in slot k of node i. */
  lemma FireSlotFrees(v: HopWeight, nodes: seq<Node>, i: nat, k: nat, node: Node)
    requires i < |nodes| && k < |nodes[i].tables.pending| && nodes[i].tables.pending[k].active
    requires
      var ps := nodes[i].tables.pending;
      node.tables.pending == ps[k := ps[k].(active := false)]
    ensures FleetSum(v, nodes[i := node]) + v(nodes[i].tables.pending[k].hop) == FleetSum(v, nodes)
  {
    TableSumUpdate(v, nodes[i].tables.pending, k, nodes[i].tables.pending[k].(active := false));
    FleetSumUpdate(v, nodes, i, node);
  }

  /** The copies of the envelope cost less than the forward did. */
  lemma EnvelopesCost(unit: nat, n: nat, i: nat, air: seq<Copy>, p: Pending, c: Copy)
    requires i < n && c.frame == Envelope(p) && p.hop <= MAX_HOPS
    ensures AirSum(FrameCosts(unit, n - 1), air + Broadcast(n, i, c)) + 1 <=
            AirSum(FrameCosts(unit, n - 1), air) + PendingCost(unit, n - 1, p.hop)
  {
    BroadcastCost(unit, n, i, air, c);
    EnvelopeCost(unit, n - 1, p, c.src);
    TimesMonotone(n - 1, FrameCost(unit, n - 1, c.src, c.frame), CopyCost(unit, n - 1, p.hop));
  }

  lemma FireSlotCostDue(unit: nat, net: Net, i: nat, k: nat, at: nat, after: Net)
    requires Shape(net) && Budgeted(net) && i < |net.nodes| && k < MAX_PENDING_RELAYS
    requires Due(net.nodes[i].tables.pending[k], at) && after == FireSlot(net, i, k, at)
    ensures Potential(unit, after) + 1 <= Potential(unit, net)
  {
    var p := net.nodes[i].tables.pending[k];
    assert BudgetedTable(net.nodes[i].tables.pending);
    FireSlotFrees(PendingCosts(unit, |net.nodes| - 1), net.nodes, i, k, after.nodes[i]);
    EnvelopesCost(unit, |net.nodes|, i, net.air, p, Copy(0, net.macs[i], Envelope(p), at, net.nodes[i].tags[k]));
  }

  lemma {:induction false} FireSlotsCost(unit: nat, net: Net, i: nat, n: nat, at: nat)
    requires Shape(net) && Budgeted(net) && i < |net.nodes| && n <= MAX_PENDING_RELAYS
    ensures Budgeted(FireSlots(net, i, n, at))
    ensures Potential(unit, FireSlots(net, i, n, at)) + |Fired(net.nodes[i].tables.pending, at, n)| <=
            Potential(unit, net)
  {
    if n > 0 {
      FireSlotsCost(unit, net, i, n - 1, at);
      FireSlotCost(unit, FireSlots(net, i, n - 1, at), i, n - 1, at);
    }
  }

  /** Relay transmissions of one step. */
  ghost function Sends(net: Net, s: Step): nat
    requires Shape(net) && CanStep(net, s)
  {
    if s.Poll? then |Fired(net.nodes[s.i].tables.pending, s.at, MAX_PENDING_RELAYS)| else 0
  }

  predicate Consumes(s: Step) {
    s.Deliver? || s.Lose?
  }

  /** The effect on the measure of a step that rewrites one node and the air. */
  lemma OneNodeCost(unit: nat, net: Net, after: Net, i: nat, node: Node)
    requires |net.nodes| > 0 && i < |net.nodes| && after.nodes == net.nodes[i := node]
    ensures
      var w, v := FrameCosts(unit, |net.nodes| - 1), PendingCosts(unit, |net.nodes| - 1);
      Potential(unit, after) + TableSum(v, net.nodes[i].tables.pending) + AirSum(w, net.air) ==
      Potential(unit, net) + TableSum(v, node.tables.pending) + AirSum(w, after.air)
  {
    FleetSumUpdate(PendingCosts(unit, |net.nodes| - 1), net.nodes, i, node);
  }

  lemma OneNodeBudgeted(net: Net, after: Net, i: nat, node: Node)
    requires Shape(net) && Shape(after) && Budgeted(net) && i < |net.nodes| && after.nodes == net.nodes[i := node]
    requires BudgetedTable(node.tables.pending)
    ensures Budgeted(after)
  {
  }

  /** What the copies of a packet nobody has relayed yet may cost. */
  lemma FreshCost(unit: nat, n: nat, sender: nat, air: seq<Copy>, c: Copy)
    requires sender < n && Parse(c.src, c.frame).Some? && Parse(c.src, c.frame).value.hop == 0
    ensures AirSum(FrameCosts(unit, n - 1), air + Broadcast(n, sender, c)) ==
            AirSum(FrameCosts(unit, n - 1), air) + Times(n - 1, CopyCost(unit, n - 1, 0))
  {
    BroadcastCost(unit, n, sender, air, c);
  }

  lemma BroadcastAdds(unit: nat, net: Net, after: Net, i: nat, node: Node, c: Copy)
    requires |net.nodes| > 0 && i < |net.nodes|
    requires after.nodes == net.nodes[i := node] && node.tables == net.nodes[i].tables
    requires after.air == net.air + Broadcast(|net.nodes|, i, c)
    requires Parse(c.src, c.frame).Some? && Parse(c.src, c.frame).value.hop == 0
    ensures Potential(unit, after) ==
            Potential(unit, net) + Times(|net.nodes| - 1, CopyCost(unit, |net.nodes| - 1, 0))
  {
    OneNodeCost(unit, net, after, i, node);
    FreshCost(unit, |net.nodes|, i, net.air, c);
  }

  lemma MintStepCost(unit: nat, net: Net, s: Step)
    requires Shape(net) && Budgeted(net) && CanStep(net, s) && s.Mint?
    ensures Budgeted(Next(net, s))
    ensures Potential(unit, Next(net, s)) ==
            Potential(unit, net) + Times(|net.nodes| - 1, CopyCost(unit, |net.nodes| - 1, 0))
  {
    var idx := |net.nodes[s.i].minted|;
    var frame := MediaFrame(s.media, SeqOf(idx));
    MintedHopIsZero(net.macs[s.i], s.media, SeqOf(idx));
    var after := Next(net, s);
    assert BudgetedTable(net.nodes[s.i].tables.pending);
    OneNodeBudgeted(net, after, s.i, after.nodes[s.i]);
    BroadcastAdds(unit, net, after, s.i, after.nodes[s.i], Copy(0, net.macs[s.i], frame, s.at, Tag(s.i, idx)));
  }

  lemma MintedHopIsZero(src: Mac, media: Media, seqNo: word)
    ensures Parse(src, MediaFrame(media, seqNo)).Some? && Parse(src, MediaFrame(media, seqNo)).value.hop == 0
  {
  }

  lemma DeliverStepCost(unit: nat, net: Net, s: Step)
    requires Shape(net) && Budgeted(net) && CanStep(net, s) && s.Deliver?
    ensures Budgeted(Next(net, s))
    ensures Potential(unit, Next(net, s)) + unit <= Potential(unit, net)
  {
    var c := net.air[s.k];
    var heard := Hear(net.nodes[c.to], net.macs[c.to], c, s.at + s.delay);
    assert BudgetedTable(net.nodes[c.to].tables.pending);
    HearCost(unit, |net.nodes| - 1, net.nodes[c.to], net.macs[c.to], c, s.at + s.delay);
    OneNodeBudgeted(net, Next(net, s), c.to, heard);
    OneNodeCost(unit, net, Next(net, s), c.to, heard);
    AirSumWithout(FrameCosts(unit, |net.nodes| - 1), net.air, s.k);
    assert FrameCosts(unit, |net.nodes| - 1)(c.src, c.frame) == FrameCost(unit, |net.nodes| - 1, c.src, c.frame);
  }

  lemma LoseStepCost(unit: nat, net: Net, s: Step)
    requires Shape(net) && Budgeted(net) && CanStep(net, s) && s.Lose? && |net.nodes| > 0
    ensures Budgeted(Next(net, s))
    ensures Potential(unit, Next(net, s)) + unit <= Potential(unit, net)
  {
    AirSumWithout(FrameCosts(unit, |net.nodes| - 1), net.air, s.k);
    assert unit <= FrameCost(unit, |net.nodes| - 1, net.air[s.k].src, net.air[s.k].frame);
  }

  lemma PollStepCost(unit: nat, net: Net, s: Step)
    requires Shape(net) && Budgeted(net) && CanStep(net, s) && s.Poll?
    ensures Budgeted(Next(net, s))
    ensures Potential(unit, Next(net, s)) + Sends(net, s) <= Potential(unit, net)
  {
    var fired := FireSlots(net, s.i, MAX_PENDING_RELAYS, s.at);
    FireSlotsCost(unit, net, s.i, MAX_PENDING_RELAYS, s.at);
    assert BudgetedTable(fired.nodes[s.i].tables.pending);
    OneNodeBudgeted(fired, Next(net, s), s.i, fired.nodes[s.i].(lastPoll := s.at));
    OneNodeCost(unit, fired, Next(net, s), s.i, fired.nodes[s.i].(lastPoll := s.at));
  }

  function MintBudget(unit: nat, n: nat, s: Step): nat
    requires n > 0
  {
    if s.Mint? then Times(n - 1, CopyCost(unit, n - 1, 0)) else 0
  }

  lemma StepCost(unit: nat, net: Net, s: Step)
    requires Shape(net) && Budgeted(net) && CanStep(net, s) && |net.nodes| > 0
    ensures Budgeted(Next(net, s))
    ensures Potential(unit, Next(net, s)) + Sends(net, s) + (if Consumes(s) then unit else 0) <=
            Potential(unit, net) + MintBudget(unit, |net.nodes|, s)
  {
    match s
    case Mint(_, _, _) => MintStepCost(unit, net, s);
    case Deliver(_, _, _) => DeliverStepCost(unit, net, s);
    case Lose(_) => LoseStepCost(unit, net, s);
    case Poll(_, _) => PollStepCost(unit, net, s);
  }

  /** Termination measure: every delivery, loss, suppression and firing poll strictly decreases it;
      only a mint or an idle poll can leave it where it is. */
  lemma StepDecreases(net: Net, s: Step)
    requires Shape(net) && Budgeted(net) && CanStep(net, s) && |net.nodes| > 0
    requires s.Deliver? || s.Lose? || (s.Poll? && Sends(net, s) > 0)
    ensures Potential(1, Next(net, s)) < Potential(1, net)
  {
    StepCost(1, net, s);
  }

  // ----- runs -----

  function Mints(steps: seq<Step>): nat {
    if |steps| == 0 then 0 else (if steps[0].Mint? then 1 else 0) + Mints(steps[1..])
  }

  function Consumed(steps: seq<Step>): nat {
    if |steps| == 0 then 0 else (if Consumes(steps[0]) then 1 else 0) + Consumed(steps[1..])
  }

  ghost function Transmissions(net: Net, steps: seq<Step>): nat
    requires Shape(net) && Run(net, steps)
    decreases |steps|
  {
    if |steps| == 0 then 0 else Sends(net, steps[0]) + Transmissions(Next(net, steps[0]), steps[1..])
  }

  /** What the mints of a run may spend, and what its deliveries and losses are charged. */
  function Budget(unit: nat, n: nat, steps: seq<Step>): nat
    requires n > 0
  {
    if |steps| == 0 then 0 else MintBudget(unit, n, steps[0]) + Budget(unit, n, steps[1..])
  }

  function Charges(unit: nat, steps: seq<Step>): nat {
    if |steps| == 0 then 0 else (if Consumes(steps[0]) then unit else 0) + Charges(unit, steps[1..])
  }

  lemma {:induction false} RunCost(unit: nat, net: Net, steps: seq<Step>)
    requires Shape(net) && Budgeted(net) && |net.nodes| > 0 && Run(net, steps)
    ensures Potential(unit, Exec(net, steps)) + Transmissions(net, steps) + Charges(unit, steps) <=
            Potential(unit, net) + Budget(unit, |net.nodes|, steps)
    decreases |steps|
  {
    if |steps| > 0 {
      StepCost(unit, net, steps[0]);
      RunCost(unit, Next(net, steps[0]), steps[1..]);
    }
  }

  lemma {:induction false} BudgetOfMints(unit: nat, n: nat, steps: seq<Step>)
    requires n > 0
    ensures Budget(unit, n, steps) == Times(Mints(steps), Times(n - 1, CopyCost(unit, n - 1, 0)))
  {
    if |steps| > 0 {
      BudgetOfMints(unit, n, steps[1..]);
      TimesNext(Mints(steps[1..]), Times(n - 1, CopyCost(unit, n - 1, 0)));
    }
  }

  lemma {:induction false} ChargesAreConsumed(steps: seq<Step>)
    ensures Charges(1, steps) == Consumed(steps)
  {
    if |steps| > 0 {
      ChargesAreConsumed(steps[1..]);
    }
  }

  /** Without new mints a run makes at most Potential(1) deliveries, losses and transmissions together. */
  lemma FloodingTerminates(net: Net, steps: seq<Step>)
    requires Shape(net) && Budgeted(net) && |net.nodes| > 0 && Run(net, steps) && Mints(steps) == 0
    ensures Transmissions(net, steps) + Consumed(steps) <= Potential(1, net)
  {
    RunCost(1, net, steps);
    ChargesAreConsumed(steps);
    BudgetOfMints(1, |net.nodes|, steps);
  }

  lemma MintCost(m: nat)
    ensures CopyCost(0, m, 0) == 1 + m + m * m
  {
    TimesIsProduct(m, 0);
    TimesIsProduct(m, 1);
    TimesIsProduct(m, 1 + m);
    assert CopyCost(0, m, 3) == 0;
    assert CopyCost(0, m, 2) == 1;
    assert CopyCost(0, m, 1) == 1 + m;
    assert m * (1 + m) == m + m * m;
  }

  lemma BootPotential(net: Net)
    requires Boot(net) && Shape(net) && |net.nodes| > 0
    ensures Budgeted(net) && Potential(0, net) == 0
  {
    FleetSumBoot(PendingCosts(0, |net.nodes| - 1), net.nodes);
  }

  /** At most this many relay transmissions per minted packet in a fleet of m + 1 nodes. */
  function RelayBudget(m: nat): nat {
    m + m * m + m * m * m
  }

  lemma BudgetPerMint(m: nat, mints: nat)
    ensures Times(mints, Times(m, CopyCost(0, m, 0))) == mints * RelayBudget(m)
  {
    MintCost(m);
    TimesIsProduct(m, 1 + m + m * m);
    assert m * (1 + m + m * m) == RelayBudget(m);
    TimesIsProduct(mints, RelayBudget(m));
  }

  lemma BootBudget(n: nat, steps: seq<Step>)
    requires n > 0
    ensures Budget(0, n, steps) == Mints(steps) * RelayBudget(n - 1)
  {
    BudgetOfMints(0, n, steps);
    BudgetPerMint(n - 1, Mints(steps));
  }

  lemma BootRunCost(net: Net, steps: seq<Step>)
    requires Boot(net) && Shape(net) && |net.nodes| > 0 && Run(net, steps)
    ensures Transmissions(net, steps) <= Budget(0, |net.nodes|, steps)
  {
    BootPotential(net);
    RunCost(0, net, steps);
  }

  /** From boot, k mints cost at most k * (m + m^2 + m^3) relay transmissions, over any run. */
  lemma RelaysPerMint(net: Net, steps: seq<Step>)
    requires Boot(net) && Shape(net) && |net.nodes| > 0 && Run(net, steps)
    ensures Transmissions(net, steps) <= Mints(steps) * RelayBudget(|net.nodes| - 1)
  {
    BootRunCost(net, steps);
    BootBudget(|net.nodes|, steps);
  }
}
