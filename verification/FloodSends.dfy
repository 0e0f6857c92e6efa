// What becomes of the forwards a node schedules, over every run; and from boot, when a node sends a packet twice.
module FloodSends {
  import opened Bytes
  import opened RelaySpec
  import opened FloodNetwork
  import opened FloodProvenance
  import opened MediaPacket
  import opened FloodOnce
  import opened FloodLatency
  import opened FloodDedup

  // ----- every scheduled forward is sent, dropped or still waiting -----

  /** Forwards of packet t waiting in the first k slots. */
  function Waits(ps: seq<Pending>, tags: seq<Tag>, t: Tag, k: nat): nat
    requires k <= |ps| && k <= |tags|
  {
    if k == 0 then 0 else Waits(ps, tags, t, k - 1) + if ps[k - 1].active && tags[k - 1] == t then 1 else 0
  }

  /** Those of them that a relayed copy of (origin, seqNo) suppresses. */
  function Drops(ps: seq<Pending>, tags: seq<Tag>, t: Tag, origin: Mac, seqNo: word, k: nat): nat
    requires k <= |ps| && k <= |tags|
  {
    if k == 0 then 0
    else Drops(ps, tags, t, origin, seqNo, k - 1) + if IsFor(ps[k - 1], origin, seqNo) && tags[k - 1] == t then 1 else 0
  }

  lemma {:induction false} SuppressCounts(ps: seq<Pending>, tags: seq<Tag>, t: Tag, origin: Mac, seqNo: word, k: nat)
    requires k <= |ps| && k <= |tags|
    ensures Waits(Suppress(ps, origin, seqNo), tags, t, k) + Drops(ps, tags, t, origin, seqNo, k) ==
            Waits(ps, tags, t, k)
  {
    if k > 0 {
      SuppressCounts(ps, tags, t, origin, seqNo, k - 1);
    }
  }

  lemma {:induction false} WriteCounts(ps: seq<Pending>, tags: seq<Tag>, t: Tag, s: nat, p: Pending, u: Tag, k: nat)
    requires k <= |ps| == |tags| && s < |ps|
    ensures Waits(ps[s := p], tags[s := u], t, k) + (if s < k && ps[s].active && tags[s] == t then 1 else 0) ==
            Waits(ps, tags, t, k) + if s < k && p.active && u == t then 1 else 0
  {
    if k > 0 {
      WriteCounts(ps, tags, t, s, p, u, k - 1);
    }
  }

  ghost function WaitsFor(n: Node, t: Tag): nat
    requires n.tables.Wf() && |n.tags| == MAX_PENDING_RELAYS
  {
    Waits(n.tables.pending, n.tags, t, MAX_PENDING_RELAYS)
  }

  /** How many forwards of t copy c makes the node drop. */
  ghost function DropsFor(n: Node, me: Mac, c: Copy, t: Tag): nat
    requires n.tables.Wf() && |n.tags| == MAX_PENDING_RELAYS
  {
    var cand := Parse(c.src, c.frame);
    if cand.None? || cand.value.origin == me || !cand.value.isRelay then 0
    else Drops(n.tables.pending, n.tags, t, cand.value.origin, cand.value.seqNo, MAX_PENDING_RELAYS)
  }

  lemma HearBalances(n: Node, me: Mac, c: Copy, sendTime: nat, t: Tag)
    requires n.tables.Wf() && |n.tags| == MAX_PENDING_RELAYS
    ensures
      var r := Hear(n, me, c, sendTime);
      r.sent == n.sent && r.scheduled[t] + WaitsFor(n, t) == n.scheduled[t] + WaitsFor(r, t) + DropsFor(n, me, c, t)
  {
    var cand := Parse(c.src, c.frame);
    if cand.Some? && cand.value.origin != me {
      var ps, slot := AfterSuppression(n.tables, cand.value), ScheduleSlot(n.tables, me, cand.value);
      if cand.value.isRelay {
        SuppressCounts(n.tables.pending, n.tags, t, cand.value.origin, cand.value.seqNo, MAX_PENDING_RELAYS);
      }
      if slot.Some? {
        WriteCounts(ps, n.tags, t, slot.value, Hear(n, me, c, sendTime).tables.pending[slot.value], c.tag,
                    MAX_PENDING_RELAYS);
      }
    }
  }

  lemma FireBalances(net: Net, i: nat, k: nat, at: nat, t: Tag)
    requires Shape(net) && i < |net.nodes| && k < MAX_PENDING_RELAYS
    ensures
      var n, r := net.nodes[i], FireSlot(net, i, k, at).nodes[i];
      && r.tables.Wf() && r.tags == n.tags && r.scheduled == n.scheduled
      && r.sent[t] + WaitsFor(r, t) == n.sent[t] + WaitsFor(n, t)
  {
    var n := net.nodes[i];
    var p := n.tables.pending[k];
    WriteCounts(n.tables.pending, n.tags, t, k, p.(active := false), n.tags[k], MAX_PENDING_RELAYS);
    assert n.tags[k := n.tags[k]] == n.tags;
  }

  lemma {:induction false} PollBalances(net: Net, i: nat, n: nat, at: nat, t: Tag)
    requires Shape(net) && i < |net.nodes| && n <= MAX_PENDING_RELAYS
    ensures
      var a, b := net.nodes[i], FireSlots(net, i, n, at).nodes[i];
      b.scheduled == a.scheduled && b.sent[t] + WaitsFor(b, t) == a.sent[t] + WaitsFor(a, t)
  {
    if n > 0 {
      PollBalances(net, i, n - 1, at, t);
      FireBalances(FireSlots(net, i, n - 1, at), i, n - 1, at, t);
    }
  }

  ghost function DropsIn(net: Net, s: Step, j: nat, t: Tag): nat
    requires Shape(net) && CanStep(net, s)
  {
    if s.Deliver? && net.air[s.k].to == j then DropsFor(net.nodes[j], net.macs[j], net.air[s.k], t) else 0
  }

  /** How many forwards of t node j drops over a run because it hears somebody else's. */
  ghost function TimesDropped(net: Net, steps: seq<Step>, j: nat, t: Tag): nat
    requires Shape(net) && Run(net, steps)
    decreases |steps|
  {
    if |steps| == 0 then 0
    else DropsIn(net, steps[0], j, t) + TimesDropped(Next(net, steps[0]), steps[1..], j, t)
  }

  lemma StepBalances(net: Net, s: Step, j: nat, t: Tag)
    requires Shape(net) && CanStep(net, s) && j < |net.nodes|
    ensures
      var n, r := net.nodes[j], Next(net, s).nodes[j];
      r.scheduled[t] + n.sent[t] + WaitsFor(n, t) ==
      n.scheduled[t] + r.sent[t] + WaitsFor(r, t) + DropsIn(net, s, j, t)
  {
    match s
    case Deliver(k, delay, at) =>
      if net.air[k].to == j {
        HearBalances(net.nodes[j], net.macs[j], net.air[k], at + delay, t);
      }
    case Poll(i, at) =>
      PollSendsFired(net, i, MAX_PENDING_RELAYS, at);
      PollBalances(net, i, MAX_PENDING_RELAYS, at, t);
    case Mint(_, _, _) =>
    case Lose(_) =>
  }

  lemma {:induction false} RunBalances(net: Net, steps: seq<Step>, j: nat, t: Tag)
    requires Shape(net) && Run(net, steps) && j < |net.nodes|
    ensures
      var n, r := net.nodes[j], Exec(net, steps).nodes[j];
      r.scheduled[t] + n.sent[t] + WaitsFor(n, t) ==
      n.scheduled[t] + r.sent[t] + WaitsFor(r, t) + TimesDropped(net, steps, j, t)
    decreases |steps|
  {
    if |steps| > 0 {
      StepBalances(net, steps[0], j, t);
      RunBalances(Next(net, steps[0]), steps[1..], j, t);
    }
  }

  lemma {:induction false} NoneWait(ps: seq<Pending>, tags: seq<Tag>, t: Tag, k: nat)
    requires k <= |ps| && k <= |tags| && forall i :: 0 <= i < |ps| ==> !ps[i].active
    ensures Waits(ps, tags, t, k) == 0
  {
    if k > 0 {
      NoneWait(ps, tags, t, k - 1);
    }
  }

  /** Over every run from boot, for every node and packet: each forward it scheduled was sent, was dropped because the
      node heard somebody else relay it, or is still waiting. */
  lemma ForwardsAreConserved(net: Net, steps: seq<Step>, j: nat, t: Tag)
    requires Boot(net) && Shape(net) && Run(net, steps) && j < |net.nodes|
    ensures
      var r := Exec(net, steps).nodes[j];
      r.scheduled[t] == r.sent[t] + TimesDropped(net, steps, j, t) + WaitsFor(r, t)
  {
    assert FreshNode(net.nodes[j], net.now);
    NoneWait(net.nodes[j].tables.pending, net.nodes[j].tags, t, MAX_PENDING_RELAYS);
    RunBalances(net, steps, j, t);
  }

  // ----- one listener, in runs from boot -----

  /** The steps lead from `net` to `end`; the listener, node 0, hears `hs`, in mint order if `ordered`. */
  ghost predicate Leads(net: Net, steps: seq<Step>, end: Net, hs: seq<Tag>, ordered: bool) {
    && Shape(net) && Run(net, steps) && Exec(net, steps) == end && FloodDedup.Heard(net, steps, 0) == hs
    && (ordered ==> OrderedRun(net, steps))
  }

  lemma LeadsNext(net: Net, s: Step, ordered: bool)
    requires Shape(net) && CanStep(net, s) && (ordered ==> InOrder(net, s))
    ensures Leads(net, [s], Next(net, s), HeardBy(net, s, 0), ordered)
  {
    assert [s][1..] == [];
    assert Run(Next(net, s), []) && OrderedRun(Next(net, s), []) && FloodDedup.Heard(Next(net, s), [], 0) == [];
  }

  lemma LeadsFirst(a: Net, steps: seq<Step>, end: Net, hs: seq<Tag>, ordered: bool) returns (rest: seq<Tag>)
    requires Leads(a, steps, end, hs, ordered) && |steps| > 0
    ensures CanStep(a, steps[0]) && Leads(Next(a, steps[0]), steps[1..], end, rest, ordered)
    ensures hs == HeardBy(a, steps[0], 0) + rest && (ordered ==> InOrder(a, steps[0]))
  {
    rest := FloodDedup.Heard(Next(a, steps[0]), steps[1..], 0);
  }

  lemma LeadsBefore(a: Net, s: Step, rest: seq<Step>, end: Net, hs: seq<Tag>, ordered: bool)
    requires Shape(a) && CanStep(a, s) && Leads(Next(a, s), rest, end, hs, ordered) && (ordered ==> InOrder(a, s))
    ensures Leads(a, [s] + rest, end, HeardBy(a, s, 0) + hs, ordered)
  {
    assert ([s] + rest)[1..] == rest;
  }

  lemma LeadsNowhere(a: Net, b: Net, second: seq<Step>, c: Net, hs: seq<Tag>, more: seq<Tag>, ordered: bool)
    requires Leads(a, [], b, hs, ordered) && Leads(b, second, c, more, ordered)
    ensures Leads(a, [] + second, c, hs + more, ordered)
  {
    assert [] + second == second && hs + more == more;
  }

  lemma Regroup<T>(a: seq<T>, b: seq<T>, c: seq<T>)
    ensures a + (b + c) == a + b + c
  {
  }

  lemma {:induction false} LeadsThen(a: Net, first: seq<Step>, b: Net, second: seq<Step>, c: Net, hs: seq<Tag>,
                                     more: seq<Tag>, ordered: bool)
    requires Leads(a, first, b, hs, ordered) && Leads(b, second, c, more, ordered)
    ensures Leads(a, first + second, c, hs + more, ordered)
    decreases |first|
  {
    if |first| == 0 {
      assert first == [];
      LeadsNowhere(a, b, second, c, hs, more, ordered);
    } else {
      var s, later := first[0], first[1..];
      var rest := LeadsFirst(a, first, b, hs, ordered);
      LeadsThen(Next(a, s), later, b, second, c, rest, more, ordered);
      LeadsBefore(a, s, later + second, c, rest + more, ordered);
      Regroup([s], later, second);
      Regroup(HeardBy(a, s, 0), rest, more);
      assert first == [s] + later;
    }
  }

  lemma LeadsWeakens(a: Net, steps: seq<Step>, end: Net, hs: seq<Tag>, ordered: bool)
    requires Leads(a, steps, end, hs, true)
    ensures Leads(a, steps, end, hs, ordered)
  {
  }

  ghost predicate Idle(n: Node) {
    forall k :: 0 <= k < |n.tables.pending| ==> !n.tables.pending[k].active
  }

  /** The listener has nothing to send, and knows no packet that was not minted. */
  ghost predicate Ready(net: Net) {
    Shape(net) && |net.nodes| >= 3 && DistinctMacs(net.macs) && Idle(net.nodes[0]) && KnowsMinted(net)
  }

  ghost predicate KnowsMinted(net: Net)
    requires |net.nodes| > 0
  {
    forall v :: v in net.nodes[0].heard ==> 0 < v < |net.nodes| && net.nodes[0].heard[v] < |net.nodes[v].minted|
  }

  /** Nothing but the listener and the air is different. */
  ghost predicate OthersKept(net: Net, end: Net) {
    && end.macs == net.macs && |end.nodes| == |net.nodes|
    && forall i :: 0 < i < |net.nodes| ==> end.nodes[i] == net.nodes[i]
  }

  /** The listener's pending forwards are all due at `at`. */
  ghost predicate AllDue(n: Node, at: nat) {
    forall k :: 0 <= k < |n.tables.pending| && n.tables.pending[k].active ==> n.tables.pending[k].sendTime <= at
  }

  function One(b: bool): nat {
    if b then 1 else 0
  }

  /** An idle node holds at most the packet it just heard, if that was scheduled. */
  lemma HearIdle(n: Node, me: Mac, c: Copy, sendTime: nat, t: Tag)
    requires n.tables.Wf() && |n.tags| == MAX_PENDING_RELAYS && Idle(n)
    requires Parse(c.src, c.frame).Some? && Parse(c.src, c.frame).value.origin != me
    ensures
      var r, cand := Hear(n, me, c, sendTime), Parse(c.src, c.frame).value;
      var counts := One(ScheduleSlot(n.tables, me, cand).Some? && c.tag == t);
      && AllDue(r, sendTime) && r.sent == n.sent && r.heard == n.heard[c.tag.owner := c.tag.idx]
      && r.scheduled[t] == n.scheduled[t] + counts && WaitsFor(r, t) == counts
  {
    var cand := Parse(c.src, c.frame).value;
    HearBalances(n, me, c, sendTime, t);
    NoneWait(n.tables.pending, n.tags, t, MAX_PENDING_RELAYS);
    if cand.isRelay {
      SuppressCounts(n.tables.pending, n.tags, t, cand.origin, cand.seqNo, MAX_PENDING_RELAYS);
    }
  }

  lemma {:induction false} PollKeepsHeard(net: Net, i: nat, n: nat, at: nat)
    requires Shape(net) && i < |net.nodes| && n <= MAX_PENDING_RELAYS
    ensures
      var a, b := net.nodes[i], FireSlots(net, i, n, at).nodes[i];
      b.heard == a.heard && b.minted == a.minted
  {
    if n > 0 {
      PollKeepsHeard(net, i, n - 1, at);
    }
  }

  /** The listener's poll sends everything due. */
  lemma PollClears(net: Net, at: nat, t: Tag) returns (end: Net)
    requires Shape(net) && |net.nodes| > 0 && net.now <= at && AllDue(net.nodes[0], at)
    ensures Leads(net, [Poll(0, at)], end, [], true) && Shape(end) && end.now == at && Idle(end.nodes[0])
    ensures OthersKept(net, end) && net.air <= end.air && end.nodes[0].heard == net.nodes[0].heard
    ensures end.nodes[0].scheduled == net.nodes[0].scheduled
    ensures end.nodes[0].sent[t] == net.nodes[0].sent[t] + WaitsFor(net.nodes[0], t)
  {
    end := Next(net, Poll(0, at));
    LeadsNext(net, Poll(0, at), true);
    PollSendsFired(net, 0, MAX_PENDING_RELAYS, at);
    PollBalances(net, 0, MAX_PENDING_RELAYS, at, t);
    PollKeepsHeard(net, 0, MAX_PENDING_RELAYS, at);
    NoneWait(end.nodes[0].tables.pending, end.nodes[0].tags, t, MAX_PENDING_RELAYS);
  }

  /** Copy k of a packet somebody else minted is on its way to the listener. */
  ghost predicate ForListener(net: Net, k: nat)
    requires Shape(net)
  {
    && |net.nodes| > 0 && k < |net.air| && net.air[k].to == 0
    && Parse(net.air[k].src, net.air[k].frame).Some?
    && Parse(net.air[k].src, net.air[k].frame).value.origin != net.macs[0]
    && 0 < net.air[k].tag.owner < |net.nodes|
    && net.air[k].tag.idx < |net.nodes[net.air[k].tag.owner].minted|
  }

  lemma HearKnows(net: Net, end: Net, t: Tag)
    requires |net.nodes| > 0 && KnowsMinted(net) && OthersKept(net, end)
    requires 0 < t.owner < |net.nodes| && t.idx < |net.nodes[t.owner].minted|
    requires end.nodes[0].heard == net.nodes[0].heard[t.owner := t.idx]
    ensures KnowsMinted(end)
  {
  }

  lemma HearLeads(net: Net, k: nat, ordered: bool) returns (end: Net)
    requires Shape(net) && ForListener(net, k)
    requires ordered ==> InOrder(net, Deliver(k, 5, net.now))
    ensures Leads(net, [Deliver(k, 5, net.now)], end, [net.air[k].tag], ordered)
    ensures Shape(end) && end.now == net.now && OthersKept(net, end) && end.air == Without(net.air, k)
    ensures end.nodes[0] == Hear(net.nodes[0], net.macs[0], net.air[k], net.now + 5)
  {
    var s := Deliver(k, 5, net.now);
    end := Next(net, s);
    LeadsNext(net, s, ordered);
  }

  /** The listener, idle, hears copy k at once. */
  lemma HearNow(net: Net, k: nat, t: Tag, ordered: bool) returns (end: Net)
    requires Shape(net) && ForListener(net, k) && Idle(net.nodes[0])
    requires ordered ==> InOrder(net, Deliver(k, 5, net.now))
    ensures Leads(net, [Deliver(k, 5, net.now)], end, [net.air[k].tag], ordered)
    ensures Shape(end) && end.now == net.now && OthersKept(net, end)
    ensures end.air == Without(net.air, k) && AllDue(end.nodes[0], net.now + 5)
    ensures end.nodes[0].heard == net.nodes[0].heard[net.air[k].tag.owner := net.air[k].tag.idx]
    ensures
      var counts := One(IsScheduled(net, k) && net.air[k].tag == t);
      && end.nodes[0].scheduled[t] == net.nodes[0].scheduled[t] + counts && end.nodes[0].sent == net.nodes[0].sent
      && WaitsFor(end.nodes[0], t) == counts
  {
    end := HearLeads(net, k, ordered);
    HearIdle(net.nodes[0], net.macs[0], net.air[k], net.now + 5, t);
  }

  /** The listener, idle, hears copy k at once and polls: it sends the packet if it schedules it, and is idle again. */
  lemma HearAndPoll(net: Net, k: nat, t: Tag, ordered: bool) returns (steps: seq<Step>, end: Net)
    requires Ready(net) && ForListener(net, k)
    requires ordered ==> InOrder(net, Deliver(k, 5, net.now))
    ensures Leads(net, steps, end, [net.air[k].tag], ordered) && Ready(end)
    ensures steps == [Deliver(k, 5, net.now), Poll(0, net.now + 5)]
    ensures OthersKept(net, end) && Without(net.air, k) <= end.air
    ensures
      var counts := One(IsScheduled(net, k) && net.air[k].tag == t);
      && end.nodes[0].scheduled[t] == net.nodes[0].scheduled[t] + counts
      && end.nodes[0].sent[t] == net.nodes[0].sent[t] + counts
  {
    var s, p := Deliver(k, 5, net.now), Poll(0, net.now + 5);
    var next := HearNow(net, k, t, ordered);
    end := PollClears(next, net.now + 5, t);
    HearKnows(net, end, net.air[k].tag);
    LeadsWeakens(next, [p], end, [], ordered);
    LeadsThen(net, [s], next, [p], end, [net.air[k].tag], [], ordered);
    steps := [s] + [p];
  }

  // ----- a packet heard again after others -----

  function Count(ws: seq<nat>, v: nat): nat {
    if |ws| == 0 then 0 else Count(ws[..|ws| - 1], v) + One(ws[|ws| - 1] == v)
  }

  /** The packets minted when the nodes `ws` mint one each, in this order. */
  function Tags(ws: seq<nat>): seq<Tag> {
    if |ws| == 0 then []
    else
      var init, w := ws[..|ws| - 1], ws[|ws| - 1];
      Tags(init) + [Tag(w, Count(init, w))]
  }

  /** The decision of SchedulesIff for an idle listener. */
  lemma IdleDecides(start: Net, steps: seq<Step>, net: Net, hs: seq<Tag>, k: nat)
    requires Boot(start) && Leads(start, steps, net, hs, true) && Ready(net) && ForListener(net, k)
    requires Parse(net.air[k].src, net.air[k].frame).value.hop < MAX_HOPS
    ensures IsScheduled(net, k) <==> !StillRemembers(hs, net.air[k].tag)
  {
    SchedulesIff(start, steps, k);
    assert !AfterSuppression(net.nodes[0].tables, Parse(net.air[k].src, net.air[k].frame).value)[0].active;
  }

  /** After a run from boot the idle listener hears copy k and polls. */
  lemma HearNext(start: Net, before: seq<Step>, net: Net, hs: seq<Tag>, k: nat, t: Tag)
    returns (steps: seq<Step>, end: Net)
    requires Boot(start) && Leads(start, before, net, hs, true) && Ready(net) && ForListener(net, k)
    requires Parse(net.air[k].src, net.air[k].frame).value.hop < MAX_HOPS
    ensures Leads(start, steps, end, hs + [net.air[k].tag], InOrder(net, Deliver(k, 5, net.now))) && Ready(end)
    ensures steps == before + [Deliver(k, 5, net.now), Poll(0, net.now + 5)]
    ensures OthersKept(net, end) && Without(net.air, k) <= end.air
    ensures
      var counts := One(!StillRemembers(hs, net.air[k].tag) && net.air[k].tag == t);
      && end.nodes[0].scheduled[t] == net.nodes[0].scheduled[t] + counts
      && end.nodes[0].sent[t] == net.nodes[0].sent[t] + counts
  {
    var ordered := InOrder(net, Deliver(k, 5, net.now));
    IdleDecides(start, before, net, hs, k);
    var last;
    last, end := HearAndPoll(net, k, t, ordered);
    LeadsWeakens(start, before, net, hs, ordered);
    LeadsThen(start, before, net, last, end, hs, [net.air[k].tag], ordered);
    steps := before + last;
  }

  lemma MintedParses(src: Mac, media: Media, seqNo: word)
    ensures
      var frame := MediaFrame(media, seqNo);
      |frame| == MEDIA_SYNC_LEN && Parse(src, frame) == Some(Candidate(src, seqNo, 0, frame, false))
  {
    FieldsAt(media, seqNo);
    SeqRoundTrip(seqNo);
  }

  /** Copy k of packet `idx` of node w, as w sent it, is on its way to `to`. */
  ghost predicate MintedCopy(net: Net, k: nat, to: nat, w: nat, idx: nat) {
    && w < |net.macs| && k < |net.air| && net.air[k].to == to && net.air[k].tag == Tag(w, idx)
    && |net.air[k].frame| == MEDIA_SYNC_LEN && net.air[k].src == net.macs[w]
    && Parse(net.air[k].src, net.air[k].frame) ==
       Some(Candidate(net.macs[w], SeqOf(idx), 0, net.air[k].frame, false))
  }

  /** Only node w has changed, by minting once. */
  ghost predicate MintedOnce(net: Net, sent: Net, w: nat) {
    && sent.macs == net.macs && |sent.nodes| == |net.nodes| && w < |net.nodes|
    && |sent.nodes[w].minted| == |net.nodes[w].minted| + 1
    && forall i :: 0 <= i < |net.nodes| && i != w ==> sent.nodes[i] == net.nodes[i]
  }

  /** Node w mints; a copy goes to the listener, and, behind it on the air, one to node r. */
  lemma MintHere(net: Net, w: nat, r: nat, media: Media) returns (end: Net, k: nat, q: nat)
    requires Ready(net) && 0 < w < |net.nodes| && 0 < r < |net.nodes| && r != w
    ensures Leads(net, [Mint(w, media, net.now)], end, [], true) && Ready(end)
    ensures MintedOnce(net, end, w) && net.air <= end.air
    ensures |net.air| <= k && k != q && MintedCopy(end, k, 0, w, |net.nodes[w].minted|)
    ensures |net.air| <= q && MintedCopy(end, q, r, w, |net.nodes[w].minted|)
  {
    var s := Mint(w, media, net.now);
    var idx := |net.nodes[w].minted|;
    var c := Copy(0, net.macs[w], MediaFrame(media, SeqOf(idx)), net.now, Tag(w, idx));
    end := Next(net, s);
    LeadsNext(net, s, true);
    MintedParses(net.macs[w], media, SeqOf(idx));
    k := BroadcastReaches(|net.nodes|, w, c, 0);
    q := BroadcastReaches(|net.nodes|, w, c, r);
    assert Broadcast(|net.nodes|, w, c)[k] != Broadcast(|net.nodes|, w, c)[q];
    k, q := |net.air| + k, |net.air| + q;
  }

  /** A copy still on its way when copy k is delivered. */
  lemma GapKeeps(net: Net, end: Net, k: nat, q: nat, to: nat, w: nat, idx: nat) returns (l: nat)
    requires k < |net.air| && q != k && end.macs == net.macs && Without(net.air, k) <= end.air
    requires MintedCopy(net, q, to, w, idx)
    ensures MintedCopy(end, l, to, w, idx)
  {
    l := if q < k then q else q - 1;
    assert Without(net.air, k)[l] == net.air[q];
  }

  lemma GapKeepsFront(air: seq<Copy>, k: nat, front: seq<Copy>, after: seq<Copy>)
    requires k < |air| && front <= air && |front| <= k && Without(air, k) <= after
    ensures front <= after
  {
    forall i | 0 <= i < |front| ensures after[i] == front[i] {
      assert Without(air, k)[i] == air[i];
    }
  }

  /** Every node but the listener has minted as often as it occurs in `ws`, and the last one has heard nothing yet. */
  ghost predicate Along(start: Net, net: Net, ws: seq<nat>) {
    && |start.nodes| >= 3 && net.macs == start.macs && |net.nodes| == |start.nodes|
    && (forall v :: 0 < v < |net.nodes| ==> |net.nodes[v].minted| == Count(ws, v))
    && net.nodes[|net.nodes| - 1] == start.nodes[|net.nodes| - 1]
  }

  lemma MintNext(start: Net, before: seq<Step>, net: Net, hs: seq<Tag>, w: nat, r: nat, media: Media)
    returns (steps: seq<Step>, end: Net, k: nat, q: nat)
    requires Leads(start, before, net, hs, true)
    requires Ready(net) && 0 < w < |net.nodes| && 0 < r < |net.nodes| && r != w
    ensures steps == before + [Mint(w, media, net.now)] && Leads(start, steps, end, hs, true) && Ready(end)
    ensures MintedOnce(net, end, w) && net.air <= end.air
    ensures |net.air| <= k && k != q && MintedCopy(end, k, 0, w, |net.nodes[w].minted|)
    ensures |net.air| <= q && MintedCopy(end, q, r, w, |net.nodes[w].minted|)
    ensures ForListener(end, k) && InOrder(end, Deliver(k, 5, end.now))
  {
    end, k, q := MintHere(net, w, r, media);
    LeadsThen(start, before, net, [Mint(w, media, net.now)], end, hs, [], true);
    assert hs + [] == hs;
    steps := before + [Mint(w, media, net.now)];
    assert net.macs[0] != net.macs[w];
  }

  lemma AlongNext(start: Net, net: Net, sent: Net, end: Net, ws: seq<nat>, w: nat)
    requires Along(start, net, ws) && 0 < w < |net.nodes| - 1 && MintedOnce(net, sent, w) && OthersKept(sent, end)
    ensures Along(start, end, ws + [w])
  {
    assert (ws + [w])[..|ws|] == ws;
  }

  lemma MintersGrow(before: seq<Step>, s: Step, rest: seq<Step>, ws: seq<nat>, w: nat)
    requires MintersIn(before, set v | v in ws) && (s.Mint? ==> s.i == w) && forall r :: r in rest ==> !r.Mint?
    ensures MintersIn(before + [s] + rest, set v | v in ws + [w])
  {
    var steps, now := before + [s] + rest, set v | v in ws + [w];
    forall k | 0 <= k < |steps| ensures steps[k].Mint? ==> steps[k].i in now {
      if k < |before| {
        assert steps[k] == before[k];
      } else if k > |before| {
        assert steps[k] == rest[k - |before| - 1];
      }
    }
  }

  lemma TagsNext(ws: seq<nat>, w: nat)
    ensures Tags(ws + [w]) == Tags(ws) + [Tag(w, Count(ws, w))]
  {
    assert (ws + [w])[..|ws|] == ws;
  }

  /** The listener hears copy k of the packet node w minted last, and polls; copy p stays on its way. */
  lemma HearMinted(start: Net, before: seq<Step>, net: Net, hs: seq<Tag>, w: nat, idx: nat, k: nat, p: nat, t: Tag)
    returns (steps: seq<Step>, end: Net, q: nat)
    requires Boot(start) && Leads(start, before, net, hs, true) && Ready(net) && ForListener(net, k) && k != p
    requires MintedCopy(net, k, 0, w, idx) && MintedCopy(net, p, |net.nodes| - 1, w, idx)
    requires InOrder(net, Deliver(k, 5, net.now))
    ensures steps == before + [Deliver(k, 5, net.now), Poll(0, net.now + 5)]
    ensures Leads(start, steps, end, hs + [Tag(w, idx)], true) && Ready(end) && OthersKept(net, end)
    ensures Without(net.air, k) <= end.air && MintedCopy(end, q, |net.nodes| - 1, w, idx)
    ensures
      var counts := One(!StillRemembers(hs, Tag(w, idx)) && Tag(w, idx) == t);
      && end.nodes[0].scheduled[t] == net.nodes[0].scheduled[t] + counts
      && end.nodes[0].sent[t] == net.nodes[0].sent[t] + counts
  {
    steps, end := HearNext(start, before, net, hs, k, t);
    q := GapKeeps(net, end, k, p, |net.nodes| - 1, w, idx);
  }

  /** Node w mints its next packet, and the listener hears it and polls. */
  lemma Round(start: Net, before: seq<Step>, net: Net, ws: seq<nat>, w: nat, media: Media, t: Tag)
    returns (steps: seq<Step>, end: Net, q: nat)
    requires Boot(start) && Leads(start, before, net, Tags(ws), true) && Ready(net) && Along(start, net, ws)
    requires 0 < w < |net.nodes| - 1 && MintersIn(before, set v | v in ws)
    ensures Leads(start, steps, end, Tags(ws + [w]), true) && Ready(end) && Along(start, end, ws + [w])
    ensures MintersIn(steps, set v | v in ws + [w])
    ensures net.air <= end.air && MintedCopy(end, q, |net.nodes| - 1, w, Count(ws, w))
    ensures
      var counts := One(!StillRemembers(Tags(ws), Tag(w, Count(ws, w))) && Tag(w, Count(ws, w)) == t);
      && end.nodes[0].scheduled[t] == net.nodes[0].scheduled[t] + counts
      && end.nodes[0].sent[t] == net.nodes[0].sent[t] + counts
  {
    var idx := |net.nodes[w].minted|;
    var minting, sent, k, p := MintNext(start, before, net, Tags(ws), w, |net.nodes| - 1, media);
    steps, end, q := HearMinted(start, minting, sent, Tags(ws), w, idx, k, p, t);
    TagsNext(ws, w);
    AlongNext(start, net, sent, end, ws, w);
    MintersGrow(before, Mint(w, media, net.now), [Deliver(k, 5, sent.now), Poll(0, sent.now + 5)], ws, w);
    GapKeepsFront(sent.air, k, net.air, end.air);
  }

  // ----- the relayer -----

  lemma FreshSchedule(me: Mac, cand: Candidate, sendTime: nat)
    requires cand.origin != me && cand.hop < MAX_HOPS && |cand.inner| == MEDIA_SYNC_LEN && !cand.isRelay
    ensures ScheduleSlot(EmptyTables(), me, cand) == Some(0)
    ensures HandleCandidate(EmptyTables(), me, cand, sendTime).pending == EmptyTables().pending[
              0 := Pending(true, sendTime, cand.origin, cand.seqNo, cand.hop + 1, cand.inner)]
  {
  }

  /** Node r, which heard nothing before, hears copy q of packet (w, idx) at once. */
  lemma RelayerHears(net: Net, q: nat, r: nat, w: nat, idx: nat) returns (end: Net)
    requires Ready(net) && 0 < w < r < |net.nodes| && MintedCopy(net, q, r, w, idx)
    requires net.nodes[r].tables == EmptyTables() && net.nodes[r].heard == map[]
    ensures Leads(net, [Deliver(q, 5, net.now)], end, [], true) && Ready(end) && end.now == net.now
    ensures end.macs == net.macs && |end.nodes| == |net.nodes| && end.nodes[r].minted == net.nodes[r].minted
    ensures forall i :: 0 <= i < |net.nodes| && i != r ==> end.nodes[i] == net.nodes[i]
    ensures end.nodes[r].tags[0] == Tag(w, idx)
    ensures end.nodes[r].tables.pending == EmptyTables().pending[
              0 := Pending(true, net.now + 5, net.macs[w], SeqOf(idx), 1, net.air[q].frame)]
  {
    var s := Deliver(q, 5, net.now);
    FreshSchedule(net.macs[r], Parse(net.air[q].src, net.air[q].frame).value, net.now + 5);
    end := Next(net, s);
    LeadsNext(net, s, true);
  }

  /** Copy k is a relay of packet (w, idx) to the listener, on its first hop. */
  ghost predicate RelayedCopy(net: Net, k: nat, w: nat, idx: nat)
    requires Shape(net)
  {
    && ForListener(net, k) && net.air[k].tag == Tag(w, idx)
    && Parse(net.air[k].src, net.air[k].frame).value.hop == 1
  }

  lemma ReachedIs(net: Net, s: Step, radio: Radio, end: Net)
    requires Reaches(net, [s], radio, end)
    ensures CanStep(net, s) && end == Next(net, s)
  {
    assert [s][1..] == [];
    assert Exec(Next(net, s), []) == Next(net, s);
  }

  lemma RelayerSends(net: Net, r: nat, w: nat, idx: nat, frame: seq<byte>) returns (end: Net, k: nat)
    requires Ready(net) && 0 < w < r < |net.nodes| && net.nodes[r].tags[0] == Tag(w, idx)
    requires |frame| == MEDIA_SYNC_LEN && idx < |net.nodes[w].minted|
    requires net.nodes[r].tables.pending == EmptyTables().pending[
               0 := Pending(true, net.now + 5, net.macs[w], SeqOf(idx), 1, frame)]
    ensures Leads(net, [Poll(r, net.now + 5)], end, [], true) && Ready(end)
    ensures end.macs == net.macs && |end.nodes| == |net.nodes| && end.nodes[r].minted == net.nodes[r].minted
    ensures forall i :: 0 <= i < |net.nodes| && i != r ==> end.nodes[i] == net.nodes[i]
    ensures RelayedCopy(end, k, w, idx)
  {
    var s, radio := Poll(r, net.now + 5), Radio(net.now + 5, 0);
    k, end := PollSends(net, r, 1, net.now + 5, 0, net.now + 5, Parcel(Tag(w, idx), net.macs[w], SeqOf(idx), frame),
                        radio);
    ReachedIs(net, s, radio, end);
    LeadsNext(net, s, true);
    PollKeepsHeard(net, r, MAX_PENDING_RELAYS, net.now + 5);
  }

  /** Node r relays copy q to the listener. */
  lemma RelayNow(net: Net, q: nat, r: nat, w: nat, idx: nat) returns (steps: seq<Step>, end: Net, k: nat)
    requires Ready(net) && 0 < w < r < |net.nodes| && MintedCopy(net, q, r, w, idx) && idx < |net.nodes[w].minted|
    requires net.nodes[r].tables == EmptyTables() && net.nodes[r].heard == map[]
    ensures Leads(net, steps, end, [], true) && Ready(end) && end.nodes[0] == net.nodes[0]
    ensures end.macs == net.macs && |end.nodes| == |net.nodes| && RelayedCopy(end, k, w, idx)
    ensures |end.nodes[w].minted| == |net.nodes[w].minted| && forall s :: s in steps ==> !s.Mint?
  {
    var heard := RelayerHears(net, q, r, w, idx);
    end, k := RelayerSends(heard, r, w, idx, net.air[q].frame);
    LeadsThen(net, [Deliver(q, 5, net.now)], heard, [Poll(r, heard.now + 5)], end, [], [], true);
    steps := [Deliver(q, 5, net.now)] + [Poll(r, heard.now + 5)];
  }

  // ----- the whole run -----

  lemma CountOfFirst(ws: seq<nat>, w: nat)
    requires |ws| > 0 && ws[0] == w
    ensures Count(ws, w) > 0
  {
    if |ws| > 1 {
      CountOfFirst(ws[..|ws| - 1], w);
    }
  }

  lemma BootIsReady(start: Net)
    requires Boot(start) && Shape(start) && |start.nodes| >= 3
    ensures Ready(start) && Along(start, start, []) && Leads(start, [], start, Tags([]), true)
    ensures start.nodes[0].sent == start.nodes[0].scheduled == multiset{}
  {
    assert forall i :: 0 <= i < |start.nodes| ==> FreshNode(start.nodes[i], start.now);
  }

  /** The nodes `ws` are neither the listener nor the last one. */
  predicate Between(ws: seq<nat>, n: nat) {
    |ws| > 0 && forall i :: 0 <= i < |ws| ==> 0 < ws[i] < n - 1
  }

  /** The nodes `ws` mint in turn and the listener hears each packet at once: it sends the first packet once. A copy of
      that packet stays on its way to the last node. */
  lemma {:induction false} HearAll(start: Net, ws: seq<nat>, media: Media)
    returns (steps: seq<Step>, end: Net, q: nat)
    requires Boot(start) && Shape(start) && |start.nodes| >= 3 && Between(ws, |start.nodes|)
    ensures Leads(start, steps, end, Tags(ws), true) && Ready(end) && Along(start, end, ws)
    ensures MintersIn(steps, set v | v in ws) && MintedCopy(end, q, |start.nodes| - 1, ws[0], 0)
    ensures end.nodes[0].sent[Tag(ws[0], 0)] == 1 && end.nodes[0].scheduled[Tag(ws[0], 0)] == 1
    decreases |ws|
  {
    var init, w, first := ws[..|ws| - 1], ws[|ws| - 1], Tag(ws[0], 0);
    assert ws == init + [w];
    if |ws| == 1 {
      BootIsReady(start);
      steps, end, q := Round(start, [], start, [], w, media, first);
    } else {
      var before, net;
      before, net, q := HearAll(start, init, media);
      CountOfFirst(init, ws[0]);
      steps, end := RoundKeeps(start, before, net, init, w, media, first, q);
    }
  }

  /** Another round, for a packet other than `t`, whose copy q is still on its way. */
  lemma RoundKeeps(start: Net, before: seq<Step>, net: Net, ws: seq<nat>, w: nat, media: Media, t: Tag, q: nat)
    returns (steps: seq<Step>, end: Net)
    requires Boot(start) && Leads(start, before, net, Tags(ws), true) && Ready(net) && Along(start, net, ws)
    requires 0 < w < |net.nodes| - 1 && MintersIn(before, set v | v in ws)
    requires Tag(w, Count(ws, w)) != t && MintedCopy(net, q, |net.nodes| - 1, t.owner, t.idx)
    ensures Leads(start, steps, end, Tags(ws + [w]), true) && Ready(end) && Along(start, end, ws + [w])
    ensures MintersIn(steps, set v | v in ws + [w]) && MintedCopy(end, q, |net.nodes| - 1, t.owner, t.idx)
    ensures end.nodes[0].sent[t] == net.nodes[0].sent[t] && end.nodes[0].scheduled[t] == net.nodes[0].scheduled[t]
  {
    var r;
    steps, end, r := Round(start, before, net, ws, w, media, t);
    assert end.air[q] == net.air[q];
  }

  /** The last node relays copy q of packet (w, idx) to the listener. */
  lemma RelayNext(start: Net, before: seq<Step>, net: Net, ws: seq<nat>, q: nat, w: nat, idx: nat)
    returns (steps: seq<Step>, end: Net, k: nat)
    requires Boot(start) && Leads(start, before, net, Tags(ws), true) && Ready(net) && Along(start, net, ws)
    requires 0 < w < |net.nodes| - 1 && idx < Count(ws, w) && MintedCopy(net, q, |net.nodes| - 1, w, idx)
    requires MintersIn(before, set v | v in ws)
    ensures Leads(start, steps, end, Tags(ws), true) && Ready(end) && MintersIn(steps, set v | v in ws)
    ensures end.nodes[0] == net.nodes[0] && RelayedCopy(end, k, w, idx)
    ensures |end.nodes[w].minted| == Count(ws, w)
  {
    assert FreshNode(start.nodes[|start.nodes| - 1], start.now);
    var relaying;
    relaying, end, k := RelayNow(net, q, |start.nodes| - 1, w, idx);
    LeadsThen(start, before, net, relaying, end, Tags(ws), [], true);
    assert Tags(ws) + [] == Tags(ws);
    steps := before + relaying;
  }

  /** The listener hears a relay of packet 0 of node w and polls: in mint order if w minted no other. */
  lemma HearLate(start: Net, before: seq<Step>, net: Net, ws: seq<nat>, k: nat, w: nat)
    returns (steps: seq<Step>, end: Net)
    requires Boot(start) && Leads(start, before, net, Tags(ws), true) && Ready(net) && RelayedCopy(net, k, w, 0)
    requires |net.nodes[w].minted| == Count(ws, w) && MintersIn(before, set v | v in ws)
    ensures Leads(start, steps, end, Tags(ws) + [Tag(w, 0)], Count(ws, w) == 1) && MintersIn(steps, set v | v in ws)
    ensures
      var again := One(!StillRemembers(Tags(ws), Tag(w, 0)));
      && end.nodes[0].sent[Tag(w, 0)] == net.nodes[0].sent[Tag(w, 0)] + again
      && end.nodes[0].scheduled[Tag(w, 0)] == net.nodes[0].scheduled[Tag(w, 0)] + again
  {
    steps, end := HearNext(start, before, net, Tags(ws), k, Tag(w, 0));
    assert Count(ws, w) == 1 ==> InOrder(net, Deliver(k, 5, net.now));
  }

  /** From boot, for any interleaving `ws` of the origins: some run in which the listener, polling after each packet,
      hears theirs in mint order and then a relayed copy of the first, sends that first packet twice if the reference
      decision has forgotten it, and once if not. */
  lemma SendsAgainIff(start: Net, ws: seq<nat>, media: Media) returns (steps: seq<Step>)
    requires Boot(start) && Shape(start) && |start.nodes| >= 3 && Between(ws, |start.nodes|)
    ensures Run(start, steps) && MintersIn(steps, set v | v in ws)
    ensures FloodDedup.Heard(start, steps, 0) == Tags(ws) + [Tag(ws[0], 0)]
    ensures Count(ws, ws[0]) == 1 ==> OrderedRun(start, steps)
    ensures
      var first, listener := Tag(ws[0], 0), Exec(start, steps).nodes[0];
      && listener.sent[first] == (if StillRemembers(Tags(ws), first) then 1 else 2)
      && listener.scheduled[first] == listener.sent[first]
  {
    var before, net, q := HearAll(start, ws, media);
    CountOfFirst(ws, ws[0]);
    var relaying, late, k := RelayNext(start, before, net, ws, q, ws[0], 0);
    var end;
    steps, end := HearLate(start, relaying, late, ws, k, ws[0]);
  }

  lemma TwoOfOne()
    ensures Tags([1, 1]) == [Tag(1, 0), Tag(1, 1)] && !StillRemembers([Tag(1, 0), Tag(1, 1)], Tag(1, 0))
  {
    TagsNext([], 1);
    TagsNext([1], 1);
    assert [] + [1] == [1] && [1] + [1] == [1, 1] && [1][..0] == [];
    var hs := [Tag(1, 0), Tag(1, 1)];
    assert hs[..1] == [Tag(1, 0)] && [Tag(1, 0)][..0] == [];
    assert Firsts([Tag(1, 0)]) == [1];
    TenAreRemembered(hs, 1);
  }

  /** Order matters: in every booted fleet of at least three nodes a run in which node 1's packets 0, 1 and 0 again
      reach the listener makes it send packet 0 twice. */
  lemma OutOfOrderSendsTwice(start: Net, media: Media) returns (steps: seq<Step>)
    requires Boot(start) && Shape(start) && |start.nodes| >= 3
    ensures Run(start, steps) && FloodDedup.Heard(start, steps, 0) == [Tag(1, 0), Tag(1, 1), Tag(1, 0)]
    ensures Exec(start, steps).nodes[0].scheduled[Tag(1, 0)] == Exec(start, steps).nodes[0].sent[Tag(1, 0)] == 2
  {
    TwoOfOne();
    steps := SendsAgainIff(start, [1, 1], media);
  }

  lemma {:induction false} DistinctTags(ws: seq<nat>)
    requires forall i, j :: 0 <= i < j < |ws| ==> ws[i] != ws[j]
    ensures Firsts(Tags(ws)) == ws
    ensures forall v :: Count(ws, v) == One(v in ws)
  {
    if |ws| > 0 {
      var init, w := ws[..|ws| - 1], ws[|ws| - 1];
      DistinctTags(init);
      assert ws == init + [w];
      assert Tags(ws)[..|Tags(ws)| - 1] == Tags(init);
    }
  }

  /** The number of origins matters: for any eleven of them, an in-order run in which each mints a single packet makes
      the listener send the first of these packets twice. */
  lemma ElevenOriginsSendTwice(start: Net, ws: seq<nat>, media: Media) returns (steps: seq<Step>)
    requires Boot(start) && Shape(start) && |start.nodes| >= 3 && Between(ws, |start.nodes|)
    requires |ws| == MAX_RELAY_ORIGINS + 1 && forall i, j :: 0 <= i < j < |ws| ==> ws[i] != ws[j]
    ensures Run(start, steps) && OrderedRun(start, steps) && MintersIn(steps, set v | v in ws)
    ensures Exec(start, steps).nodes[0].scheduled[Tag(ws[0], 0)] == 2
    ensures Exec(start, steps).nodes[0].sent[Tag(ws[0], 0)] == 2
  {
    var init, w := ws[..MAX_RELAY_ORIGINS], ws[MAX_RELAY_ORIGINS];
    assert ws == init + [w];
    DistinctTags(init);
    DistinctTags(ws);
    TagsNext(init, w);
    EleventhEvicts(Tags(init), Tag(w, 0));
    steps := SendsAgainIff(start, ws, media);
  }
}
