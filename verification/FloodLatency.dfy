// The worst case of RelayLatency is attained, and MIDI_EVENT_LEAD_MS covers it only for a radio nobody has.
module FloodLatency {
  import opened Bytes
  import opened RelaySpec
  import opened FloodNetwork
  import opened FloodProvenance
  import opened MediaPacket

  /** MAX_HOPS times the longest drawn delay. */
  const MIDI_EVENT_LEAD_MS: nat := 90

  // ----- building runs -----

  /** The steps are a run on time that ends in `end`. */
  ghost predicate Reaches(net: Net, steps: seq<Step>, radio: Radio, end: Net) {
    Shape(net) && Run(net, steps) && TimedRun(net, steps, radio) && Exec(net, steps) == end
  }

  lemma ReachesNext(net: Net, s: Step, radio: Radio)
    requires Shape(net) && CanStep(net, s) && OnTime(net, s, radio)
    ensures Reaches(net, [s], radio, Next(net, s))
  {
    assert [s][1..] == [];
    assert Run(Next(net, s), []) && TimedRun(Next(net, s), [], radio);
  }

  lemma {:induction false} ReachesThen(a: Net, first: seq<Step>, b: Net, second: seq<Step>, c: Net, radio: Radio)
    requires Reaches(a, first, radio, b) && Reaches(b, second, radio, c)
    ensures Reaches(a, first + second, radio, c)
    decreases |first|
  {
    if |first| == 0 {
      assert first + second == second;
    } else {
      assert (first + second)[1..] == first[1..] + second;
      ReachesThen(Next(a, first[0]), first[1..], b, second, c, radio);
    }
  }

  /** Nothing in the node's pending table comes due up to `to`. */
  ghost predicate Sleeps(n: Node, to: nat) {
    forall k :: 0 <= k < |n.tables.pending| ==> n.tables.pending[k].active ==> n.tables.pending[k].sendTime > to
  }

  lemma {:induction false} FiresNothing(net: Net, i: nat, n: nat, at: nat)
    requires Shape(net) && i < |net.nodes| && n <= MAX_PENDING_RELAYS && Sleeps(net.nodes[i], at)
    ensures FireSlots(net, i, n, at) == net
  {
    if n > 0 {
      FiresNothing(net, i, n - 1, at);
    }
  }

  /** The first relayers of a fleet: nodes 1 to 3. */
  const LAST: nat := 3

  /** `end` is `net` with the relayers from `lo` on polled at `to`. */
  ghost predicate Settled(net: Net, end: Net, lo: nat, to: nat) {
    && end.macs == net.macs && end.air == net.air && |end.nodes| == |net.nodes|
    && end.now == (if lo <= LAST then to else net.now)
    && forall i :: 0 <= i < |net.nodes| ==>
         end.nodes[i] == if lo <= i <= LAST then net.nodes[i].(lastPoll := to) else net.nodes[i]
  }

  /** The relayers from `lo` on have polled at `from` and have nothing to send up to `to`. */
  ghost predicate Quiet(net: Net, lo: nat, from: nat, to: nat) {
    && Shape(net) && |net.nodes| > LAST
    && forall i :: lo <= i <= LAST ==> net.nodes[i].lastPoll == from && Sleeps(net.nodes[i], to)
  }

  lemma {:induction false} PollAll(net: Net, lo: nat, from: nat, at: nat, radio: Radio)
    returns (steps: seq<Step>, end: Net)
    requires lo <= LAST + 1 && Quiet(net, lo, from, at) && net.now <= at <= from + radio.poll
    ensures Reaches(net, steps, radio, end) && Settled(net, end, lo, at)
    decreases LAST + 1 - lo
  {
    if lo == LAST + 1 {
      steps, end := [], net;
    } else {
      var s := Poll(lo, at);
      FiresNothing(net, lo, MAX_PENDING_RELAYS, at);
      var next := Next(net, s);
      ReachesNext(net, s, radio);
      var rest;
      rest, end := PollAll(next, lo + 1, from, at, radio);
      ReachesThen(net, [s], next, rest, end, radio);
      steps := [s] + rest;
    }
  }

  /** Polling every millisecond, the relayers from `lo` on get to `to` without sending anything. */
  lemma {:induction false} PollUntil(net: Net, lo: nat, to: nat, radio: Radio) returns (steps: seq<Step>, end: Net)
    requires lo <= LAST + 1 && radio.poll >= 1 && Quiet(net, lo, net.now, to) && net.now <= to
    ensures Reaches(net, steps, radio, end) && Settled(net, end, lo, to)
    decreases if net.now < to then to - net.now else 0
  {
    if net.now == to || lo > LAST {
      steps, end := [], net;
    } else {
      var first, rest, next;
      first, next := PollAll(net, lo, net.now, net.now + 1, radio);
      rest, end := PollUntil(next, lo, to, radio);
      ReachesThen(net, first, next, rest, end, radio);
      steps := first + rest;
    }
  }

  // ----- one hop -----

  lemma {:induction false} BroadcastReaches(n: nat, sender: nat, c: Copy, to: nat) returns (q: nat)
    requires to < n && to != sender
    ensures q < |Broadcast(n, sender, c)| && Broadcast(n, sender, c)[q] == c.(to := to)
  {
    if n - 1 == to {
      q := |Broadcast(n - 1, sender, c)|;
    } else {
      q := BroadcastReaches(n - 1, sender, c, to);
    }
  }

  lemma HearFresh(node: Node, me: Mac, c: Copy, sendTime: nat, cand: Candidate)
    requires node.tables == EmptyTables() && |node.tags| == MAX_PENDING_RELAYS
    requires Parse(c.src, c.frame) == Some(cand) && cand.origin != me && cand.hop < MAX_HOPS
    requires |cand.inner| == MEDIA_SYNC_LEN
    ensures
      var r := Hear(node, me, c, sendTime);
      && r.tables.pending ==
         EmptyTables().pending[0 := Pending(true, sendTime, cand.origin, cand.seqNo, cand.hop + 1, cand.inner)]
      && r.tags[0] == c.tag && r.minted == node.minted && r.lastPoll == node.lastPoll
  {
    assert AfterSuppression(node.tables, cand) == EmptyTables().pending;
  }

  lemma {:induction false} OnlyFirst(net: Net, i: nat, n: nat, at: nat, p: Pending)
    requires Shape(net) && i < |net.nodes| && 1 <= n <= MAX_PENDING_RELAYS
    requires net.nodes[i].tables.pending == EmptyTables().pending[0 := p] && Due(p, at)
    ensures BroadcastAll(net, i, n, at) ==
            Broadcast(|net.nodes|, i, Copy(0, net.macs[i], Envelope(p), at, net.nodes[i].tags[0]))
  {
    if n > 1 {
      OnlyFirst(net, i, n - 1, at, p);
    } else {
      assert BroadcastAll(net, i, 0, at) == [];
    }
  }

  /** What travels: a packet, and how often it has been relayed. */
  datatype Parcel = Parcel(tag: Tag, origin: Mac, seqNo: word, inner: seq<byte>)

  /** Copy k is on its way to relayer `to`, sent at `sentAt` after `hop` relays; the relayers from `to` on are idle and
      have just polled. */
  ghost predicate Baton(net: Net, k: nat, to: nat, hop: byte, sentAt: nat, parcel: Parcel) {
    && Shape(net) && |net.nodes| > LAST && k < |net.air|
    && Bears(net.air[k], to, hop, sentAt, parcel)
    && |parcel.inner| == MEDIA_SYNC_LEN
    && (forall i: nat :: 0 < i <= LAST ==> net.macs[i] != parcel.origin)
    && forall i: nat :: to <= i <= LAST ==> net.nodes[i].tables == EmptyTables() && net.nodes[i].lastPoll == net.now
  }

  predicate Bears(c: Copy, to: nat, hop: byte, sentAt: nat, parcel: Parcel) {
    && c.to == to && c.sentAt == sentAt && c.tag == parcel.tag
    && Parse(c.src, c.frame) == Some(Candidate(parcel.origin, parcel.seqNo, hop, parcel.inner, hop > 0))
    && (hop > 0 ==> IsRelayFrame(c.frame))
  }

  /** Relayer j holds the parcel until `sendTime`; it and those after it have just polled, the latter idle. */
  ghost predicate Loaded(net: Net, j: nat, sendTime: nat, parcel: Parcel) {
    && Shape(net) && 0 < j <= LAST < |net.nodes|
    && net.nodes[j].tables.pending == EmptyTables().pending[
         0 := Pending(true, sendTime, parcel.origin, parcel.seqNo, j, parcel.inner)]
    && net.nodes[j].tags[0] == parcel.tag
    && forall i: nat :: j <= i <= LAST ==>
         net.nodes[i].lastPoll == net.now && (j < i ==> net.nodes[i].tables == EmptyTables())
  }

  lemma DeliverLoads(net: Net, k: nat, j: nat, sentAt: nat, parcel: Parcel, radio: Radio) returns (next: Net)
    requires 1 <= j <= LAST && Baton(net, k, j, j - 1, sentAt, parcel) && net.now <= sentAt + radio.flight
    ensures Reaches(net, [Deliver(k, 30, net.now)], radio, next) && Loaded(next, j, net.now + 30, parcel)
    ensures next.now == net.now && next.macs == net.macs && |next.nodes| == |net.nodes| && next.nodes[0] == net.nodes[0]
  {
    var s := Deliver(k, 30, net.now);
    next := Next(net, s);
    ReachesNext(net, s, radio);
    HearFresh(net.nodes[j], net.macs[j], net.air[k], net.now + 30,
              Candidate(parcel.origin, parcel.seqNo, j - 1, parcel.inner, j > 1));
  }

  /** The relayer and those after it poll in vain until just before the parcel may go. */
  lemma WaitLoaded(net: Net, j: nat, to: nat, parcel: Parcel, radio: Radio) returns (steps: seq<Step>, end: Net)
    requires Loaded(net, j, to + 1, parcel) && net.now <= to && radio.poll >= 1
    ensures Reaches(net, steps, radio, end) && Loaded(end, j, to + 1, parcel) && end.now == to
    ensures end.macs == net.macs && |end.nodes| == |net.nodes| && end.nodes[0] == net.nodes[0]
  {
    steps, end := PollUntil(net, j, to, radio);
  }

  /** The relayers poll until the copy has flown as long as it may. */
  lemma WaitBaton(net: Net, k: nat, j: nat, to: nat, parcel: Parcel, radio: Radio) returns (steps: seq<Step>, end: Net)
    requires 1 <= j <= LAST && Baton(net, k, j, j - 1, net.now, parcel) && net.now <= to && radio.poll >= 1
    ensures Reaches(net, steps, radio, end) && Baton(end, k, j, j - 1, net.now, parcel) && end.now == to
    ensures end.macs == net.macs && |end.nodes| == |net.nodes| && end.nodes[0] == net.nodes[0]
  {
    steps, end := PollUntil(net, j, to, radio);
  }

  /** The slow hop up to the relayer's last poll before it may send: the longest flight, the longest delay. */
  lemma HopHear(net: Net, k: nat, j: nat, parcel: Parcel, radio: Radio) returns (steps: seq<Step>, end: Net)
    requires 1 <= j <= LAST && Baton(net, k, j, j - 1, net.now, parcel) && radio.poll >= 1
    ensures Reaches(net, steps, radio, end) && Loaded(end, j, end.now + 1, parcel)
    ensures end.now == net.now + radio.flight + 29
    ensures end.macs == net.macs && |end.nodes| == |net.nodes| && end.nodes[0] == net.nodes[0]
  {
    var at := net.now + radio.flight;
    var first, heard := WaitBaton(net, k, j, at, parcel, radio);
    var next := DeliverLoads(heard, k, j, net.now, parcel, radio);
    var last;
    last, end := WaitLoaded(next, j, at + 29, parcel, radio);
    ReachesThen(heard, [Deliver(k, 30, at)], next, last, end, radio);
    ReachesThen(net, first, heard, [Deliver(k, 30, at)] + last, end, radio);
    steps := first + ([Deliver(k, 30, at)] + last);
  }

  lemma EnvelopeBears(c: Copy, to: nat, j: byte, at: nat, p: Pending, parcel: Parcel)
    requires p.origin == parcel.origin && p.seqNo == parcel.seqNo && p.hop == j > 0 && p.payload == parcel.inner
    requires |parcel.inner| == MEDIA_SYNC_LEN
    requires c.to == to && c.sentAt == at && c.tag == parcel.tag && c.frame == Envelope(p)
    ensures Bears(c, to, j, at, parcel)
  {
    EnvelopeRoundTrip(p.origin, p.seqNo, p.hop, p.payload, c.src);
  }

  /** A relayer's poll sends the one parcel it holds, once it may go. */
  lemma PollSends(net: Net, j: nat, hop: byte, at: nat, to: nat, sendTime: nat, parcel: Parcel, radio: Radio)
    returns (k: nat, next: Net)
    requires Shape(net) && j < |net.nodes| && hop > 0
    requires net.nodes[j].tables.pending == EmptyTables().pending[
               0 := Pending(true, sendTime, parcel.origin, parcel.seqNo, hop, parcel.inner)]
    requires net.nodes[j].tags[0] == parcel.tag && |parcel.inner| == MEDIA_SYNC_LEN
    requires net.now <= at && sendTime <= at <= net.nodes[j].lastPoll + radio.poll
    requires to < |net.nodes| && to != j
    ensures Reaches(net, [Poll(j, at)], radio, next)
    ensures next.now == at && next.macs == net.macs && |next.nodes| == |net.nodes|
    ensures forall i :: 0 <= i < |net.nodes| && i != j ==> next.nodes[i] == net.nodes[i]
    ensures k < |next.air| && Bears(next.air[k], to, hop, at, parcel)
  {
    var s := Poll(j, at);
    var p := net.nodes[j].tables.pending[0];
    var c := Copy(0, net.macs[j], Envelope(p), at, parcel.tag);
    next := Next(net, s);
    ReachesNext(net, s, radio);
    PollSendsFired(net, j, MAX_PENDING_RELAYS, at);
    OnlyFirst(net, j, MAX_PENDING_RELAYS, at, p);
    var q := BroadcastReaches(|net.nodes|, j, c, to);
    k := |net.air| + q;
    assert next.air[k] == c.(to := to);
    EnvelopeBears(next.air[k], to, hop, at, p, parcel);
  }

  /** Relayer j waits out one whole period, those after it polling on, and sends. */
  lemma SendOn(net: Net, j: nat, parcel: Parcel, radio: Radio) returns (steps: seq<Step>, end: Net, l: nat)
    requires Loaded(net, j, net.now + 1, parcel) && radio.poll >= 1 && |parcel.inner| == MEDIA_SYNC_LEN
    ensures Reaches(net, steps, radio, end) && end.now == net.now + radio.poll
    ensures Shape(end) && l < |end.air| && Bears(end.air[l], if j < LAST then j + 1 else 0, j, end.now, parcel)
    ensures end.macs == net.macs && |end.nodes| == |net.nodes| && end.nodes[0] == net.nodes[0]
    ensures forall i: nat :: j < i <= LAST ==> end.nodes[i].tables == EmptyTables() && end.nodes[i].lastPoll == end.now
  {
    var at := net.now + radio.poll;
    var middle, waited := PollUntil(net, j + 1, at, radio);
    l, end := PollSends(waited, j, j, at, if j < LAST then j + 1 else 0, net.now + 1, parcel, radio);
    ReachesThen(net, middle, waited, [Poll(j, at)], end, radio);
    steps := middle + [Poll(j, at)];
  }

  /** One hop as slow as the timing hypothesis allows. */
  lemma SlowHop(net: Net, k: nat, j: nat, parcel: Parcel, radio: Radio) returns (steps: seq<Step>, end: Net, l: nat)
    requires 1 <= j <= LAST && Baton(net, k, j, j - 1, net.now, parcel) && radio.poll >= 1
    ensures Reaches(net, steps, radio, end) && end.now == net.now + (29 + radio.poll + radio.flight)
    ensures l < |end.air| && Bears(end.air[l], if j < LAST then j + 1 else 0, j, end.now, parcel)
    ensures j < LAST ==> Baton(end, l, j + 1, j, end.now, parcel)
    ensures end.macs == net.macs && |end.nodes| == |net.nodes| && end.nodes[0] == net.nodes[0]
  {
    var first, loaded := HopHear(net, k, j, parcel, radio);
    var rest;
    rest, end, l := SendOn(loaded, j, parcel, radio);
    ReachesThen(net, first, loaded, rest, end, radio);
    steps := first + rest;
  }

  // ----- the worst case -----

  /** Some relay on the air is `late` ms younger than its packet. */
  ghost predicate RelayAfter(net: Net, late: nat)
    requires Shape(net)
  {
    exists k :: 0 <= k < |net.air| && IsRelayFrame(net.air[k].frame) && Known(net, net.air[k].tag) &&
                net.air[k].sentAt == Original(net, net.air[k].tag).at + late
  }

  /** A booted fleet that polls from the start. */
  ghost predicate Polling(net: Net) {
    && Boot(net) && Shape(net) && |net.nodes| > LAST
    && forall i :: 0 <= i < |net.nodes| ==> net.nodes[i].lastPoll == net.now
  }

  lemma MintStarts(net: Net, media: Media, radio: Radio) returns (k: nat, next: Net, parcel: Parcel)
    requires Polling(net)
    ensures Reaches(net, [Mint(0, media, net.now)], radio, next) && next.now == net.now
    ensures Baton(next, k, 1, 0, next.now, parcel) && parcel.tag == Tag(0, 0)
    ensures next.nodes[0].minted == [Minted(media, parcel.inner, net.now)] && next.macs == net.macs
  {
    var s := Mint(0, media, net.now);
    var frame := MediaFrame(media, SeqOf(0));
    next := Next(net, s);
    ReachesNext(net, s, radio);
    assert FreshNode(net.nodes[0], net.now);
    var c := Copy(0, net.macs[0], frame, net.now, Tag(0, 0));
    k := BroadcastReaches(|net.nodes|, 0, c, 1);
    parcel := Parcel(Tag(0, 0), net.macs[0], FromLe16(frame[29..31]), frame);
    assert next.air[k] == c.(to := 1);
    assert forall i: nat :: 0 < i <= LAST ==> FreshNode(net.nodes[i], net.now);
  }

  /** The bound of RelayLatency is attained: in every booted fleet of at least four nodes, for every poll spacing and
      flight time, some run on time sends a third relay 3 * (29 + P + F) ms after its packet. */
  lemma WorstCaseIsAttained(net: Net, radio: Radio) returns (steps: seq<Step>)
    requires Polling(net) && radio.poll >= 1
    ensures Run(net, steps) && TimedRun(net, steps, radio)
    ensures RelayAfter(Exec(net, steps), 3 * (29 + radio.poll + radio.flight))
  {
    var media := Media([], 0, 0, 0, 0, 0, 0);
    var k, sent, parcel := MintStarts(net, media, radio);
    var s1, n1, k1 := SlowHop(sent, k, 1, parcel, radio);
    var s2, n2, k2 := SlowHop(n1, k1, 2, parcel, radio);
    var s3, n3, k3 := SlowHop(n2, k2, 3, parcel, radio);
    ReachesThen(n1, s2, n2, s3, n3, radio);
    ReachesThen(sent, s1, n1, s2 + s3, n3, radio);
    ReachesThen(net, [Mint(0, media, net.now)], sent, s1 + (s2 + s3), n3, radio);
    steps := [Mint(0, media, net.now)] + (s1 + (s2 + s3));
    assert Known(n3, n3.air[k3].tag);
    assert n3.air[k3].sentAt == Original(n3, n3.air[k3].tag).at + 3 * (29 + radio.poll + radio.flight);
  }

  /** No relay of any run on time goes out later than `lead` after its packet. */
  ghost predicate LeadCovers(net: Net, radio: Radio, lead: nat)
    requires Shape(net)
  {
    forall steps, late: nat :: Run(net, steps) && TimedRun(net, steps, radio) && RelayAfter(Exec(net, steps), late) ==>
      late <= lead
  }

  lemma LatestInSound(r: Net, radio: Radio, late: nat)
    requires Shape(r) && Sound(r, radio) && RelayAfter(r, late)
    ensures late <= 3 * (29 + radio.poll + radio.flight)
  {
    var k :| 0 <= k < |r.air| && IsRelayFrame(r.air[k].frame) && Known(r, r.air[k].tag) &&
             r.air[k].sentAt == Original(r, r.air[k].tag).at + late;
    RelayIsFaithful(r, r.air[k], radio);
    AtMostThree(Parse(r.air[k].src, r.air[k].frame).value.hop, 29 + radio.poll + radio.flight);
  }

  lemma AtMostThree(h: nat, x: nat)
    requires h <= MAX_HOPS
    ensures h * x <= 3 * x
  {
  }

  lemma LatestRelay(net: Net, steps: seq<Step>, radio: Radio, late: nat)
    requires Boot(net) && Shape(net) && Run(net, steps) && TimedRun(net, steps, radio)
    requires RelayAfter(Exec(net, steps), late)
    ensures late <= 3 * (29 + radio.poll + radio.flight)
  {
    BootIsSound(net, radio);
    RunKeepsSound(net, steps, radio);
    LatestInSound(Exec(net, steps), radio, late);
  }

  /** A lead covers every relay of every run on time exactly when it is at least 3 * (29 + P + F). MIDI_EVENT_LEAD_MS
      does so only if P + F <= 1: never with the 10 ms of the polling loop. */
  lemma LeadCoversIff(net: Net, radio: Radio, lead: nat)
    requires Polling(net) && radio.poll >= 1
    ensures LeadCovers(net, radio, lead) <==> 3 * (29 + radio.poll + radio.flight) <= lead
    ensures LeadCovers(net, radio, MIDI_EVENT_LEAD_MS) <==> radio.poll + radio.flight <= 1
  {
    var steps := WorstCaseIsAttained(net, radio);
    forall tried, late: nat | Run(net, tried) && TimedRun(net, tried, radio) && RelayAfter(Exec(net, tried), late)
      ensures late <= 3 * (29 + radio.poll + radio.flight)
    {
      LatestRelay(net, tried, radio, late);
    }
  }
}
