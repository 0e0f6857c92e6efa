// The fleet as a step system: every node runs RelaySpec, the radio is a lossy broadcast, and an
// adversary chooses who hears what, when, and every random delay. Besides the code's tables each
// node carries history that the code does not have (tags, heard, scheduled, sent, quiet, minted); no step reads
// it except to update it.
module FloodNetwork {
  import opened Bytes
  import opened RelaySpec
  import opened MediaPacket

  /** Which MediaSyncPacket a frame descends from: the `idx`-th one minted by node `owner`. */
  datatype Tag = Tag(owner: nat, idx: nat)

  /** One undelivered copy of a broadcast. */
  datatype Copy = Copy(to: nat, src: Mac, frame: seq<byte>, sentAt: nat, tag: Tag)

  datatype Minted = Minted(media: Media, frame: seq<byte>, at: nat)

  datatype Node = Node(
    tables: Tables,
    tags: seq<Tag>,           // per pending slot: what was last scheduled there
    heard: map<nat, nat>,     // per owner: index of the last packet heard
    scheduled: multiset<Tag>, // forwards ever entered into the pending table
    sent: multiset<Tag>,      // relay transmissions so far
    quiet: set<Tag>,          // heard relayed by somebody else after the first sight
    minted: seq<Minted>,
    lastPoll: nat)

  datatype Net = Net(macs: seq<Mac>, nodes: seq<Node>, air: seq<Copy>, now: nat)

  datatype Step =
    | Mint(i: nat, media: Media, at: nat)
    | Deliver(k: nat, delay: nat, at: nat)
    | Lose(k: nat)
    | Poll(i: nat, at: nat)

  /** Timing hypothesis: polls of one node are at most `poll` ms apart, a copy flies at most `flight` ms. */
  datatype Radio = Radio(poll: nat, flight: nat)

  ghost predicate Shape(net: Net) {
    && |net.macs| == |net.nodes|
    && (forall i :: 0 <= i < |net.nodes| ==>
          net.nodes[i].tables.Wf() && |net.nodes[i].tags| == MAX_PENDING_RELAYS)
    && forall k :: 0 <= k < |net.air| ==> net.air[k].to < |net.nodes|
  }

  /** `++mediaSyncSeq`: the idx-th packet (from 0) carries idx + 1 modulo 2^16. */
  function SeqOf(idx: nat): word {
    (idx + 1) % 0x1_0000
  }

  /** One copy for every node below `n` except the sender. */
  function Broadcast(n: nat, sender: nat, c: Copy): (r: seq<Copy>)
    ensures |r| == if sender < n then n - 1 else n
    ensures forall k :: 0 <= k < |r| ==> r[k] == c.(to := r[k].to) && r[k].to < n && r[k].to != sender
  {
    if n == 0 then [] else
      Broadcast(n - 1, sender, c) + (if n - 1 == sender then [] else [c.(to := n - 1)])
  }

  function Without<T>(s: seq<T>, k: nat): (r: seq<T>)
    requires k < |s|
    ensures |r| == |s| - 1
  {
    s[..k] + s[k + 1..]
  }

  function Hear(node: Node, me: Mac, c: Copy, sendTime: nat): (r: Node)
    requires node.tables.Wf() && |node.tags| == MAX_PENDING_RELAYS
    ensures r.tables.Wf() && |r.tags| == MAX_PENDING_RELAYS
  {
    var cand := Parse(c.src, c.frame);
    if cand.None? || cand.value.origin == me then node else
      var slot := ScheduleSlot(node.tables, me, cand.value);
      node.(tables := HandleCandidate(node.tables, me, cand.value, sendTime),
            tags := if slot.None? then node.tags else node.tags[slot.value := c.tag],
            scheduled := if slot.None? then node.scheduled else node.scheduled + multiset{c.tag},
            heard := node.heard[c.tag.owner := c.tag.idx],
            quiet := if cand.value.isRelay && c.tag.owner in node.heard && node.heard[c.tag.owner] == c.tag.idx
                     then node.quiet + {c.tag} else node.quiet)
  }

  ghost predicate CanStep(net: Net, s: Step) {
    match s
    case Mint(i, _, at) => i < |net.nodes| && net.now <= at
    case Deliver(k, delay, at) =>
      k < |net.air| && MESH_RELAY_DELAY_MIN_MS <= delay <= MESH_RELAY_DELAY_MAX_MS && net.now <= at
    case Lose(k) => k < |net.air|
    case Poll(i, at) => i < |net.nodes| && net.now <= at
  }

  ghost predicate OnTime(net: Net, s: Step, radio: Radio)
    requires CanStep(net, s)
  {
    match s
    case Mint(_, _, _) => true
    case Deliver(k, _, at) => at <= net.air[k].sentAt + radio.flight
    case Lose(_) => true
    case Poll(i, at) => at <= net.nodes[i].lastPoll + radio.poll
  }

  /** The k-th iteration of the poll loop of node `i`. */
  function FireSlot(net: Net, i: nat, k: nat, at: nat): (r: Net)
    requires |net.macs| == |net.nodes| && i < |net.nodes|
    requires k < |net.nodes[i].tables.pending| && k < |net.nodes[i].tags|
  {
    var node := net.nodes[i];
    var p := node.tables.pending[k];
    if !Due(p, at) then net else
      net.(nodes := net.nodes[i := node.(
             tables := node.tables.(pending := node.tables.pending[k := p.(active := false)]),
             sent := node.sent + multiset{node.tags[k]})],
           air := net.air + Broadcast(|net.nodes|, i, Copy(0, net.macs[i], Envelope(p), at, node.tags[k])))
  }

  ghost function FireSlots(net: Net, i: nat, n: nat, at: nat): (r: Net)
    requires Shape(net) && i < |net.nodes| && n <= MAX_PENDING_RELAYS
    ensures Shape(r) && r.macs == net.macs && |r.nodes| == |net.nodes| && r.now == net.now
    ensures r.nodes[i].tags == net.nodes[i].tags
    ensures r.nodes[i].tables == net.nodes[i].tables.(pending := Polled(net.nodes[i].tables.pending, at, n))
  {
    if n == 0 then
      assert Polled(net.nodes[i].tables.pending, at, 0) == net.nodes[i].tables.pending;
      net
    else
      var before := FireSlots(net, i, n - 1, at);
      var r := FireSlot(before, i, n - 1, at);
      PolledNext(net.nodes[i].tables.pending, at, n - 1);
      r
  }

  ghost function Next(net: Net, s: Step): (r: Net)
    requires Shape(net) && CanStep(net, s)
    ensures Shape(r) && r.macs == net.macs && |r.nodes| == |net.nodes|
  {
    match s
    case Mint(i, media, at) =>
      var node := net.nodes[i];
      var frame := MediaFrame(media, SeqOf(|node.minted|));
      net.(nodes := net.nodes[i := node.(minted := node.minted + [Minted(media, frame, at)])],
           air := net.air + Broadcast(|net.nodes|, i, Copy(0, net.macs[i], frame, at, Tag(i, |node.minted|))),
           now := at)
    case Deliver(k, delay, at) =>
      var c := net.air[k];
      net.(nodes := net.nodes[c.to := Hear(net.nodes[c.to], net.macs[c.to], c, at + delay)],
           air := Without(net.air, k),
           now := at)
    case Lose(k) => net.(air := Without(net.air, k))
    case Poll(i, at) =>
      var r := FireSlots(net, i, MAX_PENDING_RELAYS, at);
      r.(nodes := r.nodes[i := r.nodes[i].(lastPoll := at)], now := at)
  }

  /** Everything the frames of one poll put on the air. */
  ghost function BroadcastAll(net: Net, i: nat, n: nat, at: nat): (r: seq<Copy>)
    requires Shape(net) && i < |net.nodes| && n <= MAX_PENDING_RELAYS
  {
    if n == 0 then [] else
      var p := net.nodes[i].tables.pending[n - 1];
      BroadcastAll(net, i, n - 1, at) +
      (if Due(p, at)
       then Broadcast(|net.nodes|, i, Copy(0, net.macs[i], Envelope(p), at, net.nodes[i].tags[n - 1]))
       else [])
  }

  /** A poll step sends exactly the frames `processPendingRelays` sends, each to every other node. */
  lemma {:induction false} PollSendsFired(net: Net, i: nat, n: nat, at: nat)
    requires Shape(net) && i < |net.nodes| && n <= MAX_PENDING_RELAYS
    ensures FireSlots(net, i, n, at).air == net.air + BroadcastAll(net, i, n, at)
    ensures |FireSlots(net, i, n, at).nodes[i].sent| ==
            |net.nodes[i].sent| + |Fired(net.nodes[i].tables.pending, at, n)|
    ensures forall j :: 0 <= j < |net.nodes| && j != i ==> FireSlots(net, i, n, at).nodes[j] == net.nodes[j]
  {
    if n > 0 {
      PollSendsFired(net, i, n - 1, at);
    }
  }

  // ----- runs -----

  ghost predicate Run(net: Net, steps: seq<Step>)
    requires Shape(net)
    decreases |steps|
  {
    |steps| == 0 || (CanStep(net, steps[0]) && Run(Next(net, steps[0]), steps[1..]))
  }

  ghost function Exec(net: Net, steps: seq<Step>): (r: Net)
    requires Shape(net) && Run(net, steps)
    ensures Shape(r) && r.macs == net.macs && |r.nodes| == |net.nodes|
    decreases |steps|
  {
    if |steps| == 0 then net else Exec(Next(net, steps[0]), steps[1..])
  }

  /** Every step of the run also respects the timing hypothesis. */
  ghost predicate TimedRun(net: Net, steps: seq<Step>, radio: Radio)
    requires Shape(net) && Run(net, steps)
    decreases |steps|
  {
    |steps| == 0 || (OnTime(net, steps[0], radio) && TimedRun(Next(net, steps[0]), steps[1..], radio))
  }

  ghost predicate FreshNode(n: Node, now: nat) {
    && n.tables == EmptyTables() && |n.tags| == MAX_PENDING_RELAYS
    && n.heard == map[] && n.scheduled == multiset{} && n.sent == multiset{} && n.quiet == {} && n.minted == []
    && n.lastPoll <= now
  }

  /** A booted fleet: distinct stations, empty tables, nothing on the air. */
  ghost predicate Boot(net: Net) {
    && |net.macs| == |net.nodes|
    && (forall i, j :: 0 <= i < j < |net.macs| ==> net.macs[i] != net.macs[j])
    && (forall i :: 0 <= i < |net.nodes| ==> FreshNode(net.nodes[i], net.now))
    && net.air == []
  }
}
