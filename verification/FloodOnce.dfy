// When the last-seq dedup is exact, and what it then buys: every node forwards every packet at most
// once, and never a packet it heard somebody else forward.
module FloodOnce {
  import opened Bytes
  import opened RelaySpec
  import opened FloodNetwork
  import opened FloodProvenance
  import opened Sets

  // ----- the dedup table is a bounded map from origin to last seq -----

  ghost predicate Holds(t: seq<OriginEntry>, mac: Mac, seqNo: word) {
    exists i :: 0 <= i < |t| && t[i].valid && t[i].mac == mac && t[i].lastSeq == seqNo
  }

  ghost predicate Distinct(t: seq<OriginEntry>) {
    forall i, j :: 0 <= i < |t| && 0 <= j < |t| && t[i].valid && t[j].valid && t[i].mac == t[j].mac ==> i == j
  }

  /** The table holds exactly the origins heard, each with the last seq heard from it. */
  ghost predicate TableOk(t: seq<OriginEntry>, macs: seq<Mac>, heard: map<nat, nat>) {
    && |t| == MAX_RELAY_ORIGINS
    && Distinct(t)
    && (forall w :: w in heard ==> w < |macs| && Holds(t, macs[w], SeqOf(heard[w])))
    && (forall i {:trigger Heard(macs, heard, t[i].mac)} ::
          0 <= i < |t| && t[i].valid ==> Heard(macs, heard, t[i].mac))
  }

  ghost predicate Heard(macs: seq<Mac>, heard: map<nat, nat>, mac: Mac) {
    exists w :: w in heard && w < |macs| && mac == macs[w]
  }

  lemma {:induction false} DistinctSize(s: seq<Mac>)
    requires forall i, j :: 0 <= i < j < |s| ==> s[i] != s[j]
    ensures |set i | 0 <= i < |s| :: s[i]| == |s|
  {
    if |s| > 0 {
      var init := s[..|s| - 1];
      DistinctSize(init);
      assert (set i | 0 <= i < |s| :: s[i]) == (set i | 0 <= i < |init| :: init[i]) + {s[|s| - 1]};
    }
  }

  lemma {:induction false} ImageSize(ws: set<nat>, macs: seq<Mac>)
    requires forall w :: w in ws ==> w < |macs|
    ensures |set w | w in ws :: macs[w]| <= |ws|
    decreases ws
  {
    if ws != {} {
      var w0 :| w0 in ws;
      var rest := ws - {w0};
      ImageSize(rest, macs);
      assert (set w | w in ws :: macs[w]) == (set w | w in rest :: macs[w]) + {macs[w0]};
    }
  }

  /** A full table has heard at least MAX_RELAY_ORIGINS origins. */
  lemma FullTable(t: seq<OriginEntry>, macs: seq<Mac>, heard: map<nat, nat>)
    requires TableOk(t, macs, heard) && forall i :: 0 <= i < |t| ==> t[i].valid
    ensures |t| <= |heard.Keys|
  {
    var s := seq(|t|, i requires 0 <= i < |t| => t[i].mac);
    DistinctSize(s);
    ImageSize(heard.Keys, macs);
    var used, known := set i | 0 <= i < |s| :: s[i], set v | v in heard.Keys :: macs[v];
    forall m | m in used ensures m in known {
      var i :| 0 <= i < |s| && m == s[i];
      assert t[i].valid && Heard(macs, heard, t[i].mac);
    }
    SubsetSize(used, known);
  }

  /** With at most MAX_RELAY_ORIGINS origins a new one always finds a free slot. */
  lemma RoomForNew(t: seq<OriginEntry>, macs: seq<Mac>, heard: map<nat, nat>, origins: set<nat>, w: nat)
    requires TableOk(t, macs, heard)
    requires |origins| <= MAX_RELAY_ORIGINS && heard.Keys <= origins && w in origins && w !in heard
    ensures FreeFrom(t, 0) < |t|
  {
    if FreeFrom(t, 0) == |t| {
      FullTable(t, macs, heard);
      SubsetSize(heard.Keys, origins - {w});
    }
  }

  /** Dedup answers exactly: seen iff the LAST packet heard from that origin had this seq. */
  lemma SeenIff(t: seq<OriginEntry>, macs: seq<Mac>, heard: map<nat, nat>, w: nat, seqNo: word)
    requires TableOk(t, macs, heard) && w < |macs|
    requires forall i, j :: 0 <= i < j < |macs| ==> macs[i] != macs[j]
    ensures Seen(t, macs[w], seqNo) <==> w in heard && SeqOf(heard[w]) == seqNo
  {
    var m := MatchFrom(t, macs[w], 0);
    if m < |t| {
      assert Heard(macs, heard, t[m].mac);
      var v :| v in heard && v < |macs| && t[m].mac == macs[v];
      assert v == w;
    }
  }

  /** The slot remembering writes is the origin's own or a free one, and nobody else's. */
  lemma SlotIsOwn(t: seq<OriginEntry>, macs: seq<Mac>, heard: map<nat, nat>, origins: set<nat>, w: nat)
    requires TableOk(t, macs, heard) && w < |macs|
    requires |origins| <= MAX_RELAY_ORIGINS && heard.Keys <= origins && w in origins
    ensures
      var s := OriginSlot(t, macs[w]);
      (t[s].valid ==> t[s].mac == macs[w]) && forall i :: 0 <= i < |t| && t[i].valid && t[i].mac == macs[w] ==> i == s
  {
    if w !in heard {
      RoomForNew(t, macs, heard, origins, w);
    }
  }

  lemma WriteKeepsHolds(t: seq<OriginEntry>, macs: seq<Mac>, w: nat, idx: nat, s: nat, v: nat, seqNo: word)
    requires w < |macs| && s < |t| && v < |macs| && macs[v] != macs[w]
    requires (t[s].valid ==> t[s].mac == macs[w]) && Holds(t, macs[v], seqNo)
    ensures Holds(t[s := OriginEntry(macs[w], SeqOf(idx), true)], macs[v], seqNo)
  {
    var after := t[s := OriginEntry(macs[w], SeqOf(idx), true)];
    var i :| 0 <= i < |t| && t[i].valid && t[i].mac == macs[v] && t[i].lastSeq == seqNo;
    assert after[i] == t[i];
  }

  lemma WriteKeepsTable(t: seq<OriginEntry>, macs: seq<Mac>, heard: map<nat, nat>, w: nat, idx: nat, s: nat)
    requires TableOk(t, macs, heard) && w < |macs| && s < |t|
    requires forall i, j :: 0 <= i < j < |macs| ==> macs[i] != macs[j]
    requires t[s].valid ==> t[s].mac == macs[w]
    requires forall i :: 0 <= i < |t| && t[i].valid && t[i].mac == macs[w] ==> i == s
    ensures TableOk(t[s := OriginEntry(macs[w], SeqOf(idx), true)], macs, heard[w := idx])
  {
    var after, later := t[s := OriginEntry(macs[w], SeqOf(idx), true)], heard[w := idx];
    forall v | v in later ensures v < |macs| && Holds(after, macs[v], SeqOf(later[v])) {
      if v == w {
        assert after[s].valid && after[s].mac == macs[v] && after[s].lastSeq == SeqOf(later[v]);
      } else {
        WriteKeepsHolds(t, macs, w, idx, s, v, SeqOf(heard[v]));
      }
    }
    forall i | 0 <= i < |after| && after[i].valid ensures Heard(macs, later, after[i].mac) {
      assert w in later;
      if i != s {
        assert Heard(macs, heard, t[i].mac);
        var v :| v in heard && v < |macs| && t[i].mac == macs[v];
        assert v in later;
      }
    }
    WriteKeepsDistinct(t, OriginEntry(macs[w], SeqOf(idx), true), s);
  }

  lemma WriteKeepsDistinct(t: seq<OriginEntry>, e: OriginEntry, s: nat)
    requires Distinct(t) && s < |t|
    requires forall i :: 0 <= i < |t| && t[i].valid && t[i].mac == e.mac ==> i == s
    ensures Distinct(t[s := e])
  {
  }

  lemma RememberKeepsTable(t: seq<OriginEntry>, macs: seq<Mac>, heard: map<nat, nat>, origins: set<nat>, w: nat,
                           idx: nat)
    requires TableOk(t, macs, heard) && w < |macs|
    requires forall i, j :: 0 <= i < j < |macs| ==> macs[i] != macs[j]
    requires |origins| <= MAX_RELAY_ORIGINS && heard.Keys <= origins && w in origins
    ensures TableOk(Remember(t, macs[w], SeqOf(idx)), macs, heard[w := idx])
  {
    SlotIsOwn(t, macs, heard, origins, w);
    WriteKeepsTable(t, macs, heard, w, idx, OriginSlot(t, macs[w]));
  }

  // ----- one node -----

  ghost predicate NotAfter(n: Node, t: Tag) {
    t.owner in n.heard && t.idx <= n.heard[t.owner]
  }

  /** The packet is not older than the last one heard from its owner. */
  ghost predicate Fresh(n: Node, t: Tag) {
    t.owner in n.heard ==> n.heard[t.owner] <= t.idx
  }

  /** A waiting forward was scheduled, not sent yet, and not heard from anybody else since. */
  ghost predicate Waiting(n: Node, t: Tag) {
    NotAfter(n, t) && t !in n.sent && t !in n.quiet && t in n.scheduled
  }

  ghost predicate SlotsOnce(n: Node)
    requires n.tables.Wf() && |n.tags| == MAX_PENDING_RELAYS
  {
    && (forall k :: 0 <= k < MAX_PENDING_RELAYS && n.tables.pending[k].active ==> Waiting(n, n.tags[k]))
    && (forall k, l :: 0 <= k < l < MAX_PENDING_RELAYS && n.tables.pending[k].active && n.tables.pending[l].active ==>
          n.tags[k] != n.tags[l])
  }

  ghost predicate BooksOnce(n: Node, j: nat) {
    && (forall t :: t in n.sent ==> n.sent[t] == 1 && t in n.scheduled)
    && (forall t :: t in n.scheduled ==> n.scheduled[t] == 1 && NotAfter(n, t) && t.owner != j)
    && (forall t :: t in n.quiet ==> NotAfter(n, t))
  }

  /** Node `j` never schedules a packet twice, never forwards its own, and drops what others forwarded. */
  ghost predicate Once(n: Node, j: nat)
    requires n.tables.Wf() && |n.tags| == MAX_PENDING_RELAYS
  {
    SlotsOnce(n) && BooksOnce(n, j)
  }

  /** What node `j` may rely on when it hears copy `c` in order: dedup is exact for its packet. */
  ghost predicate Exact(n: Node, me: Mac, j: nat, c: Copy)
    requires n.tables.Wf() && |n.tags| == MAX_PENDING_RELAYS
  {
    var cand := Parse(c.src, c.frame);
    && cand.Some? && cand.value.origin != me && c.tag.owner != j
    && cand.value.seqNo == SeqOf(c.tag.idx)
    && (Seen(n.tables.origins, cand.value.origin, cand.value.seqNo) <==>
        c.tag.owner in n.heard && SeqOf(n.heard[c.tag.owner]) == cand.value.seqNo)
    && (forall k :: 0 <= k < MAX_PENDING_RELAYS && n.tables.pending[k].active && n.tags[k] == c.tag ==>
          IsFor(n.tables.pending[k], cand.value.origin, cand.value.seqNo))
    && Fresh(n, c.tag)
  }

  lemma ScheduledIsNew(n: Node, me: Mac, j: nat, c: Copy)
    requires n.tables.Wf() && |n.tags| == MAX_PENDING_RELAYS && Exact(n, me, j, c)
    requires ScheduleSlot(n.tables, me, Parse(c.src, c.frame).value).Some?
    ensures !NotAfter(n, c.tag)
  {
  }

  lemma BooksGrow(n: Node, after: Node, j: nat, t: Tag)
    requires BooksOnce(n, j) && t.owner != j && Fresh(n, t)
    requires after.heard == n.heard[t.owner := t.idx] && after.sent == n.sent
    requires after.scheduled == n.scheduled || (!NotAfter(n, t) && after.scheduled == n.scheduled + multiset{t})
    requires after.quiet == n.quiet || after.quiet == n.quiet + {t}
    ensures BooksOnce(after, j)
  {
    forall u | NotAfter(n, u) ensures NotAfter(after, u) {
    }
  }

  lemma HearKeepsBooks(n: Node, me: Mac, j: nat, c: Copy, sendTime: nat)
    requires n.tables.Wf() && |n.tags| == MAX_PENDING_RELAYS && BooksOnce(n, j) && Exact(n, me, j, c)
    ensures BooksOnce(Hear(n, me, c, sendTime), j)
  {
    var slot := ScheduleSlot(n.tables, me, Parse(c.src, c.frame).value);
    if slot.Some? {
      ScheduledIsNew(n, me, j, c);
    }
    BooksGrow(n, Hear(n, me, c, sendTime), j, c.tag);
  }

  /** A slot still waiting after the node heard `c`, other than the one `c` went into, waited before,
      and not for the packet `c` relays. */
  lemma OldSlot(n: Node, me: Mac, j: nat, c: Copy, sendTime: nat, k: nat)
    requires n.tables.Wf() && |n.tags| == MAX_PENDING_RELAYS && Exact(n, me, j, c) && k < MAX_PENDING_RELAYS
    requires ScheduleSlot(n.tables, me, Parse(c.src, c.frame).value) != Some(k)
    requires Hear(n, me, c, sendTime).tables.pending[k].active
    ensures n.tables.pending[k].active && Hear(n, me, c, sendTime).tags[k] == n.tags[k]
    ensures Parse(c.src, c.frame).value.isRelay ==> n.tags[k] != c.tag
  {
    var cand := Parse(c.src, c.frame).value;
    assert Hear(n, me, c, sendTime).tables.pending[k] == AfterSuppression(n.tables, cand)[k];
  }

  lemma HearKeepsWaiting(n: Node, me: Mac, j: nat, c: Copy, sendTime: nat, k: nat)
    requires n.tables.Wf() && |n.tags| == MAX_PENDING_RELAYS && Once(n, j) && Exact(n, me, j, c)
    requires k < MAX_PENDING_RELAYS && Hear(n, me, c, sendTime).tables.pending[k].active
    ensures Waiting(Hear(n, me, c, sendTime), Hear(n, me, c, sendTime).tags[k])
  {
    var slot := ScheduleSlot(n.tables, me, Parse(c.src, c.frame).value);
    if slot == Some(k) {
      ScheduledIsNew(n, me, j, c);
    } else {
      OldSlot(n, me, j, c, sendTime, k);
    }
  }

  lemma HearKeepsApart(n: Node, me: Mac, j: nat, c: Copy, sendTime: nat, k: nat, l: nat)
    requires n.tables.Wf() && |n.tags| == MAX_PENDING_RELAYS && Once(n, j) && Exact(n, me, j, c)
    requires k < l < MAX_PENDING_RELAYS
    requires Hear(n, me, c, sendTime).tables.pending[k].active && Hear(n, me, c, sendTime).tables.pending[l].active
    ensures Hear(n, me, c, sendTime).tags[k] != Hear(n, me, c, sendTime).tags[l]
  {
    var slot := ScheduleSlot(n.tables, me, Parse(c.src, c.frame).value);
    if slot.Some? {
      ScheduledIsNew(n, me, j, c);
    }
    if slot != Some(k) {
      OldSlot(n, me, j, c, sendTime, k);
    }
    if slot != Some(l) {
      OldSlot(n, me, j, c, sendTime, l);
    }
  }

  lemma HearKeepsOnce(n: Node, me: Mac, j: nat, c: Copy, sendTime: nat)
    requires n.tables.Wf() && |n.tags| == MAX_PENDING_RELAYS && Once(n, j) && Exact(n, me, j, c)
    ensures Once(Hear(n, me, c, sendTime), j)
  {
    var after := Hear(n, me, c, sendTime);
    HearKeepsBooks(n, me, j, c, sendTime);
    forall k | 0 <= k < MAX_PENDING_RELAYS && after.tables.pending[k].active ensures Waiting(after, after.tags[k]) {
      HearKeepsWaiting(n, me, j, c, sendTime, k);
    }
    forall k, l | 0 <= k < l < MAX_PENDING_RELAYS && after.tables.pending[k].active && after.tables.pending[l].active
      ensures after.tags[k] != after.tags[l]
    {
      HearKeepsApart(n, me, j, c, sendTime, k, l);
    }
  }

  lemma FireKeepsOnce(n: Node, j: nat, k: nat)
    requires n.tables.Wf() && |n.tags| == MAX_PENDING_RELAYS && Once(n, j)
    requires k < MAX_PENDING_RELAYS && n.tables.pending[k].active
    ensures
      var after := n.(tables := n.tables.(pending := n.tables.pending[k := n.tables.pending[k].(active := false)]),
                      sent := n.sent + multiset{n.tags[k]});
      after.tables.Wf() && Once(after, j)
  {
  }

  // ----- the fleet -----

  /** Only nodes in `origins` mint. */
  predicate MintersIn(steps: seq<Step>, origins: set<nat>) {
    forall k :: 0 <= k < |steps| ==> steps[k].Mint? ==> steps[k].i in origins
  }

  ghost predicate Tracked(net: Net, origins: set<nat>)
    requires Shape(net)
  {
    && |origins| <= MAX_RELAY_ORIGINS
    && (forall j :: 0 <= j < |net.nodes| ==>
          TableOk(net.nodes[j].tables.origins, net.macs, net.nodes[j].heard) && net.nodes[j].heard.Keys <= origins)
    && (forall j :: 0 <= j < |net.nodes| ==> net.nodes[j].minted != [] ==> j in origins)
  }

  ghost predicate AllOnce(net: Net)
    requires Shape(net)
  {
    forall j :: 0 <= j < |net.nodes| ==> Once(net.nodes[j], j)
  }

  /** The arrival-order hypothesis: a node hears each origin's packets in nondecreasing mint order. */
  ghost predicate InOrder(net: Net, s: Step)
    requires Shape(net) && CanStep(net, s)
  {
    s.Deliver? ==> Fresh(net.nodes[net.air[s.k].to], net.air[s.k].tag)
  }

  ghost predicate OrderedRun(net: Net, steps: seq<Step>)
    requires Shape(net) && Run(net, steps)
    decreases |steps|
  {
    |steps| == 0 || (InOrder(net, steps[0]) && OrderedRun(Next(net, steps[0]), steps[1..]))
  }

  /** In a sound, tracked fleet every copy of somebody else's packet meets an exact dedup answer. */
  lemma DedupIsExact(net: Net, k: nat, origins: set<nat>, radio: Radio)
    requires Shape(net) && Sound(net, radio) && Tracked(net, origins) && k < |net.air|
    requires net.air[k].tag.owner != net.air[k].to
    ensures
      var c := net.air[k];
      && Parse(c.src, c.frame).Some?
      && (Fresh(net.nodes[c.to], c.tag) ==> Exact(net.nodes[c.to], net.macs[c.to], c.to, c))
      && (Seen(net.nodes[c.to].tables.origins, net.macs[c.tag.owner], SeqOf(c.tag.idx)) <==>
          c.tag.owner in net.nodes[c.to].heard && SeqOf(net.nodes[c.to].heard[c.tag.owner]) == SeqOf(c.tag.idx))
  {
    var c := net.air[k];
    var n := net.nodes[c.to];
    assert CopyOk(net, c, radio) && NodeOk(net, c.to, radio);
    CopyOffers(net, c, radio);
    SeenIff(n.tables.origins, net.macs, n.heard, c.tag.owner, SeqOf(c.tag.idx));
  }

  lemma DeliverKeepsTracked(net: Net, s: Step, origins: set<nat>, radio: Radio)
    requires Shape(net) && Sound(net, radio) && Tracked(net, origins) && CanStep(net, s) && s.Deliver?
    ensures Tracked(Next(net, s), origins)
  {
    var c := net.air[s.k];
    var n := net.nodes[c.to];
    assert CopyOk(net, c, radio);
    CopyOffers(net, c, radio);
    assert c.tag.owner in origins;
    RememberKeepsTable(n.tables.origins, net.macs, n.heard, origins, c.tag.owner, c.tag.idx);
  }

  lemma {:induction false} FireKeepsTracked(net: Net, i: nat, n: nat, at: nat, origins: set<nat>)
    requires Shape(net) && Tracked(net, origins) && i < |net.nodes| && n <= MAX_PENDING_RELAYS
    ensures Tracked(FireSlots(net, i, n, at), origins)
  {
    if n > 0 {
      FireKeepsTracked(net, i, n - 1, at, origins);
    }
  }

  lemma StepKeepsTracked(net: Net, s: Step, origins: set<nat>, radio: Radio)
    requires Shape(net) && Sound(net, radio) && Tracked(net, origins) && CanStep(net, s)
    requires s.Mint? ==> s.i in origins
    ensures Tracked(Next(net, s), origins)
  {
    match s
    case Mint(_, _, _) =>
    case Deliver(_, _, _) => DeliverKeepsTracked(net, s, origins, radio);
    case Lose(_) =>
    case Poll(i, at) => FireKeepsTracked(net, i, MAX_PENDING_RELAYS, at, origins);
  }

  /** A copy in order meets an exact answer, or comes home to its origin. */
  ghost predicate Meets(net: Net, c: Copy)
    requires Shape(net) && c.to < |net.nodes|
  {
    Exact(net.nodes[c.to], net.macs[c.to], c.to, c) ||
    (Parse(c.src, c.frame).Some? && Parse(c.src, c.frame).value.origin == net.macs[c.to])
  }

  lemma OrderedMeets(net: Net, k: nat, origins: set<nat>, radio: Radio)
    requires Shape(net) && Sound(net, radio) && Tracked(net, origins) && k < |net.air|
    requires Fresh(net.nodes[net.air[k].to], net.air[k].tag)
    ensures Meets(net, net.air[k])
  {
    if net.air[k].tag.owner != net.air[k].to {
      DedupIsExact(net, k, origins, radio);
    } else {
      assert CopyOk(net, net.air[k], radio);
      CopyOffers(net, net.air[k], radio);
    }
  }

  lemma HeardOnce(n: Node, me: Mac, j: nat, c: Copy, sendTime: nat, heard: Node)
    requires n.tables.Wf() && |n.tags| == MAX_PENDING_RELAYS && Once(n, j) && heard == Hear(n, me, c, sendTime)
    requires Exact(n, me, j, c) || (Parse(c.src, c.frame).Some? && Parse(c.src, c.frame).value.origin == me)
    ensures Once(heard, j)
  {
    if Exact(n, me, j, c) {
      HearKeepsOnce(n, me, j, c, sendTime);
    }
  }

  lemma HearerKeepsOnce(net: Net, after: Net, c: Copy, sendTime: nat)
    requires Shape(net) && Shape(after) && AllOnce(net) && c.to < |net.nodes| && Meets(net, c)
    requires after.nodes == net.nodes[c.to := Hear(net.nodes[c.to], net.macs[c.to], c, sendTime)]
    ensures AllOnce(after)
  {
    assert Once(net.nodes[c.to], c.to);
    HeardOnce(net.nodes[c.to], net.macs[c.to], c.to, c, sendTime, after.nodes[c.to]);
    AllOnceUpdate(net, after, c.to);
  }

  lemma DeliverKeepsOnce(net: Net, s: Step)
    requires Shape(net) && AllOnce(net) && CanStep(net, s) && s.Deliver? && Meets(net, net.air[s.k])
    ensures AllOnce(Next(net, s))
  {
    HearerKeepsOnce(net, Next(net, s), net.air[s.k], s.at + s.delay);
  }

  lemma AllOnceUpdate(a: Net, b: Net, i: nat)
    requires Shape(a) && Shape(b) && AllOnce(a) && |a.nodes| == |b.nodes| && i < |a.nodes|
    requires Once(b.nodes[i], i) && forall j :: 0 <= j < |a.nodes| && j != i ==> b.nodes[j] == a.nodes[j]
    ensures AllOnce(b)
  {
  }

  /** Minting and the poll time are none of dedup's business. */
  lemma OnceStays(n: Node, m: Node, j: nat)
    requires n.tables.Wf() && |n.tags| == MAX_PENDING_RELAYS && Once(n, j)
    requires m == n.(minted := m.minted, lastPoll := m.lastPoll)
    ensures Once(m, j)
  {
    forall t | NotAfter(n, t) ensures NotAfter(m, t) {
    }
  }

  lemma FireOneKeepsOnce(net: Net, i: nat, k: nat, at: nat)
    requires Shape(net) && AllOnce(net) && i < |net.nodes| && k < MAX_PENDING_RELAYS
    ensures Shape(FireSlot(net, i, k, at)) && AllOnce(FireSlot(net, i, k, at))
  {
    if Due(net.nodes[i].tables.pending[k], at) {
      assert Once(net.nodes[i], i);
      FireKeepsOnce(net.nodes[i], i, k);
      AllOnceUpdate(net, FireSlot(net, i, k, at), i);
    }
  }

  lemma {:induction false} FireAllKeepsOnce(net: Net, i: nat, n: nat, at: nat)
    requires Shape(net) && AllOnce(net) && i < |net.nodes| && n <= MAX_PENDING_RELAYS
    ensures AllOnce(FireSlots(net, i, n, at))
  {
    if n > 0 {
      FireAllKeepsOnce(net, i, n - 1, at);
      FireOneKeepsOnce(FireSlots(net, i, n - 1, at), i, n - 1, at);
    }
  }

  lemma StepKeepsOnce(net: Net, s: Step, origins: set<nat>, radio: Radio)
    requires Shape(net) && Sound(net, radio) && Tracked(net, origins) && AllOnce(net)
    requires CanStep(net, s) && InOrder(net, s)
    ensures AllOnce(Next(net, s))
  {
    match s
    case Mint(i, _, _) =>
      OnceStays(net.nodes[i], Next(net, s).nodes[i], i);
      AllOnceUpdate(net, Next(net, s), i);
    case Deliver(k, _, _) =>
      OrderedMeets(net, k, origins, radio);
      DeliverKeepsOnce(net, s);
    case Lose(_) =>
    case Poll(i, at) =>
      var fired := FireSlots(net, i, MAX_PENDING_RELAYS, at);
      FireAllKeepsOnce(net, i, MAX_PENDING_RELAYS, at);
      OnceStays(fired.nodes[i], Next(net, s).nodes[i], i);
      AllOnceUpdate(fired, Next(net, s), i);
  }

  lemma {:induction false} RunKeepsTracked(net: Net, steps: seq<Step>, origins: set<nat>, radio: Radio)
    requires Shape(net) && Sound(net, radio) && Tracked(net, origins) && Run(net, steps)
    requires TimedRun(net, steps, radio) && MintersIn(steps, origins)
    ensures Sound(Exec(net, steps), radio) && Tracked(Exec(net, steps), origins)
    ensures AllOnce(net) && OrderedRun(net, steps) ==> AllOnce(Exec(net, steps))
    decreases |steps|
  {
    if |steps| > 0 {
      assert steps[0].Mint? ==> steps[0].i in origins;
      StepKeepsSound(net, steps[0], radio);
      StepKeepsTracked(net, steps[0], origins, radio);
      if AllOnce(net) && OrderedRun(net, steps) {
        StepKeepsOnce(net, steps[0], origins, radio);
      }
      RunKeepsTracked(Next(net, steps[0]), steps[1..], origins, radio);
    }
  }

  // ----- results -----

  /** Relay transmissions of one packet by the nodes below `n`. */
  ghost function SendsOf(nodes: seq<Node>, t: Tag): nat {
    if |nodes| == 0 then 0 else SendsOf(nodes[..|nodes| - 1], t) + nodes[|nodes| - 1].sent[t]
  }

  lemma {:induction false} SendsOfBound(nodes: seq<Node>, t: Tag)
    requires forall j :: 0 <= j < |nodes| ==> nodes[j].sent[t] <= 1
    ensures SendsOf(nodes, t) <= |nodes|
    ensures t.owner < |nodes| && nodes[t.owner].sent[t] == 0 ==> SendsOf(nodes, t) <= |nodes| - 1
  {
    if |nodes| > 0 {
      SendsOfBound(nodes[..|nodes| - 1], t);
    }
  }

  lemma ReachTracked(net: Net, steps: seq<Step>, origins: set<nat>)
    requires Boot(net) && Shape(net) && Run(net, steps) && MintersIn(steps, origins) && |origins| <= MAX_RELAY_ORIGINS
    ensures
      var r := Exec(net, steps);
      Sound(r, Radio(r.now, r.now)) && Tracked(r, origins) && (OrderedRun(net, steps) ==> AllOnce(r))
  {
    var r := Exec(net, steps);
    EveryRunIsTimed(net, steps);
    BootIsSound(net, Radio(r.now, r.now));
    BootIsTracked(net, origins);
    RunKeepsTracked(net, steps, origins, Radio(r.now, r.now));
  }

  lemma BootIsTracked(net: Net, origins: set<nat>)
    requires Boot(net) && Shape(net) && |origins| <= MAX_RELAY_ORIGINS
    ensures Tracked(net, origins) && AllOnce(net)
  {
    forall j | 0 <= j < |net.nodes| ensures FreshNode(net.nodes[j], net.now) {
    }
  }

  /** At most one schedule and one transmission, and no forward waiting once others were heard forwarding. */
  ghost predicate AtMostOnce(n: Node, t: Tag) {
    && n.scheduled[t] <= 1
    && n.sent[t] <= n.scheduled[t]
    && (t in n.quiet ==> forall k :: 0 <= k < |n.tables.pending| && k < |n.tags| ==>
          !(n.tables.pending[k].active && n.tags[k] == t))
  }

  lemma OnceBounds(net: Net, t: Tag)
    requires Shape(net) && AllOnce(net) && t.owner < |net.nodes|
    ensures SendsOf(net.nodes, t) <= |net.nodes| - 1 && net.nodes[t.owner].scheduled[t] == 0
    ensures forall j :: 0 <= j < |net.nodes| ==> AtMostOnce(net.nodes[j], t)
  {
    forall j | 0 <= j < |net.nodes| ensures AtMostOnce(net.nodes[j], t) {
      assert Once(net.nodes[j], j);
    }
    assert Once(net.nodes[t.owner], t.owner);
    SendsOfBound(net.nodes, t);
  }

  /** Forward at most once. With at most MAX_RELAY_ORIGINS origins, each heard in mint order: every node
      schedules every packet at most once and never its own; a packet somebody else was heard forwarding
      after the first sight has no forward waiting here, in this or any later state; and one packet costs
      the whole fleet of N nodes at most N - 1 relay transmissions. */
  lemma ForwardAtMostOnce(net: Net, steps: seq<Step>, origins: set<nat>, t: Tag)
    requires Boot(net) && Shape(net) && Run(net, steps) && OrderedRun(net, steps)
    requires MintersIn(steps, origins) && |origins| <= MAX_RELAY_ORIGINS && t.owner < |net.nodes|
    ensures
      var r := Exec(net, steps);
      && SendsOf(r.nodes, t) <= |net.nodes| - 1
      && r.nodes[t.owner].scheduled[t] == 0
      && forall j :: 0 <= j < |r.nodes| ==> AtMostOnce(r.nodes[j], t)
  {
    ReachTracked(net, steps, origins);
    OnceBounds(Exec(net, steps), t);
  }

  lemma SameSeq(a: nat, b: nat)
    ensures SeqOf(a) == SeqOf(b) <==> (a - b) % 0x1_0000 == 0
  {
  }

  lemma SlotFree(ps: seq<Pending>)
    ensures IdleFrom(ps, 0) < |ps| <==> exists q :: 0 <= q < |ps| && !ps[q].active
  {
  }

  /** A pending slot is free once suppression has run. */
  predicate SlotLeft(t: Tables, cand: Candidate)
    requires t.Wf()
  {
    exists q :: 0 <= q < MAX_PENDING_RELAYS && !AfterSuppression(t, cand)[q].active
  }

  lemma SlotExactly(t: Tables, me: Mac, cand: Candidate)
    requires cand.hop <= MAX_HOPS && t.Wf()
    ensures ScheduleSlot(t, me, cand).Some? <==>
            && cand.origin != me && !Seen(t.origins, cand.origin, cand.seqNo) && cand.hop < MAX_HOPS
            && SlotLeft(t, cand)
  {
    SlotFree(AfterSuppression(t, cand));
  }

  /** The order hypothesis of ForwardAtMostOnce is needed: a node that forwarded 5, then heard 6, forwards
      a late relayed copy of 5 again. */
  lemma OutOfOrderForwardsTwice(me: Mac, origin: Mac, five: seq<byte>, six: seq<byte>)
    requires me != origin
    ensures
      var t1 := HandleCandidate(EmptyTables(), me, Candidate(origin, 5, 0, five, false), 10);
      var sent := t1.(pending := Polled(t1.pending, 10, MAX_PENDING_RELAYS));
      var t2 := HandleCandidate(sent, me, Candidate(origin, 6, 0, six, false), 20);
      var t3 := HandleCandidate(t2, me, Candidate(origin, 5, 1, five, true), 30);
      && IsFor(t1.pending[0], origin, 5) && Due(t1.pending[0], 10)
      && exists k :: 0 <= k < MAX_PENDING_RELAYS && IsFor(t3.pending[k], origin, 5)
  {
    var t1 := HandleCandidate(EmptyTables(), me, Candidate(origin, 5, 0, five, false), 10);
    assert FreeFrom(EmptyTables().origins, 0) == 0 && IdleFrom(EmptyTables().pending, 0) == 0;
    assert IsFor(t1.pending[0], origin, 5);
    var sent := t1.(pending := Polled(t1.pending, 10, MAX_PENDING_RELAYS));
    assert MatchFrom(sent.origins, origin, 0) == 0 && IdleFrom(sent.pending, 0) == 0;
    var t2 := HandleCandidate(sent, me, Candidate(origin, 6, 0, six, false), 20);
    assert MatchFrom(t2.origins, origin, 0) == 0 && t2.origins[0].lastSeq == 6;
    var late := Candidate(origin, 5, 1, five, true);
    var ps := AfterSuppression(t2, late);
    assert !ps[1].active && IdleFrom(ps, 0) < |ps|;
    assert IsFor(HandleCandidate(t2, me, late, 30).pending[IdleFrom(ps, 0)], origin, 5);
  }
}
