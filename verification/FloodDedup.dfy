// What the dedup table remembers with any number of origins, and from that, over every run, exactly when and how often
// a node schedules a packet.
module FloodDedup {
  import opened Bytes
  import opened RelaySpec
  import opened FloodNetwork
  import opened FloodProvenance
  import opened FloodOnce

  // ----- what a node remembers of the packets it heard -----

  /** The origins heard, in the order they were first heard. */
  function Firsts(hs: seq<Tag>): (f: seq<nat>)
    ensures forall i, j :: 0 <= i < j < |f| ==> f[i] != f[j]
  {
    if |hs| == 0 then []
    else
      var f := Firsts(hs[..|hs| - 1]);
      if hs[|hs| - 1].owner in f then f else f + [hs[|hs| - 1].owner]
  }

  function Least(a: nat, b: nat): nat {
    if a < b then a else b
  }

  /** The second to the tenth origin keep a slot of their own for good. */
  function Settled(hs: seq<Tag>): seq<nat> {
    var f := Firsts(hs);
    if |f| <= 1 then [] else f[1..Least(MAX_RELAY_ORIGINS, |f|)]
  }

  /** The last packet heard of origin w. */
  function Latest(hs: seq<Tag>, w: nat): Option<nat> {
    if |hs| == 0 then None
    else if hs[|hs| - 1].owner == w then Some(hs[|hs| - 1].idx)
    else Latest(hs[..|hs| - 1], w)
  }

  /** All other origins share slot 0: it holds the last packet heard of any of them. */
  function Guest(hs: seq<Tag>): Option<Tag> {
    if |hs| == 0 then None
    else if hs[|hs| - 1].owner !in Settled(hs) then Some(hs[|hs| - 1])
    else Guest(hs[..|hs| - 1])
  }

  /** Which packet of origin w the node still remembers, if any. */
  function Recalled(hs: seq<Tag>, w: nat): Option<nat> {
    if w in Settled(hs) then Latest(hs, w)
    else if Guest(hs).Some? && Guest(hs).value.owner == w then Some(Guest(hs).value.idx)
    else None
  }

  // ----- the table is that -----

  function Entry(macs: seq<Mac>, t: Tag): OriginEntry
    requires t.owner < |macs|
  {
    OriginEntry(macs[t.owner], SeqOf(t.idx), true)
  }

  ghost predicate DistinctMacs(macs: seq<Mac>) {
    forall i, j :: 0 <= i < j < |macs| ==> macs[i] != macs[j]
  }

  ghost predicate Reflects(t: seq<OriginEntry>, macs: seq<Mac>, hs: seq<Tag>) {
    var f := Firsts(hs);
    && |t| == MAX_RELAY_ORIGINS
    && (forall k :: 0 <= k < |t| ==> (t[k].valid <==> k < |f|))
    && (forall k :: 0 <= k < |f| ==> f[k] < |macs| && Latest(hs, f[k]).Some?)
    && (|f| > 0 ==> GuestAt(t[0], macs, hs))
    && (forall k :: 1 <= k < |t| && k < |f| ==> t[k] == Entry(macs, Tag(f[k], Latest(hs, f[k]).value)))
  }

  ghost predicate GuestAt(e: OriginEntry, macs: seq<Mac>, hs: seq<Tag>) {
    var f, g := Firsts(hs), Guest(hs);
    && g.Some? && g.value.owner < |macs| && e == Entry(macs, g.value)
    && g.value.owner in f && g.value.owner !in Settled(hs)
    && (|f| <= MAX_RELAY_ORIGINS ==> g.value.owner == f[0])
  }

  lemma SettledAt(hs: seq<Tag>, k: nat)
    requires 1 <= k < |Firsts(hs)| && k < MAX_RELAY_ORIGINS
    ensures Firsts(hs)[k] in Settled(hs)
  {
    assert Settled(hs)[k - 1] == Firsts(hs)[k];
  }

  lemma SettledIs(hs: seq<Tag>, w: nat) returns (k: nat)
    requires w in Settled(hs)
    ensures 1 <= k < |Firsts(hs)| && k < MAX_RELAY_ORIGINS && Firsts(hs)[k] == w
  {
    var i :| 0 <= i < |Settled(hs)| && Settled(hs)[i] == w;
    k := i + 1;
  }

  /** Whose entry a slot in use holds. */
  lemma SlotOwner(t: seq<OriginEntry>, macs: seq<Mac>, hs: seq<Tag>, m: nat, w: nat)
    requires DistinctMacs(macs) && Reflects(t, macs, hs) && w < |macs|
    requires m < |t| && t[m].valid && t[m].mac == macs[w]
    ensures if m == 0 then Guest(hs).Some? && Guest(hs).value.owner == w && w !in Settled(hs)
            else m < |Firsts(hs)| && Firsts(hs)[m] == w && w in Settled(hs)
  {
    if m > 0 {
      SettledAt(hs, m);
    }
  }

  /** Where an origin is found: its own slot, or slot 0 as the guest, or nowhere. */
  lemma FoundAt(t: seq<OriginEntry>, macs: seq<Mac>, hs: seq<Tag>, w: nat)
    requires DistinctMacs(macs) && Reflects(t, macs, hs) && w < |macs|
    ensures
      var m := MatchFrom(t, macs[w], 0);
      if w in Settled(hs) then 1 <= m < |t| && m < |Firsts(hs)| && Firsts(hs)[m] == w
      else if Guest(hs).Some? && Guest(hs).value.owner == w then m == 0
      else m == |t|
  {
    var m := MatchFrom(t, macs[w], 0);
    if w in Settled(hs) {
      var k := SettledIs(hs, w);
      assert t[k].valid && t[k].mac == macs[w];
    } else if Guest(hs).Some? && Guest(hs).value.owner == w {
      GuestHolds(t, macs, hs);
    }
    if m < |t| {
      SlotOwner(t, macs, hs, m, w);
    }
  }

  lemma GuestHolds(t: seq<OriginEntry>, macs: seq<Mac>, hs: seq<Tag>)
    requires Reflects(t, macs, hs) && Guest(hs).Some?
    ensures t[0].valid && Guest(hs).value.owner < |macs| && t[0].mac == macs[Guest(hs).value.owner]
  {
    assert |hs| > 0;
    assert |Firsts(hs)| > 0;
  }

  lemma FreeIs(t: seq<OriginEntry>, n: nat)
    requires n <= |t| && forall k :: 0 <= k < |t| ==> (t[k].valid <==> k < n)
    ensures FreeFrom(t, 0) == n
  {
    var r := FreeFrom(t, 0);
    assert r < |t| ==> !t[r].valid;
    assert n < |t| ==> !t[n].valid;
  }

  /** Dedup answers exactly, over every history: seen iff the packet still remembered of that origin has this seq. */
  lemma SeenIffRecalled(t: seq<OriginEntry>, macs: seq<Mac>, hs: seq<Tag>, w: nat, seqNo: word)
    requires DistinctMacs(macs) && Reflects(t, macs, hs) && w < |macs|
    ensures Seen(t, macs[w], seqNo) <==> Recalled(hs, w).Some? && SeqOf(Recalled(hs, w).value) == seqNo
  {
    FoundAt(t, macs, hs, w);
  }

  /** An origin with a slot of its own. */
  lemma RememberSettled(t: seq<OriginEntry>, macs: seq<Mac>, hs: seq<Tag>, x: Tag)
    requires DistinctMacs(macs) && Reflects(t, macs, hs) && x.owner < |macs| && x.owner in Settled(hs)
    ensures Reflects(Remember(t, macs[x.owner], SeqOf(x.idx)), macs, hs + [x])
  {
    var all, f := hs + [x], Firsts(hs);
    FoundAt(t, macs, hs, x.owner);
    SameRoles(hs, x);
    LatestOf(hs, x);
    var m := OriginSlot(t, macs[x.owner]);
    assert GuestAt(t[0], macs, all);
    forall k | 1 <= k < |t| && k < |f|
      ensures Remember(t, macs[x.owner], SeqOf(x.idx))[k] == Entry(macs, Tag(f[k], Latest(all, f[k]).value))
    {
      assert f[k] == x.owner <==> k == m;
    }
  }

  lemma SameRoles(hs: seq<Tag>, x: Tag)
    requires x.owner in Settled(hs)
    ensures Firsts(hs + [x]) == Firsts(hs) && Settled(hs + [x]) == Settled(hs) && Guest(hs + [x]) == Guest(hs)
  {
    assert (hs + [x])[..|hs|] == hs;
    var k := SettledIs(hs, x.owner);
  }

  lemma LatestOf(hs: seq<Tag>, x: Tag)
    ensures forall w :: Latest(hs + [x], w) == if w == x.owner then Some(x.idx) else Latest(hs, w)
  {
    assert (hs + [x])[..|hs|] == hs;
  }

  /** With fewer than ten origins, whoever has been heard is settled or the first. */
  lemma FirstOrSettled(hs: seq<Tag>, w: nat)
    requires w in Firsts(hs) && |Firsts(hs)| <= MAX_RELAY_ORIGINS && w !in Settled(hs)
    ensures w == Firsts(hs)[0]
  {
    var k :| 0 <= k < |Firsts(hs)| && Firsts(hs)[k] == w;
    if k > 0 {
      SettledAt(hs, k);
    }
  }

  lemma SettledStays(hs: seq<Tag>, x: Tag)
    requires x.owner in Firsts(hs) || |Firsts(hs)| >= MAX_RELAY_ORIGINS
    ensures Settled(hs + [x]) == Settled(hs)
  {
    assert (hs + [x])[..|hs|] == hs;
  }

  lemma GuestRoles(hs: seq<Tag>, x: Tag)
    requires x.owner !in Settled(hs) && |Firsts(hs)| > 0
    requires x.owner in Firsts(hs) || |Firsts(hs)| >= MAX_RELAY_ORIGINS
    ensures
      var all, f := hs + [x], Firsts(hs);
      && Firsts(all) == (if x.owner in f then f else f + [x.owner])
      && Settled(all) == Settled(hs) && Guest(all) == Some(x) && Firsts(all)[0] == f[0] && x.owner in Firsts(all)
      && (|Firsts(all)| <= MAX_RELAY_ORIGINS ==> x.owner == f[0])
  {
    assert (hs + [x])[..|hs|] == hs;
    SettledStays(hs, x);
    if x.owner in Firsts(hs) && |Firsts(hs)| <= MAX_RELAY_ORIGINS {
      FirstOrSettled(hs, x.owner);
    }
  }

  /** The slot of the guests. */
  lemma RememberGuest(t: seq<OriginEntry>, macs: seq<Mac>, hs: seq<Tag>, x: Tag)
    requires DistinctMacs(macs) && Reflects(t, macs, hs) && x.owner < |macs| && x.owner !in Settled(hs)
    requires |Firsts(hs)| > 0 && (x.owner in Firsts(hs) || |Firsts(hs)| >= MAX_RELAY_ORIGINS)
    requires OriginSlot(t, macs[x.owner]) == 0
    ensures Reflects(Remember(t, macs[x.owner], SeqOf(x.idx)), macs, hs + [x])
  {
    var all, f := hs + [x], Firsts(hs);
    GuestRoles(hs, x);
    LatestOf(hs, x);
    assert GuestAt(Entry(macs, x), macs, all);
    forall k | 1 <= k < |t| && k < |f|
      ensures f[k] != x.owner
    {
      SettledAt(hs, k);
    }
  }

  lemma NewRoles(hs: seq<Tag>, x: Tag)
    requires x.owner !in Firsts(hs) && |Firsts(hs)| < MAX_RELAY_ORIGINS
    ensures
      var all, f := hs + [x], Firsts(hs);
      && Firsts(all) == f + [x.owner]
      && (if f == [] then Settled(all) == [] && Guest(all) == Some(x)
          else Settled(all) == Settled(hs) + [x.owner] && Guest(all) == Guest(hs))
  {
    var all, f := hs + [x], Firsts(hs);
    assert all[..|hs|] == hs;
    if f != [] {
      SettledWithRoom(f, x.owner);
      assert (f[1..] + [x.owner])[|f| - 1] == x.owner;
    }
  }

  lemma SettledWithRoom(f: seq<nat>, w: nat)
    requires 0 < |f| < MAX_RELAY_ORIGINS
    ensures (f + [w])[1..Least(MAX_RELAY_ORIGINS, |f| + 1)] == f[1..] + [w]
    ensures f[1..Least(MAX_RELAY_ORIGINS, |f|)] == f[1..]
    ensures |f| == 1 ==> f[1..] == []
  {
  }

  /** A new origin while there is room. */
  lemma RememberNew(t: seq<OriginEntry>, macs: seq<Mac>, hs: seq<Tag>, x: Tag)
    requires DistinctMacs(macs) && Reflects(t, macs, hs) && x.owner < |macs| && x.owner !in Firsts(hs)
    requires |Firsts(hs)| < MAX_RELAY_ORIGINS && OriginSlot(t, macs[x.owner]) == |Firsts(hs)|
    ensures Reflects(Remember(t, macs[x.owner], SeqOf(x.idx)), macs, hs + [x])
  {
    var all, f := hs + [x], Firsts(hs);
    NewRoles(hs, x);
    LatestOf(hs, x);
    assert GuestAt(if f == [] then Entry(macs, x) else t[0], macs, all);
    var after := Remember(t, macs[x.owner], SeqOf(x.idx));
    assert after == t[|f| := Entry(macs, x)];
    forall k | 1 <= k < |t| && k < |f| + 1
      ensures after[k] == Entry(macs, Tag((f + [x.owner])[k], Latest(all, (f + [x.owner])[k]).value))
    {
      if k < |f| {
        assert f[k] in f && f[k] != x.owner;
      }
    }
  }

  lemma RememberReflects(t: seq<OriginEntry>, macs: seq<Mac>, hs: seq<Tag>, x: Tag)
    requires DistinctMacs(macs) && Reflects(t, macs, hs) && x.owner < |macs|
    ensures Reflects(Remember(t, macs[x.owner], SeqOf(x.idx)), macs, hs + [x])
  {
    FoundAt(t, macs, hs, x.owner);
    if x.owner in Settled(hs) {
      RememberSettled(t, macs, hs, x);
    } else if x.owner in Firsts(hs) || |Firsts(hs)| >= MAX_RELAY_ORIGINS {
      if |Firsts(hs)| < MAX_RELAY_ORIGINS {
        FirstOrSettled(hs, x.owner);
      }
      FreeIs(t, Least(MAX_RELAY_ORIGINS, |Firsts(hs)|));
      RememberGuest(t, macs, hs, x);
    } else {
      FreeIs(t, |Firsts(hs)|);
      RememberNew(t, macs, hs, x);
    }
  }

  // ----- nodes in a fleet -----

  /** What one delivery adds to the history of node j: the packet, unless it is the node's own. */
  ghost function HeardBy(net: Net, s: Step, j: nat): seq<Tag>
    requires Shape(net) && CanStep(net, s)
  {
    if s.Deliver? && net.air[s.k].to == j && net.air[s.k].tag.owner != j then [net.air[s.k].tag] else []
  }

  /** The packets node j heard over a run, in order. */
  ghost function Heard(net: Net, steps: seq<Step>, j: nat): seq<Tag>
    requires Shape(net) && Run(net, steps)
    decreases |steps|
  {
    if |steps| == 0 then [] else HeardBy(net, steps[0], j) + Heard(Next(net, steps[0]), steps[1..], j)
  }

  ghost predicate AllReflect(net: Net, j: nat, hs: seq<Tag>)
    requires Shape(net) && j < |net.nodes|
  {
    Reflects(net.nodes[j].tables.origins, net.macs, hs)
  }

  lemma DeliverReflects(net: Net, s: Step, radio: Radio, j: nat, hs: seq<Tag>)
    requires Shape(net) && Sound(net, radio) && CanStep(net, s) && s.Deliver?
    requires j < |net.nodes| && AllReflect(net, j, hs)
    ensures AllReflect(Next(net, s), j, hs + HeardBy(net, s, j))
  {
    var c := net.air[s.k];
    if c.to == j {
      assert CopyOk(net, c, radio);
      CopyOffers(net, c, radio);
      if c.tag.owner != j {
        RememberReflects(net.nodes[j].tables.origins, net.macs, hs, c.tag);
        assert DistinctMacs(net.macs) && net.macs[c.tag.owner] != net.macs[j];
      }
    }
    assert hs + [] == hs;
  }

  lemma {:induction false} FireKeepsOrigins(net: Net, i: nat, n: nat, at: nat, j: nat)
    requires Shape(net) && i < |net.nodes| && n <= MAX_PENDING_RELAYS && j < |net.nodes|
    ensures FireSlots(net, i, n, at).nodes[j].tables.origins == net.nodes[j].tables.origins
    ensures FireSlots(net, i, n, at).nodes[j].scheduled == net.nodes[j].scheduled
  {
    if n > 0 {
      FireKeepsOrigins(net, i, n - 1, at, j);
    }
  }

  lemma StepReflects(net: Net, s: Step, radio: Radio, j: nat, hs: seq<Tag>)
    requires Shape(net) && Sound(net, radio) && CanStep(net, s)
    requires j < |net.nodes| && AllReflect(net, j, hs)
    ensures AllReflect(Next(net, s), j, hs + HeardBy(net, s, j))
  {
    match s
    case Deliver(_, _, _) => DeliverReflects(net, s, radio, j, hs);
    case Poll(i, at) =>
      FireKeepsOrigins(net, i, MAX_PENDING_RELAYS, at, j);
      assert hs + [] == hs;
    case Mint(_, _, _) => assert hs + [] == hs;
    case Lose(_) => assert hs + [] == hs;
  }

  lemma BootReflects(net: Net, j: nat)
    requires Boot(net) && Shape(net) && j < |net.nodes|
    ensures AllReflect(net, j, [])
  {
    assert FreshNode(net.nodes[j], net.now);
  }

  // ----- when and how often a packet is scheduled -----

  /** The reference decision for copy k, from the history of its hearer: not the origin, the packet of that origin it
      still remembers has another seq, the hop budget allows one more hop, and a slot is free after suppression. */
  ghost predicate Schedules(net: Net, hs: seq<Tag>, k: nat)
    requires Shape(net) && k < |net.air|
  {
    var c := net.air[k];
    var cand := Parse(c.src, c.frame);
    && c.tag.owner != c.to
    && !StillRemembers(hs, c.tag)
    && cand.Some? && cand.value.hop < MAX_HOPS
    && SlotLeft(net.nodes[c.to].tables, cand.value)
  }

  /** Up to the 16 bits of a seq. */
  predicate StillRemembers(hs: seq<Tag>, t: Tag) {
    Recalled(hs, t.owner).Some? && (Recalled(hs, t.owner).value - t.idx) % 0x1_0000 == 0
  }

  lemma SeenHere(t: seq<OriginEntry>, macs: seq<Mac>, hs: seq<Tag>, x: Tag)
    requires DistinctMacs(macs) && Reflects(t, macs, hs) && x.owner < |macs|
    ensures Seen(t, macs[x.owner], SeqOf(x.idx)) <==> StillRemembers(hs, x)
  {
    var r := Recalled(hs, x.owner);
    SeenIffRecalled(t, macs, hs, x.owner, SeqOf(x.idx));
    if r.Some? {
      SameSeq(r.value, x.idx);
    }
  }

  /** What the code does with copy k. */
  ghost predicate IsScheduled(net: Net, k: nat)
    requires Shape(net) && k < |net.air|
  {
    var c := net.air[k];
    var cand := Parse(c.src, c.frame);
    cand.Some? && ScheduleSlot(net.nodes[c.to].tables, net.macs[c.to], cand.value).Some?
  }

  lemma SchedulesHere(net: Net, hs: seq<Tag>, k: nat, radio: Radio)
    requires Shape(net) && Sound(net, radio) && k < |net.air| && AllReflect(net, net.air[k].to, hs)
    ensures IsScheduled(net, k) <==> Schedules(net, hs, k)
  {
    var c := net.air[k];
    assert CopyOk(net, c, radio);
    CopyOffers(net, c, radio);
    SeenHere(net.nodes[c.to].tables.origins, net.macs, hs, c.tag);
    SlotExactly(net.nodes[c.to].tables, net.macs[c.to], Parse(c.src, c.frame).value);
    assert net.macs[c.tag.owner] == net.macs[c.to] <==> c.tag.owner == c.to;
  }

  lemma HeardUnfolds(net: Net, steps: seq<Step>, j: nat, hs: seq<Tag>)
    requires Shape(net) && Run(net, steps) && |steps| > 0
    ensures hs + Heard(net, steps, j) ==
            hs + HeardBy(net, steps[0], j) + Heard(Next(net, steps[0]), steps[1..], j)
  {
  }

  lemma {:induction false} RunReflects(net: Net, steps: seq<Step>, radio: Radio, j: nat, hs: seq<Tag>)
    requires Shape(net) && Run(net, steps) && TimedRun(net, steps, radio) && Sound(net, radio)
    requires j < |net.nodes| && AllReflect(net, j, hs)
    ensures AllReflect(Exec(net, steps), j, hs + Heard(net, steps, j))
    decreases |steps|
  {
    if |steps| == 0 {
      assert hs + [] == hs;
    } else {
      var s := steps[0];
      StepReflects(net, s, radio, j, hs);
      StepKeepsSound(net, s, radio);
      RunReflects(Next(net, s), steps[1..], radio, j, hs + HeardBy(net, s, j));
      HeardUnfolds(net, steps, j, hs);
    }
  }

  /** Over every run, in order or not, with any number of origins. Dedup remembers one seq per origin, and with more
      than ten origins one guest for all those after the tenth and the first; so a packet it forwarded is scheduled
      again whenever another packet of that origin, or another guest, was heard in between. */
  lemma SchedulesIff(net: Net, steps: seq<Step>, k: nat)
    requires Boot(net) && Shape(net) && Run(net, steps) && k < |Exec(net, steps).air|
    ensures
      var r := Exec(net, steps);
      IsScheduled(r, k) <==> Schedules(r, Heard(net, steps, r.air[k].to), k)
  {
    var r := Exec(net, steps);
    var radio, j := Radio(r.now, r.now), r.air[k].to;
    EveryRunIsTimed(net, steps);
    BootIsSound(net, radio);
    RunKeepsSound(net, steps, radio);
    BootReflects(net, j);
    RunReflects(net, steps, radio, j, []);
    assert [] + Heard(net, steps, j) == Heard(net, steps, j);
    SchedulesHere(r, Heard(net, steps, j), k, radio);
  }

  /** How often, over a run, node j hears a copy of packet t that the reference decision says to schedule. */
  ghost function TimesScheduled(net: Net, hs: seq<Tag>, steps: seq<Step>, j: nat, t: Tag): nat
    requires Shape(net) && Run(net, steps)
    decreases |steps|
  {
    if |steps| == 0 then 0
    else
      var s := steps[0];
      (if s.Deliver? && net.air[s.k].to == j && net.air[s.k].tag == t && Schedules(net, hs, s.k) then 1 else 0) +
      TimesScheduled(Next(net, s), hs + HeardBy(net, s, j), steps[1..], j, t)
  }

  lemma StepSchedules(net: Net, s: Step, radio: Radio, j: nat, hs: seq<Tag>, t: Tag)
    requires Shape(net) && Sound(net, radio) && CanStep(net, s) && j < |net.nodes| && AllReflect(net, j, hs)
    ensures Next(net, s).nodes[j].scheduled[t] == net.nodes[j].scheduled[t] +
            if s.Deliver? && net.air[s.k].to == j && net.air[s.k].tag == t && Schedules(net, hs, s.k) then 1 else 0
  {
    if s.Deliver? && net.air[s.k].to == j {
      SchedulesHere(net, hs, s.k, radio);
    } else if s.Poll? {
      FireKeepsOrigins(net, s.i, MAX_PENDING_RELAYS, s.at, j);
    }
  }

  lemma {:induction false} RunSchedules(net: Net, steps: seq<Step>, radio: Radio, j: nat, hs: seq<Tag>, t: Tag)
    requires Shape(net) && Run(net, steps) && TimedRun(net, steps, radio) && Sound(net, radio)
    requires j < |net.nodes| && AllReflect(net, j, hs)
    ensures Exec(net, steps).nodes[j].scheduled[t] ==
            net.nodes[j].scheduled[t] + TimesScheduled(net, hs, steps, j, t)
    decreases |steps|
  {
    if |steps| > 0 {
      var s := steps[0];
      StepSchedules(net, s, radio, j, hs, t);
      StepReflects(net, s, radio, j, hs);
      StepKeepsSound(net, s, radio);
      RunSchedules(Next(net, s), steps[1..], radio, j, hs + HeardBy(net, s, j), t);
    }
  }

  /** From boot, over every run: a node schedules a packet exactly as often as it hears a copy that the reference
      decision says to schedule, so twice exactly if it hears two. */
  lemma ScheduledExactly(net: Net, steps: seq<Step>, j: nat, t: Tag)
    requires Boot(net) && Shape(net) && Run(net, steps) && j < |net.nodes|
    ensures Exec(net, steps).nodes[j].scheduled[t] == TimesScheduled(net, [], steps, j, t)
  {
    var r := Exec(net, steps);
    var radio := Radio(r.now, r.now);
    EveryRunIsTimed(net, steps);
    BootIsSound(net, radio);
    BootReflects(net, j);
    assert FreshNode(net.nodes[j], net.now);
    RunSchedules(net, steps, radio, j, [], t);
  }

  /** With at most ten origins nothing is forgotten: the node remembers the last packet of every origin it heard. */
  lemma TenAreRemembered(hs: seq<Tag>, w: nat)
    requires |Firsts(hs)| <= MAX_RELAY_ORIGINS
    ensures Recalled(hs, w) == Latest(hs, w)
  {
    LatestHeard(hs, w);
    if w !in Settled(hs) {
      if w in Firsts(hs) {
        FirstOrSettled(hs, w);
        GuestIsFirst(hs);
      } else if Guest(hs).Some? {
        GuestIsFirst(hs);
      }
    }
  }

  lemma {:induction false} LatestHeard(hs: seq<Tag>, w: nat)
    ensures Latest(hs, w).Some? <==> w in Firsts(hs)
  {
    if |hs| > 0 {
      LatestHeard(hs[..|hs| - 1], w);
    }
  }

  lemma {:induction false} GuestIsFirst(hs: seq<Tag>)
    requires 0 < |hs| && |Firsts(hs)| <= MAX_RELAY_ORIGINS
    ensures |Firsts(hs)| > 0 && Latest(hs, Firsts(hs)[0]).Some?
    ensures Guest(hs) == Some(Tag(Firsts(hs)[0], Latest(hs, Firsts(hs)[0]).value))
  {
    var init, x := hs[..|hs| - 1], hs[|hs| - 1];
    if |hs| == 1 {
      assert Firsts(init) == [];
    } else {
      GuestIsFirst(init);
      if x.owner in Settled(hs) {
        var k := SettledIs(hs, x.owner);
      } else {
        FirstOrSettled(hs, x.owner);
      }
    }
  }

  /** With eleven the first is forgotten as soon as the eleventh is heard. */
  lemma EleventhEvicts(hs: seq<Tag>, x: Tag)
    requires |Firsts(hs)| == MAX_RELAY_ORIGINS && x.owner !in Firsts(hs)
    ensures Recalled(hs + [x], Firsts(hs)[0]) == None
    ensures Recalled(hs + [x], x.owner) == Some(x.idx)
  {
    SettledStays(hs, x);
    assert (hs + [x])[..|hs|] == hs;
    if Firsts(hs)[0] in Settled(hs) {
      var k := SettledIs(hs, Firsts(hs)[0]);
    }
    if x.owner in Settled(hs) {
      var k := SettledIs(hs, x.owner);
    }
  }
}
