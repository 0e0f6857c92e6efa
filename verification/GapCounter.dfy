// The receiver-side delivery signal: what syncGaps counts.
module GapCounter {
  import opened Bytes
  import opened RelaySpec
  import opened FollowSpec
  import opened FollowRuns
  import opened Sets

  function Saturate(x: nat): word {
    if x > 0xFFFF then 0xFFFF else x
  }

  /** The highest index accepted so far. */
  function Top(ns: seq<nat>): (t: nat)
    requires |ns| > 0
    ensures t in ns && forall i :: i in ns ==> i <= t
  {
    var last := ns[|ns| - 1];
    if |ns| == 1 then last
    else
      var t := Top(ns[..|ns| - 1]);
      assert ns == ns[..|ns| - 1] + [last];
      if last > t then last else t
  }

  /** Indices of the range heard so far that were never accepted. */
  function Missing(ns: seq<nat>): set<nat>
    requires |ns| > 0
  {
    set i: nat | ns[0] <= i <= Top(ns) && i !in ns
  }

  /** The indices strictly between a and b. */
  function Between(a: nat, b: nat): (r: set<nat>)
    ensures forall i :: i in r <==> a < i < b
    ensures |r| == if a < b then b - a - 1 else 0
  {
    if a + 1 < b then Between(a, b - 1) + {b - 1} else {}
  }

  lemma MissingIs(ns: seq<nat>, i: nat)
    requires |ns| > 1
    ensures
      var init, n := ns[..|ns| - 1], ns[|ns| - 1];
      i in Missing(ns) <==> i != n && (i in Missing(init) || i in Between(Top(init), n))
  {
    var init, n := ns[..|ns| - 1], ns[|ns| - 1];
    assert ns == init + [n];
    assert Top(ns) == if n > Top(init) then n else Top(init);
    assert i in ns <==> i in init || i == n;
    assert ns[0] == init[0] && init[0] in init;
    assert i in init ==> i <= Top(init);
  }

  /** A new highest index adds the indices it passed over to the missing ones; any other takes itself off them. */
  lemma MissingSplits(ns: seq<nat>)
    requires |ns| > 1
    ensures
      var init, n := ns[..|ns| - 1], ns[|ns| - 1];
      Missing(ns) == Missing(init) - {n} + Between(Top(init), n) && Missing(init) !! Between(Top(init), n)
  {
    var init, n := ns[..|ns| - 1], ns[|ns| - 1];
    forall i | i in Missing(ns) ensures i in Missing(init) - {n} + Between(Top(init), n) {
      MissingIs(ns, i);
    }
    forall i | i in Missing(init) - {n} + Between(Top(init), n) ensures i in Missing(ns) {
      MissingIs(ns, i);
    }
  }

  lemma MissingGrows(ns: seq<nat>)
    requires |ns| > 1
    ensures
      var init, n := ns[..|ns| - 1], ns[|ns| - 1];
      |Missing(ns)| ==
      |Missing(init)| +
      if n > Top(init) then n - Top(init) - 1 else if n >= ns[0] && n !in init then -1 else 0
  {
    var init, n := ns[..|ns| - 1], ns[|ns| - 1];
    MissingSplits(ns);
    assert n in Missing(init) <==> ns[0] <= n <= Top(init) && n !in init;
    if n in Missing(init) {
      assert Missing(ns) == Missing(init) - {n};
    } else {
      assert Missing(init) - {n} == Missing(init);
    }
  }

  /** What the code charges for hearing seq n after seq m. */
  function Charge(m: int, n: int): nat {
    var gap := Gap(m % 0x1_0000, n % 0x1_0000);
    if 0 < gap <= MEDIASYNC_MAX_GAP then gap else 0
  }

  lemma GapOfIndices(m: int, n: int)
    ensures Gap(m % 0x1_0000, n % 0x1_0000) == (n - m - 1) % 0x1_0000
  {
  }

  /** The charge is right, over all pairs of indices, iff the true gap is at most MEDIASYNC_MAX_GAP going
      forward, and going back (a late copy) iff it does not alias into 1..MEDIASYNC_MAX_GAP modulo 2^16. */
  lemma ChargeIsRightIff(m: int, n: int)
    ensures m < n ==> (Charge(m, n) == n - m - 1 <==> n - m - 1 <= MEDIASYNC_MAX_GAP)
    ensures n <= m ==> (Charge(m, n) == 0 <==> !(1 <= (n - m - 1) % 0x1_0000 <= MEDIASYNC_MAX_GAP))
  {
    GapOfIndices(m, n);
  }

  // ----- the charges of a run of indices -----

  /** The steps ChargeIsRightIff finds the code right about. */
  predicate RightStep(m: nat, n: nat) {
    if m < n then n - m - 1 <= MEDIASYNC_MAX_GAP
    else !(1 <= (n - m - 1) % 0x1_0000 <= MEDIASYNC_MAX_GAP)
  }

  predicate RightSteps(ns: seq<nat>) {
    forall i :: 0 <= i < |ns| - 1 ==> RightStep(ns[i], ns[i + 1])
  }

  function Charged(ns: seq<nat>): nat {
    if |ns| < 2 then 0 else Charged(ns[..|ns| - 1]) + Charge(ns[|ns| - 2], ns[|ns| - 1])
  }

  /** The k-th packet is accepted in step: a new highest index right after the highest so far; any other one again (or
      it is older than the range), and at most one past the packet before it. */
  predicate Follows(ns: seq<nat>, k: nat)
    requires 0 < k < |ns|
  {
    var before := ns[..k];
    if ns[k] > Top(before) then ns[k - 1] == Top(before)
    else ns[k] <= ns[k - 1] + 1 && (ns[k] in before || ns[k] < ns[0])
  }

  predicate InStep(ns: seq<nat>) {
    forall k :: 0 < k < |ns| ==> Follows(ns, k)
  }

  /** In mint order, and no silence longer than the counter can see. */
  predicate Countable(ns: seq<nat>) {
    forall i :: 0 <= i < |ns| - 1 ==> ns[i] <= ns[i + 1] <= ns[i] + MEDIASYNC_MAX_GAP + 1
  }

  lemma {:induction false} CountableIsSorted(ns: seq<nat>, i: nat)
    requires Countable(ns) && i < |ns|
    ensures ns[i] <= ns[|ns| - 1]
    decreases |ns| - i
  {
    if i < |ns| - 1 {
      CountableIsSorted(ns, i + 1);
    }
  }

  lemma CountableFollows(ns: seq<nat>, k: nat)
    requires Countable(ns) && 0 < k < |ns|
    ensures Follows(ns, k)
  {
    var before := ns[..k];
    assert Countable(before);
    var j :| 0 <= j < k && before[j] == Top(before);
    CountableIsSorted(before, j);
    assert before[k - 1] in before;
  }

  lemma CountableIsInStep(ns: seq<nat>)
    requires Countable(ns)
    ensures RightSteps(ns) && InStep(ns)
  {
    forall k | 0 < k < |ns| ensures Follows(ns, k) {
      CountableFollows(ns, k);
    }
    forall i | 0 <= i < |ns| - 1 ensures RightStep(ns[i], ns[i + 1]) {
      assert ns[i] <= ns[i + 1] <= ns[i] + MEDIASYNC_MAX_GAP + 1;
    }
  }

  lemma InStepPrefix(ns: seq<nat>)
    requires |ns| > 1
    ensures InStep(ns) <==> InStep(ns[..|ns| - 1]) && Follows(ns, |ns| - 1)
  {
    var init := ns[..|ns| - 1];
    forall k | 0 < k < |init| ensures Follows(init, k) == Follows(ns, k) {
      assert init[..k] == ns[..k];
    }
  }

  lemma ChargeOfRightStep(m: nat, n: nat)
    requires RightStep(m, n)
    ensures Charge(m, n) == if m < n then n - m - 1 else 0
  {
    ChargeIsRightIff(m, n);
  }

  /** One step charges at least what it adds to the missing indices, and exactly that iff it follows. */
  lemma StepCharges(ns: seq<nat>)
    requires |ns| > 1
    ensures
      var m, n, grown := ns[|ns| - 2], ns[|ns| - 1], |Missing(ns)| - |Missing(ns[..|ns| - 1])|;
      var charge := if m < n then n - m - 1 else 0;
      grown <= charge && (grown == charge <==> Follows(ns, |ns| - 1))
  {
    MissingGrows(ns);
    assert ns[|ns| - 2] in ns[..|ns| - 1] by {
      assert ns[..|ns| - 1][|ns| - 2] == ns[|ns| - 2];
    }
  }

  /** The charges never fall short of the missing indices, and meet them iff every index was accepted in step. */
  lemma {:induction false} ChargedIsMissingIff(ns: seq<nat>)
    requires |ns| > 0 && RightSteps(ns)
    ensures |Missing(ns)| <= Charged(ns)
    ensures |Missing(ns)| == Charged(ns) <==> InStep(ns)
  {
    if |ns| == 1 {
      assert Missing(ns) == {};
    } else {
      ChargedIsMissingIff(ns[..|ns| - 1]);
      StepCharges(ns);
      ChargeOfRightStep(ns[|ns| - 2], ns[|ns| - 1]);
      InStepPrefix(ns);
    }
  }

  // ----- runs -----

  /** The index the counter diffs against goes from m to n: n is what the packet carries if the slave accepts it, from
      the master it holds; anything else, refused packets included, leaves the anchor alone. */
  predicate Anchors(f: Follow, layer: seq<byte>, e: Event, m: nat, n: nat) {
    && !e.Pin? && !e.Release?
    && (Accepted(f, layer, e) ==> e.origin == f.lock.mac)
    && if Accepted(f, layer, e) && e.packet.seqNo.Some? then e.packet.seqNo.value == n % 0x1_0000 else n == m
  }

  /** `ns` are the anchors of the run: ns[i] before event i. */
  predicate Anchored(f: Follow, layer: seq<byte>, events: seq<Event>, ns: seq<nat>) {
    && |ns| == |events| + 1
    && f.lock.valid && f.sync.haveSeq && f.sync.lastSeq == ns[0] % 0x1_0000
    && forall i :: 0 <= i < |events| ==> Anchors(Exec(f, layer, events[..i]), layer, events[i], ns[i], ns[i + 1])
  }

  lemma StepCounts(f: Follow, layer: seq<byte>, e: Event, m: nat, n: nat)
    requires f.lock.valid && f.sync.haveSeq && f.sync.lastSeq == m % 0x1_0000
    requires Anchors(f, layer, e, m, n)
    ensures
      var g := Apply(f, layer, e);
      && g.lock.valid && g.lock.mac == f.lock.mac && g.sync.haveSeq && g.sync.lastSeq == n % 0x1_0000
      && g.sync.syncGaps == Saturate(f.sync.syncGaps + Charge(m, n))
  {
    GapOfIndices(m, n);
  }

  lemma AnchoredPrefix(f: Follow, layer: seq<byte>, events: seq<Event>, ns: seq<nat>)
    requires |events| > 0 && Anchored(f, layer, events, ns)
    ensures Anchored(f, layer, events[..|events| - 1], ns[..|ns| - 1])
  {
    var init := events[..|events| - 1];
    forall i | 0 <= i < |init|
      ensures Anchors(Exec(f, layer, init[..i]), layer, init[i], ns[i], ns[i + 1])
    {
      assert init[..i] == events[..i];
      assert Anchors(Exec(f, layer, events[..i]), layer, events[i], ns[i], ns[i + 1]);
    }
  }

  /** `g` still follows the master `f` follows, after the anchors `ns`, with their charges on the counter. */
  predicate Counted(f: Follow, g: Follow, ns: seq<nat>)
    requires |ns| > 0
  {
    && g.lock.valid && g.lock.mac == f.lock.mac && g.sync.haveSeq
    && g.sync.lastSeq == ns[|ns| - 1] % 0x1_0000
    && g.sync.syncGaps == Saturate(f.sync.syncGaps + Charged(ns))
  }

  lemma CountOneMore(f: Follow, g: Follow, layer: seq<byte>, e: Event, ns: seq<nat>)
    requires |ns| > 1 && Counted(f, g, ns[..|ns| - 1])
    requires Anchors(g, layer, e, ns[|ns| - 2], ns[|ns| - 1])
    ensures Counted(f, Apply(g, layer, e), ns)
  {
    var charge := Charge(ns[|ns| - 2], ns[|ns| - 1]);
    assert Charged(ns) == Charged(ns[..|ns| - 1]) + charge;
    StepCounts(g, layer, e, ns[|ns| - 2], ns[|ns| - 1]);
  }

  /** Over any run that follows one master, whatever the order its packets arrive in and whatever else is on the air
      (other layers, other masters, ticks, duplicates), syncGaps grows by the charges until it saturates. */
  lemma {:induction false} CounterIsCharges(f: Follow, layer: seq<byte>, events: seq<Event>, ns: seq<nat>)
    requires Anchored(f, layer, events, ns)
    ensures Counted(f, Exec(f, layer, events), ns)
    decreases |events|
  {
    if |events| == 0 {
      assert Charged(ns) == 0;
    } else {
      var k := |events| - 1;
      AnchoredPrefix(f, layer, events, ns);
      CounterIsCharges(f, layer, events[..k], ns[..k + 1]);
      assert Anchors(Exec(f, layer, events[..k]), layer, events[k], ns[k], ns[k + 1]);
      CountOneMore(f, Exec(f, layer, events[..k]), layer, events[k], ns);
    }
  }

  lemma SaturateIff(start: nat, counted: nat, charged: nat)
    requires counted <= charged
    ensures Saturate(start + charged) == Saturate(start + counted) <==> start + counted >= 0xFFFF || counted == charged
  {
  }

  /** syncGaps is the number of indices of the range that were never accepted iff they were accepted in step, or the
      counter is saturated anyway. */
  lemma CounterExactIff(f: Follow, layer: seq<byte>, events: seq<Event>, ns: seq<nat>)
    requires Anchored(f, layer, events, ns) && RightSteps(ns)
    ensures
      Exec(f, layer, events).sync.syncGaps == Saturate(f.sync.syncGaps + |Missing(ns)|) <==>
      f.sync.syncGaps + |Missing(ns)| >= 0xFFFF || InStep(ns)
  {
    CounterIsCharges(f, layer, events, ns);
    ChargedIsMissingIff(ns);
    SaturateIff(f.sync.syncGaps, |Missing(ns)|, Charged(ns));
  }

  /** In particular while its packets arrive in mint order, at most MEDIASYNC_MAX_GAP of them missing in a row. */
  lemma GapCounterIsExact(f: Follow, layer: seq<byte>, events: seq<Event>, ns: seq<nat>)
    requires Anchored(f, layer, events, ns) && Countable(ns)
    ensures Exec(f, layer, events).sync.syncGaps == Saturate(f.sync.syncGaps + |Missing(ns)|)
  {
    CountableIsInStep(ns);
    CounterExactIff(f, layer, events, ns);
  }

  /** `e` brings index n to a slave that accepts it from the master it holds. */
  predicate Brings(f: Follow, layer: seq<byte>, e: Event, n: nat) {
    && e.Frame? && e.origin == f.lock.mac && LayerMatches(layer, e.packet.layer)
    && e.packet.seqNo == Some(n % 0x1_0000)
  }

  lemma BringsCharge(f: Follow, layer: seq<byte>, e: Event, m: nat, n: nat)
    requires f.lock.valid && f.sync.haveSeq && f.sync.lastSeq == m % 0x1_0000
    requires Brings(f, layer, e, n) && RightStep(m, n)
    ensures
      var g := Apply(f, layer, e);
      && g.lock.valid && g.lock.mac == f.lock.mac && g.sync.haveSeq && g.sync.lastSeq == n % 0x1_0000
      && g.sync.syncGaps == Saturate(f.sync.syncGaps + if m < n then n - m - 1 else 0)
  {
    StepCounts(f, layer, e, m, n);
    ChargeOfRightStep(m, n);
  }

  lemma ExecThree(f: Follow, layer: seq<byte>, a: Event, b: Event, c: Event)
    ensures Exec(f, layer, [a, b, c]) == Apply(Apply(Apply(f, layer, a), layer, b), layer, c)
  {
    assert [a, b, c][..2] == [a, b] && [a, b][..1] == [a] && [a][..0] == [];
    assert Exec(f, layer, [a]) == Apply(f, layer, a);
    assert Exec(f, layer, [a, b]) == Apply(Apply(f, layer, a), layer, b);
  }

  lemma NothingMissing(m: nat)
    ensures Missing([m, m + 1, m, m + 2]) == {}
  {
    var ns := [m, m + 1, m, m + 2];
    assert ns[1] == m + 1 && ns[3] == m + 2;
    assert Top(ns) in ns;
  }

  /** A late copy of a packet takes the anchor back: the next packet is charged for the one accepted before the copy,
      although nothing is missing. */
  lemma LateCopyIsCharged(f: Follow, layer: seq<byte>, next: Event, copy: Event, third: Event, m: nat)
    requires f.lock.valid && f.sync.haveSeq && f.sync.lastSeq == m % 0x1_0000 && f.sync.syncGaps < 0xFFFF
    requires Brings(f, layer, next, m + 1) && Brings(f, layer, copy, m) && Brings(f, layer, third, m + 2)
    ensures Missing([m, m + 1, m, m + 2]) == {}
    ensures Exec(f, layer, [next, copy, third]).sync.syncGaps == f.sync.syncGaps + 1
  {
    NothingMissing(m);
    ExecThree(f, layer, next, copy, third);
    var f1 := Apply(f, layer, next);
    BringsCharge(f, layer, next, m, m + 1);
    var f2 := Apply(f1, layer, copy);
    BringsCharge(f1, layer, copy, m + 1, m);
    BringsCharge(f2, layer, third, m, m + 2);
  }

  // ----- accepted is not heard -----

  /** `hs[i]` is the index that event i carries over the air from the followed master, on this layer or another. */
  predicate HeardFrom(f: Follow, layer: seq<byte>, events: seq<Event>, ns: seq<nat>, hs: seq<Option<nat>>)
    requires Anchored(f, layer, events, ns)
  {
    && |hs| == |events|
    && forall i :: 0 <= i < |events| ==>
         if events[i].Frame? && events[i].origin == f.lock.mac && events[i].packet.seqNo.Some?
         then
           && hs[i].Some? && events[i].packet.seqNo.value == hs[i].value % 0x1_0000
           && (Accepted(Exec(f, layer, events[..i]), layer, events[i]) ==> hs[i].value == ns[i + 1])
         else hs[i] == None
  }

  /** Indices of the range that never reached the slave at all. */
  function Unheard(ns: seq<nat>, hs: seq<Option<nat>>): set<nat>
    requires |ns| > 0
  {
    set i | i in Missing(ns) && Some(i) !in hs
  }

  lemma ProperSize(a: set<nat>, b: set<nat>, x: nat)
    requires a <= b && x in b && x !in a
    ensures |a| < |b|
  {
    SubsetSize(a, b - {x});
  }

  /** An index that was heard and is still missing came in a packet the layer filter dropped. */
  lemma MissingWasFiltered(f: Follow, layer: seq<byte>, events: seq<Event>, ns: seq<nat>, hs: seq<Option<nat>>, i: nat)
    requires Anchored(f, layer, events, ns) && HeardFrom(f, layer, events, ns, hs)
    requires i < |events| && hs[i].Some? && hs[i].value in Missing(ns)
    ensures !LayerMatches(layer, events[i].packet.layer)
  {
    assert Anchored(f, layer, events[..i], ns[..i + 1]) by {
      AnchoredFront(f, layer, events, ns, i);
    }
    CounterIsCharges(f, layer, events[..i], ns[..i + 1]);
    assert ns[i + 1] in ns;
  }

  lemma AnchoredFront(f: Follow, layer: seq<byte>, events: seq<Event>, ns: seq<nat>, n: nat)
    requires Anchored(f, layer, events, ns) && n <= |events|
    ensures Anchored(f, layer, events[..n], ns[..n + 1])
  {
    forall i | 0 <= i < n
      ensures Anchors(Exec(f, layer, events[..n][..i]), layer, events[i], ns[i], ns[i + 1])
    {
      assert events[..n][..i] == events[..i];
      assert Anchors(Exec(f, layer, events[..i]), layer, events[i], ns[i], ns[i + 1]);
    }
  }

  /** Event i carries a missing index of the held master for a layer the slave does not follow. */
  predicate DropsMissing(layer: seq<byte>, events: seq<Event>, ns: seq<nat>, hs: seq<Option<nat>>, i: nat)
    requires |ns| > 0 && |hs| == |events| && i < |events|
  {
    events[i].Frame? && !LayerMatches(layer, events[i].packet.layer) && hs[i].Some? && hs[i].value in Missing(ns)
  }

  /** Everything missing never reached the slave iff the layer filter dropped none of it. */
  lemma UnheardIsMissingIff(f: Follow, layer: seq<byte>, events: seq<Event>, ns: seq<nat>, hs: seq<Option<nat>>)
    requires Anchored(f, layer, events, ns) && HeardFrom(f, layer, events, ns, hs)
    ensures |Unheard(ns, hs)| <= |Missing(ns)|
    ensures
      |Unheard(ns, hs)| == |Missing(ns)| <==>
      forall i :: 0 <= i < |events| ==> !DropsMissing(layer, events, ns, hs, i)
  {
    SubsetSize(Unheard(ns, hs), Missing(ns));
    if i :| 0 <= i < |events| && DropsMissing(layer, events, ns, hs, i) {
      assert Some(hs[i].value) in hs;
      ProperSize(Unheard(ns, hs), Missing(ns), hs[i].value);
    } else {
      forall n | n in Missing(ns) ensures Some(n) !in hs {
        if Some(n) in hs {
          var i :| 0 <= i < |hs| && hs[i] == Some(n);
          MissingWasFiltered(f, layer, events, ns, hs, i);
          assert DropsMissing(layer, events, ns, hs, i);
        }
      }
      assert Unheard(ns, hs) == Missing(ns);
    }
  }

  /** The counter is the number of packets that never reached the slave iff the master's packets were accepted in step
      and the layer filter dropped none of the missing ones, or the counter is saturated anyway. */
  lemma GapsAreLossesIff(f: Follow, layer: seq<byte>, events: seq<Event>, ns: seq<nat>, hs: seq<Option<nat>>)
    requires Anchored(f, layer, events, ns) && HeardFrom(f, layer, events, ns, hs) && RightSteps(ns)
    ensures
      Exec(f, layer, events).sync.syncGaps == Saturate(f.sync.syncGaps + |Unheard(ns, hs)|) <==>
      || f.sync.syncGaps + |Unheard(ns, hs)| >= 0xFFFF
      || (InStep(ns) && forall i :: 0 <= i < |events| ==> !DropsMissing(layer, events, ns, hs, i))
  {
    CounterIsCharges(f, layer, events, ns);
    ChargedIsMissingIff(ns);
    UnheardIsMissingIff(f, layer, events, ns, hs);
    SaturateIff(f.sync.syncGaps, |Unheard(ns, hs)|, Charged(ns));
  }

  /** Two layers on one master: a slave that hears every packet is charged one for the other layer's. */
  lemma OtherLayerIsCharged(f: Follow, layer: seq<byte>, theirs: Event, ours: Event, m: nat)
    requires f.lock.valid && f.sync.haveSeq && f.sync.lastSeq == m % 0x1_0000 && f.sync.syncGaps < 0xFFFF
    requires theirs.Frame? && theirs.origin == f.lock.mac && theirs.packet.seqNo == Some((m + 1) % 0x1_0000)
    requires ours.Frame? && ours.origin == f.lock.mac && ours.packet.seqNo == Some((m + 2) % 0x1_0000)
    requires !LayerMatches(layer, theirs.packet.layer) && LayerMatches(layer, ours.packet.layer)
    ensures Exec(f, layer, [theirs, ours]).sync.syncGaps == f.sync.syncGaps + 1
  {
    assert [theirs, ours][..1] == [theirs];
    assert [theirs][..0] == [];
    assert Exec(f, layer, [theirs]) == f;
    StepCounts(f, layer, ours, m, m + 2);
    ChargeIsRightIff(m, m + 2);
  }

  lemma StepGaps(f: Follow, layer: seq<byte>, e: Event)
    ensures f.sync.syncGaps <= Apply(f, layer, e).sync.syncGaps
  {
  }

  /** In any run at all, whatever is received, the counter never decreases. */
  lemma {:induction false} GapsNeverDecrease(f: Follow, layer: seq<byte>, events: seq<Event>)
    ensures f.sync.syncGaps <= Exec(f, layer, events).sync.syncGaps
  {
    if |events| > 0 {
      GapsNeverDecrease(f, layer, events[..|events| - 1]);
      StepGaps(Exec(f, layer, events[..|events| - 1]), layer, events[|events| - 1]);
    }
  }
}
