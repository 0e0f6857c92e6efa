// The origin lock over whole runs: which master a slave may follow, and whose sequence number it diffs.
module OriginLock {
  import opened Bytes
  import opened RelaySpec
  import opened FollowSpec
  import opened FollowRuns

  predicate IsCommand(e: Event) {
    e.Pin? || e.Release?
  }

  /** No SET_ORIGIN among the events. */
  predicate Undirected(events: seq<Event>) {
    forall i :: 0 <= i < |events| ==> !IsCommand(events[i])
  }

  /** The i-th event of the run is a packet accepted in the state it meets. */
  predicate AcceptedAt(f: Follow, layer: seq<byte>, events: seq<Event>, i: nat)
    requires i < |events|
  {
    Accepted(Exec(f, layer, events[..i]), layer, events[i])
  }

  lemma ExecStep(f: Follow, layer: seq<byte>, events: seq<Event>, i: nat)
    requires i < |events|
    ensures Exec(f, layer, events[..i + 1]) == Apply(Exec(f, layer, events[..i]), layer, events[i])
  {
    assert events[..i + 1][..i] == events[..i];
  }

  lemma StepLock(f: Follow, layer: seq<byte>, e: Event)
    requires !IsCommand(e)
    ensures Accepted(f, layer, e) ==>
              Apply(f, layer, e).lock == Lock(e.origin, true, f.lock.pinned, e.now)
    ensures !Accepted(f, layer, e) ==> Apply(f, layer, e).lock == f.lock
  {
  }

  lemma {:induction false} QuietKeepsLock(f: Follow, layer: seq<byte>, events: seq<Event>, n: nat)
    requires n <= |events| && Undirected(events)
    requires forall i :: 0 <= i < n ==> !AcceptedAt(f, layer, events, i)
    ensures Exec(f, layer, events[..n]).lock == f.lock
  {
    if n > 0 {
      QuietKeepsLock(f, layer, events, n - 1);
      ExecStep(f, layer, events, n - 1);
      assert !AcceptedAt(f, layer, events, n - 1) && !IsCommand(events[n - 1]);
      StepLock(Exec(f, layer, events[..n - 1]), layer, events[n - 1]);
    }
  }

  /** The packet moved the lock: its master is held from now on, and the playback anchor is the packet's. */
  predicate Takes(f: Follow, layer: seq<byte>, e: Event) {
    var g := Apply(f, layer, e);
    && e.Frame?
    && g.lock == Lock(e.origin, true, f.lock.pinned, e.now)
    && g.sync.lastSyncTime == e.now && g.sync.currentState == e.packet.state
    && g.sync.currentIndex == e.packet.mediaIndex
  }

  /** A packet for this layer from the held master is taken, and so is any such packet while nobody is held. */
  lemma HeldIsTaken(f: Follow, layer: seq<byte>, e: Event)
    requires e.Frame? && LayerMatches(layer, e.packet.layer) && (f.lock.valid ==> f.lock.mac == e.origin)
    ensures Takes(f, layer, e)
  {
  }

  lemma ForeignIsTakenIff(f: Follow, layer: seq<byte>, e: Event)
    requires e.Frame? && LayerMatches(layer, e.packet.layer) && f.lock.valid && f.lock.mac != e.origin
    ensures if e.now - f.lock.lastHeard > 2000 && !f.lock.pinned then Takes(f, layer, e) else Apply(f, layer, e) == f
  {
  }

  /** From ANY state: a packet was taken, and then, without SET_ORIGIN, no other. The next packet for this layer is
      taken if it is from the same master, and else exactly when more than 2 s have passed and the slave was not
      pinned; a packet not taken changes nothing at all. */
  lemma SwitchTakesSilence(f: Follow, layer: seq<byte>, first: Event, between: seq<Event>, second: Event)
    requires Takes(f, layer, first) && Undirected(between)
    requires
      var held := Apply(f, layer, first);
      forall i :: 0 <= i < |between| ==> !AcceptedAt(held, layer, between, i)
    requires second.Frame? && LayerMatches(layer, second.packet.layer)
    ensures
      var g := Exec(Apply(f, layer, first), layer, between);
      if second.origin == first.origin || (second.now - first.now > 2000 && !f.lock.pinned)
      then Takes(g, layer, second)
      else Apply(g, layer, second) == g && g.lock.mac == first.origin
  {
    var held := Apply(f, layer, first);
    QuietKeepsLock(held, layer, between, |between|);
    assert between[..|between|] == between;
    var g := Exec(held, layer, between);
    if second.origin == first.origin {
      HeldIsTaken(g, layer, second);
    } else {
      ForeignIsTakenIff(g, layer, second);
    }
  }

  /** After SET_ORIGIN released the lock the next packet for this layer is taken, whoever sent it and however soon. */
  lemma ReleaseTakesNext(f: Follow, layer: seq<byte>, between: seq<Event>, e: Event)
    requires Undirected(between)
    requires
      var free := Apply(f, layer, Release);
      forall i :: 0 <= i < |between| ==> !AcceptedAt(free, layer, between, i)
    requires e.Frame? && LayerMatches(layer, e.packet.layer)
    ensures Takes(Exec(Apply(f, layer, Release), layer, between), layer, e)
  {
    var free := Apply(f, layer, Release);
    QuietKeepsLock(free, layer, between, |between|);
    assert between[..|between|] == between;
    HeldIsTaken(Exec(free, layer, between), layer, e);
  }

  /** Every packet accepted among the first n events is from `mac`. */
  predicate AcceptsOnly(f: Follow, layer: seq<byte>, events: seq<Event>, n: nat, mac: Mac)
    requires n <= |events|
  {
    forall i :: 0 <= i < n ==> AcceptedAt(f, layer, events, i) ==> events[i].origin == mac
  }

  predicate PinnedTo(f: Follow, mac: Mac) {
    f.lock.mac == mac && f.lock.valid && f.lock.pinned
  }

  lemma {:induction false} StaysPinned(f: Follow, layer: seq<byte>, events: seq<Event>, n: nat, mac: Mac)
    requires n <= |events| && Undirected(events) && PinnedTo(f, mac)
    ensures PinnedTo(Exec(f, layer, events[..n]), mac)
  {
    if n > 0 {
      StaysPinned(f, layer, events, n - 1, mac);
      ExecStep(f, layer, events, n - 1);
      assert !IsCommand(events[n - 1]);
      StepLock(Exec(f, layer, events[..n - 1]), layer, events[n - 1]);
    }
  }

  /** A pinned slave accepts the pinned master only, through any silence, until the next SET_ORIGIN: all of its packets
      for this layer, and no effect of anybody else's. */
  lemma PinHolds(f: Follow, layer: seq<byte>, mac: Mac, now: int, events: seq<Event>)
    requires Undirected(events)
    ensures
      var pinned := PinOrigin(f, mac, now);
      AcceptsOnly(pinned, layer, events, |events|, mac) && Exec(pinned, layer, events).lock.mac == mac
    ensures
      var pinned := PinOrigin(f, mac, now);
      forall i :: 0 <= i < |events| && events[i].Frame? && LayerMatches(layer, events[i].packet.layer) ==>
        if events[i].origin == mac then Takes(Exec(pinned, layer, events[..i]), layer, events[i])
        else Apply(Exec(pinned, layer, events[..i]), layer, events[i]) == Exec(pinned, layer, events[..i])
  {
    var pinned := PinOrigin(f, mac, now);
    StaysPinned(pinned, layer, events, |events|, mac);
    assert events[..|events|] == events;
    forall i | 0 <= i < |events| && AcceptedAt(pinned, layer, events, i)
      ensures events[i].origin == mac
    {
      StaysPinned(pinned, layer, events, i, mac);
    }
    forall i | 0 <= i < |events| && events[i].Frame? && LayerMatches(layer, events[i].packet.layer)
      ensures if events[i].origin == mac then Takes(Exec(pinned, layer, events[..i]), layer, events[i])
              else Apply(Exec(pinned, layer, events[..i]), layer, events[i]) == Exec(pinned, layer, events[..i])
    {
      StaysPinned(pinned, layer, events, i, mac);
      PinnedTakes(Exec(pinned, layer, events[..i]), layer, mac, events[i]);
    }
  }

  lemma PinnedTakes(f: Follow, layer: seq<byte>, mac: Mac, e: Event)
    requires PinnedTo(f, mac) && e.Frame? && LayerMatches(layer, e.packet.layer)
    ensures if e.origin == mac then Takes(f, layer, e) else Apply(f, layer, e) == f
  {
    if e.origin == mac {
      HeldIsTaken(f, layer, e);
    } else {
      ForeignIsTakenIff(f, layer, e);
    }
  }

  // ----- whose sequence number -----

  /** Event k is the packet lastSeq was read from: accepted from the master held now, and neither a
      SET_ORIGIN nor another master came since. */
  predicate AnchoredBy(f: Follow, layer: seq<byte>, events: seq<Event>, k: nat)
    requires k < |events|
  {
    var g := Exec(f, layer, events);
    && AcceptedAt(f, layer, events, k)
    && events[k].origin == g.lock.mac
    && events[k].packet.seqNo == Some(g.sync.lastSeq)
    && OnlyFrom(f, layer, events, k, g.lock.mac)
  }

  predicate OnlyFrom(f: Follow, layer: seq<byte>, events: seq<Event>, k: nat, mac: Mac) {
    forall m :: k < m < |events| ==>
      !IsCommand(events[m]) && (AcceptedAt(f, layer, events, m) ==> events[m].origin == mac)
  }

  lemma StepAnchor(f: Follow, layer: seq<byte>, e: Event)
    ensures
      var g := Apply(f, layer, e);
      && (g.sync.haveSeq ==> !IsCommand(e))
      && (Accepted(f, layer, e) && e.packet.seqNo.Some? ==>
            g.sync.haveSeq && g.sync.lastSeq == e.packet.seqNo.value && g.lock.mac == e.origin)
      && (Accepted(f, layer, e) && e.packet.seqNo.None? && g.sync.haveSeq ==>
            f.sync.haveSeq && g.sync.lastSeq == f.sync.lastSeq && g.lock.mac == f.lock.mac == e.origin)
      && (!Accepted(f, layer, e) && !IsCommand(e) ==>
            g.sync.haveSeq == f.sync.haveSeq && g.sync.lastSeq == f.sync.lastSeq && g.lock == f.lock)
  {
  }

  lemma PrefixAccepted(f: Follow, layer: seq<byte>, events: seq<Event>, i: nat)
    requires i < |events| - 1
    ensures AcceptedAt(f, layer, events[..|events| - 1], i) == AcceptedAt(f, layer, events, i)
  {
    assert events[..|events| - 1][..i] == events[..i];
  }

  lemma StillOnlyFrom(f: Follow, layer: seq<byte>, events: seq<Event>, k: nat, mac: Mac)
    requires |events| > 0 && OnlyFrom(f, layer, events[..|events| - 1], k, mac)
    requires !IsCommand(events[|events| - 1])
    requires AcceptedAt(f, layer, events, |events| - 1) ==> events[|events| - 1].origin == mac
    ensures OnlyFrom(f, layer, events, k, mac)
  {
    var init := events[..|events| - 1];
    forall m | k < m < |init|
      ensures init[m] == events[m] && AcceptedAt(f, layer, init, m) == AcceptedAt(f, layer, events, m)
    {
      PrefixAccepted(f, layer, events, m);
    }
  }

  lemma KeepAnchor(f: Follow, layer: seq<byte>, events: seq<Event>, k: nat)
    requires |events| > 0 && k < |events| - 1 && AnchoredBy(f, layer, events[..|events| - 1], k)
    requires
      var before, after := Exec(f, layer, events[..|events| - 1]), Exec(f, layer, events);
      && after.lock.mac == before.lock.mac && after.sync.lastSeq == before.sync.lastSeq
      && !IsCommand(events[|events| - 1])
      && (AcceptedAt(f, layer, events, |events| - 1) ==> events[|events| - 1].origin == after.lock.mac)
    ensures AnchoredBy(f, layer, events, k)
  {
    PrefixAccepted(f, layer, events, k);
    StillOnlyFrom(f, layer, events, k, Exec(f, layer, events).lock.mac);
  }

  /** Whenever the slave has a sequence number to diff against, it came from the master it follows now,
      since the last lock, switch, pin or release. */
  lemma {:induction false} SeqIsFromHeldOrigin(stopOnLoss: bool, layer: seq<byte>, events: seq<Event>)
    requires Exec(BootFollow(stopOnLoss), layer, events).sync.haveSeq
    ensures exists k :: 0 <= k < |events| && AnchoredBy(BootFollow(stopOnLoss), layer, events, k)
  {
    var f := BootFollow(stopOnLoss);
    var last := |events| - 1;
    var before := Exec(f, layer, events[..last]);
    StepAnchor(before, layer, events[last]);
    if Accepted(before, layer, events[last]) && events[last].packet.seqNo.Some? {
      assert AnchoredBy(f, layer, events, last);
    } else {
      SeqIsFromHeldOrigin(stopOnLoss, layer, events[..last]);
      var k :| 0 <= k < last && AnchoredBy(f, layer, events[..last], k);
      KeepAnchor(f, layer, events, k);
    }
  }
}
