// The USB-MIDI output queue of src/usb_out.cpp: one task pumps it into the endpoint, every other task only
// enqueues, possibly while the pump holds a packet.
module UsbOut {
  import opened RelaySpec
  import opened SysexChannel

  const MIDI_QUEUE_PACKETS: nat := 1024
  const USB_STALL_DROP_MS: nat := 200
  const PUMP_BUDGET: nat := 64

  /** `held` is the packet the pump has taken out and not settled yet. `accepted` and `delivered` record, since
      the last reset of the queue, what was enqueued and what went out. */
  datatype Out = Out(queue: seq<Packet>, held: Option<Packet>, stalledSince: nat,
                     accepted: seq<Packet>, delivered: seq<Packet>)

  datatype Event =
    | Enqueue(p: Packet)
    | Take
    | Written
    | Refused(now: nat)

  function Boot(): Out {
    Out([], None, 0, [], [])
  }

  predicate IsReset(o: Out, e: Event) {
    e.Refused? && o.held.Some? && o.stalledSince != 0 && e.now - o.stalledSince > USB_STALL_DROP_MS
  }

  /** xQueueSendToFront without waiting: a full queue refuses the packet. */
  function PutBack(o: Out, p: Packet): Out {
    o.(held := None, queue := if |o.queue| < MIDI_QUEUE_PACKETS then [p] + o.queue else o.queue)
  }

  function Apply(o: Out, e: Event): Out {
    match e
    case Enqueue(p) =>
      if |o.queue| < MIDI_QUEUE_PACKETS then o.(queue := o.queue + [p], accepted := o.accepted + [p]) else o
    case Take =>
      if o.held.None? && |o.queue| > 0 then o.(held := Some(o.queue[0]), queue := o.queue[1..]) else o
    case Written =>
      if o.held.Some? then o.(held := None, stalledSince := 0, delivered := o.delivered + [o.held.value]) else o
    case Refused(now) =>
      if o.held.None? then o
      else if o.stalledSince == 0 then PutBack(o.(stalledSince := now), o.held.value)
      else if now - o.stalledSince > USB_STALL_DROP_MS then Out([], None, o.stalledSince, [], [])
      else PutBack(o, o.held.value)
  }

  function Exec(o: Out, events: seq<Event>): Out {
    if |events| == 0 then o else Apply(Exec(o, events[..|events| - 1]), events[|events| - 1])
  }

  // ----- the pump -----

  /** What one pump call does when nothing else runs meanwhile: `writes` is what the endpoint answers in turn. */
  function PumpEvents(o: Out, writes: nat -> bool, now: nat, k: nat): seq<Event>
    requires k <= PUMP_BUDGET
    decreases PUMP_BUDGET - k
  {
    if k == PUMP_BUDGET || |o.queue| == 0 then []
    else if writes(k) then
      [Take, Written] + PumpEvents(Apply(Apply(o, Take), Written), writes, now, k + 1)
    else [Take, Refused(now)]
  }

  lemma {:induction false} ExecAppend(o: Out, first: seq<Event>, second: seq<Event>)
    ensures Exec(o, first + second) == Exec(Exec(o, first), second)
  {
    if |second| == 0 {
      assert first + second == first;
    } else {
      var init := second[..|second| - 1];
      ExecAppend(o, first, init);
      assert (first + second)[..|first + second| - 1] == first + init;
    }
  }

  lemma ExecTwo(o: Out, a: Event, b: Event)
    ensures Exec(o, [a, b]) == Apply(Apply(o, a), b)
  {
    assert [a][..0] == [];
    assert Exec(o, [a]) == Apply(o, a);
    assert [a, b][..1] == [a];
  }

  lemma PumpUnfolds(o: Out, writes: nat -> bool, now: nat, k: nat)
    requires k < PUMP_BUDGET && |o.queue| > 0
    ensures Exec(o, PumpEvents(o, writes, now, k)) ==
            if writes(k) then
              var b := Apply(Apply(o, Take), Written);
              Exec(b, PumpEvents(b, writes, now, k + 1))
            else Apply(Apply(o, Take), Refused(now))
  {
    if writes(k) {
      var b := Apply(Apply(o, Take), Written);
      ExecTwo(o, Take, Written);
      ExecAppend(o, [Take, Written], PumpEvents(b, writes, now, k + 1));
    } else {
      ExecTwo(o, Take, Refused(now));
    }
  }

  class UsbQueue {
    var midiQueue: seq<Packet>
    var stalledSince: nat
    ghost var accepted: seq<Packet>
    ghost var delivered: seq<Packet>

    ghost function View(): Out
      reads this
    {
      Out(midiQueue, None, stalledSince, accepted, delivered)
    }

    constructor ()
      ensures View() == Boot()
    {
      midiQueue, stalledSince, accepted, delivered := [], 0, [], [];
    }

    method UsbOutMidi(packet: Packet) returns (ok: bool)
      modifies this
      ensures View() == Apply(old(View()), Enqueue(packet))
      ensures ok <==> old(|midiQueue|) < MIDI_QUEUE_PACKETS
    {
      if |midiQueue| == MIDI_QUEUE_PACKETS || |midiQueue| > MIDI_QUEUE_PACKETS {
        return false;
      }
      midiQueue := midiQueue + [packet];
      accepted := accepted + [packet];
      return true;
    }

    method SendToFront(packet: Packet)
      modifies this`midiQueue
      ensures midiQueue == if old(|midiQueue|) < MIDI_QUEUE_PACKETS then [packet] + old(midiQueue) else old(midiQueue)
    {
      if |midiQueue| < MIDI_QUEUE_PACKETS {
        midiQueue := [packet] + midiQueue;
      }
    }

    /** A packet just taken out, and refused by the endpoint. */
    method Stall(packet: Packet, now: nat)
      modifies this
      ensures View() == Apply(old(View()).(held := Some(packet)), Refused(now))
    {
      if stalledSince == 0 {
        stalledSince := now;
        SendToFront(packet);
      } else if now - stalledSince > USB_STALL_DROP_MS {
        midiQueue, accepted, delivered := [], [], [];
      } else {
        SendToFront(packet);
      }
    }

    method UsbOutPump(writes: nat -> bool, now: nat)
      modifies this
      ensures View() == Exec(old(View()), PumpEvents(old(View()), writes, now, 0))
    {
      ghost var all := Exec(View(), PumpEvents(View(), writes, now, 0));
      var used := 0;
      while used < PUMP_BUDGET && |midiQueue| > 0
        invariant used <= PUMP_BUDGET
        invariant Exec(View(), PumpEvents(View(), writes, now, used)) == all
        decreases PUMP_BUDGET - used
      {
        ghost var before := View();
        PumpUnfolds(before, writes, now, used);
        var packet := midiQueue[0];
        midiQueue := midiQueue[1..];
        if !writes(used) {
          Stall(packet, now);
          return;
        }
        delivered := delivered + [packet];
        stalledSince := 0;
        assert View() == Apply(Apply(before, Take), Written);
        used := used + 1;
      }
    }
  }

  lemma OneMore(out: seq<Packet>, queue: seq<Packet>, n: nat)
    requires n < |queue|
    ensures out + [queue[0]] + queue[1..][..n] == out + queue[..n + 1]
    ensures queue[1..][n..] == queue[n + 1..]
  {
  }

  /** With an endpoint that takes everything, a pump call sends the oldest 64 packets, in order. */
  lemma {:induction false} PumpSendsOldest(o: Out, writes: nat -> bool, now: nat, k: nat)
    requires k <= PUMP_BUDGET && o.held.None? && forall i :: k <= i < PUMP_BUDGET ==> writes(i)
    ensures
      var a := Exec(o, PumpEvents(o, writes, now, k));
      var n := if |o.queue| < PUMP_BUDGET - k then |o.queue| else PUMP_BUDGET - k;
      a.delivered == o.delivered + o.queue[..n] && a.queue == o.queue[n..] && a.accepted == o.accepted
    decreases PUMP_BUDGET - k
  {
    if k < PUMP_BUDGET && |o.queue| > 0 {
      var b := Apply(Apply(o, Take), Written);
      PumpSendsOldest(b, writes, now, k + 1);
      PumpUnfolds(o, writes, now, k);
      OneMore(o.delivered, o.queue, if |b.queue| < PUMP_BUDGET - (k + 1) then |b.queue| else PUMP_BUDGET - (k + 1));
    } else {
      assert PumpEvents(o, writes, now, k) == [];
      assert o.delivered + o.queue[..0] == o.delivered;
    }
  }

  function Least(a: nat, b: nat): nat {
    if a < b then a else b
  }

  /** How many of the writes from the k-th on the endpoint takes before it refuses one. */
  function TakenFrom(writes: nat -> bool, k: nat, n: nat): (r: nat)
    ensures r <= n
    decreases n
  {
    if n == 0 || !writes(k) then 0 else 1 + TakenFrom(writes, k + 1, n - 1)
  }

  lemma OneLess(sent: seq<Packet>, queue: seq<Packet>, r: nat)
    requires r < |queue|
    ensures queue[1..][r..] == queue[r + 1..] && sent + [queue[0]] + queue[1..][..r] == sent + queue[..r + 1]
  {
  }

  /** The call has sent the r oldest packets and left the rest. */
  predicate SentOldest(o: Out, a: Out, r: nat) {
    r <= |o.queue| && a.delivered == o.delivered + o.queue[..r] && a.queue == o.queue[r..] && a.accepted == o.accepted
  }

  /** Writes have been refused for too long. */
  predicate Stale(o: Out, now: nat) {
    o.stalledSince != 0 && now - o.stalledSince > 200
  }

  lemma RefusedOnce(o: Out, now: nat)
    requires o.held.None? && 0 < |o.queue| <= MIDI_QUEUE_PACKETS
    ensures
      var a := Apply(Apply(o, Take), Refused(now));
      if Stale(o, now) then a.queue == a.accepted == a.delivered == []
      else SentOldest(o, a, 0)
  {
  }

  lemma WrittenOne(o: Out, a: Out, r: nat)
    requires o.held.None? && |o.queue| > 0
    ensures
      var b := Apply(Apply(o, Take), Written);
      && b.held.None? && b.stalledSince == 0 && |b.queue| == |o.queue| - 1
      && (SentOldest(b, a, r) ==> SentOldest(o, a, r + 1))
  {
    if r < |o.queue| {
      OneLess(o.delivered, o.queue, r);
    }
  }

  /** What a pump call from its k-th packet on has made of `o`. */
  predicate Pumped(o: Out, a: Out, writes: nat -> bool, now: nat, k: nat)
    requires k <= PUMP_BUDGET
  {
    var n := Least(|o.queue|, PUMP_BUDGET - k);
    if n > 0 && !writes(k) && Stale(o, now) then a.queue == a.accepted == a.delivered == []
    else SentOldest(o, a, TakenFrom(writes, k, n))
  }

  lemma PumpedOneMore(o: Out, b: Out, a: Out, writes: nat -> bool, now: nat, k: nat)
    requires k < PUMP_BUDGET && o.held.None? && |o.queue| > 0 && writes(k)
    requires b == Apply(Apply(o, Take), Written) && Pumped(b, a, writes, now, k + 1)
    ensures Pumped(o, a, writes, now, k)
  {
    WrittenOne(o, a, TakenFrom(writes, k + 1, Least(|o.queue|, PUMP_BUDGET - k) - 1));
  }

  lemma PumpedNone(o: Out, writes: nat -> bool, now: nat, k: nat)
    requires k < PUMP_BUDGET && o.held.None? && 0 < |o.queue| <= MIDI_QUEUE_PACKETS && !writes(k)
    ensures Pumped(o, Apply(Apply(o, Take), Refused(now)), writes, now, k)
  {
    RefusedOnce(o, now);
  }

  /** Whatever the endpoint answers, a pump call sends the oldest packets in order up to its first refusal, and stops
      there: the rest waits, unless that refusal, of the very first packet, drops it all. */
  lemma {:induction false} PumpSendsUntilRefused(o: Out, writes: nat -> bool, now: nat, k: nat)
    requires k <= PUMP_BUDGET && o.held.None? && |o.queue| <= MIDI_QUEUE_PACKETS
    ensures Pumped(o, Exec(o, PumpEvents(o, writes, now, k)), writes, now, k)
    decreases PUMP_BUDGET - k
  {
    if k == PUMP_BUDGET || |o.queue| == 0 {
      assert PumpEvents(o, writes, now, k) == [];
    } else {
      PumpUnfolds(o, writes, now, k);
      if writes(k) {
        var b := Apply(Apply(o, Take), Written);
        PumpSendsUntilRefused(b, writes, now, k + 1);
        PumpedOneMore(o, b, Exec(b, PumpEvents(b, writes, now, k + 1)), writes, now, k);
      } else {
        PumpedNone(o, writes, now, k);
      }
    }
  }

  // ----- nothing is reordered, duplicated or lost between resets -----

  function Held(o: Out): seq<Packet> {
    if o.held.Some? then [o.held.value] else []
  }

  /** What went out, then what the pump holds, then the queue: exactly what was accepted, in order. */
  predicate Conserved(o: Out) {
    o.delivered + Held(o) + o.queue == o.accepted
  }

  /** The pump puts its packet back into a queue that other tasks have filled in the meantime. */
  predicate Squeezed(o: Out, e: Event) {
    e.Refused? && o.held.Some? && !IsReset(o, e) && |o.queue| >= MIDI_QUEUE_PACKETS
  }

  /** Every step keeps the order and loses nothing, exactly unless the retry finds the queue full. */
  lemma StepConserves(o: Out, e: Event)
    requires Conserved(o)
    ensures Conserved(Apply(o, e)) <==> !Squeezed(o, e)
  {
    match e
    case Enqueue(p) =>
      assert o.delivered + Held(o) + (o.queue + [p]) == (o.delivered + Held(o) + o.queue) + [p];
    case Take =>
      if o.held.None? && |o.queue| > 0 {
        assert o.delivered + [] + o.queue == o.delivered + [o.queue[0]] + o.queue[1..];
      }
    case Written =>
      if o.held.Some? {
        assert o.delivered + [o.held.value] + [] == o.delivered + [o.held.value];
      }
    case Refused(now) =>
      if o.held.Some? {
        assert o.delivered + [] + ([o.held.value] + o.queue) == o.delivered + [o.held.value] + o.queue;
        assert |o.delivered + [] + o.queue| < |o.accepted|;
      }
  }

  predicate SqueezedAt(o: Out, events: seq<Event>, i: nat)
    requires i < |events|
  {
    Squeezed(Exec(o, events[..i]), events[i])
  }

  lemma ExecStep(o: Out, events: seq<Event>, n: nat)
    requires n < |events|
    ensures Exec(o, events[..n + 1]) == Apply(Exec(o, events[..n]), events[n])
  {
    assert events[..n + 1][..n] == events[..n];
  }

  /** Packets lost to a full queue among the first n events, since the last reset. */
  function Squeezes(events: seq<Event>, n: nat): nat
    requires n <= |events|
  {
    if n == 0 || IsReset(Exec(Boot(), events[..n - 1]), events[n - 1]) then 0
    else Squeezes(events, n - 1) + if SqueezedAt(Boot(), events, n - 1) then 1 else 0
  }

  /** How many of the accepted packets are nowhere any more. */
  function Gone(o: Out): int {
    |o.accepted| - |o.delivered + Held(o) + o.queue|
  }

  lemma StepLoses(o: Out, e: Event)
    ensures Gone(Apply(o, e)) == if IsReset(o, e) then 0 else Gone(o) + if Squeezed(o, e) then 1 else 0
  {
  }

  lemma {:induction false} LossIsSqueezes(events: seq<Event>, n: nat)
    requires n <= |events|
    ensures Gone(Exec(Boot(), events[..n])) == Squeezes(events, n)
  {
    if n > 0 {
      LossIsSqueezes(events, n - 1);
      ExecStep(Boot(), events, n - 1);
      StepLoses(Exec(Boot(), events[..n - 1]), events[n - 1]);
    } else {
      assert events[..0] == [];
    }
  }

  lemma {:induction false} NoSqueezeConserves(events: seq<Event>, n: nat)
    requires n <= |events| && Squeezes(events, n) == 0
    ensures Conserved(Exec(Boot(), events[..n]))
  {
    if n > 0 {
      var before := Exec(Boot(), events[..n - 1]);
      ExecStep(Boot(), events, n - 1);
      if !IsReset(before, events[n - 1]) {
        NoSqueezeConserves(events, n - 1);
        StepConserves(before, events[n - 1]);
      }
    } else {
      assert events[..0] == [];
    }
  }

  /** Over any interleaving of enqueues with the pump's own steps: nothing is missing exactly if no retry since the
      last reset found the queue full, and each one that did cost one packet. */
  lemma RunConserves(events: seq<Event>, n: nat)
    requires n <= |events|
    ensures
      var o := Exec(Boot(), events[..n]);
      && (Conserved(o) <==> Squeezes(events, n) == 0)
      && |o.accepted| == |o.delivered + Held(o) + o.queue| + Squeezes(events, n)
  {
    LossIsSqueezes(events, n);
    if Squeezes(events, n) == 0 {
      NoSqueezeConserves(events, n);
    }
  }

  /** No enqueue falls between a Take and what settles it. */
  predicate PumpRunsAlone(o: Out, events: seq<Event>) {
    forall i :: 0 <= i < |events| && events[i].Enqueue? ==> Exec(o, events[..i]).held.None?
  }

  lemma StepFits(o: Out, e: Event)
    requires |o.queue| + |Held(o)| <= MIDI_QUEUE_PACKETS && (e.Enqueue? ==> o.held.None?)
    ensures |Apply(o, e).queue| + |Held(Apply(o, e))| <= MIDI_QUEUE_PACKETS
  {
  }

  lemma {:induction false} AloneFits(events: seq<Event>, n: nat)
    requires n <= |events| && PumpRunsAlone(Boot(), events)
    ensures var o := Exec(Boot(), events[..n]); |o.queue| + |Held(o)| <= MIDI_QUEUE_PACKETS
  {
    if n > 0 {
      AloneFits(events, n - 1);
      ExecStep(Boot(), events, n - 1);
      StepFits(Exec(Boot(), events[..n - 1]), events[n - 1]);
    } else {
      assert events[..0] == [];
    }
  }

  lemma {:induction false} AloneNeverSqueezes(events: seq<Event>, n: nat)
    requires n <= |events| && PumpRunsAlone(Boot(), events)
    ensures Squeezes(events, n) == 0
  {
    if n > 0 {
      AloneNeverSqueezes(events, n - 1);
      AloneFits(events, n - 1);
    }
  }

  /** If no other task interrupts the pump, nothing is ever lost outside a reset. */
  lemma AlonePumpConserves(events: seq<Event>, n: nat)
    requires n <= |events| && PumpRunsAlone(Boot(), events)
    ensures Conserved(Exec(Boot(), events[..n]))
  {
    AloneNeverSqueezes(events, n);
    RunConserves(events, n);
  }

  function Copies(p: Packet, n: nat): (e: seq<Event>)
    ensures |e| == n
  {
    if n == 0 then [] else Copies(p, n - 1) + [Enqueue(p)]
  }

  lemma {:induction false} Fills(o: Out, p: Packet, n: nat)
    requires |o.queue| + n <= MIDI_QUEUE_PACKETS
    ensures
      var a := Exec(o, Copies(p, n));
      |a.queue| == |o.queue| + n && a.held == o.held && a.stalledSince == o.stalledSince
  {
    if n > 0 {
      Fills(o, p, n - 1);
    }
  }

  /** A stalled endpoint, and other tasks filling the queue while the pump holds its first packet. */
  function LosingRun(p: Packet): seq<Event> {
    [Enqueue(p), Take] + Copies(p, MIDI_QUEUE_PACKETS) + [Refused(1)]
  }

  /** Otherwise one interrupted retry is enough to lose a packet, from boot. */
  lemma InterruptedRetryLoses(p: Packet)
    ensures !Conserved(Exec(Boot(), LosingRun(p)))
  {
    var start, copies, events := [Enqueue(p), Take], Copies(p, MIDI_QUEUE_PACKETS), LosingRun(p);
    var n := |start + copies|;
    ExecTwo(Boot(), Enqueue(p), Take);
    ExecAppend(Boot(), start, copies);
    Fills(Exec(Boot(), start), p, MIDI_QUEUE_PACKETS);
    assert events[..n] == start + copies && events[..n + 1] == events && events[n] == Refused(1);
    assert SqueezedAt(Boot(), events, n);
    RunConserves(events, n + 1);
  }

  // ----- the queue is dropped only when nobody reads -----

  /** The first refused write since the last one that succeeded, among the first n events; a refusal at time 0 does not
      count, as 0 stands for no stall. */
  function RefusedSince(events: seq<Event>, n: nat): (k: Option<nat>)
    requires n <= |events|
    ensures k.Some? ==> k.value < n && events[k.value].Refused?
  {
    if n == 0 then None
    else
      var e, busy := events[n - 1], Exec(Boot(), events[..n - 1]).held.Some?;
      if e.Written? && busy then None
      else if e.Refused? && busy && e.now != 0 && RefusedSince(events, n - 1).None? then Some(n - 1)
      else RefusedSince(events, n - 1)
  }

  lemma {:induction false} StallIs(events: seq<Event>, n: nat)
    requires n <= |events|
    ensures
      var k := RefusedSince(events, n);
      && Exec(Boot(), events[..n]).stalledSince == (if k.Some? then events[k.value].now else 0)
      && (k.Some? ==> events[k.value].now != 0)
  {
    if n > 0 {
      StallIs(events, n - 1);
      ExecStep(Boot(), events, n - 1);
    } else {
      assert events[..0] == [];
    }
  }

  /** Over any run: a refused write drops the queue, and the packet, exactly if writes have been refused, with none
      succeeding, for more than 200 ms. */
  lemma ResetIff(events: seq<Event>, n: nat)
    requires n < |events| && events[n].Refused? && Exec(Boot(), events[..n]).held.Some?
    ensures
      var k := RefusedSince(events, n);
      Exec(Boot(), events[..n + 1]).queue == [] <==> k.Some? && events[n].now - events[k.value].now > 200
    ensures IsReset(Exec(Boot(), events[..n]), events[n]) <==> Exec(Boot(), events[..n + 1]).queue == []
  {
    StallIs(events, n);
    ExecStep(Boot(), events, n);
  }

  /** The packets accepted after the last reset among the first n events. */
  function AcceptedSinceReset(events: seq<Event>, n: nat): seq<Packet>
    requires n <= |events|
  {
    if n == 0 || IsReset(Exec(Boot(), events[..n - 1]), events[n - 1]) then []
    else
      var e := events[n - 1];
      if e.Enqueue? && |Exec(Boot(), events[..n - 1]).queue| < MIDI_QUEUE_PACKETS
      then AcceptedSinceReset(events, n - 1) + [e.p]
      else AcceptedSinceReset(events, n - 1)
  }

  lemma {:induction false} AcceptedMatches(events: seq<Event>, n: nat)
    requires n <= |events|
    ensures Exec(Boot(), events[..n]).accepted == AcceptedSinceReset(events, n)
  {
    if n > 0 {
      AcceptedMatches(events, n - 1);
      ExecStep(Boot(), events, n - 1);
    } else {
      assert events[..0] == [];
    }
  }

  /** `a` is `b` with some elements left out. */
  predicate Subsequence(a: seq<Packet>, b: seq<Packet>)
    decreases |b|
  {
    |a| == 0 ||
    (|b| > 0 &&
     var init := b[..|b| - 1];
     (a[|a| - 1] == b[|b| - 1] && Subsequence(a[..|a| - 1], init)) || Subsequence(a, init))
  }

  lemma BothLonger(a: seq<Packet>, b: seq<Packet>, x: Packet)
    requires Subsequence(a, b)
    ensures Subsequence(a + [x], b + [x])
  {
    assert (a + [x])[..|a|] == a && (b + [x])[..|b|] == b;
  }

  lemma {:induction false} WholeIsSubsequence(a: seq<Packet>)
    ensures Subsequence(a, a)
  {
    if |a| > 0 {
      WholeIsSubsequence(a[..|a| - 1]);
    }
  }

  lemma {:induction false} WithoutOne(front: seq<Packet>, x: Packet, back: seq<Packet>)
    ensures Subsequence(front + back, front + [x] + back)
    decreases |back|
  {
    var all := front + [x] + back;
    if |back| == 0 {
      WholeIsSubsequence(front);
      assert front + back == front && all[..|all| - 1] == front;
    } else {
      var init, y := back[..|back| - 1], back[|back| - 1];
      WithoutOne(front, x, init);
      BothLonger(front + init, front + [x] + init, y);
      assert front + back == front + init + [y] && all == front + [x] + init + [y];
    }
  }

  lemma {:induction false} FrontIsSubsequence(front: seq<Packet>, back: seq<Packet>)
    ensures Subsequence(front, front + back)
    decreases |back|
  {
    if |back| == 0 {
      WholeIsSubsequence(front);
      assert front + back == front;
    } else {
      FrontIsSubsequence(front, back[..|back| - 1]);
      assert (front + back)[..|front + back| - 1] == front + back[..|back| - 1];
    }
  }

  lemma {:induction false} SubsequenceOf(a: seq<Packet>, b: seq<Packet>, c: seq<Packet>)
    requires Subsequence(a, b) && Subsequence(b, c)
    ensures Subsequence(a, c)
    decreases |b| + |c|
  {
    if |a| > 0 {
      var b1, c1 := b[..|b| - 1], c[..|c| - 1];
      if Subsequence(b, c1) {
        SubsequenceOf(a, b, c1);
      } else if Subsequence(a, b1) {
        SubsequenceOf(a, b1, c1);
      } else {
        SubsequenceOf(a[..|a| - 1], b1, c1);
      }
    }
  }

  predicate Ordered(o: Out) {
    Subsequence(o.delivered + Held(o) + o.queue, o.accepted)
  }

  lemma StepOrdered(o: Out, e: Event)
    requires Ordered(o)
    ensures Ordered(Apply(o, e))
  {
    var a := Apply(o, e);
    match e
    case Enqueue(p) =>
      if |o.queue| < MIDI_QUEUE_PACKETS {
        BothLonger(o.delivered + Held(o) + o.queue, o.accepted, p);
        assert a.delivered + Held(a) + a.queue == (o.delivered + Held(o) + o.queue) + [p];
      }
    case Take =>
      assert a.delivered + Held(a) + a.queue == o.delivered + Held(o) + o.queue;
    case Written =>
      assert a.delivered + Held(a) + a.queue == o.delivered + Held(o) + o.queue;
    case Refused(now) => RefusalOrdered(o, now);
  }

  lemma RefusalOrdered(o: Out, now: nat)
    requires Ordered(o)
    ensures Ordered(Apply(o, Refused(now)))
  {
    var a := Apply(o, Refused(now));
    if Squeezed(o, Refused(now)) {
      WithoutOne(o.delivered, o.held.value, o.queue);
      SubsequenceOf(o.delivered + o.queue, o.delivered + [o.held.value] + o.queue, o.accepted);
      assert a.delivered + Held(a) + a.queue == o.delivered + o.queue;
    } else if !IsReset(o, Refused(now)) {
      assert a.delivered + Held(a) + a.queue == o.delivered + Held(o) + o.queue;
    }
  }

  lemma {:induction false} RunOrdered(events: seq<Event>, n: nat)
    requires n <= |events|
    ensures Ordered(Exec(Boot(), events[..n]))
  {
    if n > 0 {
      RunOrdered(events, n - 1);
      ExecStep(Boot(), events, n - 1);
      StepOrdered(Exec(Boot(), events[..n - 1]), events[n - 1]);
    } else {
      assert events[..0] == [];
    }
  }

  lemma OutIsOrdered(o: Out)
    requires Ordered(o)
    ensures Subsequence(o.delivered, o.accepted)
    ensures Conserved(o) ==> o.delivered <= o.accepted
  {
    var rest := Held(o) + o.queue;
    assert o.delivered + rest == o.delivered + Held(o) + o.queue;
    FrontIsSubsequence(o.delivered, rest);
    SubsequenceOf(o.delivered, o.delivered + rest, o.accepted);
  }

  /** No ghost stream, over every run: what went out since the last reset is what was accepted since then, in order,
      with at most the squeezed packets left out. Nothing accepted before a reset ever goes out after it. */
  lemma NoGhostStream(events: seq<Event>, n: nat)
    requires n <= |events|
    ensures
      var o := Exec(Boot(), events[..n]);
      && Subsequence(o.delivered, AcceptedSinceReset(events, n))
      && (Squeezes(events, n) == 0 ==> o.delivered <= AcceptedSinceReset(events, n))
  {
    RunOrdered(events, n);
    RunConserves(events, n);
    AcceptedMatches(events, n);
    OutIsOrdered(Exec(Boot(), events[..n]));
  }
}
