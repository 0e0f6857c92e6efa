// The mesh re-sync ladder of src/main.cpp: soft resets, then reboots counted in NVS, and what bounds it
// over runs that go on through those reboots.
module SelfHeal {
  import opened Bytes
  import opened RelaySpec
  import opened FollowSpec
  import opened FollowRuns

  const MESH_RESYNC_GRACE_MS := 15000
  const MESH_MAX_SOFT_RESETS: nat := 2
  const MESH_REBOOT_GRACE_MS := 60000
  const MESH_MAX_AUTO_REBOOTS: nat := 2

  /** The function's statics, the boot-loaded counter, and the counter in NVS. */
  datatype Ladder = Ladder(stuckSince: nat, lastAction: nat, softResets: nat, gaveUpLogged: bool,
                           rebootCount: nat, nvs: nat)

  datatype Action = Idle | SoftReset | Reboot

  function BootLadder(nvs: nat): Ladder {
    Ladder(0, 0, 0, false, nvs, nvs)
  }

  function Climb(l: Ladder, q: Quality, now: nat): (Ladder, Action) {
    if q != Coarse then
      var rest := l.(stuckSince := 0, softResets := 0, gaveUpLogged := false);
      (if q == Locked && l.rebootCount != 0 then rest.(rebootCount := 0, nvs := 0) else rest, Idle)
    else
      var m := if l.stuckSince == 0 then l.(stuckSince := now, lastAction := now, softResets := 0) else l;
      if m.softResets < MESH_MAX_SOFT_RESETS then
        if now - m.lastAction >= MESH_RESYNC_GRACE_MS
        then (m.(softResets := m.softResets + 1, lastAction := now), SoftReset)
        else (m, Idle)
      else if now - m.stuckSince >= MESH_REBOOT_GRACE_MS then
        if m.rebootCount < MESH_MAX_AUTO_REBOOTS
        then (m.(nvs := m.rebootCount + 1), Reboot)
        else (m.(gaveUpLogged := true), Idle)
      else (m, Idle)
  }

  class Healer {
    var stuckSince: nat
    var lastAction: nat
    var softResets: nat
    var gaveUpLogged: bool
    var resyncRebootCount: nat
    var nvsCount: nat

    ghost function View(): Ladder
      reads this
    {
      Ladder(stuckSince, lastAction, softResets, gaveUpLogged, resyncRebootCount, nvsCount)
    }

    constructor (nvs: nat)
      ensures View() == BootLadder(nvs)
    {
      stuckSince, lastAction, softResets, gaveUpLogged := 0, 0, 0, false;
      resyncRebootCount, nvsCount := nvs, nvs;
    }

    /** One receiver tick; `a` is the mesh-clock reset or the restart the caller carries out. */
    method MeshResyncTick(q: Quality, now: nat) returns (a: Action)
      modifies this
      ensures (View(), a) == Climb(old(View()), q, now)
    {
      a := Idle;
      if q != Coarse {
        stuckSince := 0;
        softResets := 0;
        gaveUpLogged := false;
        if q == Locked && resyncRebootCount != 0 {
          resyncRebootCount := 0;
          nvsCount := 0;
        }
        return;
      }
      if stuckSince == 0 {
        stuckSince := now;
        lastAction := now;
        softResets := 0;
      }
      var stuckMs := now - stuckSince;
      if softResets < MESH_MAX_SOFT_RESETS {
        if now - lastAction >= MESH_RESYNC_GRACE_MS {
          a := SoftReset;
          softResets := softResets + 1;
          lastAction := now;
        }
        return;
      }
      if stuckMs >= MESH_REBOOT_GRACE_MS {
        if resyncRebootCount < MESH_MAX_AUTO_REBOOTS {
          nvsCount := resyncRebootCount + 1;
          a := Reboot;
        } else if !gaveUpLogged {
          gaveUpLogged := true;
        }
      }
    }
  }

  // ----- runs across reboots -----

  datatype Tick = HealTick(q: Quality, now: nat)

  /** The ladder after a run of ticks from a factory-fresh node; a reboot re-reads NVS. */
  function Exec(ticks: seq<Tick>): Ladder {
    if |ticks| == 0 then BootLadder(0) else
      var last := ticks[|ticks| - 1];
      var (l, a) := Climb(Exec(ticks[..|ticks| - 1]), last.q, last.now);
      if a == Reboot then BootLadder(l.nvs) else l
  }

  function ActionAt(ticks: seq<Tick>, i: nat): Action
    requires i < |ticks|
  {
    Climb(Exec(ticks[..i]), ticks[i].q, ticks[i].now).1
  }

  lemma ExecStep(ticks: seq<Tick>, n: nat)
    requires n < |ticks|
    ensures Exec(ticks[..n + 1]) ==
            var (l, a) := Climb(Exec(ticks[..n]), ticks[n].q, ticks[n].now);
            if a == Reboot then BootLadder(l.nvs) else l
  {
    assert ticks[..n + 1][..n] == ticks[..n];
  }

  /** Auto-reboots since the last LOCKED tick, counted over the first n ticks. */
  function RebootsSinceLock(ticks: seq<Tick>, n: nat): nat
    requires n <= |ticks|
  {
    if n == 0 || ticks[n - 1].q == Locked then 0
    else RebootsSinceLock(ticks, n - 1) + (if ActionAt(ticks, n - 1) == Reboot then 1 else 0)
  }

  /** NVS is an exact count of the reboots since the last lock, and never exceeds the cap. */
  lemma {:induction false} NvsCountsReboots(ticks: seq<Tick>, n: nat)
    requires n <= |ticks|
    ensures Exec(ticks[..n]).nvs == Exec(ticks[..n]).rebootCount == RebootsSinceLock(ticks, n) <= MESH_MAX_AUTO_REBOOTS
  {
    if n > 0 {
      NvsCountsReboots(ticks, n - 1);
      ExecStep(ticks, n - 1);
    }
  }

  // ----- when the ladder acts -----

  /** Where the COARSE episode before tick n began: unbroken, with no reboot in it; n itself if there is none. A tick at
      time 0 begins none. */
  function Since(ticks: seq<Tick>, n: nat): (s: nat)
    requires n <= |ticks|
    ensures s <= n
  {
    if n == 0 || ticks[n - 1].q != Coarse || ActionAt(ticks, n - 1) == Reboot then n
    else if Since(ticks, n - 1) == n - 1 && ticks[n - 1].now == 0 then n
    else Since(ticks, n - 1)
  }

  /** The last soft reset among the ticks s..n, or s. */
  function Mark(ticks: seq<Tick>, s: nat, n: nat): (m: nat)
    requires s <= n < |ticks|
    ensures s <= m && (m < n || m == s)
  {
    if n == s then s else if ActionAt(ticks, n - 1) == SoftReset then n - 1 else Mark(ticks, s, n - 1)
  }

  /** How many there are. */
  function Tried(ticks: seq<Tick>, s: nat, n: nat): nat
    requires s <= n <= |ticks|
  {
    if n == s then 0 else Tried(ticks, s, n - 1) + if ActionAt(ticks, n - 1) == SoftReset then 1 else 0
  }

  /** What the ladder knows of the episode it is in. */
  predicate Remembers(ticks: seq<Tick>, n: nat, l: Ladder)
    requires n < |ticks|
  {
    var s := Since(ticks, n);
    if s == n then l.stuckSince == 0 && l.softResets == 0
    else
      && l.stuckSince == ticks[s].now != 0 && l.softResets == Tried(ticks, s, n) <= MESH_MAX_SOFT_RESETS
      && l.lastAction == ticks[Mark(ticks, s, n)].now
  }

  lemma StepRemembers(ticks: seq<Tick>, n: nat, l: Ladder)
    requires n + 1 < |ticks| && l == Exec(ticks[..n]) && Remembers(ticks, n, l)
    ensures
      var (after, a) := Climb(l, ticks[n].q, ticks[n].now);
      Remembers(ticks, n + 1, if a == Reboot then BootLadder(after.nvs) else after)
  {
    assert Tried(ticks, n, n) == 0 && Mark(ticks, n, n) == n;
  }

  lemma {:induction false} RunRemembers(ticks: seq<Tick>, n: nat)
    requires n < |ticks|
    ensures Remembers(ticks, n, Exec(ticks[..n]))
  {
    if n > 0 {
      RunRemembers(ticks, n - 1);
      StepRemembers(ticks, n - 1, Exec(ticks[..n - 1]));
      ExecStep(ticks, n - 1);
    }
  }

  lemma ClimbActsIff(l: Ladder, q: Quality, now: nat)
    requires l.softResets <= 2
    ensures
      var a := Climb(l, q, now).1;
      var stuck := q == Coarse && l.stuckSince != 0;
      && (a == SoftReset <==> stuck && l.softResets < 2 && now - l.lastAction >= 15000)
      && (a == Reboot <==> stuck && l.softResets == 2 && now - l.stuckSince >= 60000 && l.rebootCount < 2)
  {
  }

  /** Exactly when the ladder acts, over any history: a soft reset 15 s into an unbroken COARSE episode and another 15 s
      after that, a reboot 60 s into it once both were tried, unless two reboots since the last lock did not help. */
  lemma LadderActsIff(ticks: seq<Tick>, n: nat)
    requires n < |ticks|
    ensures
      var s := Since(ticks, n);
      var stuck := ticks[n].q == Coarse && s < n;
      && (ActionAt(ticks, n) == SoftReset <==>
            stuck && Tried(ticks, s, n) < 2 && ticks[n].now - ticks[Mark(ticks, s, n)].now >= 15000)
      && (ActionAt(ticks, n) == Reboot <==>
            stuck && Tried(ticks, s, n) == 2 && ticks[n].now - ticks[s].now >= 60000 && RebootsSinceLock(ticks, n) < 2)
      && (s < n ==> Tried(ticks, s, n) <= 2)
  {
    RunRemembers(ticks, n);
    NvsCountsReboots(ticks, n);
    ClimbActsIff(Exec(ticks[..n]), ticks[n].q, ticks[n].now);
  }

  /** Within the episode that tick n is in, tick n - 1 was in it too, or began it. */
  lemma SinceBefore(ticks: seq<Tick>, n: nat)
    requires 0 < n <= |ticks| && Since(ticks, n) < n
    ensures ticks[n - 1].q == Coarse && Since(ticks, n) == Since(ticks, n - 1)
  {
  }

  lemma {:induction false} SinceSame(ticks: seq<Tick>, m: nat, n: nat)
    requires m <= n <= |ticks| && Since(ticks, n) <= m
    ensures Since(ticks, m) == Since(ticks, n)
    ensures forall i :: m <= i < n ==> ticks[i].q == Coarse && ActionAt(ticks, i) != Reboot
  {
    if m < n {
      SinceBefore(ticks, n);
      SinceSame(ticks, m, n - 1);
    }
  }

  lemma {:induction false} MarkCounts(ticks: seq<Tick>, s: nat, n: nat)
    requires s <= n < |ticks|
    ensures
      var m := Mark(ticks, s, n);
      if Tried(ticks, s, n) == 0 then m == s
      else m < n && ActionAt(ticks, m) == SoftReset && Tried(ticks, s, m) == Tried(ticks, s, n) - 1
  {
    if n > s {
      MarkCounts(ticks, s, n - 1);
    }
  }

  lemma {:induction false} MarkIsLast(ticks: seq<Tick>, s: nat, n: nat)
    requires s <= n < |ticks|
    ensures forall i :: Mark(ticks, s, n) < i < n ==> ActionAt(ticks, i) != SoftReset
    ensures Tried(ticks, s, n) == 0 ==> forall i :: s <= i < n ==> ActionAt(ticks, i) != SoftReset
  {
    if n > s {
      MarkIsLast(ticks, s, n - 1);
    }
  }

  /** `first` and `second` are all the soft resets among the ticks s..n, 15 s from the start and from each other. */
  predicate OnlyResets(ticks: seq<Tick>, s: nat, n: nat, first: nat, second: nat)
    requires s <= n < |ticks|
  {
    && s <= first < second < n
    && (forall i :: s <= i < n ==> (ActionAt(ticks, i) == SoftReset <==> i == first || i == second))
    && ticks[first].now - ticks[s].now >= 15000
    && ticks[second].now - ticks[first].now >= 15000
  }

  ghost predicate RebootEpisode(ticks: seq<Tick>, s: nat, n: nat)
    requires s <= n < |ticks|
  {
    && (forall i :: s <= i <= n ==> ticks[i].q == Coarse)
    && (forall i :: s <= i < n ==> ActionAt(ticks, i) != Reboot)
    && ticks[n].now - ticks[s].now >= 60000
    && exists first: nat, second: nat :: OnlyResets(ticks, s, n, first, second)
  }

  lemma ResetIsSpaced(ticks: seq<Tick>, m: nat, n: nat)
    requires n < |ticks| && Since(ticks, n) <= m < n && ActionAt(ticks, m) == SoftReset
    ensures
      var s := Since(ticks, n);
      s < m && ticks[m].now - ticks[Mark(ticks, s, m)].now >= 15000
  {
    SinceSame(ticks, m, n);
    LadderActsIff(ticks, m);
  }

  lemma TwoMarks(ticks: seq<Tick>, s: nat, n: nat, first: nat, second: nat)
    requires s <= n < |ticks| && Tried(ticks, s, n) == 2
    requires second == Mark(ticks, s, n) && first == Mark(ticks, s, second)
    ensures s <= first < second < n && Mark(ticks, s, first) == s
    ensures ActionAt(ticks, first) == SoftReset && ActionAt(ticks, second) == SoftReset
    ensures forall i :: s <= i < n && i != first && i != second ==> ActionAt(ticks, i) != SoftReset
  {
    MarkCounts(ticks, s, n);
    MarkCounts(ticks, s, second);
    MarkCounts(ticks, s, first);
    MarkIsLast(ticks, s, n);
    MarkIsLast(ticks, s, second);
    MarkIsLast(ticks, s, first);
  }

  lemma TwoTried(ticks: seq<Tick>, s: nat, n: nat)
    requires s < n < |ticks| && Since(ticks, n) == s && Tried(ticks, s, n) == 2
    ensures OnlyResets(ticks, s, n, Mark(ticks, s, Mark(ticks, s, n)), Mark(ticks, s, n))
  {
    var second := Mark(ticks, s, n);
    var first := Mark(ticks, s, second);
    TwoMarks(ticks, s, n, first, second);
    ResetIsSpaced(ticks, first, n);
    ResetIsSpaced(ticks, second, n);
  }

  /** Every reboot ends an unbroken COARSE episode of at least 60 s with exactly two soft resets in it,
      each at least 15 s after the start or the one before. */
  lemma RebootNeedsEpisode(ticks: seq<Tick>, n: nat)
    requires n < |ticks| && ActionAt(ticks, n) == Reboot
    ensures Since(ticks, n) < n && RebootEpisode(ticks, Since(ticks, n), n)
  {
    var s := Since(ticks, n);
    LadderActsIff(ticks, n);
    SinceSame(ticks, s, n);
    TwoTried(ticks, s, n);
    var second := Mark(ticks, s, n);
    assert OnlyResets(ticks, s, n, Mark(ticks, s, second), second);
  }

  /** Ticks s to n at most `period` ms apart. */
  predicate Steady(ticks: seq<Tick>, s: nat, n: nat, period: nat) {
    n < |ticks| && forall i :: s < i <= n ==> ticks[i - 1].now <= ticks[i].now <= ticks[i - 1].now + period
  }

  /** How long the ladder waits at most, in an episode begun at `start`, with the last of `tried` resets at `mark`. */
  predicate Within(tried: nat, mark: nat, start: nat, at: nat, period: nat) {
    && (tried == 0 ==> at - start < 15000 + period)
    && (tried == 1 ==> mark - start < 15000 + period && at - mark < 15000 + period)
  }

  lemma WithinNext(tried: nat, mark: nat, start: nat, before: nat, at: nat, period: nat, reset: bool)
    requires before <= at <= before + period && (tried == 0 ==> mark == start)
    requires (before == start && tried == 0) || Within(tried, mark, start, before, period)
    requires !reset ==> tried >= 2 || before - mark < 15000
    ensures Within(if reset then tried + 1 else tried, if reset then before else mark, start, at, period)
  {
  }

  /** A tick that resets nothing came less than 15 s after the last mark, or after two resets. */
  lemma Waited(ticks: seq<Tick>, n: nat)
    requires n < |ticks| && ticks[n].q == Coarse && ActionAt(ticks, n) != SoftReset
    ensures
      var s := Since(ticks, n);
      Tried(ticks, s, n) >= 2 || ticks[n].now - ticks[Mark(ticks, s, n)].now < 15000
  {
    LadderActsIff(ticks, n);
  }

  /** Within, for the episode before tick n. */
  predicate InTime(ticks: seq<Tick>, s: nat, n: nat, period: nat)
    requires s <= n < |ticks|
  {
    Within(Tried(ticks, s, n), ticks[Mark(ticks, s, n)].now, ticks[s].now, ticks[n].now, period)
  }

  lemma InTimeNext(ticks: seq<Tick>, s: nat, n: nat, period: nat)
    requires s < n < |ticks| && ticks[n - 1].now <= ticks[n].now <= ticks[n - 1].now + period
    requires s == n - 1 || InTime(ticks, s, n - 1, period)
    requires ActionAt(ticks, n - 1) != SoftReset ==>
               Tried(ticks, s, n - 1) >= 2 || ticks[n - 1].now - ticks[Mark(ticks, s, n - 1)].now < 15000
    ensures InTime(ticks, s, n, period)
  {
    MarkCounts(ticks, s, n - 1);
    WithinNext(Tried(ticks, s, n - 1), ticks[Mark(ticks, s, n - 1)].now, ticks[s].now, ticks[n - 1].now, ticks[n].now,
               period, ActionAt(ticks, n - 1) == SoftReset);
  }

  lemma {:induction false} ResetsInTime(ticks: seq<Tick>, s: nat, n: nat, period: nat)
    requires s < n && Steady(ticks, s, n, period) && Since(ticks, n) == s
    ensures InTime(ticks, s, n, period)
  {
    SinceBefore(ticks, n);
    if s < n - 1 {
      ResetsInTime(ticks, s, n - 1, period);
    }
    if ActionAt(ticks, n - 1) != SoftReset {
      Waited(ticks, n - 1);
    }
    InTimeNext(ticks, s, n, period);
  }

  /** A node that stays COARSE, ticked at least every 15 s, tries a soft reset after 15 s, and after a minute reboots,
      unless it did so twice since its last lock. */
  lemma StuckNodeReboots(ticks: seq<Tick>, s: nat, n: nat, period: nat)
    requires s < n && Steady(ticks, s, n, period) && period <= 15000
    requires Since(ticks, n) == s && ticks[n].q == Coarse
    ensures ticks[n].now - ticks[s].now >= 15000 + period ==>
              exists i :: s <= i < n && ActionAt(ticks, i) == SoftReset
    ensures ticks[n].now - ticks[s].now >= 60000 && RebootsSinceLock(ticks, n) < 2 ==> ActionAt(ticks, n) == Reboot
  {
    ResetsInTime(ticks, s, n, period);
    LadderActsIff(ticks, n);
    MarkCounts(ticks, s, n);
  }

  // ----- the ladder on a running slave -----

  /** Event k is the last packet accepted, and the master was playing in it. */
  predicate PlayingSince(f: Follow, layer: seq<byte>, events: seq<Event>, k: nat)
    requires k < |events|
  {
    && Accepted(FollowRuns.Exec(f, layer, events[..k]), layer, events[k])
    && events[k].packet.state == 1
    && forall m :: k < m < |events| ==> !Accepted(FollowRuns.Exec(f, layer, events[..m]), layer, events[m])
  }

  lemma StillPlaying(f: Follow, layer: seq<byte>, events: seq<Event>, k: nat)
    requires |events| > 0 && k < |events| - 1 && PlayingSince(f, layer, events[..|events| - 1], k)
    requires !Accepted(FollowRuns.Exec(f, layer, events[..|events| - 1]), layer, events[|events| - 1])
    ensures PlayingSince(f, layer, events, k)
  {
    var init := events[..|events| - 1];
    assert init[k] == events[k] && init[..k] == events[..k];
    forall m | k < m < |events|
      ensures !Accepted(FollowRuns.Exec(f, layer, events[..m]), layer, events[m])
    {
      if m < |init| {
        assert init[m] == events[m] && init[..m] == events[..m];
      }
    }
  }

  lemma StepPlaying(f: Follow, layer: seq<byte>, e: Event)
    requires Apply(f, layer, e).sync.currentState == 1
    ensures Accepted(f, layer, e) ==> e.packet.state == 1 && Apply(f, layer, e).sync.lastSyncTime == e.now
    ensures !Accepted(f, layer, e) ==>
              f.sync.currentState == 1 && Apply(f, layer, e).sync.lastSyncTime == f.sync.lastSyncTime
  {
  }

  lemma {:induction false} PlayingMeansHeard(stopOnLoss: bool, layer: seq<byte>, events: seq<Event>)
    requires FollowRuns.Exec(BootFollow(stopOnLoss), layer, events).sync.currentState == 1
    ensures exists k: nat :: k < |events| && PlayingSince(BootFollow(stopOnLoss), layer, events, k) &&
              events[k].now == FollowRuns.Exec(BootFollow(stopOnLoss), layer, events).sync.lastSyncTime
  {
    var f := BootFollow(stopOnLoss);
    var last := |events| - 1;
    var before := FollowRuns.Exec(f, layer, events[..last]);
    StepPlaying(before, layer, events[last]);
    if Accepted(before, layer, events[last]) {
      assert PlayingSince(f, layer, events, last);
    } else {
      PlayingMeansHeard(stopOnLoss, layer, events[..last]);
      var k: nat :| k < last && PlayingSince(f, layer, events[..last], k) &&
                    events[..last][k].now == before.sync.lastSyncTime;
      StillPlaying(f, layer, events, k);
    }
  }

  /** A soft reset or a reboot happens only while the last accepted packet is a playing one, at most 10 s
      old: an RF outage or a stopped master never triggers it, and a master node never does it at all. */
  lemma HealsOnlyWhileFollowing(stopOnLoss: bool, layer: seq<byte>, events: seq<Event>, l: Ladder, isMaster: bool,
                                clockSynced: bool, now: nat)
    requires
      var s := FollowRuns.Exec(BootFollow(stopOnLoss), layer, events).sync;
      Climb(l, SyncQuality(s, isMaster, clockSynced, now), now).1 != Idle
    ensures !isMaster
    ensures exists k: nat :: k < |events| && PlayingSince(BootFollow(stopOnLoss), layer, events, k) &&
              now - events[k].now <= LINK_LOST_TIMEOUT_MS
  {
    PlayingMeansHeard(stopOnLoss, layer, events);
  }

  // ----- what quality a slave reports -----

  /** Still on the line of the packet it accepted last, unless its link timed out. */
  predicate OnLine(s: MediaSyncState, t: MediaSyncState) {
    && t.lastSyncTime == s.lastSyncTime && t.coarse == s.coarse
    && t.currentState == s.currentState && t.linkLost == s.linkLost
  }

  predicate Before(e: Event, now: int) {
    e.Tick? ==> e.now <= now
  }

  lemma StepOnLine(f: Follow, layer: seq<byte>, e: Event, now: int)
    requires !Accepted(f, layer, e) && Before(e, now)
    ensures Apply(f, layer, e).sync.lastSyncTime == f.sync.lastSyncTime
    ensures now - f.sync.lastSyncTime <= LINK_LOST_TIMEOUT_MS ==> OnLine(f.sync, Apply(f, layer, e).sync)
  {
  }

  lemma {:induction false} StaysOnLine(f: Follow, layer: seq<byte>, events: seq<Event>, n: nat, now: int)
    requires n <= |events| && forall i :: 0 <= i < n ==>
               !Accepted(FollowRuns.Exec(f, layer, events[..i]), layer, events[i]) && Before(events[i], now)
    ensures
      var s := FollowRuns.Exec(f, layer, events[..n]).sync;
      && s.lastSyncTime == f.sync.lastSyncTime
      && (now - f.sync.lastSyncTime <= LINK_LOST_TIMEOUT_MS ==> OnLine(f.sync, s))
  {
    if n > 0 {
      StaysOnLine(f, layer, events, n - 1, now);
      assert events[..n][..n - 1] == events[..n - 1];
      StepOnLine(FollowRuns.Exec(f, layer, events[..n - 1]), layer, events[n - 1], now);
    }
  }

  /** What a slave reports at `now` after accepting a playing packet and then nothing else, whatever came in between:
      for ten seconds LOCKED or COARSE, COARSE exactly if the packet's stamp was more than 200 ms off its mesh clock or
      that clock is out of sync; from then on that it follows nobody. A master always reports LOCKED. */
  lemma QualityIs(f: Follow, layer: seq<byte>, first: Event, events: seq<Event>, isMaster: bool, clockSynced: bool,
                  now: int)
    requires Accepted(f, layer, first) && first.packet.state == 1
    requires
      var held := Apply(f, layer, first);
      forall i :: 0 <= i < |events| ==>
        !Accepted(FollowRuns.Exec(held, layer, events[..i]), layer, events[i]) && Before(events[i], now)
    ensures
      var delta := TimeDelta(first.meshNow, first.packet);
      SyncQuality(FollowRuns.Exec(Apply(f, layer, first), layer, events).sync, isMaster, clockSynced, now) ==
      if isMaster then Locked
      else if now - first.now > 10000 then NotFollowing
      else if -200 <= delta <= 200 && clockSynced then Locked
      else Coarse
  {
    var held := Apply(f, layer, first);
    StaysOnLine(held, layer, events, |events|, now);
    assert events[..|events|] == events;
  }
}
