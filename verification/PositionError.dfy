// How far the position a slave shows its host can be from the master's, and why hearing the same
// packet twice, directly or relayed, does not move it.
module PositionError {
  import opened Bytes
  import opened RelaySpec
  import opened FollowSpec

  function Abs(x: int): nat {
    if x < 0 then -x else x
  }

  /** Error of the playback line after a packet of true age `a` at a slave whose mesh clock is off by `e`. */
  function LineError(a: nat, e: int): (err: int)
    ensures Abs(a + e) <= 200 ==> Abs(err) <= Abs(e)
    ensures Abs(a + e) > 200 ==> err == 0 - a
  {
    if Abs(a + e) <= 200 && a + e > 0 then e else 0 - a
  }

  lemma DeltaIs(p: Packet, d: int)
    requires -0x8000_0000 <= d < 0x8000_0000
    ensures TimeDelta(U32(p.meshTimestamp + d), p) == d
  {
    U32Shift(p.meshTimestamp + d, 0 - p.meshTimestamp);
  }

  lemma U32Shift(x: int, y: int)
    ensures U32(U32(x) + y) == U32(x + y)
  {
  }

  lemma DeltaBack(p: Packet, meshNow: u32)
    ensures U32(p.meshTimestamp + TimeDelta(meshNow, p)) == meshNow
  {
  }

  /** The master was at `p.positionMs` at time now - a and plays at unit rate, so at `t` it is at
      p.positionMs + (t - now) + a. The slave's line is off by exactly LineError(a, e), for any 32-bit clock reading. */
  lemma LineIs(f: Follow, p: Packet, a: nat, e: int, now: int, t: int)
    requires p.state == 1 && -0x8000_0000 <= a + e < 0x8000_0000
    ensures
      var g := FollowPacket(f, p, U32(p.meshTimestamp + a + e), now).sync;
      && Expected(g, t) == U32(p.positionMs + (t - now) + a + LineError(a, e))
      && g.coarse == (Abs(a + e) > 200)
  {
    DeltaIs(p, a + e);
    U32Shift(p.positionMs + a + e, t - now);
  }

  /** And so is any timecode emitted from it: at most the clock error |e| while the clock is trusted, exactly -a when
      coarse. */
  lemma PositionErrorIsClockError(f: Follow, p: Packet, a: nat, e: int, now: int, t: int)
    requires p.state == 1 && -0x8000_0000 <= a + e < 0x8000_0000 && now <= t <= now + LINK_LOST_TIMEOUT_MS
    ensures
      var g := FollowPacket(f, p, U32(p.meshTimestamp + a + e), now);
      var shown := U32(p.positionMs + (t - now) + a + LineError(a, e));
      && Expected(g.sync, t) == shown
      && g.sync.coarse == (Abs(a + e) > 200)
      && (OnTick(g, t).out == g.out || OnTick(g, t).out == g.out + [TimeCode(shown)])
  {
    LineIs(f, p, a, e, now, t);
  }

  /** Nothing but a packet or a stop moves the line. */
  lemma TickKeepsLine(f: Follow, now: int)
    requires OnTick(f, now).sync.currentState == 1
    ensures
      var s := OnTick(f, now).sync;
      s.currentPositionMs == f.sync.currentPositionMs && s.localClockStartTime == f.sync.localClockStartTime
  {
  }

  /** What a delta adds to the position of a playing packet. */
  function Compensation(delta: int): nat {
    if 0 < delta <= 200 then delta else 0
  }

  /** How far the line moves when a packet heard with delta d is heard again `later` ms on. */
  function Shift(d: int, later: nat): (shift: int)
    ensures 0 <= d <= 200 && d + later <= 200 ==> shift == 0
    ensures 0 <= d <= 200 < d + later ==> shift == 0 - (d + later)
    ensures d > 200 ==> shift == 0 - later
    ensures d < 0 ==> shift == if 0 < d + later <= 200 then d else 0 - later
  {
    Compensation(d + later) - Compensation(d) - later
  }

  lemma U32Negate(x: int, y: int)
    ensures U32(x - U32(y)) == U32(x - y)
  {
  }

  lemma ShiftOfZero(x: int, shift: int)
    requires -0x1_0000_0000 < shift < 0x1_0000_0000
    ensures U32(x + shift) == U32(x) <==> shift == 0
  {
  }

  lemma SignedShift(shift: int)
    requires -0x8000_0000 <= shift < 0x8000_0000
    ensures Int32(U32(shift)) == shift
  {
  }

  lemma CompensatedIs(p: Packet, delta: int)
    requires p.state == 1
    ensures Compensated(p, delta) == U32(p.positionMs + Compensation(delta))
  {
  }

  lemma U32Minus(x: int, y: int)
    ensures U32(U32(x) - U32(y)) == U32(x - y)
  {
    U32Negate(U32(x), y);
    U32Shift(x, 0 - y);
  }

  /** A slave plays the line of packet `p`, heard with a mesh delta of `d` ms, of any sign and size. The same packet
      heard again `later` ms on, with an unmoved mesh offset, shifts the line by Shift(d, later). So it leaves the line
      exactly where it was iff both hearings are within the trusted 200 ms, or at the same time; and it is reported as
      a jump iff it shifts by more than 1000 ms. */
  lemma DuplicateKeepsLine(f: Follow, p: Packet, d: int, now: int, later: nat)
    requires p.state == 1 && -0x8000_0000 <= d && d + later < 0x8000_0000 && later < 0x8000_0000
    requires f.sync.currentState == 1 && f.sync.localClockStartTime == now
    requires f.sync.currentPositionMs == Compensated(p, d)
    ensures
      var again := FollowPacket(f, p, U32(p.meshTimestamp + d + later), now + later);
      && (forall t :: Expected(again.sync, t) == U32(Expected(f.sync, t) + Shift(d, later)))
      && ((forall t :: Expected(again.sync, t) == Expected(f.sync, t)) <==> (0 <= d && d + later <= 200) || later == 0)
      && (Jumped(f.sync, p, again.sync.currentPositionMs, now + later) <==> Abs(Shift(d, later)) > 1000)
  {
    var again := FollowPacket(f, p, U32(p.meshTimestamp + d + later), now + later).sync;
    DeltaIs(p, d + later);
    CompensatedIs(p, d);
    CompensatedIs(p, d + later);
    LineStays(p.positionMs, f.sync, again, d, now, later);
    JumpIsShift(p.positionMs, f.sync, again, d, now, later);
  }

  lemma LineMoves(position: u32, s: MediaSyncState, again: MediaSyncState, d: int, now: int, later: nat, t: int)
    requires s.localClockStartTime == now && s.currentPositionMs == U32(position + Compensation(d))
    requires again.localClockStartTime == now + later
    requires again.currentPositionMs == U32(position + Compensation(d + later))
    ensures Expected(again, t) == U32(Expected(s, t) + Shift(d, later))
  {
    U32Shift(position + Compensation(d), t - now);
    U32Shift(position + Compensation(d) + (t - now), Shift(d, later));
    U32Shift(position + Compensation(d + later), t - (now + later));
  }

  lemma LineStays(position: u32, s: MediaSyncState, again: MediaSyncState, d: int, now: int, later: nat)
    requires s.localClockStartTime == now && s.currentPositionMs == U32(position + Compensation(d))
    requires again.localClockStartTime == now + later
    requires again.currentPositionMs == U32(position + Compensation(d + later))
    requires -0x8000_0000 <= d && later < 0x8000_0000
    ensures forall t :: Expected(again, t) == U32(Expected(s, t) + Shift(d, later))
    ensures (forall t :: Expected(again, t) == Expected(s, t)) <==> (0 <= d && d + later <= 200) || later == 0
  {
    forall t ensures Expected(again, t) == U32(Expected(s, t) + Shift(d, later)) {
      LineMoves(position, s, again, d, now, later, t);
    }
    ShiftOfZero(Expected(s, now), Shift(d, later));
    assert Expected(again, now) == U32(Expected(s, now) + Shift(d, later));
  }

  lemma JumpIsShift(position: u32, s: MediaSyncState, again: MediaSyncState, d: int, now: int, later: nat)
    requires s.localClockStartTime == now && s.currentPositionMs == U32(position + Compensation(d))
    requires again.currentPositionMs == U32(position + Compensation(d + later))
    requires -0x8000_0000 <= Shift(d, later) < 0x8000_0000
    ensures Int32(U32(again.currentPositionMs - Expected(s, now + later))) == Shift(d, later)
  {
    var here, there := position + Compensation(d) + later, position + Compensation(d + later);
    U32Shift(position + Compensation(d), later);
    assert Expected(s, now + later) == U32(here);
    U32Minus(there, here);
    assert there - here == Shift(d, later);
    SignedShift(Shift(d, later));
  }
}
