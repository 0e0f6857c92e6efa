// lib/ESPNowMeshClock: the forward-only mesh clock of one node, and its 10-byte beacon.
module MeshClock {
  import opened Bytes
  import opened RelaySpec

  const LARGE_STEP_US: nat := 10000
  const SYNC_TIMEOUT_MS: nat := 5000

  /** What the library is built with: its own header's default, as nowde_config.h is not in its include path. */
  const TRANSMISSION_DELAY_US: nat := 1000

  const MAGIC: seq<byte> := [0x4D, 0x43, 0x4B]
  const STAMP_BYTES: nat := 7
  const BEACON_LEN: nat := 10

  datatype Clock = Clock(offset: nat, synced: bool, lastSync: nat)

  datatype SyncState = Alone | Synced | Lost

  function Unsynced(): Clock {
    Clock(0, false, 0)
  }

  /** A beacon saying `remote`, heard while the hardware clock reads `raw`. */
  function Adjust(c: Clock, raw: nat, remote: nat, nowMs: nat): Clock {
    var delta := remote - (raw + c.offset);
    if !c.synced || delta > LARGE_STEP_US || -delta > LARGE_STEP_US then
      Clock(if delta > 0 then c.offset + delta else c.offset, true, nowMs)
    else
      Clock(if delta > 0 then c.offset + delta / 4 else c.offset, true, nowMs)
  }

  function StateAt(c: Clock, nowMs: nat): SyncState {
    if !c.synced then Alone else if nowMs - c.lastSync > SYNC_TIMEOUT_MS then Lost else Synced
  }

  // ----- the beacon on the air -----

  /** x << 8n. */
  function ShiftLeft(x: nat, n: nat): nat
    decreases n
  {
    if n == 0 then x else ShiftLeft(256 * x, n - 1)
  }

  /** x >> 8n. */
  function ShiftRight(x: nat, n: nat): nat {
    if n == 0 then x else ShiftRight(x, n - 1) / 256
  }

  /** The low n bytes of x, least significant first. */
  function StampBytes(x: nat, n: nat): (b: seq<byte>)
    ensures |b| == n
  {
    if n == 0 then [] else StampBytes(x, n - 1) + [ShiftRight(x, n - 1) % 256]
  }

  function FromStampBytes(b: seq<byte>): nat {
    if |b| == 0 then 0
    else FromStampBytes(b[..|b| - 1]) + ShiftLeft(b[|b| - 1], |b| - 1)
  }

  function Beacon(stamp: nat): (packet: seq<byte>)
    ensures |packet| == BEACON_LEN
  {
    MAGIC + StampBytes(stamp, STAMP_BYTES)
  }

  function ReadBeacon(data: seq<byte>): Option<nat> {
    if |data| == BEACON_LEN && data[..3] == MAGIC then Some(FromStampBytes(data[3..])) else None
  }

  function Receive(c: Clock, data: seq<byte>, raw: nat, nowMs: nat): Clock {
    match ReadBeacon(data)
    case Some(remote) => Adjust(c, raw, remote, nowMs)
    case None => c
  }

  lemma {:induction false} ShiftLeftAdds(a: nat, b: nat, n: nat)
    ensures ShiftLeft(a + b, n) == ShiftLeft(a, n) + ShiftLeft(b, n)
    decreases n
  {
    if n > 0 {
      ShiftLeftAdds(256 * a, 256 * b, n - 1);
    }
  }

  /** One more byte taken from what is left. */
  lemma CarryByte(low: nat, s: nat, n: nat)
    requires low < ShiftLeft(1, n)
    ensures low + ShiftLeft(s, n) == low + ShiftLeft(s % 256, n) + ShiftLeft(s / 256, n + 1)
    ensures low + ShiftLeft(s % 256, n) < ShiftLeft(1, n + 1)
  {
    var q, d := s / 256, s % 256;
    assert s == 256 * q + d;
    ShiftLeftAdds(256 * q, d, n);
    ShiftLeftAdds(d, 255 - d, n);
    ShiftLeftAdds(255, 1, n);
  }

  lemma NextByte(x: nat, n: nat)
    ensures FromStampBytes(StampBytes(x, n + 1)) ==
            FromStampBytes(StampBytes(x, n)) + ShiftLeft(ShiftRight(x, n) % 256, n)
    ensures ShiftRight(x, n + 1) == ShiftRight(x, n) / 256
  {
    var b := StampBytes(x, n + 1);
    assert b[..n] == StampBytes(x, n) && b[n] == ShiftRight(x, n) % 256;
  }

  /** A value splits into the bytes taken from it and the rest, shifted back. */
  lemma {:induction false} StampRoundTrip(x: nat, n: nat)
    ensures x == FromStampBytes(StampBytes(x, n)) + ShiftLeft(ShiftRight(x, n), n)
    ensures FromStampBytes(StampBytes(x, n)) < ShiftLeft(1, n)
  {
    if n > 0 {
      StampRoundTrip(x, n - 1);
      CarryByte(FromStampBytes(StampBytes(x, n - 1)), ShiftRight(x, n - 1), n - 1);
      NextByte(x, n - 1);
    }
  }

  lemma SevenBytes(x: nat)
    ensures ShiftLeft(x, 7) == x * 0x100_0000_0000_0000
  {
    assert ShiftLeft(x, 7) == ShiftLeft(256 * x, 6) == ShiftLeft(256 * (256 * x), 5);
    var y := 256 * (256 * (256 * x));
    assert ShiftLeft(256 * (256 * x), 5) == ShiftLeft(y, 4) == ShiftLeft(256 * y, 3);
    var z := 256 * (256 * y);
    assert ShiftLeft(256 * y, 3) == ShiftLeft(z, 2) == ShiftLeft(256 * z, 1) == 256 * (256 * z);
  }

  lemma LowBits(x: nat, low: nat, high: nat)
    requires x == low + high * 0x100_0000_0000_0000 && low < 0x100_0000_0000_0000
    ensures x % 0x100_0000_0000_0000 == low
  {
  }

  /** Whatever the 64-bit stamp, the beacon carries it modulo 2^56. */
  lemma BeaconRoundTrip(stamp: nat)
    ensures ReadBeacon(Beacon(stamp)) == Some(stamp % 0x100_0000_0000_0000)
  {
    StampRoundTrip(stamp, STAMP_BYTES);
    SevenBytes(ShiftRight(stamp, 7));
    SevenBytes(1);
    LowBits(stamp, FromStampBytes(StampBytes(stamp, STAMP_BYTES)), ShiftRight(stamp, STAMP_BYTES));
    assert Beacon(stamp)[..3] == MAGIC;
    assert Beacon(stamp)[3..] == StampBytes(stamp, STAMP_BYTES);
  }

  /** The beacon, byte by byte: the magic, then the stamp, least significant byte first. */
  lemma BeaconLayout(stamp: nat)
    ensures
      var b := Beacon(stamp);
      && b[..3] == [0x4D, 0x43, 0x4B]
      && b[3] == stamp % 256 && b[4] == stamp / 256 % 256 && b[5] == stamp / 256 / 256 % 256
      && b[6] == stamp / 256 / 256 / 256 % 256 && b[7] == stamp / 256 / 256 / 256 / 256 % 256
      && b[8] == stamp / 256 / 256 / 256 / 256 / 256 % 256
      && b[9] == stamp / 256 / 256 / 256 / 256 / 256 / 256 % 256
  {
    assert StampBytes(stamp, 2) == [stamp % 256, stamp / 256 % 256];
    assert StampBytes(stamp, 4) == StampBytes(stamp, 2) + [ShiftRight(stamp, 2) % 256, ShiftRight(stamp, 3) % 256];
    assert StampBytes(stamp, 6) == StampBytes(stamp, 4) + [ShiftRight(stamp, 4) % 256, ShiftRight(stamp, 5) % 256];
  }

  /** Any beacon at all, behind, ahead or far off, makes the node synced for exactly the next 5 s; no other frame
      does. */
  lemma BeaconKeepsSynced(c: Clock, data: seq<byte>, raw: nat, heardMs: nat, nowMs: nat)
    requires heardMs <= nowMs
    ensures ReadBeacon(data).Some? ==>
              (StateAt(Receive(c, data, raw, heardMs), nowMs) == Synced <==> nowMs - heardMs <= 5000)
    ensures ReadBeacon(data).None? ==> Receive(c, data, raw, heardMs) == c
  {
  }

  // ----- the node -----

  class MeshClockNode {
    var offset: nat
    var synced: bool
    var lastSync: nat

    ghost function View(): Clock
      reads this
    {
      Clock(offset, synced, lastSync)
    }

    constructor ()
      ensures View() == Unsynced()
    {
      offset, synced, lastSync := 0, false, 0;
    }

    method Reset()
      modifies this
      ensures View() == Unsynced()
    {
      synced := false;
      offset := 0;
      lastSync := 0;
    }

    method GetSyncState(nowMs: nat) returns (s: SyncState)
      ensures s == StateAt(View(), nowMs)
    {
      if !synced {
        return Alone;
      }
      if nowMs - lastSync > SYNC_TIMEOUT_MS {
        return Lost;
      }
      return Synced;
    }

    method AdjustTo(remoteMicros: nat, raw: nat, nowMs: nat)
      modifies this
      ensures View() == Adjust(old(View()), raw, remoteMicros, nowMs)
    {
      var localMicros := raw + offset;
      var delta: int := remoteMicros - localMicros;
      lastSync := nowMs;
      if !synced || (if delta < 0 then 0 - delta else delta) > LARGE_STEP_US {
        if delta > 0 {
          offset := offset + delta;
          synced := true;
        } else {
          synced := true;
        }
        return;
      }
      if delta > 0 {
        var step := delta / 4;
        offset := offset + step;
      }
    }

    method HandleReceive(data: array<byte>, raw: nat, nowMs: nat) returns (handled: bool)
      modifies this
      ensures View() == Receive(old(View()), data[..], raw, nowMs)
      ensures handled == ReadBeacon(data[..]).Some?
    {
      if data.Length != BEACON_LEN {
        return false;
      }
      if data[0] != 0x4D || data[1] != 0x43 || data[2] != 0x4B {
        return false;
      }
      var remoteMicros: nat := 0;
      for i := 0 to STAMP_BYTES
        invariant remoteMicros == FromStampBytes(data[3..3 + i])
        invariant View() == old(View())
      {
        assert data[3..3 + i + 1][..i] == data[3..3 + i];
        remoteMicros := remoteMicros + ShiftLeft(data[3 + i], i);
      }
      assert data[..][3..] == data[3..3 + STAMP_BYTES];
      AdjustTo(remoteMicros, raw, nowMs);
      return true;
    }

    /** The packet handed to the radio while the hardware clock reads `raw`. */
    method Broadcast(raw: nat) returns (packet: array<byte>)
      ensures fresh(packet) && packet[..] == Beacon(raw + offset + TRANSMISSION_DELAY_US)
    {
      var stamp := raw + offset + TRANSMISSION_DELAY_US;
      packet := new byte[BEACON_LEN];
      packet[0], packet[1], packet[2] := 0x4D, 0x43, 0x4B;
      for i := 0 to STAMP_BYTES
        invariant packet[..3 + i] == MAGIC + StampBytes(stamp, i)
      {
        packet[3 + i] := ShiftRight(stamp, i) % 256;
        assert packet[..3 + i + 1] == packet[..3 + i] + [packet[3 + i]];
      }
      assert packet[..] == packet[..3 + STAMP_BYTES];
    }
  }

  // ----- one node against one reference -----

  /** How far behind a reference a node is. Both lines run at the same rate, so only Adjust changes it. */
  function Gap(c: Clock, base: nat, reference: nat): int {
    reference - (base + c.offset)
  }

  /** The node after one beacon of the reference at each of the given times. */
  function Chase(c: Clock, base: nat, reference: nat, times: seq<nat>): Clock {
    if |times| == 0 then c
    else
      var t := times[|times| - 1];
      Adjust(Chase(c, base, reference, times[..|times| - 1]), base + t, reference + t, t / 1000)
  }

  function Pow(b: nat, n: nat): nat {
    if n == 0 then 1 else b * Pow(b, n - 1)
  }

  lemma AdjustGap(c: Clock, base: nat, reference: nat, t: nat)
    requires Gap(c, base, reference) >= 0
    ensures
      var g, h := Gap(c, base, reference), Gap(Adjust(c, base + t, reference + t, t / 1000), base, reference);
      && 0 <= h <= g
      && h == if !c.synced || g > LARGE_STEP_US then 0 else g - g / 4
  {
  }

  lemma ScaleStep(a: nat, b: nat, g0: int, g: int, h: int)
    requires a * (g - 3) <= b * (g0 - 3) && 4 * (h - 3) <= 3 * (g - 3)
    ensures 4 * a * (h - 3) <= 3 * b * (g0 - 3)
  {
    assert a * (4 * (h - 3)) <= a * (3 * (g - 3));
    assert 4 * a * (h - 3) == a * (4 * (h - 3));
    assert 3 * (a * (g - 3)) == a * (3 * (g - 3));
    assert 3 * (b * (g0 - 3)) == 3 * b * (g0 - 3);
  }

  /** Hearing a reference again and again: the gap shrinks by a quarter each time down to the last 3 us,
      and the node never runs past the reference. */
  lemma {:induction false} Contraction(c: Clock, base: nat, reference: nat, times: seq<nat>)
    requires Gap(c, base, reference) >= 3
    ensures
      var n, g0, gn := |times|, Gap(c, base, reference), Gap(Chase(c, base, reference, times), base, reference);
      0 <= gn <= g0 && Pow(4, n) * (gn - 3) <= Pow(3, n) * (g0 - 3)
  {
    var n := |times|;
    if n > 0 {
      Contraction(c, base, reference, times[..n - 1]);
      var before := Chase(c, base, reference, times[..n - 1]);
      var g, h := Gap(before, base, reference), Gap(Chase(c, base, reference, times), base, reference);
      AdjustGap(before, base, reference, times[n - 1]);
      ScaleStep(Pow(4, n - 1), Pow(3, n - 1), Gap(c, base, reference), g, h);
    }
  }

  function Slewed(g: nat): nat {
    g - g / 4
  }

  /** A gap of g after n slews. */
  function Shrink(g: nat, n: nat): nat {
    if n == 0 then g else Shrink(Slewed(g), n - 1)
  }

  lemma {:induction false} ChaseShrinks(c: Clock, base: nat, reference: nat, times: seq<nat>)
    requires Gap(c, base, reference) >= 0
    ensures 0 <= Gap(Chase(c, base, reference, times), base, reference) <= Gap(c, base, reference)
    ensures |times| > 0 ==> Chase(c, base, reference, times).synced
    ensures Gap(Chase(c, base, reference, times), base, reference) <= Shrink(LARGE_STEP_US, |times|) ||
            (times == [] && Gap(c, base, reference) > LARGE_STEP_US)
  {
    var n := |times|;
    if n > 0 {
      var init := times[..n - 1];
      ChaseShrinks(c, base, reference, init);
      AdjustGap(Chase(c, base, reference, init), base, reference, times[n - 1]);
      ShrinkAdd(LARGE_STEP_US, n - 1, 1);
    }
  }

  lemma {:induction false} ShrinkTail(g: nat, n: nat, m: nat)
    requires n <= m
    ensures Shrink(g, m) <= Shrink(g, n)
  {
    if n < m {
      ShrinkTail(g, n, m - 1);
      ShrinkAdd(g, m - 1, 1);
    }
  }

  lemma {:induction false} ShrinkAdd(g: nat, n: nat, m: nat)
    ensures Shrink(g, n + m) == Shrink(Shrink(g, n), m)
  {
    if n > 0 {
      ShrinkAdd(Slewed(g), n - 1, m);
    }
  }

  lemma OneSlew(n: nat, a: nat, b: nat)
    requires Shrink(LARGE_STEP_US, n) == a && b == a - a / 4
    ensures Shrink(LARGE_STEP_US, n + 1) == b
  {
    ShrinkAdd(LARGE_STEP_US, n, 1);
  }

  lemma FiveSlews(n: nat, a: nat, b: nat, c: nat, d: nat, e: nat, f: nat)
    requires Shrink(LARGE_STEP_US, n) == a
    requires b == a - a / 4 && c == b - b / 4 && d == c - c / 4 && e == d - d / 4 && f == e - e / 4
    ensures Shrink(LARGE_STEP_US, n + 5) == f
  {
    OneSlew(n, a, b);
    OneSlew(n + 1, b, c);
    OneSlew(n + 2, c, d);
    OneSlew(n + 3, d, e);
    OneSlew(n + 4, e, f);
  }

  lemma ThirtySlews()
    ensures Shrink(LARGE_STEP_US, 30) == 3
  {
    FiveSlews(0, 10000, 7500, 5625, 4219, 3165, 2374);
    FiveSlews(5, 2374, 1781, 1336, 1002, 752, 564);
    FiveSlews(10, 564, 423, 318, 239, 180, 135);
    FiveSlews(15, 135, 102, 77, 58, 44, 33);
    FiveSlews(20, 33, 25, 19, 15, 12, 9);
    FiveSlews(25, 9, 7, 6, 5, 4, 3);
  }

  /** Any node, however far behind, is within 3 us of the reference after 30 beacons. */
  lemma LocksWithin30(c: Clock, base: nat, reference: nat, times: seq<nat>)
    requires Gap(c, base, reference) >= 0 && |times| >= 30
    ensures 0 <= Gap(Chase(c, base, reference, times), base, reference) <= 3
  {
    ChaseShrinks(c, base, reference, times);
    ShrinkTail(LARGE_STEP_US, 30, |times|);
    ThirtySlews();
  }

  /** A beacon from ahead leaves the clock where it was exactly when the node is synced and the gap at most 3 us. */
  lemma StuckIff(c: Clock, raw: nat, remote: nat, nowMs: nat)
    requires remote > raw + c.offset
    ensures Adjust(c, raw, remote, nowMs).offset == c.offset <==> c.synced && remote - (raw + c.offset) <= 3
  {
  }

  /** After a reset, or at boot, the first beacon sets the mesh clock to the later of the two. */
  lemma FirstBeaconAdopts(raw: nat, remote: nat, nowMs: nat)
    ensures
      var c := Adjust(Unsynced(), raw, remote, nowMs);
      c.synced && raw + c.offset == if raw > remote then raw else remote
  {
  }
}
