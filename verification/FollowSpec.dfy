// The slave follow machine as functions on its state: the origin lock (src/nowde_state.cpp), one
// MediaSyncPacket (src/receiver_mode.cpp) and one receiver tick (src/main.cpp). MIDI sent to the host
// is the log `out`. Times are milliseconds since boot and do not wrap; positions and mesh timestamps
// are 32-bit registers and do.
module FollowSpec {
  import opened Bytes
  import opened RelaySpec

  const CC100_REPEAT_INTERVAL_MS := 1000
  const CC7_REPEAT_INTERVAL_MS := 1000
  const ORIGIN_LOCK_RELEASE_MS := 2000
  const MEDIASYNC_MAX_GAP := 100
  const LINK_LOST_TIMEOUT_MS := 10000
  const CLOCK_DESYNC_THRESHOLD_MS := 200
  const JUMP_FULLFRAME_THRESHOLD_MS := 1000
  const MTC_INTERVAL_MS := 1000 / 30
  const MEDIA_SYNC_VOLUME_LEN: nat := 29
  const NEVER: byte := 255

  datatype Midi =
    | CC100(value: byte) | CC7(value: byte) | Start | Stop | FullFrame(positionMs: u32) | TimeCode(positionMs: u32)

  /** A received packet; the two trailers are absent on frames of older masters. */
  datatype Packet = Packet(layer: seq<byte>, mediaIndex: byte, positionMs: u32, state: byte, meshTimestamp: u32,
                           volume: Option<byte>, seqNo: Option<word>)

  datatype Lock = Lock(mac: Mac, valid: bool, pinned: bool, lastHeard: int)

  /** The struct of the same name. */
  datatype MediaSyncState = MediaSyncState(
    currentIndex: byte,
    currentPositionMs: u32,
    currentState: byte,
    lastSyncTime: int,
    localClockStartTime: int,
    lastMTCUpdateTime: int,
    linkLost: bool,
    stopOnLinkLost: bool,
    lastSentIndex: byte,
    lastCC100SendTime: int,
    currentVolume: byte,
    lastSentVolume: byte,
    lastCC7SendTime: int,
    coarse: bool,
    lastSeq: word,
    haveSeq: bool,
    syncGaps: word)

  datatype Follow = Follow(lock: Lock, sync: MediaSyncState, out: seq<Midi>)

  function BootFollow(stopOnLinkLost: bool): Follow {
    Follow(Lock([0, 0, 0, 0, 0, 0], false, false, 0),
           MediaSyncState(0, 0, 0, 0, 0, 0, false, stopOnLinkLost, NEVER, 0, NEVER, NEVER, 0, false, 0, false, 0), [])
  }

  // ----- reading a frame -----

  /** Length-gated per generation: 27 bytes carry the position, 29 a volume, 31 a sequence number. */
  function ReadPacket(data: seq<byte>): Option<Packet> {
    if |data| < MEDIA_SYNC_MIN_LEN then None else
      Some(Packet(data[1..17], data[17], FromLe32(data[18..22]), data[22], FromLe32(data[23..27]),
                  if |data| >= MEDIA_SYNC_VOLUME_LEN && data[28] % 2 == 1 then Some(data[27]) else None,
                  if |data| >= MEDIA_SYNC_LEN then Some(FromLe16(data[29..31])) else None))
  }

  /** A C string: the bytes before the first NUL. */
  function CString(s: seq<byte>): seq<byte> {
    if |s| == 0 || s[0] == 0 then [] else [s[0]] + CString(s[1..])
  }

  const WILDCARD: seq<byte> := [0x2A]

  predicate LayerMatches(subscribed: seq<byte>, layer: seq<byte>) {
    CString(subscribed) == WILDCARD || CString(subscribed) == CString(layer)
  }

  // ----- origin lock -----

  predicate Accepts(lock: Lock, origin: Mac, now: int) {
    !lock.valid || lock.mac == origin || (!lock.pinned && now - lock.lastHeard > ORIGIN_LOCK_RELEASE_MS)
  }

  /** The lock after accepting `origin`; an unheld or switched lock also drops the seq anchor. */
  function Relock(f: Follow, origin: Mac, now: int): Follow {
    f.(lock := f.lock.(mac := origin, valid := true, lastHeard := now),
       sync := f.sync.(haveSeq := f.sync.haveSeq && f.lock.valid && f.lock.mac == origin))
  }

  function ReleaseOrigin(f: Follow): Follow {
    f.(lock := Lock([0, 0, 0, 0, 0, 0], false, false, f.lock.lastHeard), sync := f.sync.(haveSeq := false))
  }

  function PinOrigin(f: Follow, mac: Mac, now: int): Follow {
    f.(lock := Lock(mac, true, true, now), sync := f.sync.(haveSeq := false))
  }

  // ----- one packet -----

  function Gap(lastSeq: word, seqNo: word): word {
    (seqNo - lastSeq - 1) % 0x1_0000
  }

  function CountGap(s: MediaSyncState, seqNo: word): MediaSyncState {
    var gap := Gap(s.lastSeq, seqNo);
    var total := s.syncGaps + gap;
    s.(syncGaps := if s.haveSeq && 0 < gap <= MEDIASYNC_MAX_GAP then (if total > 0xFFFF then 0xFFFF else total)
                   else s.syncGaps,
       lastSeq := seqNo, haveSeq := true)
  }

  /** How far the slave's mesh clock is past the master's stamp, as a signed 32-bit difference. */
  function TimeDelta(meshNow: u32, p: Packet): int {
    Int32(U32(meshNow - p.meshTimestamp))
  }

  predicate Trustworthy(delta: int) {
    -CLOCK_DESYNC_THRESHOLD_MS <= delta <= CLOCK_DESYNC_THRESHOLD_MS
  }

  function Compensated(p: Packet, delta: int): u32 {
    if Trustworthy(delta) && p.state == 1 && delta > 0 then U32(p.positionMs + delta) else p.positionMs
  }

  /** Where the playback line of the slave stands at `now`. */
  function Expected(s: MediaSyncState, now: int): u32 {
    U32(s.currentPositionMs + (now - s.localClockStartTime))
  }

  predicate Jumped(s: MediaSyncState, p: Packet, position: u32, now: int) {
    s.currentState == 1 && p.state == 1 &&
    (var diff := Int32(U32(position - Expected(s, now)));
     diff > JUMP_FULLFRAME_THRESHOLD_MS || diff < -JUMP_FULLFRAME_THRESHOLD_MS)
  }

  function Emit(f: Follow, m: Midi): Follow {
    f.(out := f.out + [m])
  }

  function Anchor(s: MediaSyncState, p: Packet, position: u32, now: int): MediaSyncState {
    s.(currentIndex := p.mediaIndex, currentPositionMs := position, currentState := p.state, lastSyncTime := now,
       linkLost := false, localClockStartTime := if p.state == 1 then now else s.localClockStartTime)
  }

  function SendIndex(f: Follow, p: Packet, now: int): (r: Follow)
    ensures r.lock == f.lock
    ensures r.sync == f.sync.(lastSentIndex := r.sync.lastSentIndex, lastCC100SendTime := r.sync.lastCC100SendTime)
  {
    if f.sync.lastSentIndex != p.mediaIndex && p.mediaIndex != 0
    then Emit(f, CC100(p.mediaIndex)).(sync := f.sync.(lastSentIndex := p.mediaIndex, lastCC100SendTime := now))
    else f
  }

  function SendJump(f: Follow, jumped: bool, position: u32): Follow {
    if jumped then Emit(f, FullFrame(position)) else f
  }

  function SendVolume(f: Follow, p: Packet, now: int): (r: Follow)
    ensures r.lock == f.lock
    ensures r.sync == f.sync.(currentVolume := r.sync.currentVolume, lastSentVolume := r.sync.lastSentVolume,
                              lastCC7SendTime := r.sync.lastCC7SendTime)
  {
    if p.volume.None? then f else
      var v: byte := if p.volume.value > 100 then 100 else p.volume.value;
      var s := f.sync.(currentVolume := v);
      if v != s.lastSentVolume then Emit(f, CC7(v)).(sync := s.(lastSentVolume := v, lastCC7SendTime := now))
      else if now - s.lastCC7SendTime >= CC7_REPEAT_INTERVAL_MS
      then Emit(f, CC7(v)).(sync := s.(lastCC7SendTime := now))
      else f.(sync := s)
  }

  function SendTransport(f: Follow, starts: bool, stops: bool, position: u32, now: int): (r: Follow)
    ensures r.lock == f.lock
    ensures r.sync == f.sync.(lastSentIndex := r.sync.lastSentIndex, lastCC100SendTime := r.sync.lastCC100SendTime)
  {
    if starts then Emit(Emit(f, FullFrame(position)), Start)
    else if stops then Emit(Emit(f, CC100(0)), Stop).(sync := f.sync.(lastSentIndex := 0, lastCC100SendTime := now))
    else if f.sync.currentState == 1 && f.sync.currentIndex > 0 &&
            now - f.sync.lastCC100SendTime >= CC100_REPEAT_INTERVAL_MS
    then Emit(f, CC100(f.sync.currentIndex)).(sync := f.sync.(lastCC100SendTime := now))
    else f
  }

  predicate Starts(s: MediaSyncState, p: Packet) {
    s.currentState == 0 && p.state == 1
  }

  /** Playing to stopped, or the first contact with a stopped master. */
  predicate Stops(s: MediaSyncState, p: Packet) {
    (s.currentState == 1 && p.state == 0) || (s.lastSentIndex == NEVER && p.state == 0 && p.mediaIndex == 0)
  }

  /** An accepted packet after the lock and the gap counter were updated: the new anchor, and the MIDI. */
  function FollowPacket(f: Follow, p: Packet, meshNow: u32, now: int): (r: Follow)
    ensures r.lock == f.lock
    ensures r.sync == Anchor(f.sync.(coarse := !Trustworthy(TimeDelta(meshNow, p))), p,
                             Compensated(p, TimeDelta(meshNow, p)), now)
                      .(lastSentIndex := r.sync.lastSentIndex, lastCC100SendTime := r.sync.lastCC100SendTime,
                        currentVolume := r.sync.currentVolume, lastSentVolume := r.sync.lastSentVolume,
                        lastCC7SendTime := r.sync.lastCC7SendTime)
  {
    var delta := TimeDelta(meshNow, p);
    var position := Compensated(p, delta);
    var anchored := f.(sync := Anchor(f.sync.(coarse := !Trustworthy(delta)), p, position, now));
    var told := SendJump(SendIndex(anchored, p, now), Jumped(f.sync, p, position, now), position);
    SendTransport(SendVolume(told, p, now), Starts(f.sync, p), Stops(f.sync, p), position, now)
  }

  function CountPacket(f: Follow, p: Packet): Follow {
    if p.seqNo.Some? then f.(sync := CountGap(f.sync, p.seqNo.value)) else f
  }

  function OnPacket(f: Follow, subscribed: seq<byte>, origin: Mac, p: Packet, meshNow: u32, now: int): Follow {
    if !LayerMatches(subscribed, p.layer) || !Accepts(f.lock, origin, now) then f
    else FollowPacket(CountPacket(Relock(f, origin, now), p), p, meshNow, now)
  }

  function OnData(f: Follow, subscribed: seq<byte>, origin: Mac, data: seq<byte>, meshNow: u32, now: int): Follow {
    var p := ReadPacket(data);
    if p.None? then f else OnPacket(f, subscribed, origin, p.value, meshNow, now)
  }

  // ----- one tick -----

  function LinkTick(f: Follow, now: int): Follow {
    if f.sync.currentState == 1 && !f.sync.linkLost && now - f.sync.lastSyncTime > LINK_LOST_TIMEOUT_MS then
      if f.sync.stopOnLinkLost
      then Emit(Emit(f, CC100(0)), Stop).(sync := f.sync.(linkLost := true, currentState := 0, lastSentIndex := 0))
      else f.(sync := f.sync.(linkLost := true))
    else f
  }

  function ClockTick(f: Follow, now: int): Follow {
    if f.sync.currentState == 1 && now - f.sync.lastMTCUpdateTime >= MTC_INTERVAL_MS
    then Emit(f, TimeCode(Expected(f.sync, now))).(sync := f.sync.(lastMTCUpdateTime := now))
    else f
  }

  function OnTick(f: Follow, now: int): Follow {
    ClockTick(LinkTick(f, now), now)
  }

  // ----- sync quality -----

  datatype Quality = NotFollowing | Coarse | Locked

  function SyncQuality(s: MediaSyncState, isMaster: bool, clockSynced: bool, now: int): Quality {
    if isMaster then Locked
    else if s.currentState != 1 || s.linkLost || now - s.lastSyncTime > LINK_LOST_TIMEOUT_MS then NotFollowing
    else if s.coarse || !clockSynced then Coarse
    else Locked
  }
}
