// The flooding decision of one node as functions on its two tables (src/mesh_relay.cpp), and the
// two frames that carry a MediaSyncPacket over the air.
module RelaySpec {
  import opened Bytes

  const MAX_HOPS: byte := 3
  const MESH_RELAY_DELAY_MIN_MS: nat := 5
  const MESH_RELAY_DELAY_MAX_MS: nat := 30
  const MAX_RELAY_ORIGINS: nat := 10
  const MAX_PENDING_RELAYS: nat := 8
  const ESPNOW_MSG_MEDIA_SYNC: byte := 0x03
  const ESPNOW_MSG_MESH_RELAY: byte := 0x05
  const MEDIA_SYNC_MIN_LEN: nat := 27
  const MEDIA_SYNC_LEN: nat := 31
  const RELAY_HEADER_LEN: nat := 10

  /** One dedup slot: the LAST sequence number handled for `mac`. */
  datatype OriginEntry = OriginEntry(mac: Mac, lastSeq: word, valid: bool)

  /** One forward waiting out its random delay. `payload` is the live part of the buffer. */
  datatype Pending = Pending(active: bool, sendTime: nat, origin: Mac, seqNo: word, hop: byte, payload: seq<byte>)

  datatype Tables = Tables(origins: seq<OriginEntry>, pending: seq<Pending>) {
    predicate Wf() {
      && |origins| == MAX_RELAY_ORIGINS
      && |pending| == MAX_PENDING_RELAYS
      && forall k :: 0 <= k < |pending| ==> |pending[k].payload| <= MEDIA_SYNC_LEN
    }
  }

  /** What `onDataRecv` hands to the flooding service. */
  datatype Candidate = Candidate(origin: Mac, seqNo: word, hop: byte, inner: seq<byte>, isRelay: bool)

  datatype Option<+T> = None | Some(value: T)

  function EmptyTables(): Tables {
    Tables(seq(MAX_RELAY_ORIGINS, _ => OriginEntry([0, 0, 0, 0, 0, 0], 0, false)),
           seq(MAX_PENDING_RELAYS, _ => Pending(false, 0, [0, 0, 0, 0, 0, 0], 0, 0, [])))
  }

  // ----- dedup table -----

  /** First valid slot at or after `i` that belongs to `mac`; the table length when there is none. */
  function MatchFrom(t: seq<OriginEntry>, mac: Mac, i: nat): (r: nat)
    requires i <= |t|
    ensures i <= r <= |t|
    ensures r < |t| ==> t[r].valid && t[r].mac == mac
    ensures forall k :: i <= k < r ==> !(t[k].valid && t[k].mac == mac)
    decreases |t| - i
  {
    if i == |t| || (t[i].valid && t[i].mac == mac) then i else MatchFrom(t, mac, i + 1)
  }

  /** First invalid slot at or after `i`; the table length when there is none. */
  function FreeFrom(t: seq<OriginEntry>, i: nat): (r: nat)
    requires i <= |t|
    ensures i <= r <= |t|
    ensures r < |t| ==> !t[r].valid
    ensures forall k :: i <= k < r ==> t[k].valid
    decreases |t| - i
  {
    if i == |t| || !t[i].valid then i else FreeFrom(t, i + 1)
  }

  /** The slot the node uses for `mac`: its own, else a free one, else slot 0 is recycled. */
  function OriginSlot(t: seq<OriginEntry>, mac: Mac): (r: nat)
    requires |t| > 0
    ensures r < |t|
  {
    var m := MatchFrom(t, mac, 0);
    if m < |t| then m else
      var f := FreeFrom(t, 0);
      if f < |t| then f else 0
  }

  predicate Seen(t: seq<OriginEntry>, mac: Mac, seqNo: word) {
    var m := MatchFrom(t, mac, 0);
    m < |t| && t[m].lastSeq == seqNo
  }

  function Remember(t: seq<OriginEntry>, mac: Mac, seqNo: word): seq<OriginEntry>
    requires |t| > 0
  {
    t[OriginSlot(t, mac) := OriginEntry(mac, seqNo, true)]
  }

  // ----- pending table -----

  predicate IsFor(p: Pending, origin: Mac, seqNo: word) {
    p.active && p.seqNo == seqNo && p.origin == origin
  }

  function Suppress(ps: seq<Pending>, origin: Mac, seqNo: word): (r: seq<Pending>)
    ensures |r| == |ps|
  {
    seq(|ps|, k requires 0 <= k < |ps| =>
      if IsFor(ps[k], origin, seqNo) then ps[k].(active := false) else ps[k])
  }

  /** First inactive slot at or after `i`; the table length when all are taken. */
  function IdleFrom(ps: seq<Pending>, i: nat): (r: nat)
    requires i <= |ps|
    ensures i <= r <= |ps|
    ensures r < |ps| ==> !ps[r].active
    ensures forall k :: i <= k < r ==> ps[k].active
    decreases |ps| - i
  {
    if i == |ps| || !ps[i].active then i else IdleFrom(ps, i + 1)
  }

  /** The `uint8_t` increment: 255 wraps to 0. */
  function NextHop(hop: byte): byte {
    (hop + 1) % 0x100
  }

  function Clamp(inner: seq<byte>): (r: seq<byte>)
    ensures |r| <= MEDIA_SYNC_LEN
  {
    if |inner| > MEDIA_SYNC_LEN then inner[..MEDIA_SYNC_LEN] else inner
  }

  // ----- one candidate -----

  function AfterSuppression(t: Tables, c: Candidate): (r: seq<Pending>)
    ensures |r| == |t.pending|
  {
    if c.isRelay then Suppress(t.pending, c.origin, c.seqNo) else t.pending
  }

  /** The pending slot this candidate is scheduled into, when it is scheduled at all. */
  function ScheduleSlot(t: Tables, me: Mac, c: Candidate): (r: Option<nat>)
    ensures r.Some? ==> r.value < |t.pending|
  {
    var k := IdleFrom(AfterSuppression(t, c), 0);
    if c.origin == me || Seen(t.origins, c.origin, c.seqNo) || NextHop(c.hop) > MAX_HOPS || k == |t.pending|
    then None
    else Some(k)
  }

  function HandleCandidate(t: Tables, me: Mac, c: Candidate, sendTime: nat): (r: Tables)
    requires t.Wf()
    ensures r.Wf()
  {
    if c.origin == me then t else
      var ps := AfterSuppression(t, c);
      var slot := ScheduleSlot(t, me, c);
      Tables(Remember(t.origins, c.origin, c.seqNo),
             if slot.None? then ps
             else ps[slot.value := Pending(true, sendTime, c.origin, c.seqNo, NextHop(c.hop), Clamp(c.inner))])
  }

  // ----- one poll -----

  predicate Due(p: Pending, now: nat) {
    p.active && p.sendTime <= now
  }

  /** The pending table after the first `k` slots were polled at `now`. */
  function Polled(ps: seq<Pending>, now: nat, k: nat): (r: seq<Pending>)
    requires k <= |ps|
    ensures |r| == |ps|
  {
    seq(|ps|, j requires 0 <= j < |ps| => if j < k && Due(ps[j], now) then ps[j].(active := false) else ps[j])
  }

  lemma PolledNext(ps: seq<Pending>, now: nat, k: nat)
    requires k < |ps|
    ensures Polled(ps, now, k)[k] == ps[k]
    ensures Polled(ps, now, k + 1) ==
            if Due(ps[k], now) then Polled(ps, now, k)[k := ps[k].(active := false)] else Polled(ps, now, k)
  {
  }

  /** The frames those `k` slots put on the air, in slot order. */
  function Fired(ps: seq<Pending>, now: nat, k: nat): seq<seq<byte>>
    requires k <= |ps|
  {
    if k == 0 then [] else
      Fired(ps, now, k - 1) + (if Due(ps[k - 1], now) then [Envelope(ps[k - 1])] else [])
  }

  // ----- frames -----

  /** MeshRelayHeader followed by the original packet, byte-verbatim. */
  function RelayFrame(origin: Mac, seqNo: word, hop: byte, inner: seq<byte>): (r: seq<byte>)
    ensures |r| == RELAY_HEADER_LEN + |inner|
  {
    [ESPNOW_MSG_MESH_RELAY] + origin + Le16(seqNo) + [hop] + inner
  }

  function Envelope(p: Pending): seq<byte> {
    RelayFrame(p.origin, p.seqNo, p.hop, p.payload)
  }

  /** The flooding half of `onDataRecv`: which candidate, if any, a received frame offers. */
  function Parse(src: Mac, data: seq<byte>): Option<Candidate> {
    if |data| >= MEDIA_SYNC_LEN && data[0] == ESPNOW_MSG_MEDIA_SYNC then
      Some(Candidate(src, FromLe16(data[29..31]), 0, data, false))
    else if |data| >= RELAY_HEADER_LEN + MEDIA_SYNC_MIN_LEN && data[0] == ESPNOW_MSG_MESH_RELAY then
      Some(Candidate(data[1..7], FromLe16(data[7..9]), data[9], data[10..], true))
    else
      None
  }

  /** The packed header, byte by byte. */
  lemma EnvelopeLayout(origin: Mac, seqNo: word, hop: byte, inner: seq<byte>)
    ensures
      var e := RelayFrame(origin, seqNo, hop, inner);
      && e[0] == 0x05 && (forall i :: 0 <= i < 6 ==> e[1 + i] == origin[i])
      && e[7] == seqNo % 0x100 && e[8] == seqNo / 0x100 && e[9] == hop
      && |e| == 10 + |inner| && forall i :: 0 <= i < |inner| ==> e[10 + i] == inner[i]
  {
  }

  /** Building an envelope and parsing it are inverse, whoever relayed it. */
  lemma EnvelopeRoundTrip(origin: Mac, seqNo: word, hop: byte, inner: seq<byte>, src: Mac)
    requires MEDIA_SYNC_MIN_LEN <= |inner|
    ensures Parse(src, RelayFrame(origin, seqNo, hop, inner)) == Some(Candidate(origin, seqNo, hop, inner, true))
  {
    var e := RelayFrame(origin, seqNo, hop, inner);
    assert e[1..7] == origin;
    assert e[7..9] == Le16(seqNo);
    assert e[10..] == inner;
  }
}
