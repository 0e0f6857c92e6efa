// The receive callback of src/esp_now_handlers.cpp joins the two halves: every frame is offered to the flooding
// service, and on a slave its packet is followed. What the slave makes of a copy that came through relays.
module RelayedFollow {
  import opened Bytes
  import opened RelaySpec
  import opened FloodNetwork
  import opened FloodProvenance
  import opened MediaPacket
  import opened FollowSpec
  import opened PositionError
  import opened MeshRelay
  import opened SlaveNode

  datatype Heard = Heard(origin: Mac, packet: seq<byte>)

  /** Whose packet the frame carries: the sender's own, or the one named by the envelope. */
  function Carries(src: Mac, data: seq<byte>): Option<Heard> {
    if |data| >= 1 && data[0] == ESPNOW_MSG_MEDIA_SYNC then Some(Heard(src, data))
    else if |data| >= RELAY_HEADER_LEN + MEDIA_SYNC_MIN_LEN && data[0] == ESPNOW_MSG_MESH_RELAY then
      Some(Heard(data[1..7], data[10..]))
    else None
  }

  /** A node that drives the mesh (`sends`) follows nobody. */
  function Received(f: Follow, layer: seq<byte>, sends: bool, src: Mac, data: seq<byte>, meshNow: u32,
                    now: int): Follow
  {
    match Carries(src, data)
    case Some(h) => if sends then f else OnData(f, layer, h.origin, h.packet, meshNow, now)
    case None => f
  }

  class MeshNode {
    const slave: Slave
    const relay: RelayNode
    var senderModeEnabled: bool

    constructor (mac: Mac, layer: seq<byte>, stopOnLoss: bool)
      ensures relay.Valid() && fresh(slave) && fresh(relay) && fresh(relay.relayOrigins) && fresh(relay.pendingRelays)
      ensures slave.View() == BootFollow(stopOnLoss) && slave.subscribedLayer == layer
      ensures relay.View() == EmptyTables() && relay.myMac == mac && !senderModeEnabled
    {
      slave := new Slave(layer, stopOnLoss);
      relay := new RelayNode(mac);
      senderModeEnabled := false;
    }

    method OnDataRecv(src: Mac, data: seq<byte>, meshNow: u32, now: nat, delay: nat)
      requires relay.Valid() && MESH_RELAY_DELAY_MIN_MS <= delay <= MESH_RELAY_DELAY_MAX_MS
      modifies slave, relay.relayOrigins, relay.pendingRelays
      ensures relay.Valid()
      ensures slave.View() ==
              Received(old(slave.View()), slave.subscribedLayer, senderModeEnabled, src, data, meshNow, now)
      ensures
        var c := Parse(src, data);
        relay.View() == if c.None? then old(relay.View())
                        else HandleCandidate(old(relay.View()), relay.myMac, c.value, now + delay)
    {
      if |data| < 1 {
        return;
      }
      if data[0] == ESPNOW_MSG_MEDIA_SYNC {
        if !senderModeEnabled {
          slave.ProcessMediaSyncPacket(src, data, meshNow, now);
        }
      } else if data[0] == ESPNOW_MSG_MESH_RELAY {
        if |data| < RELAY_HEADER_LEN + MEDIA_SYNC_MIN_LEN {
          return;
        }
        if !senderModeEnabled {
          slave.ProcessMediaSyncPacket(data[1..7], data[RELAY_HEADER_LEN..], meshNow, now);
        }
      }
      relay.OnDataRecv(src, data, now, delay);
    }
  }

  /** The oldest a packet can be when a copy of it is heard, after up to MAX_HOPS relays. */
  function WorstAge(radio: Radio): nat {
    3 * (29 + radio.poll + radio.flight) + radio.flight
  }

  /** In a reachable fleet a copy is its original frame and origin, however it came, and at most WorstAge old. */
  ghost predicate StandsForOriginal(net: Net, c: Copy, radio: Radio)
    requires Shape(net)
  {
    && Known(net, c.tag)
    && Carries(c.src, c.frame) == Some(Heard(net.macs[c.tag.owner], Original(net, c.tag).frame))
    && Original(net, c.tag).frame == MediaFrame(Original(net, c.tag).media, SeqOf(c.tag.idx))
    && c.sentAt + radio.flight <= Original(net, c.tag).at + WorstAge(radio)
    && Original(net, c.tag).at <= c.sentAt <= net.now
  }

  lemma SoundCopyStands(net: Net, c: Copy, radio: Radio)
    requires Shape(net) && Sound(net, radio) && CopyOk(net, c, radio)
    ensures StandsForOriginal(net, c, radio)
  {
    CopyOffers(net, c, radio);
    assert NodeOk(net, c.tag.owner, radio) && MintedOk(Original(net, c.tag), c.tag.idx);
    var hop := Parse(c.src, c.frame).value.hop;
    HopsTimeIs(hop, radio);
    assert hop * (29 + radio.poll + radio.flight) <= 3 * (29 + radio.poll + radio.flight);
  }

  lemma CopiesStandForOriginals(net: Net, steps: seq<Step>, radio: Radio, k: nat)
    requires Boot(net) && Shape(net) && Run(net, steps) && TimedRun(net, steps, radio)
    requires k < |Exec(net, steps).air|
    ensures StandsForOriginal(Exec(net, steps), Exec(net, steps).air[k], radio)
  {
    BootIsSound(net, radio);
    RunKeepsSound(net, steps, radio);
    SoundCopyStands(Exec(net, steps), Exec(net, steps).air[k], radio);
  }

  /** How far a mesh clock reading `meshNow` is past the master's stamp, as a signed 32-bit difference. */
  function Delta(m: Media, meshNow: u32): int {
    Int32(U32(meshNow - m.meshTimestamp))
  }

  /** After a packet of age `age`, its mesh clock reading `meshNow`, the slave shows at its own time `t` the position
      the master sent off by LineError, and counts as coarse exactly beyond 200 ms; `e` is what its clock is off by. */
  predicate Shows(g: MediaSyncState, m: Media, age: nat, meshNow: u32, now: int, t: int) {
    var e := Delta(m, meshNow) - age;
    && Expected(g, t) == U32(m.positionMs + age + (t - now) + LineError(age, e))
    && g.coarse == (Abs(age + e) > 200)
  }

  /** The packet is for a slave on this layer. */
  predicate IsFor(layer: seq<byte>, m: Media) {
    CString(layer) == WILDCARD || CString(layer) == LayerName(m.layer)
  }

  lemma AcceptedPacketShows(f: Follow, layer: seq<byte>, origin: Mac, m: Media, seqNo: word, age: nat, meshNow: u32,
                            now: int, t: int)
    requires m.state == 1 && IsFor(layer, m) && Accepts(f.lock, origin, now)
    ensures Shows(OnPacket(f, layer, origin, Sent(m, seqNo), meshNow, now).sync, m, age, meshNow, now, t)
  {
    LayerMatchesIff(layer, m.layer);
    var p := Sent(m, seqNo);
    DeltaBack(p, meshNow);
    LineIs(CountPacket(Relock(f, origin, now), p), p, age, TimeDelta(meshNow, p) - age, now, t);
  }

  lemma CarriedPacketShows(f: Follow, layer: seq<byte>, src: Mac, data: seq<byte>, origin: Mac, m: Media, seqNo: word,
                           age: nat, meshNow: u32, now: int, t: int)
    requires Carries(src, data) == Some(Heard(origin, MediaFrame(m, seqNo)))
    requires m.state == 1 && IsFor(layer, m) && Accepts(f.lock, origin, now)
    ensures Shows(Received(f, layer, false, src, data, meshNow, now).sync, m, age, meshNow, now, t)
  {
    ReadsWhole(m, seqNo);
    assert Received(f, layer, false, src, data, meshNow, now) ==
           OnPacket(f, layer, origin, Sent(m, seqNo), meshNow, now);
    AcceptedPacketShows(f, layer, origin, m, seqNo, age, meshNow, now, t);
  }

  /** The slave is in the situation the theorem is about: it accepts copy `c`, which is of a playing packet. */
  ghost predicate Follows(net: Net, c: Copy, f: Follow, layer: seq<byte>, now: int)
    requires Shape(net)
  {
    && Known(net, c.tag) && Original(net, c.tag).media.state == 1 && IsFor(layer, Original(net, c.tag).media)
    && Accepts(f.lock, net.macs[c.tag.owner], now)
  }

  /** What the slave shows after hearing copy `c` at fleet time `at`, and how old the packet is by then. */
  ghost predicate FollowsMaster(net: Net, c: Copy, at: nat, f: Follow, layer: seq<byte>, meshNow: u32, now: int, t: int,
                                radio: Radio)
    requires Shape(net) && Known(net, c.tag)
  {
    var age := at - Original(net, c.tag).at;
    && 0 <= age <= WorstAge(radio)
    && Shows(Received(f, layer, false, c.src, c.frame, meshNow, now).sync, Original(net, c.tag).media, age, meshNow,
             now, t)
  }

  lemma CopyIsFollowed(net: Net, c: Copy, radio: Radio, at: nat, f: Follow, layer: seq<byte>, meshNow: u32, now: int,
                       t: int)
    requires Shape(net) && StandsForOriginal(net, c, radio) && Follows(net, c, f, layer, now)
    requires net.now <= at <= c.sentAt + radio.flight
    ensures FollowsMaster(net, c, at, f, layer, meshNow, now, t, radio)
  {
    var sent := Original(net, c.tag);
    CarriedPacketShows(f, layer, c.src, c.frame, net.macs[c.tag.owner], sent.media, SeqOf(c.tag.idx), at - sent.at,
                       meshNow, now, t);
  }

  /** End to end, for every copy a slave accepts of a playing packet, direct or through up to three relays, whatever its
      mesh clock reads: the line it then shows is off the position the master sent by exactly LineError(age, e), e
      being its clock error against the master's stamp, and the age is at most 3 * (29 + P + F) + F. */
  lemma RelayedPositionError(net: Net, steps: seq<Step>, radio: Radio, k: nat, at: nat, f: Follow, layer: seq<byte>,
                             meshNow: u32, now: int, t: int)
    requires Boot(net) && Shape(net) && Run(net, steps) && TimedRun(net, steps, radio)
    requires
      var r := Exec(net, steps);
      k < |r.air| && r.now <= at <= r.air[k].sentAt + radio.flight && Follows(r, r.air[k], f, layer, now)
    ensures FollowsMaster(Exec(net, steps), Exec(net, steps).air[k], at, f, layer, meshNow, now, t, radio)
  {
    CopiesStandForOriginals(net, steps, radio, k);
    CopyIsFollowed(Exec(net, steps), Exec(net, steps).air[k], radio, at, f, layer, meshNow, now, t);
  }

  /** So while |e| plus the worst age is at most 200 ms, no accepted copy leaves a slave further than |e| from its
      master, or coarse. */
  lemma WithinClockError(g: MediaSyncState, m: Media, age: nat, meshNow: u32, now: int, t: int, radio: Radio)
    requires Shows(g, m, age, meshNow, now, t) && age <= WorstAge(radio)
    requires Abs(Delta(m, meshNow) - age) + WorstAge(radio) <= 200
    ensures !g.coarse
    ensures exists err :: Abs(err) <= Abs(Delta(m, meshNow) - age) &&
                          Expected(g, t) == U32(m.positionMs + age + (t - now) + err)
  {
    assert Abs(LineError(age, Delta(m, meshNow) - age)) <= Abs(Delta(m, meshNow) - age);
  }

  // ----- a master -----

  /** A frame heard: sender, bytes, mesh clock and time. */
  datatype Rx = Rx(src: Mac, data: seq<byte>, meshNow: u32, now: int)

  /** The slave half of a node after a run of received frames. */
  function ReceivedAll(f: Follow, layer: seq<byte>, sends: bool, rs: seq<Rx>): Follow {
    if |rs| == 0 then f
    else
      var r := rs[|rs| - 1];
      Received(ReceivedAll(f, layer, sends, rs[..|rs| - 1]), layer, sends, r.src, r.data, r.meshNow, r.now)
  }

  /** A node that drives the mesh follows nobody and tells its host nothing, whatever it hears, its own packets coming
      back through relays included. */
  lemma {:induction false} MasterFollowsNobody(f: Follow, layer: seq<byte>, rs: seq<Rx>)
    ensures ReceivedAll(f, layer, true, rs) == f
  {
    if |rs| > 0 {
      MasterFollowsNobody(f, layer, rs[..|rs| - 1]);
    }
  }
}
