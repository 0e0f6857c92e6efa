// The flooding service of one node: the loops of src/mesh_relay.cpp over its two fixed tables,
// proved equal to the functions of RelaySpec.
module MeshRelay {
  import opened Bytes
  import opened RelaySpec

  class RelayNode {
    const myMac: Mac
    const relayOrigins: array<OriginEntry>
    const pendingRelays: array<Pending>
    var sentFrames: seq<seq<byte>>  // everything handed to relaySend, oldest first

    ghost predicate Valid()
      reads this, relayOrigins, pendingRelays
    {
      && relayOrigins.Length == MAX_RELAY_ORIGINS
      && pendingRelays.Length == MAX_PENDING_RELAYS
      && View().Wf()
    }

    ghost function View(): Tables
      reads relayOrigins, pendingRelays
    {
      Tables(relayOrigins[..], pendingRelays[..])
    }

    constructor (mac: Mac)
      ensures Valid() && fresh(relayOrigins) && fresh(pendingRelays)
      ensures myMac == mac && View() == EmptyTables() && sentFrames == []
    {
      myMac := mac;
      relayOrigins := new OriginEntry[MAX_RELAY_ORIGINS](_ => OriginEntry([0, 0, 0, 0, 0, 0], 0, false));
      pendingRelays := new Pending[MAX_PENDING_RELAYS](_ => Pending(false, 0, [0, 0, 0, 0, 0, 0], 0, 0, []));
      sentFrames := [];
      new;
      assert relayOrigins[..] == EmptyTables().origins;
      assert pendingRelays[..] == EmptyTables().pending;
    }

    method FindOrCreateOrigin(origin: Mac) returns (slot: nat)
      requires Valid()
      modifies relayOrigins
      ensures Valid() && slot == OriginSlot(old(relayOrigins[..]), origin)
      ensures
        var before := old(relayOrigins[..]);
        relayOrigins[..] == if MatchFrom(before, origin, 0) < |before| then before
                            else before[slot := OriginEntry(origin, before[slot].lastSeq, false)]
    {
      ghost var before := relayOrigins[..];
      var freeSlot: int := -1;
      for i := 0 to MAX_RELAY_ORIGINS
        invariant relayOrigins[..] == before
        invariant MatchFrom(before, origin, 0) == MatchFrom(before, origin, i)
        invariant if freeSlot < 0 then FreeFrom(before, 0) == FreeFrom(before, i)
                  else freeSlot < i && FreeFrom(before, 0) == freeSlot
      {
        if relayOrigins[i].valid && relayOrigins[i].mac == origin {
          return i;
        }
        if !relayOrigins[i].valid && freeSlot < 0 {
          freeSlot := i;
        }
      }
      if freeSlot < 0 {
        freeSlot := 0;  // table full: slot 0 is recycled
      }
      slot := freeSlot;
      relayOrigins[slot] := OriginEntry(origin, relayOrigins[slot].lastSeq, false);
    }

    method SuppressPending(origin: Mac, seqNo: word)
      requires Valid()
      modifies pendingRelays
      ensures Valid() && pendingRelays[..] == Suppress(old(pendingRelays[..]), origin, seqNo)
      ensures forall k :: 0 <= k < MAX_PENDING_RELAYS ==>
                var p := old(pendingRelays[..])[k];
                pendingRelays[k] ==
                if p.active && p.origin == origin && p.seqNo == seqNo then p.(active := false) else p
    {
      ghost var before := pendingRelays[..];
      for i := 0 to MAX_PENDING_RELAYS
        invariant forall k :: 0 <= k < i ==> pendingRelays[k] == Suppress(before, origin, seqNo)[k]
        invariant forall k :: i <= k < MAX_PENDING_RELAYS ==> pendingRelays[k] == before[k]
      {
        if pendingRelays[i].active && pendingRelays[i].seqNo == seqNo && pendingRelays[i].origin == origin {
          pendingRelays[i] := pendingRelays[i].(active := false);
        }
      }
      assert pendingRelays[..] == Suppress(before, origin, seqNo);
    }

    /** `delay` is the draw of `random(5, 31)`. */
    method HandleFloodCandidate(origin: Mac, seqNo: word, receivedHop: byte, inner: seq<byte>, isRelay: bool,
                                now: nat, delay: nat)
      requires Valid()
      requires MESH_RELAY_DELAY_MIN_MS <= delay <= MESH_RELAY_DELAY_MAX_MS
      modifies relayOrigins, pendingRelays
      ensures Valid()
      ensures View() == HandleCandidate(old(View()), myMac,
                                        Candidate(origin, seqNo, receivedHop, inner, isRelay), now + delay)
    {
      if origin == myMac {
        return;  // never relay our own traffic
      }
      ghost var before := View();
      ghost var c := Candidate(origin, seqNo, receivedHop, inner, isRelay);
      if isRelay {
        SuppressPending(origin, seqNo);
      }
      ghost var ps := pendingRelays[..];
      assert ps == AfterSuppression(before, c);
      var slot := FindOrCreateOrigin(origin);
      var alreadySeen := relayOrigins[slot].valid && relayOrigins[slot].lastSeq == seqNo;
      relayOrigins[slot] := OriginEntry(relayOrigins[slot].mac, seqNo, true);
      assert relayOrigins[..] == Remember(before.origins, origin, seqNo);
      if alreadySeen {
        return;
      }
      var newHop := (receivedHop + 1) % 0x100;
      if newHop > MAX_HOPS {
        return;
      }
      var live := if |inner| > MEDIA_SYNC_LEN then inner[..MEDIA_SYNC_LEN] else inner;
      Schedule(Pending(true, now + delay, origin, seqNo, newHop, live));
    }

    /** The first inactive slot takes the forward; with none it is dropped. */
    method Schedule(p: Pending)
      requires Valid() && |p.payload| <= MEDIA_SYNC_LEN
      modifies pendingRelays
      ensures Valid()
      ensures
        var ps := old(pendingRelays[..]);
        pendingRelays[..] == if IdleFrom(ps, 0) < |ps| then ps[IdleFrom(ps, 0) := p] else ps
    {
      ghost var ps := pendingRelays[..];
      for i := 0 to MAX_PENDING_RELAYS
        invariant pendingRelays[..] == ps
        invariant IdleFrom(ps, 0) == IdleFrom(ps, i)
      {
        if !pendingRelays[i].active {
          pendingRelays[i] := p;
          return;
        }
      }
    }

    /** The flooding half of the receive callback: direct frames flood as hop 0 from their sender. */
    method OnDataRecv(src: Mac, data: seq<byte>, now: nat, delay: nat)
      requires Valid() && MESH_RELAY_DELAY_MIN_MS <= delay <= MESH_RELAY_DELAY_MAX_MS
      modifies relayOrigins, pendingRelays
      ensures Valid()
      ensures
        var c := Parse(src, data);
        View() == if c.None? then old(View()) else HandleCandidate(old(View()), myMac, c.value, now + delay)
    {
      if |data| < 1 {
        return;
      }
      if data[0] == ESPNOW_MSG_MEDIA_SYNC {
        if |data| >= MEDIA_SYNC_LEN {
          HandleFloodCandidate(src, FromLe16(data[29..31]), 0, data, false, now, delay);
        }
      } else if data[0] == ESPNOW_MSG_MESH_RELAY {
        if |data| < RELAY_HEADER_LEN + MEDIA_SYNC_MIN_LEN {
          return;
        }
        HandleFloodCandidate(data[1..7], FromLe16(data[7..9]), data[9], data[RELAY_HEADER_LEN..], true, now, delay);
      }
    }

    method ProcessPendingRelays(now: nat)
      requires Valid()
      modifies pendingRelays, this`sentFrames
      ensures Valid()
      ensures pendingRelays[..] == Polled(old(pendingRelays[..]), now, MAX_PENDING_RELAYS)
      ensures sentFrames == old(sentFrames) + Fired(old(pendingRelays[..]), now, MAX_PENDING_RELAYS)
    {
      ghost var before := pendingRelays[..];
      for i := 0 to MAX_PENDING_RELAYS
        invariant pendingRelays[..] == Polled(before, now, i)
        invariant sentFrames == old(sentFrames) + Fired(before, now, i)
      {
        if pendingRelays[i].active && pendingRelays[i].sendTime <= now {
          pendingRelays[i] := pendingRelays[i].(active := false);
          var header := [ESPNOW_MSG_MESH_RELAY] + pendingRelays[i].origin + Le16(pendingRelays[i].seqNo)
                        + [pendingRelays[i].hop];
          sentFrames := sentFrames + [header + pendingRelays[i].payload];
        }
      }
    }
  }
}
