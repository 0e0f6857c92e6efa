// The slave node: the step-by-step updates of the follow machine, proved equal to FollowSpec.
module SlaveNode {
  import opened Bytes
  import opened RelaySpec
  import opened FollowSpec

  class Slave {
    const subscribedLayer: seq<byte>
    var originLock: Lock
    var sync: MediaSyncState
    var out: seq<Midi>  // MIDI handed to the output queue, oldest first

    ghost function View(): Follow
      reads this
    {
      Follow(originLock, sync, out)
    }

    constructor (layer: seq<byte>, stopOnLoss: bool)
      ensures View() == BootFollow(stopOnLoss) && subscribedLayer == layer
    {
      subscribedLayer := layer;
      originLock := Lock([0, 0, 0, 0, 0, 0], false, false, 0);
      sync := MediaSyncState(0, 0, 0, 0, 0, 0, false, stopOnLoss, NEVER, 0, NEVER, NEVER, 0, false, 0, false, 0);
      out := [];
    }

    method OriginRelease()
      modifies this
      ensures View() == ReleaseOrigin(old(View()))
    {
      originLock := originLock.(valid := false);
      originLock := originLock.(pinned := false);
      originLock := originLock.(mac := [0, 0, 0, 0, 0, 0]);
      sync := sync.(haveSeq := false);
    }

    method SetOrigin(mac: Mac, now: int)
      modifies this
      ensures View() == PinOrigin(old(View()), mac, now)
    {
      originLock := originLock.(mac := mac);
      originLock := originLock.(valid := true);
      originLock := originLock.(pinned := true);
      originLock := originLock.(lastHeard := now);
      sync := sync.(haveSeq := false);
    }

    method OriginAccepts(origin: Mac, now: int) returns (ok: bool)
      modifies this
      ensures ok == Accepts(old(originLock), origin, now)
      ensures View() == (if ok then Relock(old(View()), origin, now) else old(View()))
    {
      if !originLock.valid {
        originLock := originLock.(mac := origin);
        originLock := originLock.(valid := true);
        originLock := originLock.(lastHeard := now);
        sync := sync.(haveSeq := false);
        return true;
      }
      if originLock.mac == origin {
        originLock := originLock.(lastHeard := now);
        return true;
      }
      if !originLock.pinned && now - originLock.lastHeard > ORIGIN_LOCK_RELEASE_MS {
        originLock := originLock.(mac := origin);
        originLock := originLock.(lastHeard := now);
        sync := sync.(haveSeq := false);
        return true;
      }
      return false;
    }

    method Send(m: Midi)
      modifies this`out
      ensures out == old(out) + [m]
    {
      out := out + [m];
    }

    method CountMissed(seqNo: word)
      modifies this`sync
      ensures sync == CountGap(old(sync), seqNo)
    {
      if sync.haveSeq {
        var gap := (seqNo - sync.lastSeq - 1) % 0x1_0000;
        if gap > 0 && gap <= MEDIASYNC_MAX_GAP {
          var total := sync.syncGaps + gap;
          sync := sync.(syncGaps := if total > 0xFFFF then 0xFFFF else total);
        }
      }
      sync := sync.(lastSeq := seqNo);
      sync := sync.(haveSeq := true);
    }

    method Compensate(p: Packet, meshNow: u32) returns (position: u32)
      modifies this`sync
      ensures position == Compensated(p, TimeDelta(meshNow, p))
      ensures sync == old(sync).(coarse := !Trustworthy(TimeDelta(meshNow, p)))
    {
      var timeDelta := Int32(U32(meshNow - p.meshTimestamp));
      var clockTrustworthy := (if timeDelta < 0 then -timeDelta else timeDelta) <= CLOCK_DESYNC_THRESHOLD_MS;
      sync := sync.(coarse := !clockTrustworthy);
      position := p.positionMs;
      if clockTrustworthy && p.state == 1 && timeDelta > 0 {
        position := U32(position + timeDelta);
      }
    }

    /** Loop wrap or seek on the master, seen while playing. */
    method PositionJumped(p: Packet, position: u32, now: int) returns (jumped: bool)
      ensures jumped == Jumped(sync, p, position, now)
    {
      jumped := false;
      if sync.currentState == 1 && p.state == 1 {
        var expected := U32(sync.currentPositionMs + (now - sync.localClockStartTime));
        var diff := Int32(U32(position - expected));
        jumped := diff > JUMP_FULLFRAME_THRESHOLD_MS || diff < -JUMP_FULLFRAME_THRESHOLD_MS;
      }
    }

    method UpdateSyncState(p: Packet, position: u32, now: int)
      modifies this`sync
      ensures sync == Anchor(old(sync), p, position, now)
    {
      sync := sync.(currentIndex := p.mediaIndex);
      sync := sync.(currentPositionMs := position);
      sync := sync.(currentState := p.state);
      sync := sync.(lastSyncTime := now);
      sync := sync.(linkLost := false);
      if p.state == 1 {
        sync := sync.(localClockStartTime := now);
      }
    }

    /** Handle media index changes, then a position jump. */
    method SendIndexAndJump(p: Packet, jumped: bool, position: u32, now: int)
      modifies this`sync, this`out
      ensures View() == SendJump(SendIndex(old(View()), p, now), jumped, position)
    {
      if sync.lastSentIndex != p.mediaIndex && p.mediaIndex != 0 {
        Send(CC100(p.mediaIndex));
        sync := sync.(lastSentIndex := p.mediaIndex);
        sync := sync.(lastCC100SendTime := now);
      }
      if jumped {
        Send(FullFrame(position));
      }
    }

    /** Master-driven volume: on change, then repeated. */
    method SendMasterVolume(p: Packet, now: int)
      modifies this`sync, this`out
      ensures View() == SendVolume(old(View()), p, now)
    {
      if p.volume.Some? {
        var v: byte := if p.volume.value > 100 then 100 else p.volume.value;
        sync := sync.(currentVolume := v);
        if v != sync.lastSentVolume {
          Send(CC7(v));
          sync := sync.(lastSentVolume := v);
          sync := sync.(lastCC7SendTime := now);
        } else if now - sync.lastCC7SendTime >= CC7_REPEAT_INTERVAL_MS {
          Send(CC7(v));
          sync := sync.(lastCC7SendTime := now);
        }
      }
    }

    /** Start, Stop, or the periodic index repeat. */
    method SendTransition(starts: bool, stops: bool, position: u32, now: int)
      modifies this`sync, this`out
      ensures View() == SendTransport(old(View()), starts, stops, position, now)
    {
      if starts {
        Send(FullFrame(position));
        Send(Start);
      } else if stops {
        Send(CC100(0));
        Send(Stop);
        sync := sync.(lastSentIndex := 0);
        sync := sync.(lastCC100SendTime := now);
      } else if sync.currentState == 1 && sync.currentIndex > 0 &&
                now - sync.lastCC100SendTime >= CC100_REPEAT_INTERVAL_MS {
        Send(CC100(sync.currentIndex));
        sync := sync.(lastCC100SendTime := now);
      }
    }

    /** Compensation, transition and jump detection, the new anchor, and what the host is told. */
    method ApplyPacket(p: Packet, meshNow: u32, now: int)
      modifies this`sync, this`out
      ensures View() == FollowPacket(old(View()), p, meshNow, now)
    {
      ghost var f := View();
      var compensatedPositionMs := Compensate(p, meshNow);
      var stateChangedToStopped := sync.currentState == 1 && p.state == 0;
      var stateChangedToPlaying := sync.currentState == 0 && p.state == 1;
      var firstContactStopped := sync.lastSentIndex == NEVER && p.state == 0 && p.mediaIndex == 0;
      var jumped := PositionJumped(p, compensatedPositionMs, now);
      assert stateChangedToPlaying == Starts(f.sync, p);
      assert (stateChangedToStopped || firstContactStopped) == Stops(f.sync, p);
      assert jumped == Jumped(f.sync, p, compensatedPositionMs, now);
      UpdateSyncState(p, compensatedPositionMs, now);
      SendIndexAndJump(p, jumped, compensatedPositionMs, now);
      SendMasterVolume(p, now);
      SendTransition(stateChangedToPlaying, stateChangedToStopped || firstContactStopped, compensatedPositionMs, now);
    }

    method ProcessMediaSyncPacket(origin: Mac, data: seq<byte>, meshNow: u32, now: int)
      modifies this
      ensures View() == OnData(old(View()), subscribedLayer, origin, data, meshNow, now)
    {
      if |data| < MEDIA_SYNC_MIN_LEN {
        return;
      }
      var p := ReadPacket(data).value;
      if !LayerMatches(subscribedLayer, p.layer) {
        return;
      }
      var accepted := OriginAccepts(origin, now);
      if !accepted {
        return;
      }
      if |data| >= MEDIA_SYNC_LEN {
        CountMissed(FromLe16(data[29..31]));
      }
      ApplyPacket(p, meshNow, now);
    }

    /** The receiver part of one iteration of the application task. */
    method ReceiverTick(now: int)
      modifies this
      ensures View() == OnTick(old(View()), now)
    {
      if sync.currentState == 1 && !sync.linkLost {
        if now - sync.lastSyncTime > LINK_LOST_TIMEOUT_MS {
          sync := sync.(linkLost := true);
          if sync.stopOnLinkLost {
            sync := sync.(currentState := 0);
            Send(CC100(0));
            Send(Stop);
            sync := sync.(lastSentIndex := 0);
          }
        }
      }
      assert View() == LinkTick(old(View()), now);
      if sync.currentState == 1 {
        var localElapsed := now - sync.localClockStartTime;
        var currentPositionMs := U32(sync.currentPositionMs + localElapsed);
        if now - sync.lastMTCUpdateTime >= 1000 / 30 {
          Send(TimeCode(currentPositionMs));
          sync := sync.(lastMTCUpdateTime := now);
        }
      }
    }

    method NodeSyncQuality(isMaster: bool, clockSynced: bool, now: int) returns (q: Quality)
      ensures q == SyncQuality(sync, isMaster, clockSynced, now)
    {
      if isMaster {
        return Locked;
      }
      if sync.currentState != 1 {
        return NotFollowing;
      }
      if sync.linkLost {
        return NotFollowing;
      }
      if now - sync.lastSyncTime > LINK_LOST_TIMEOUT_MS {
        return NotFollowing;
      }
      if sync.coarse || !clockSynced {
        return Coarse;
      }
      return Locked;
    }
  }
}
