# Nowde sync mesh: a verified model

Nowde nodes keep media players in step over ESP-NOW. A master broadcasts ten small `MediaSyncPacket`s a second;
any node may relay them under a hop budget; slaves follow one master, extrapolate its position on their own clock
and speak MIDI to a host computer over USB. This project models that machinery in Dafny and proves what it keeps.

Code that works by changing fields and arrays in place is a class or a method with loops here as well, proved equal
to a function of its inputs and old state; the theorems are lemmas about those functions over whole runs.

| part | files |
|---|---|
| controlled flooding: one node, and a fleet under an adversarial radio | `MediaPacket`, `RelaySpec`, `MeshRelay`, `FloodNetwork`, `FloodTermination`, `FloodProvenance`, `FloodLatency`, `FloodOnce`, `FloodDedup`, `FloodSends`, `FloodDrops` |
| the slave: origin lock, gap counter, position, MIDI to the host, link loss, self-heal | `FollowSpec`, `SlaveNode`, `FollowRuns`, `OriginLock`, `GapCounter`, `PositionError`, `HostMirror`, `LateHost`, `SelfHeal` |
| both together, packet by packet through the mesh | `RelayedFollow` |
| the forward-only mesh clock, one node and a fleet | `MeshClock`, `ClockNetwork` |
| the wire to the host: 7-bit codec, USB-MIDI SysEx, firmware update, output queue, time code | `Codec7`, `SysexChannel`, `Ota`, `UsbOut`, `Mtc` |

`dafny verify dfyconfig.toml` checks everything.

## Where the code and its documents differ

The model follows the code.

- `docs/PROTOCOL.md:136-138` and the comment at `src/nowde_config.h:118-120` rest loop freedom on dedup. The dedup
  table holds only the last sequence number per origin (`src/mesh_relay.cpp:74-80`), so a node that sent 5 and then
  heard 6 sends a late copy of 5 again (`FloodSends.OutOfOrderSendsTwice`, from boot). With more than ten origins it
  also forgets whole origins, and sends twice although each is heard in order (`FloodSends.ElevenOriginsSendTwice`).
  Termination needs the hop budget alone (`FloodTermination`); at-most-once needs both hypotheses `FloodOnce` states.
- `docs/PROTOCOL.md:164` gives 1300 µs for `TRANSMISSION_DELAY_US`, as does `src/nowde_config.h:197-198`. The clock
  library does not include that file and is built with the default of its own header,
  1000 µs (`lib/ESPNowMeshClock/src/ESPNowMeshClock.h:29-31`). The fleet theorems hold for every lead.
- `MIDI_EVENT_LEAD_MS` (`src/nowde_config.h:155-164`) is 90 ms, three times the longest drawn delay. With polls P ms apart
  and flights of F ms the last relay goes out up to 3 * (29 + P + F) ms after its packet, and in every booted fleet of
  four nodes some run attains that; so 90 ms cover every relay exactly if P + F <= 1, and the loop polls every 10 ms
  (`FloodLatency.LeadCoversIff`).
- `src/nowde_config.h:278` says that `syncGaps` counts frames the slave never received. It sums forward jumps between
  consecutively accepted frames, which is more in two ways. A relayed copy that arrives after a newer packet takes
  `lastSeq` back (`src/receiver_mode.cpp:98`), so the next packet is charged for packets that were accepted
  (`GapCounter.LateCopyIsCharged`). And one sequence serves all layers of a master (`src/sysex.cpp:430-431`) while the
  layer filter comes before the counter, so a slave that hears everything is charged for the packets of the other layers
  (`GapCounter.OtherLayerIsCharged`). The exact conditions are `GapCounter.CounterExactIff` (frames never accepted) and
  `GapCounter.GapsAreLossesIff` (frames never received).
- The reassembler buffers 512 bytes but hands the handler a `uint8_t` length, so frames of 256 to 512 bytes arrive
  and are ignored (`SysexChannel.HandedWholeIff`).
- `sendErrorReport` packetises differently from every other sender (`SysexChannel.ErrorReportIff`).
- Nothing acknowledges OTA_BEGIN; if it is lost while an older session is open, an acknowledged transfer can commit
  something else, exactly when that session has room for it (`Ota.OnlyTheFileIff`).
- The retry of the output queue ignores the result of putting a packet back, and loses the packet when other tasks
  filled the queue meanwhile (`UsbOut.StepConserves`, `UsbOut.InterruptedRetryLoses`).

## Model

| member | source | states |
|---|---|---|
| MediaPacket.Master.SendMediaSync | src/sysex.cpp:416-431 | The struct filled field by field at its packed offsets, the layer name cut to 15 bytes, under the next sequence number |
| MediaPacket.ReadsBack | src/nowde_config.h:287-320 | For all field values a slave reads back exactly what the master put in, from as much of the frame as arrives: nothing below 27 bytes, the volume from 29 if flagged, the sequence number from 31 |
| MediaPacket.LayerMatchesIff | src/nowde_state.cpp:132-137 | A packet is for the wildcard slaves and those whose layer is the name as far as 15 bytes carry it |
| RelaySpec.EnvelopeLayout | src/mesh_relay.cpp:121-130 | Every byte of a relay envelope |
| RelaySpec.EnvelopeRoundTrip | src/esp_now_handlers.cpp:106-124 | Building a relay envelope and parsing it give back origin, seq, hop and the packet bytes, whoever sent it |
| MeshRelay.RelayNode.FindOrCreateOrigin | src/mesh_relay.cpp:27-46 | The loop finds the origin's own slot, else the first free one, else recycles slot 0; what it writes there |
| MeshRelay.RelayNode.SuppressPending | src/mesh_relay.cpp:50-58 | Exactly the active forwards of that origin and seq become inactive, every other slot stays as it is |
| MeshRelay.RelayNode.HandleFloodCandidate | src/mesh_relay.cpp:62-111 | Both tables after one candidate: suppression, dedup on the last seq, wrapping hop budget, first idle slot |
| MeshRelay.RelayNode.OnDataRecv | src/esp_now_handlers.cpp:84-124 | Which frames reach the flooding service and as what candidate, short frames included |
| MeshRelay.RelayNode.ProcessPendingRelays | src/mesh_relay.cpp:113-132 | A poll sends exactly the due envelopes in slot order and clears exactly those slots |
| FloodNetwork.PollSendsFired | src/mesh_relay.cpp:113-132 | A poll step of the fleet broadcasts what one node's poll sends, and touches no other node |
| FloodTermination.StepDecreases | src/mesh_relay.cpp:62-132 | Every delivery, loss or firing poll strictly decreases one measure over the air and all pending tables |
| FloodTermination.FloodingTerminates | src/mesh_relay.cpp:62-132 | Without new packets, deliveries, losses and relay transmissions of any run are bounded by the measure, dedup not used |
| FloodTermination.RelaysPerMint | src/nowde_config.h:133-135 | In a fleet of m + 1 nodes k packets cause at most k(m + m² + m³) relay transmissions, over every run |
| FloodProvenance.RelaysCarryOriginals | src/mesh_relay.cpp:82-130 | In every reachable state relays in flight and waiting carry, byte for byte, what their origin minted under that seq, with hop 1 to 3, never at or from that origin |
| FloodProvenance.RelayLatency | src/mesh_relay.cpp:96-119 | A hop-h relay goes out between 5h and h(29 + P + F) ms after the packet was minted |
| FloodLatency.WorstCaseIsAttained | src/mesh_relay.cpp:96-119 | In every booted fleet of at least four nodes some run on time sends a third relay exactly 3(29 + P + F) ms after its packet |
| FloodLatency.LeadCoversIff | src/nowde_config.h:155-164 | A lead covers every relay of every run on time exactly if it is at least 3(29 + P + F); 90 ms do exactly if P + F <= 1 |
| FloodProvenance.EveryRunIsTimed | src/main.cpp:275-279 | Every finite run meets the timing hypothesis for a slow enough radio, so the results above lose no run |
| FloodOnce.ForwardAtMostOnce | src/mesh_relay.cpp:64-80 | With at most ten origins each heard in order: one schedule and one send per packet and node, none by its origin, no forward left once overheard, at most N - 1 sends per packet |
| FloodDedup.SeenIffRecalled | src/mesh_relay.cpp:27-46 | With any number of origins heard, the table remembers exactly: nine origins for good, and the last packet of all others |
| FloodDedup.SchedulesIff | src/mesh_relay.cpp:64-105 | Over every run, in order or not, with any number of origins, exactly when a node schedules the copy it hears |
| FloodDedup.ScheduledExactly | src/mesh_relay.cpp:64-105 | Over every run a node schedules a packet exactly as often as it hears a copy for which that decision says so |
| FloodDedup.TenAreRemembered | src/nowde_config.h:143-145 | With at most ten origins the node remembers the last packet of each |
| FloodDedup.EleventhEvicts | src/mesh_relay.cpp:37-42 | The eleventh origin heard makes the node forget the first |
| FloodSends.ForwardsAreConserved | src/mesh_relay.cpp:50-132 | Over every run, each forward a node scheduled was sent, was dropped on hearing a relay of that origin and seq, or still waits |
| FloodDrops.SuppressesExactly | src/mesh_relay.cpp:62-72 | A candidate leaves every waiting forward alone except those of the packet it relays, by origin and seq, and these it ends |
| FloodDrops.ForwardEnds | src/mesh_relay.cpp:50-132 | In a fleet a waiting forward ends only with the first poll after its delay, or with a relay of its own origin and seq |
| FloodDrops.OnlyRelaysSuppress | src/mesh_relay.cpp:48-58 | Over every run a node drops a forward only if somebody's relay of that very packet reached it |
| FloodDrops.UnrelayedIsSent | src/mesh_relay.cpp:96-132 | Over every run, a packet of which a node heard nobody's relay has been sent as often as it was scheduled once the node polls after the delay |
| FloodDrops.DelayIsShort | src/mesh_relay.cpp:96-98 | In every reachable state no forward waits more than another 30 ms |
| FloodSends.SendsAgainIff | src/mesh_relay.cpp:62-132 | From boot, for any interleaving of any origins: a listener that hears their packets and then a relay of the first sends the first twice exactly if the reference decision forgot it, else once |
| FloodSends.OutOfOrderSendsTwice | src/mesh_relay.cpp:74-80 | In every booted fleet of at least three nodes a node that hears packets 1, 2 and a relay of 1 schedules and sends 1 twice |
| FloodSends.ElevenOriginsSendTwice | src/mesh_relay.cpp:37-42 | For any eleven origins with one packet each, some run in which all are heard in order makes a node schedule and send the first packet twice |
| FloodOnce.OutOfOrderForwardsTwice | src/mesh_relay.cpp:74-80 | A node that heard 5, 6 and 5 again schedules 5 twice |
| RelayedFollow.MeshNode.OnDataRecv | src/esp_now_handlers.cpp:84-124 | One received frame both follows (under the envelope's origin, masters never) and floods |
| RelayedFollow.CopiesStandForOriginals | src/esp_now_handlers.cpp:90-122 | In every timed run each copy on the air, direct or relayed, means its original frame and origin to a slave, and is at most 3(29 + P + F) + F old when heard |
| RelayedFollow.RelayedPositionError | src/receiver_mode.cpp:102-161 | For every copy a slave accepts of a playing packet, through any path and whatever its mesh clock reads, its line is off the position its master put into the packet by exactly LineError(age, e), e against the master's own stamp, it is coarse exactly when age + e is beyond 200 ms, and the age is at most the worst age |
| RelayedFollow.WithinClockError | src/receiver_mode.cpp:112-128 | So while abs(e) plus the worst age is at most 200 ms the slave is within abs(e) of its master and not coarse |
| RelayedFollow.MasterFollowsNobody | src/esp_now_handlers.cpp:90-122 | Whatever frames a node in sender mode hears, its slave state and its MIDI stay as they were |
| SlaveNode.Slave.OriginAccepts | src/nowde_state.cpp:153-187 | Who is accepted, what the lock becomes, when the seq anchor is dropped |
| SlaveNode.Slave.OriginRelease | src/nowde_state.cpp:144-151 | The lock and the seq anchor after a release |
| SlaveNode.Slave.SetOrigin | src/sysex.cpp:680-684 | The lock and the seq anchor after a pin |
| SlaveNode.Slave.CountMissed | src/receiver_mode.cpp:86-100 | Gap, saturation and new anchor after one seq |
| SlaveNode.Slave.ApplyPacket | src/receiver_mode.cpp:102-216 | The whole state and the MIDI sent after one accepted packet |
| SlaveNode.Slave.ProcessMediaSyncPacket | src/receiver_mode.cpp:61-225 | The same for any received bytes: length gates, layer filter, origin lock |
| SlaveNode.Slave.ReceiverTick | src/main.cpp:238-267 | Link loss and the position extrapolated for time code, per tick |
| SlaveNode.Slave.NodeSyncQuality | src/nowde_state.cpp:103-123 | The sync quality of a master and of a slave |
| PositionError.PositionErrorIsClockError | src/receiver_mode.cpp:102-161 | For a packet of age a at a clock error e the line shown is off by at most abs(e) when abs(a + e) <= 200, by exactly -a when coarse |
| PositionError.DuplicateKeepsLine | src/receiver_mode.cpp:124-149 | Hearing a packet again, first heard at whatever delta, shifts the line by a known amount: nothing exactly if both hearings are within 200 ms or simultaneous, and a jump exactly beyond 1000 ms |
| PositionError.TickKeepsLine | src/main.cpp:256-267 | Ticks never move the line |
| HostMirror.RunMirrors | src/receiver_mode.cpp:130-216 | Replaying the MIDI of any run on a host gives the slave's transport, CC#100 and CC#7, and Starts and Stops alternate, across link losses, re-locks and policy changes |
| HostMirror.HostSeeksIff | src/receiver_mode.cpp:135-172 | Over every run an event makes the host seek exactly if a playing packet is accepted that starts the slave or moves the line it plays by more than 1000 ms, and always to the line it plays from then on |
| HostMirror.StartIsOnLine | src/receiver_mode.cpp:190-195 | A Start goes out only on stopped to playing, right behind a full frame of the line the slave plays |
| HostMirror.HostToldIff | src/receiver_mode.cpp:130-201 | Over every run the host knows an index or a transport exactly from the first accepted packet on, a stopped master's included |
| HostMirror.StopPolicyNeverFreewheels | src/main.cpp:238-254 | Under the STOP policy a playing slave never has a lost link |
| HostMirror.SilenceStopsHost | src/main.cpp:238-254 | Under the STOP policy the host plays after a tick exactly if the slave does and the last packet is at most 10 s old |
| HostMirror.SilenceFreewheels | src/main.cpp:238-267 | Under the FREEWHEEL policy no silence, over any run of ticks, refused packets and origin commands, changes the host's transport, index or volume, or the slave's line |
| LateHost.LateHostHearsIndex | src/receiver_mode.cpp:163-216 | Over every run, when a playing slave accepts a playing packet of a nonzero index, that index went out as CC#100 with it or less than a second before it, the times of the run not going back |
| LateHost.LateHostHearsVolume | src/receiver_mode.cpp:174-190 | The same for the clamped volume of every accepted packet that carries one, as CC#7 |
| LateHost.IndexRepeatsSpaced | src/receiver_mode.cpp:203-216 | From any state, the index the host has is told again no sooner than a second after the last CC#100 |
| LateHost.VolumeRepeatsSpaced | src/receiver_mode.cpp:180-190 | The same for the volume and CC#7 |
| LateHost.TickCodesIff | src/main.cpp:256-267 | What a tick sends: the time code of the line the slave plays exactly if it plays and its last time code is at least 33 ms old, link lost or not |
| LateHost.NextCodeIff | src/main.cpp:256-267 | From any state and over any events, the next time code goes out exactly at the first tick at least 33 ms later that leaves the slave playing |
| LateHost.TimeCodesKeepComing | src/main.cpp:256-267 | A slave that goes on playing, ticked at most P ms apart, sends the next time code less than 33 + P ms after the last |
| LateHost.TimeCodesSpaced | src/main.cpp:262-266 | From any state and over any events, two time codes are at least 33 ms apart |
| OriginLock.SwitchTakesSilence | src/nowde_state.cpp:153-187 | From any state, after a packet was taken and then none without SET_ORIGIN, the next one for this layer takes the lock and the anchor if it is from the same master, and else exactly if more than 2 s have passed and the slave was not pinned; otherwise it changes nothing |
| OriginLock.ReleaseTakesNext | src/nowde_state.cpp:144-163 | After a release the next packet for this layer is taken, whoever sent it and however soon |
| OriginLock.PinHolds | src/sysex.cpp:664-687 | Through any run without SET_ORIGIN a pinned slave takes every packet of that master for its layer, and nobody else's has any effect |
| OriginLock.SeqIsFromHeldOrigin | src/receiver_mode.cpp:86-100 | In every reachable state the seq a slave diffs against came from the master it holds, since the last lock, switch, pin or release |
| GapCounter.ChargeIsRightIff | src/receiver_mode.cpp:88-97 | For all pairs of packet indices, exactly when the 16-bit charge is the number of packets missed |
| GapCounter.CounterIsCharges | src/receiver_mode.cpp:74-100 | Over every run that follows one master, in whatever order its packets arrive and whatever else is on the air, the counter grows by the charges between consecutive anchors, saturating at 65535 |
| GapCounter.CounterExactIff | src/receiver_mode.cpp:74-100 | While each single step is one the charge is right about, the charges are never fewer than the indices of the range never accepted; the counter is their number exactly if it is saturated or every packet was accepted in step: a new highest index right after the highest so far, a lower one again and at most one past the last |
| GapCounter.GapCounterIsExact | src/receiver_mode.cpp:74-100 | In particular when packets arrive in mint order with at most 100 missing in a row |
| GapCounter.LateCopyIsCharged | src/receiver_mode.cpp:89-98 | A slave that accepts m + 1, a late copy of m and m + 2 is charged one, though nothing is missing |
| GapCounter.GapsAreLossesIff | src/receiver_mode.cpp:74-100 | The counter is the number of indices that never reached the slave exactly if it is saturated, or the packets were accepted in step and the layer filter dropped no packet of an index otherwise missing |
| GapCounter.OtherLayerIsCharged | src/sysex.cpp:430-431 | A slave that hears every packet of a two-layer master is charged for the other layer's |
| GapCounter.GapsNeverDecrease | src/receiver_mode.cpp:91-92 | In any run at all the counter never decreases |
| SelfHeal.Healer.MeshResyncTick | src/main.cpp:127-175 | The ladder's statics, the NVS counter and the action of one tick |
| SelfHeal.NvsCountsReboots | src/main.cpp:138-168 | Over any quality history across reboots, NVS is the number of auto-reboots since the last LOCKED tick, at most 2 |
| SelfHeal.RebootNeedsEpisode | src/main.cpp:147-166 | Every reboot ends an unbroken COARSE episode of at least 60 s with exactly two soft resets, at least 15 s from its start and from each other |
| SelfHeal.LadderActsIff | src/main.cpp:147-166 | Over any history, exactly when the ladder acts: a soft reset 15 s into an unbroken COARSE episode and 15 s after that, a reboot 60 s into it once both were tried, if fewer than two reboots since the last lock |
| SelfHeal.StuckNodeReboots | src/main.cpp:147-166 | A node COARSE for a minute and ticked at least every 15 s tries a soft reset and then reboots, unless it did so twice since its last lock |
| SelfHeal.QualityIs | src/nowde_state.cpp:103-123 | After an accepted playing packet and then none: for 10 s COARSE exactly if its stamp was more than 200 ms off or the clock is out of sync, else LOCKED; then none; a master always LOCKED |
| SelfHeal.HealsOnlyWhileFollowing | src/nowde_state.cpp:103-123 | A reset or reboot happens only on a node that is not master, whose last accepted packet is a playing one at most 10 s old |
| MeshClock.MeshClockNode.AdjustTo | lib/ESPNowMeshClock/src/ESPNowMeshClock.cpp:270-313 | Offset, synced flag and sync time after one remote stamp |
| MeshClock.MeshClockNode.HandleReceive | lib/ESPNowMeshClock/src/ESPNowMeshClock.cpp:192-235 | Which frames are beacons, and the state after any frame |
| MeshClock.MeshClockNode.Broadcast | lib/ESPNowMeshClock/src/ESPNowMeshClock.cpp:315-329 | The beacon is the packed stamp of the mesh time plus the lead |
| MeshClock.MeshClockNode.Reset | lib/ESPNowMeshClock/src/ESPNowMeshClock.cpp:168-172 | Reset is the boot state |
| MeshClock.BeaconKeepsSynced | lib/ESPNowMeshClock/src/ESPNowMeshClock.cpp:181-275 | Any beacon, even one from behind, makes the node synced for exactly 5 s; no other frame changes the clock |
| MeshClock.BeaconLayout | lib/ESPNowMeshClock/src/ESPNowMeshClock.cpp:320-329 | Every byte of the beacon, the stamp least significant byte first |
| MeshClock.BeaconRoundTrip | lib/ESPNowMeshClock/src/ESPNowMeshClock.cpp:220-329 | Packing and unpacking a stamp give it back modulo 2^56 |
| MeshClock.Contraction | lib/ESPNowMeshClock/src/ESPNowMeshClock.cpp:277-312 | After n beacons of a reference g0 ahead, 4^n (gn - 3) <= 3^n (g0 - 3), and the reference is never overshot |
| MeshClock.LocksWithin30 | lib/ESPNowMeshClock/src/ESPNowMeshClock.cpp:277-312 | Thirty beacons bring any node within 3 µs, from any distance behind |
| MeshClock.StuckIff | lib/ESPNowMeshClock/src/ESPNowMeshClock.cpp:299-301 | A beacon from ahead moves nothing exactly when the node is synced and at most 3 µs behind |
| MeshClock.FirstBeaconAdopts | lib/ESPNowMeshClock/src/ESPNowMeshClock.cpp:168-295 | After a reset the first beacon sets the mesh time to the later of hardware clock and stamp |
| ClockNetwork.MeshClockBound | lib/ESPNowMeshClock/src/ESPNowMeshClock.cpp:270-318 | With drift-free clocks and flights of at least d, k receptions raise the furthest mesh clock by at most k max(0, lead - d), in any order |
| ClockNetwork.BoundIsAttained | lib/ESPNowMeshClock/src/ESPNowMeshClock.cpp:277-295 | While stamps fit 56 bits that bound is met by some run, for any k when the excess is beyond the large step, otherwise along any k nodes that hear for the first time |
| ClockNetwork.SharpBound | lib/ESPNowMeshClock/src/ESPNowMeshClock.cpp:277-302 | Over any run the whole excess is charged only to receptions of nodes not synced or more than 10 ms behind, a quarter of it to all others |
| ClockNetwork.SyncedFleetBound | lib/ESPNowMeshClock/src/ESPNowMeshClock.cpp:299-302 | A synced fleet moves by at most a quarter of the excess per reception, as long as the bound stays within 10 ms of the last clock |
| ClockNetwork.FirstBeaconPushes | lib/ESPNowMeshClock/src/ESPNowMeshClock.cpp:277-302 | One beacon between synced nodes in agreement takes the hearer exactly that far: the excess beyond 10 ms, a quarter of it up to 10 ms |
| ClockNetwork.NeverBackward | lib/ESPNowMeshClock/src/ESPNowMeshClock.cpp:277-312 | No run without reset takes any mesh clock backward |
| ClockNetwork.AgreementLastsIff | lib/ESPNowMeshClock/src/ESPNowMeshClock.cpp:299-318 | A synced fleet in agreement is never disturbed, by any run, exactly when lead <= d + 3 |
| Codec7.EncodeInto | src/sysex.cpp:64-87 | The index loops write exactly the chunk-wise encoding and nothing behind it |
| Codec7.DecodeInto | src/sysex.cpp:90-111 | The same for decoding |
| Codec7.EncodedAt | src/sysex.cpp:62-87 | Where each byte goes: its low bits behind those before it in its seven, its top bit into the byte that leads them, the first in bit 0 |
| Codec7.EncodedLength | src/sysex.cpp:62-63 | n bytes encode to n + ceil(n / 7) |
| Codec7.DecodedLength | src/sysex.cpp:94-107 | The decoded length depends on the length alone: n - ceil(n / 8) |
| Codec7.DecodeEncode | tools/nowde_sysex.py:37-59 | Decoding an encoding gives the bytes back, for every byte string |
| Codec7.EncodeIsCanonical | tools/nowde_sysex.py:37-47 | Encodings hold data bytes only, no lone MSB byte, no bit for an absent byte |
| Codec7.EncodeDecodeIff | tools/nowde_sysex.py:50-59 | Re-encoding a decoded string gives it back exactly when it is canonical |
| Codec7.LosingBytesShortens | src/sysex.cpp:295-311 | An encoding that lost any bytes decodes to strictly fewer bytes |
| SysexChannel.SendSysExBytes | src/sysex.cpp:834-867 | The sending loop produces the packets of the frame |
| SysexChannel.SendByEnd | src/sysex.cpp:784-828 | The loop that looks for F7 among the next three bytes, as packets |
| SysexChannel.SendErrorReport | src/sysex.cpp:1094-1124 | The loop of the error report, as packets |
| SysexChannel.PayloadRoundTrip | src/sysex.cpp:834-867 | The packets carry exactly the message, for every message |
| SysexChannel.ByEndIsPacketise | src/sysex.cpp:1027-1072 | HELLO and RUNNING_STATE frames travel in the same packets as any other |
| SysexChannel.ErrorReportIff | src/sysex.cpp:1094-1124 | ERROR_REPORT, whatever context it carries, does so exactly when its length is 1 mod 3, and carries a stray byte exactly when it is 2 mod 3 |
| SysexChannel.Reassembler.MidiPacket | src/midi.cpp:138-194 | Buffer, flags and dispatched message after one packet |
| SysexChannel.FrameFromAnyState | src/midi.cpp:140-192 | From any state a whole frame leaves the reassembler idle and arrives, unless too long or an overflow was pending |
| SysexChannel.FramesFromAnyState | src/midi.cpp:140-192 | From any state at most the first of a row of frames is lost, only to a pending overflow, the rest arrive in order |
| SysexChannel.HandedWholeIff | src/sysex.cpp:113-121 | The handler gets a frame whole exactly up to 255 bytes, and ignores longer ones |
| SysexChannel.OtherTrafficIsTransparent | src/midi.cpp:138-140 | Packets of other kinds in between change nothing |
| Ota.OtaSession.OtaBegin | src/sysex.cpp:220-259 | The session after OTA_BEGIN, short frames and a refusing flash included |
| Ota.OtaSession.OtaData | src/sysex.cpp:261-293 | The session after a blind data frame |
| Ota.OtaSession.OtaDataAcked | src/sysex.cpp:295-324 | The session and the ACK after an acknowledged data frame |
| Ota.OtaSession.OtaEnd | src/sysex.cpp:326-363 | The session and what became bootable after OTA_END |
| Ota.AlwaysCounted | src/sysex.cpp:220-363 | Over any commands, the received counter is the number of bytes written while an update is open |
| Ota.AcceptedIsWhole | src/sysex.cpp:305-319 | A data frame that lost bytes is never written, a whole one is written as sent |
| Ota.CommitsExactFile | src/sysex.cpp:295-363 | OTA_BEGIN having arrived, a stop-and-wait transfer over a lossy link that gets to its end makes exactly the file bootable, and does so exactly when no ACK of a written chunk was lost and the library accepts the image |
| Ota.CommitsWhat | src/sysex.cpp:295-363 | The same into any open session, whoever began it: what is committed, and exactly when |
| Ota.BlindCommitsIff | src/sysex.cpp:261-363 | OTA_BEGIN having arrived, a blind stream over a link that loses frames or bytes of them commits exactly the file if every frame came whole and the library accepts it, and nothing otherwise |
| Ota.RefusedCommitsNothing | src/sysex.cpp:241-246 | With no update running, no commands make anything bootable until the flash accepts an OTA_BEGIN |
| Ota.ClosedTakesNothing | src/sysex.cpp:302-320 | With no session open no transfer advances and nothing is committed |
| Ota.OnlyTheFileIff | src/sysex.cpp:252-253 | Exactly for which open sessions a transfer can only ever commit its own file, OTA_BEGIN lost or not |
| Ota.LostBeginCommitsAnother | src/sysex.cpp:252-253 | The shortest session for which it can commit something else |
| Ota.FrameOverMidi | src/midi.cpp:140-192 | An acknowledged data frame in USB-MIDI packets reaches the handler whole |
| UsbOut.UsbQueue.UsbOutMidi | src/usb_out.cpp:110-119 | Accepted exactly while fewer than 1024 packets wait, at the back |
| UsbOut.UsbQueue.UsbOutPump | src/usb_out.cpp:133-155 | A pump call is a run of single take, write and refuse steps, at most 64 packets |
| UsbOut.PumpSendsOldest | src/usb_out.cpp:136-141 | With a host that reads, a call sends the oldest 64 packets in order |
| UsbOut.PumpSendsUntilRefused | src/usb_out.cpp:133-155 | Whatever the endpoint answers, a call sends the oldest packets in order up to its first refusal and stops there; the rest waits, unless the stall drops it |
| UsbOut.StepConserves | src/usb_out.cpp:133-155 | Every step keeps sent, held and queued packets equal to the accepted ones in order, exactly unless a retry finds the queue full |
| UsbOut.RunConserves | src/usb_out.cpp:110-155 | Over every interleaving of other tasks with the pump, nothing is missing exactly if no retry since the last drop found the queue full, and each that did cost one packet |
| UsbOut.InterruptedRetryLoses | src/usb_out.cpp:145-153 | A run from boot that loses a packet that way |
| UsbOut.AlonePumpConserves | src/usb_out.cpp:110-155 | And unconditionally when no task interrupts the pump |
| UsbOut.ResetIff | src/usb_out.cpp:145-150 | Over every run a refused write drops the queue exactly if writes were refused, none succeeding, for more than 200 ms |
| UsbOut.NoGhostStream | src/usb_out.cpp:142-150 | Over every run, what went out since the last drop is a subsequence, in order, of what was accepted since it, and a prefix if no retry was squeezed; so nothing older ever goes out |
| Mtc.MidiSendTimeCode | src/midi.cpp:52-75 | Whatever the host heard before, the eight quarter frames make it show the one time sent, at the 30 fps rate code |
| Mtc.PiecesRoundTrip | tools/nowde-cli.py:74-81 | Quarter frames of any eight nibbles are read back as those nibbles |
| Mtc.MidiSendFullFrame | src/midi.cpp:84-96 | The full frame is a SysEx frame in its usual packets, read back as the same time |
| Mtc.FrameCountIff | src/midi.cpp:19-27 | The time sent is floor(30 ms / 1000) frames modulo 24 h exactly up to 143165576 ms |

## Left out

- Preemption inside one receive call, one task iteration or one queue operation: torn 64-bit offset reads,
  `meshMicrosStable`, `meshMillisStable`, and the receive callback racing the tick. A pump call alone is split into
  single queue operations.
- `millis()` wrap-around: times since boot do not wrap. Positions and mesh timestamps are 32-bit and do.
- 64-bit sums of the mesh clock: hardware clock plus offset stay below 2^63 µs; beacons are cut to 56 bits as coded.
- `abs(INT32_MIN)` is taken mathematically: a clock difference of exactly 2^31 ms counts as untrusted.
- Drift of the hardware clocks: the fleet theorems are about clocks running at one rate.
- `sendHello` and the RUNNING_STATE sender build their frames elsewhere; only how they packetise a frame is modelled.
- Bytes of a pending payload beyond its length: nothing reads them.
- MIDI values off the protocol: the host mirror is stated for state 0 or 1 and index up to 127, as masters send.
- The host mirror, origin lock and gap counter are per boot; only the NVS counter survives a reboot.
- LateHostHearsIndex: says nothing of the packet that starts playback, which carries Start and a full frame but repeats
  an index only if it changed.
- Switching the loss policy during a link loss: playback goes on freewheeling; the link-loss lemmas keep one policy.
- CounterExactIff: is about steps the 16-bit charge is right about (`ChargeIsRightIff` says which); beyond those, over-
  and undercharges can cancel, and `CounterIsCharges` gives the counter.
- Dropping frames of an older seq: not coded. A late relayed copy is applied and moves the gap anchor back; what that
  does to the counter is `LateCopyIsCharged` and `CounterExactIff`.
- Contiguity of one frame in the output queue: not guaranteed as coded, since some senders take no lock.
- The flash partition is below 4 GiB; the `Update` library is an append-only image that may refuse any write or the end.
- FreeRTOS, TinyUSB, the radio and `random` are nondeterministic steps, write results, losses and delays.
- The host's MEDIA_SYNC SysEx: how its fields are unpacked; the model starts from the fields the master puts on the air.
- RF simulation, sender and receiver tables, role resolution, NVS getters, the log ring, LCD, LED and button: bookkeeping.
- `MIDI_EVENT` (0x04) is reserved in the code and has no behaviour yet.
