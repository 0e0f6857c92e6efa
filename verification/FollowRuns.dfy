// Runs of one slave since boot.
module FollowRuns {
  import opened Bytes
  import opened RelaySpec
  import opened FollowSpec

  /** Everything that changes the follow state: packets, ticks, and the two host commands. */
  datatype Event =
    | Frame(origin: Mac, packet: Packet, meshNow: u32, now: int)
    | Tick(now: int)
    | Pin(mac: Mac, now: int)
    | Release
    | SetLossPolicy(stop: bool)

  function Apply(f: Follow, layer: seq<byte>, e: Event): Follow {
    match e
    case Frame(origin, packet, meshNow, now) => OnPacket(f, layer, origin, packet, meshNow, now)
    case Tick(now) => OnTick(f, now)
    case Pin(mac, now) => PinOrigin(f, mac, now)
    case Release => ReleaseOrigin(f)
    case SetLossPolicy(stop) => f.(sync := f.sync.(stopOnLinkLost := stop))
  }

  function Exec(f: Follow, layer: seq<byte>, events: seq<Event>): Follow {
    if |events| == 0 then f else Apply(Exec(f, layer, events[..|events| - 1]), layer, events[|events| - 1])
  }

  /** Whether the event is a packet this slave accepts in state `f`. */
  predicate Accepted(f: Follow, layer: seq<byte>, e: Event) {
    e.Frame? && LayerMatches(layer, e.packet.layer) && Accepts(f.lock, e.origin, e.now)
  }

  /** Protocol values: a stopped or playing master, a media index that fits a MIDI data byte. */
  predicate OnProtocol(e: Event) {
    e.Frame? ==> e.packet.state <= 1 && e.packet.mediaIndex <= 127
  }

  /** The event makes the slave send `m`. */
  predicate Tells(f: Follow, layer: seq<byte>, e: Event, m: Midi) {
    var out := Apply(f, layer, e).out;
    |f.out| <= |out| && m in out[|f.out|..]
  }

  /** Some packet of the run is accepted. */
  predicate AnyAccepted(f: Follow, layer: seq<byte>, events: seq<Event>) {
    |events| > 0 &&
    (AnyAccepted(f, layer, events[..|events| - 1]) ||
     Accepted(Exec(f, layer, events[..|events| - 1]), layer, events[|events| - 1]))
  }
}
