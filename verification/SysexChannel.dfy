// SysEx over USB-MIDI event packets (section 4, Table 4-1 of the USB Device Class Definition for MIDI Devices
// 1.0): the packetisers of src/sysex.cpp and the reassembler of src/midi.cpp.
module SysexChannel {
  import opened Bytes
  import opened RelaySpec

  const SYSEX_START: byte := 0xF0
  const SYSEX_END: byte := 0xF7
  const SYSEX_BUFFER_SIZE: nat := 512

  datatype Packet = Packet(header: byte, byte1: byte, byte2: byte, byte3: byte)

  /** A whole SysEx frame: F0, 7-bit bytes, F7. */
  predicate IsFrame(f: seq<byte>) {
    && |f| >= 2 && f[0] == SYSEX_START && f[|f| - 1] == SYSEX_END
    && forall i :: 0 < i < |f| - 1 ==> f[i] < 0x80
  }

  // ----- packetisers -----

  /** What is left after the first three bytes. */
  function Rest(m: seq<byte>): seq<byte> {
    if |m| > 3 then m[3..] else []
  }

  function First(m: seq<byte>): Packet
    requires |m| > 0
  {
    if |m| > 3 then Packet(4, m[0], m[1], m[2])
    else if |m| == 3 then Packet(7, m[0], m[1], m[2])
    else if |m| == 2 then Packet(6, m[0], m[1], 0)
    else Packet(5, m[0], 0, 0)
  }

  function Packetise(m: seq<byte>): seq<Packet>
    decreases |m|
  {
    if |m| == 0 then [] else [First(m)] + Packetise(Rest(m))
  }

  method SendSysExBytes(message: seq<byte>) returns (sent: seq<Packet>)
    ensures sent == Packetise(message)
  {
    sent := [];
    var pos := 0;
    while pos < |message|
      invariant 0 <= pos <= |message|
      invariant sent + Packetise(message[pos..]) == Packetise(message)
    {
      ghost var rest := message[pos..];
      var remaining := |message| - pos;
      var p: Packet;
      if remaining > 3 {
        p := Packet(4, message[pos], message[pos + 1], message[pos + 2]);
        pos := pos + 3;
      } else if remaining == 3 {
        p := Packet(7, message[pos], message[pos + 1], message[pos + 2]);
        pos := pos + 3;
      } else if remaining == 2 {
        p := Packet(6, message[pos], message[pos + 1], 0);
        pos := pos + 2;
      } else {
        p := Packet(5, message[pos], 0, 0);
        pos := pos + 1;
      }
      assert p == First(rest) && message[pos..] == Rest(rest);
      assert Packetise(rest) == [p] + Packetise(message[pos..]);
      sent := sent + [p];
    }
  }

  function At(m: seq<byte>, i: nat): byte {
    if i < |m| then m[i] else 0
  }

  /** Where F7 is among the first three bytes, or 3. */
  function EndAt(m: seq<byte>): (e: nat)
    ensures e <= 3 && (e < 3 ==> e < |m| && m[e] == SYSEX_END)
    ensures forall i :: 0 <= i < e && i < |m| ==> m[i] != SYSEX_END
  {
    if |m| > 0 && m[0] == SYSEX_END then 0
    else if |m| > 1 && m[1] == SYSEX_END then 1
    else if |m| > 2 && m[2] == SYSEX_END then 2
    else 3
  }

  function FirstByEnd(m: seq<byte>): Packet
    requires |m| > 0
  {
    var e := EndAt(m);
    if e == 0 then Packet(5, m[0], 0, 0)
    else if e == 1 then Packet(6, m[0], m[1], 0)
    else if e == 2 then Packet(7, m[0], m[1], m[2])
    else Packet(4, m[0], At(m, 1), At(m, 2))
  }

  function RestByEnd(m: seq<byte>): seq<byte>
    requires |m| > 0
  {
    var n := if EndAt(m) < 3 then EndAt(m) + 1 else 3;
    if n <= |m| then m[n..] else []
  }

  /** The HELLO and RUNNING_STATE form, which looks for F7 among the next three bytes. */
  function PacketiseByEnd(m: seq<byte>): seq<Packet>
    decreases |m|
  {
    if |m| == 0 then [] else [FirstByEnd(m)] + PacketiseByEnd(RestByEnd(m))
  }

  method FindEnd(message: seq<byte>, pos: nat) returns (endPos: nat)
    requires pos < |message|
    ensures endPos == EndAt(message[pos..])
  {
    endPos := 3;
    var i := 0;
    while i < 3 && pos + i < |message|
      invariant 0 <= i <= 3 && endPos == 3
      invariant forall j :: 0 <= j < i && j < |message| - pos ==> message[pos..][j] != SYSEX_END
    {
      if message[pos + i] == SYSEX_END {
        return i;
      }
      i := i + 1;
    }
  }

  method NextByEnd(message: seq<byte>, pos: nat) returns (p: Packet, next: nat)
    requires pos < |message|
    ensures pos < next <= |message|
    ensures p == FirstByEnd(message[pos..]) && message[next..] == RestByEnd(message[pos..])
  {
    var endPos := FindEnd(message, pos);
    if endPos == 0 {
      p := Packet(5, message[pos], 0, 0);
      next := pos + 1;
    } else if endPos == 1 {
      p := Packet(6, message[pos], message[pos + 1], 0);
      next := pos + 2;
    } else if endPos == 2 {
      p := Packet(7, message[pos], message[pos + 1], message[pos + 2]);
      next := pos + 3;
    } else {
      p := Packet(4, message[pos], At(message, pos + 1), At(message, pos + 2));
      next := if pos + 3 < |message| then pos + 3 else |message|;
    }
  }

  method SendByEnd(message: seq<byte>) returns (sent: seq<Packet>)
    ensures sent == PacketiseByEnd(message)
  {
    sent := [];
    var pos := 0;
    while pos < |message|
      invariant 0 <= pos <= |message|
      invariant sent + PacketiseByEnd(message[pos..]) == PacketiseByEnd(message)
    {
      var p, next := NextByEnd(message, pos);
      assert PacketiseByEnd(message[pos..]) == [p] + PacketiseByEnd(message[next..]);
      sent := sent + [p];
      pos := next;
    }
  }

  /** sendErrorReport's form: CIN 4 for everything but a lone last byte. */
  function FirstError(m: seq<byte>, first: bool): Packet
    requires |m| > 0
  {
    if !first && |m| == 1 && m[0] == SYSEX_END then Packet(5, m[0], 0, 0)
    else Packet(4, m[0], At(m, 1), At(m, 2))
  }

  function PacketiseError(m: seq<byte>, first: bool): seq<Packet>
    decreases |m|
  {
    if |m| == 0 then [] else [FirstError(m, first)] + PacketiseError(Rest(m), false)
  }

  method NextError(message: seq<byte>, pos: nat) returns (p: Packet, next: nat)
    requires pos < |message|
    ensures pos < next <= |message|
    ensures p == FirstError(message[pos..], pos == 0) && message[next..] == Rest(message[pos..])
  {
    if pos != 0 && pos >= |message| - 1 && message[|message| - 1] == SYSEX_END {
      p := Packet(5, message[pos], 0, 0);
      next := pos + 1;
    } else {
      p := Packet(4, message[pos], At(message, pos + 1), At(message, pos + 2));
      next := if pos + 3 <= |message| then pos + 3 else |message|;
    }
  }

  method SendErrorReport(message: seq<byte>) returns (sent: seq<Packet>)
    ensures sent == PacketiseError(message, true)
  {
    sent := [];
    var pos := 0;
    while pos < |message|
      invariant 0 <= pos <= |message|
      invariant sent + PacketiseError(message[pos..], pos == 0) == PacketiseError(message, true)
    {
      var p, next := NextError(message, pos);
      assert PacketiseError(message[pos..], pos == 0) == [p] + PacketiseError(message[next..], false);
      sent := sent + [p];
      pos := next;
    }
  }

  // ----- what the packets carry -----

  function DataBytes(cin: nat): nat {
    if cin == 5 then 1 else if cin == 6 then 2 else if cin == 4 || cin == 7 then 3 else 0
  }

  function Carried(p: Packet): seq<byte> {
    [p.byte1, p.byte2, p.byte3][..DataBytes(p.header % 16)]
  }

  function Payload(packets: seq<Packet>): seq<byte> {
    if |packets| == 0 then [] else Carried(packets[0]) + Payload(packets[1..])
  }

  lemma PayloadOfOne(p: Packet, rest: seq<Packet>)
    ensures Payload([p] + rest) == Carried(p) + Payload(rest)
  {
    assert ([p] + rest)[1..] == rest;
  }

  lemma FirstCarries(m: seq<byte>)
    requires |m| > 0
    ensures Carried(First(m)) == if |m| > 3 then m[..3] else m
    ensures m == Carried(First(m)) + Rest(m)
  {
  }

  /** The packets carry exactly the message, whatever it is. */
  lemma {:induction false} PayloadRoundTrip(m: seq<byte>)
    ensures Payload(Packetise(m)) == m
    decreases |m|
  {
    if |m| > 0 {
      PayloadOfOne(First(m), Packetise(Rest(m)));
      PayloadRoundTrip(Rest(m));
      FirstCarries(m);
    }
  }

  /** F7 at the end and nowhere else. */
  predicate EndsOnce(m: seq<byte>) {
    && (|m| > 0 ==> m[|m| - 1] == SYSEX_END)
    && forall i :: 0 <= i < |m| - 1 ==> m[i] != SYSEX_END
  }

  /** HELLO and RUNNING_STATE frames go out in the same packets as any other. */
  lemma {:induction false} ByEndIsPacketise(m: seq<byte>)
    requires EndsOnce(m)
    ensures PacketiseByEnd(m) == Packetise(m)
    decreases |m|
  {
    if |m| > 0 {
      assert FirstByEnd(m) == First(m) && RestByEnd(m) == Rest(m);
      ByEndIsPacketise(Rest(m));
    }
  }

  /** F7 at the end, whatever is in between. */
  predicate EndsWithF7(m: seq<byte>) {
    |m| > 0 ==> m[|m| - 1] == SYSEX_END
  }

  lemma FirstErrorCarries(m: seq<byte>, first: bool)
    requires |m| > 0 && EndsWithF7(m)
    ensures Carried(FirstError(m, first)) ==
            if |m| > 3 then m[..3]
            else if |m| == 3 || (|m| == 1 && !first) then m
            else m + if |m| == 2 then [0] else [0, 0]
    ensures FirstError(m, first) == First(m) <==> |m| > 3 || (|m| == 1 && !first)
  {
  }

  lemma SameCons(p: Packet, ps: seq<Packet>, q: Packet, qs: seq<Packet>)
    ensures [p] + ps == [q] + qs <==> p == q && ps == qs
  {
    if [p] + ps == [q] + qs {
      assert ([p] + ps)[0] == p && ([q] + qs)[0] == q;
      assert ([p] + ps)[1..] == ps && ([q] + qs)[1..] == qs;
    }
  }

  lemma RestMod(m: seq<byte>)
    ensures |m| > 3 ==> |Rest(m)| % 3 == |m| % 3
    ensures Rest(m) == [] <==> |m| <= 3
  {
  }

  lemma {:induction false} ErrorTail(m: seq<byte>)
    requires EndsWithF7(m)
    ensures PacketiseError(m, false) == Packetise(m) <==> |m| % 3 == 1 || m == []
    decreases |m|
  {
    if |m| > 0 {
      ErrorTail(Rest(m));
      FirstErrorCarries(m, false);
      SameCons(FirstError(m, false), PacketiseError(Rest(m), false), First(m), Packetise(Rest(m)));
      RestMod(m);
    }
  }

  lemma {:induction false} ErrorPayload(m: seq<byte>)
    requires EndsWithF7(m)
    ensures Payload(PacketiseError(m, false)) == if |m| % 3 == 2 then m + [0] else m
    decreases |m|
  {
    if |m| > 0 {
      ErrorPayload(Rest(m));
      FirstErrorCarries(m, false);
      PayloadOfOne(FirstError(m, false), PacketiseError(Rest(m), false));
      RestMod(m);
      if |m| > 3 {
        assert m == m[..3] + Rest(m);
      }
    }
  }

  /** ERROR_REPORT messages (six bytes at least, and any context in them, F0 and F7 of a refused frame included) do so
      exactly when their length is 1 modulo 3, and carry a stray zero after F7 exactly when it is 2 modulo 3. */
  lemma ErrorReportIff(m: seq<byte>)
    requires |m| >= 6 && EndsWithF7(m)
    ensures PacketiseError(m, true) == Packetise(m) <==> |m| % 3 == 1
    ensures Payload(PacketiseError(m, true)) == m <==> |m| % 3 != 2
  {
    assert FirstError(m, true) == FirstError(m, false);
    ErrorTail(m);
    ErrorPayload(m);
  }

  // ----- reassembler -----

  /** `buffer` is the written part of sysexBuffer. */
  datatype Assembly = Assembly(buffer: seq<byte>, inSysex: bool, overflow: bool)

  function Idle(): Assembly {
    Assembly([], false, false)
  }

  /** The message as handleSysExMessage gets it: its length parameter is a uint8_t. */
  function Handed(buffer: seq<byte>): seq<byte> {
    buffer[..|buffer| % 256]
  }

  function Store(a: Assembly, b: byte): Assembly {
    if |a.buffer| < SYSEX_BUFFER_SIZE then a.(buffer := a.buffer + [b]) else a.(overflow := true)
  }

  function FeedBytes(a: Assembly, bytes: seq<byte>): (Assembly, Option<seq<byte>>)
    decreases |bytes|
  {
    if |bytes| == 0 then (a, None)
    else
      var m := Store(a, bytes[0]);
      if bytes[0] == SYSEX_END then (Idle(), if m.overflow then None else Some(Handed(m.buffer)))
      else FeedBytes(m, bytes[1..])
  }

  function FeedPacket(a: Assembly, p: Packet): (Assembly, Option<seq<byte>>) {
    if Carried(p) == [] then (a, None)
    else
      var m := if p.byte1 == SYSEX_START then a.(inSysex := true, buffer := []) else a;
      if m.inSysex then FeedBytes(m, Carried(p)) else (m, None)
  }

  function Prepend(handed: Option<seq<byte>>, later: seq<seq<byte>>): seq<seq<byte>> {
    if handed.Some? then [handed.value] + later else later
  }

  /** The assembly after the packets, and the messages handed over on the way. */
  function Feed(a: Assembly, packets: seq<Packet>): (Assembly, seq<seq<byte>>)
    decreases |packets|
  {
    if |packets| == 0 then (a, [])
    else
      var (m, handed) := FeedPacket(a, packets[0]);
      var (end, later) := Feed(m, packets[1..]);
      (end, Prepend(handed, later))
  }

  class Reassembler {
    const sysexBuffer: array<byte>
    var sysexIndex: nat
    var inSysex: bool
    var sysexOverflow: bool

    ghost predicate Valid()
      reads this, sysexBuffer
    {
      sysexBuffer.Length == SYSEX_BUFFER_SIZE && sysexIndex <= SYSEX_BUFFER_SIZE
    }

    ghost function View(): Assembly
      requires Valid()
      reads this, sysexBuffer
    {
      Assembly(sysexBuffer[..sysexIndex], inSysex, sysexOverflow)
    }

    constructor ()
      ensures Valid() && fresh(sysexBuffer) && View() == Idle()
    {
      sysexBuffer := new byte[SYSEX_BUFFER_SIZE];
      sysexIndex, inSysex, sysexOverflow := 0, false, false;
    }

    method StoreByte(b: byte)
      requires Valid()
      modifies this, sysexBuffer
      ensures Valid() && View() == Store(old(View()), b)
    {
      ghost var before := sysexBuffer[..sysexIndex];
      if sysexIndex < SYSEX_BUFFER_SIZE {
        sysexBuffer[sysexIndex] := b;
        sysexIndex := sysexIndex + 1;
        assert sysexBuffer[..sysexIndex] == before + [b];
      } else {
        sysexOverflow := true;
      }
    }

    /** One packet of the host; `handed` is what goes to the command handler. */
    method MidiPacket(packet: Packet) returns (handed: Option<seq<byte>>)
      requires Valid()
      modifies this, sysexBuffer
      ensures Valid() && (View(), handed) == FeedPacket(old(View()), packet)
    {
      handed := None;
      var cin := packet.header % 16;
      if 4 <= cin <= 7 {
        var dataBytes := DataBytes(cin);
        if packet.byte1 == SYSEX_START {
          inSysex := true;
          sysexIndex := 0;
        }
        if inSysex {
          var bytes := [packet.byte1, packet.byte2, packet.byte3];
          ghost var whole := FeedBytes(View(), Carried(packet));
          var i := 0;
          while i < dataBytes
            invariant Valid() && 0 <= i <= dataBytes <= 3 && handed == None
            invariant FeedBytes(View(), bytes[i..dataBytes]) == whole
          {
            assert bytes[i..dataBytes][1..] == bytes[i + 1..dataBytes];
            StoreByte(bytes[i]);
            if bytes[i] == SYSEX_END {
              if !sysexOverflow {
                handed := Some(sysexBuffer[..sysexIndex % 256]);
                assert sysexBuffer[..sysexIndex % 256] == sysexBuffer[..sysexIndex][..sysexIndex % 256];
              }
              inSysex := false;
              sysexIndex := 0;
              sysexOverflow := false;
              return;
            }
            i := i + 1;
          }
        }
      }
    }
  }

  // ----- what comes out -----

  lemma FeedThree(a: Assembly, b: seq<byte>)
    requires |b| == 3 && b[0] != SYSEX_END && b[1] != SYSEX_END && b[2] != SYSEX_END
    ensures FeedBytes(a, b) == (Store(Store(Store(a, b[0]), b[1]), b[2]), None)
  {
    var m := Store(a, b[0]);
    assert FeedBytes(a, b) == FeedBytes(m, b[1..]);
    assert FeedBytes(m, b[1..]) == FeedBytes(Store(m, b[1]), b[1..][1..]);
    assert FeedBytes(Store(m, b[1]), b[1..][1..]) == FeedBytes(Store(Store(m, b[1]), b[2]), []);
  }

  lemma {:induction false} FeedLast(a: Assembly, b: seq<byte>)
    requires |a.buffer| <= SYSEX_BUFFER_SIZE && 0 < |b| <= 3 && EndsOnce(b)
    ensures FeedBytes(a, b) ==
            (Idle(), if a.overflow || |a.buffer| + |b| > SYSEX_BUFFER_SIZE then None else Some(Handed(a.buffer + b)))
    decreases |b|
  {
    var m := Store(a, b[0]);
    if |b| == 1 {
      assert a.buffer + b == a.buffer + [b[0]];
    } else {
      assert a.buffer + b == a.buffer + [b[0]] + b[1..];
      assert FeedBytes(a, b) == FeedBytes(m, b[1..]);
      FeedLast(m, b[1..]);
    }
  }

  /** What a frame, or the rest of one, comes to once the reassembler is inside it. */
  function Outcome(a: Assembly, rest: seq<byte>): seq<seq<byte>> {
    if a.overflow || |a.buffer| + |rest| > SYSEX_BUFFER_SIZE then [] else [Handed(a.buffer + rest)]
  }

  lemma StoreThree(a: Assembly, m: seq<byte>)
    requires |a.buffer| <= SYSEX_BUFFER_SIZE && |m| > 3
    ensures
      var b := Store(Store(Store(a, m[0]), m[1]), m[2]);
      b.inSysex == a.inSysex && |b.buffer| <= SYSEX_BUFFER_SIZE && Outcome(b, m[3..]) == Outcome(a, m)
  {
    var b := Store(Store(Store(a, m[0]), m[1]), m[2]);
    assert !b.overflow ==> b.buffer + m[3..] == a.buffer + m;
  }

  lemma FeedCons(a: Assembly, p: Packet, rest: seq<Packet>)
    ensures
      var (m, handed) := FeedPacket(a, p);
      var (end, later) := Feed(m, rest);
      Feed(a, [p] + rest) == (end, Prepend(handed, later))
  {
    assert ([p] + rest)[1..] == rest;
  }

  /** The rest of a frame reaching a reassembler that is inside it, its first packet taken as data. */
  lemma {:induction false} FeedRest(a: Assembly, m: seq<byte>)
    requires a.inSysex && |a.buffer| <= SYSEX_BUFFER_SIZE && |m| > 0 && EndsOnce(m)
    requires forall i :: 0 < i < |m| ==> m[i] != SYSEX_START
    ensures
      var (b, handed) := FeedBytes(a, Carried(First(m)));
      var (end, later) := Feed(b, Packetise(Rest(m)));
      end == Idle() && Prepend(handed, later) == Outcome(a, m)
    decreases |m|
  {
    FirstCarries(m);
    if |m| > 3 {
      var rest := m[3..];
      FeedThree(a, m[..3]);
      StoreThree(a, m);
      var b := Store(Store(Store(a, m[0]), m[1]), m[2]);
      FeedRest(b, rest);
      FeedCons(b, First(rest), Packetise(Rest(rest)));
      assert First(rest).byte1 != SYSEX_START;
    } else {
      FeedLast(a, m);
    }
  }

  lemma FirstIsSysex(m: seq<byte>)
    requires |m| > 0
    ensures IsSysex(First(m)) && First(m).byte1 == m[0]
  {
  }

  lemma StartPacket(a: Assembly, p: Packet)
    requires p.byte1 == SYSEX_START && IsSysex(p)
    ensures FeedPacket(a, p) == FeedBytes(a.(inSysex := true, buffer := []), Carried(p))
  {
  }

  /** From ANY state of the reassembler, a whole frame leaves it idle, and is handed over unless it is too long
      for the buffer or an overflow was pending from bytes before it. */
  lemma FrameFromAnyState(a: Assembly, frame: seq<byte>)
    requires |a.buffer| <= SYSEX_BUFFER_SIZE && IsFrame(frame)
    ensures Feed(a, Packetise(frame)) ==
            (Idle(), if a.overflow || |frame| > SYSEX_BUFFER_SIZE then [] else [Handed(frame)])
  {
    var start := a.(inSysex := true, buffer := []);
    FeedRest(start, frame);
    FirstIsSysex(frame);
    StartPacket(a, First(frame));
    FeedCons(a, First(frame), Packetise(Rest(frame)));
    assert start.buffer + frame == frame;
  }

  lemma PrependAppend(handed: Option<seq<byte>>, early: seq<seq<byte>>, later: seq<seq<byte>>)
    ensures Prepend(handed, early + later) == Prepend(handed, early) + later
  {
    if handed.Some? {
      assert [handed.value] + (early + later) == ([handed.value] + early) + later;
    }
  }

  lemma {:induction false} FeedAppend(a: Assembly, first: seq<Packet>, second: seq<Packet>)
    ensures
      var (m, early) := Feed(a, first);
      var (end, later) := Feed(m, second);
      Feed(a, first + second) == (end, early + later)
    decreases |first|
  {
    if |first| > 0 {
      FeedAppend(FeedPacket(a, first[0]).0, first[1..], second);
      assert first + second == [first[0]] + (first[1..] + second);
      FeedCons(a, first[0], first[1..] + second);
      var (m, handed) := FeedPacket(a, first[0]);
      var (end, early) := Feed(m, first[1..]);
      PrependAppend(handed, early, Feed(end, second).1);
    } else {
      assert first + second == second;
      assert [] + Feed(a, second).1 == Feed(a, second).1;
    }
  }

  function PacketiseAll(frames: seq<seq<byte>>): seq<Packet> {
    if |frames| == 0 then [] else Packetise(frames[0]) + PacketiseAll(frames[1..])
  }

  function HandedAll(frames: seq<seq<byte>>): seq<seq<byte>> {
    if |frames| == 0 then []
    else (if |frames[0]| <= SYSEX_BUFFER_SIZE then [Handed(frames[0])] else []) + HandedAll(frames[1..])
  }

  /** Self-stabilisation: from ANY state at most the first of a row of frames is lost, and only to a pending
      overflow; every later one that fits the buffer arrives, in order. */
  lemma {:induction false} FramesFromAnyState(a: Assembly, frames: seq<seq<byte>>)
    requires |a.buffer| <= SYSEX_BUFFER_SIZE && forall i :: 0 <= i < |frames| ==> IsFrame(frames[i])
    ensures Feed(a, PacketiseAll(frames)).1 == HandedAll(if a.overflow && frames != [] then frames[1..] else frames)
    decreases |frames|
  {
    if |frames| > 0 {
      FrameFromAnyState(a, frames[0]);
      FeedAppend(a, Packetise(frames[0]), PacketiseAll(frames[1..]));
      FramesFromAnyState(Idle(), frames[1..]);
    }
  }

  /** The handler's first check. */
  predicate LooksWhole(data: seq<byte>) {
    |data| >= 2 && data[0] == SYSEX_START && data[|data| - 1] == SYSEX_END
  }

  /** The handler gets a frame of the buffer whole exactly up to 255 bytes; of a longer one it gets a piece that
      fails its first check, so the frame is ignored. */
  lemma HandedWholeIff(frame: seq<byte>)
    requires IsFrame(frame) && |frame| <= SYSEX_BUFFER_SIZE
    ensures Handed(frame) == frame <==> |frame| <= 255
    ensures LooksWhole(Handed(frame)) <==> |frame| <= 255
  {
  }

  // ----- other traffic in between -----

  predicate IsSysex(p: Packet) {
    4 <= p.header % 16 <= 7
  }

  function SysexOnly(packets: seq<Packet>): seq<Packet> {
    if |packets| == 0 then []
    else (if IsSysex(packets[0]) then [packets[0]] else []) + SysexOnly(packets[1..])
  }

  /** Control changes, MIDI Time Code and real-time packets between the packets of a frame change nothing. */
  lemma {:induction false} OtherTrafficIsTransparent(a: Assembly, packets: seq<Packet>)
    ensures Feed(a, packets) == Feed(a, SysexOnly(packets))
    decreases |packets|
  {
    if |packets| > 0 {
      OtherTrafficIsTransparent(FeedPacket(a, packets[0]).0, packets[1..]);
      if IsSysex(packets[0]) {
        assert SysexOnly(packets)[1..] == SysexOnly(packets[1..]);
      } else {
        assert SysexOnly(packets) == SysexOnly(packets[1..]);
      }
    }
  }
}
