// MIDI Time Code out of src/midi.cpp, and what tools/nowde-cli.py makes of it. Messages as in the MIDI Time Code
// part of the MIDI 1.0 Detailed Specification: eight quarter frames, or one full frame.
module Mtc {
  import opened Bytes
  import opened SysexChannel

  const MTC_FRAMERATE: nat := 30
  const FRAMES_PER_DAY: nat := 2592000

  /** The last position whose product with the frame rate fits 32 bits. */
  const LAST_EXACT_MS: nat := 143165576

  datatype Smpte = Smpte(hours: nat, minutes: nat, seconds: nat, frames: nat)

  predicate IsTime(t: Smpte) {
    t.hours < 24 && t.minutes < 60 && t.seconds < 60 && t.frames < 30
  }

  function ToSmpte(positionMs: u32): (t: Smpte)
    ensures IsTime(t)
  {
    var totalFrames := U32(positionMs * MTC_FRAMERATE) / 1000;
    Smpte(totalFrames / (MTC_FRAMERATE * 3600) % 24, totalFrames / (MTC_FRAMERATE * 60) % 60,
          totalFrames / MTC_FRAMERATE % 60, totalFrames % MTC_FRAMERATE)
  }

  // ----- the host -----

  /** The host's quarter-frame registers: the last value of each piece. */
  type Registers = r: seq<nat> | |r| == 8 witness [0, 0, 0, 0, 0, 0, 0, 0]

  function ReadRegisters(r: Registers): Smpte {
    Smpte(r[6] + 16 * (r[7] % 2), r[4] + 16 * r[5], r[2] + 16 * r[3], r[0] + 16 * r[1])
  }

  /** The times the host shows while the packets arrive, a quarter frame being a two-byte system common message (CIN 2):
      one at each piece 7. */
  function Shown(r: Registers, packets: seq<Packet>): seq<Smpte>
    decreases |packets|
  {
    if |packets| == 0 then []
    else if packets[0].header % 16 != 2 || packets[0].byte1 != 0xF1 then Shown(r, packets[1..])
    else
      var piece, value := packets[0].byte2 / 16 % 8, packets[0].byte2 % 16;
      var s: Registers := r[piece := value];
      if piece == 7 then [ReadRegisters(s)] + Shown(s, packets[1..]) else Shown(s, packets[1..])
  }

  /** A full frame as the host reads it, F0 and F7 included. */
  function ReadFullFrame(m: seq<byte>): Smpte
    requires |m| == 10
  {
    Smpte(m[5] % 32, m[6], m[7], m[8])
  }

  // ----- the node -----

  function QuarterFrame(piece: nat, nibble: nat): Packet
    requires piece < 8 && nibble < 16
  {
    Packet(2, 0xF1, 16 * piece + nibble, 0)
  }

  /** The eight nibbles of a time, the rate code of 30 fps in the last. */
  function Nibbles(t: Smpte): (n: Registers)
    requires IsTime(t)
    ensures forall i :: 0 <= i < 8 ==> n[i] < 16
    ensures ReadRegisters(n) == t
  {
    [t.frames % 16, t.frames / 16 % 2, t.seconds % 16, t.seconds / 16 % 4,
     t.minutes % 16, t.minutes / 16 % 4, t.hours % 16, t.hours / 16 % 2 + 2 * 3]
  }

  function Pieces(n: Registers, k: nat): seq<Packet>
    requires k <= 8 && forall i :: 0 <= i < 8 ==> n[i] < 16
    decreases 8 - k
  {
    if k == 8 then [] else [QuarterFrame(k, n[k])] + Pieces(n, k + 1)
  }

  function FullFrame(t: Smpte): seq<byte>
    requires IsTime(t)
  {
    [0xF0, 0x7F, 0x7F, 0x01, 0x01, 3 * 32 + t.hours, t.minutes, t.seconds, t.frames, 0xF7]
  }

  lemma PieceByte(piece: nat, nibble: nat)
    requires piece < 8 && nibble < 16
    ensures (16 * piece + nibble) / 16 % 8 == piece && (16 * piece + nibble) % 16 == nibble
  {
  }

  lemma FullFrameReads(t: Smpte)
    requires IsTime(t)
    ensures IsFrame(FullFrame(t)) && ReadFullFrame(FullFrame(t)) == t
  {
  }

  lemma ShownPiece(r: Registers, piece: nat, nibble: nat, rest: seq<Packet>)
    requires piece < 8 && nibble < 16
    ensures
      var s: Registers := r[piece := nibble];
      Shown(r, [QuarterFrame(piece, nibble)] + rest) ==
      if piece == 7 then [ReadRegisters(s)] + Shown(s, rest) else Shown(s, rest)
  {
    assert ([QuarterFrame(piece, nibble)] + rest)[1..] == rest;
    PieceByte(piece, nibble);
  }

  /** The host shows one time per eight quarter frames, whatever its registers held before. */
  lemma {:induction false} PiecesRoundTrip(r: Registers, n: Registers, k: nat)
    requires k < 8 && forall i :: 0 <= i < 8 ==> n[i] < 16
    requires r[..k] == n[..k]
    ensures Shown(r, Pieces(n, k)) == [ReadRegisters(n)]
    decreases 8 - k
  {
    var s: Registers := r[k := n[k]];
    ShownPiece(r, k, n[k], Pieces(n, k + 1));
    assert s[..k + 1] == n[..k + 1];
    if k < 7 {
      PiecesRoundTrip(s, n, k + 1);
    } else {
      assert s == n;
    }
  }

  lemma RateOf(hours: nat)
    ensures QuarterFrame(7, hours / 16 % 2 + 2 * 3).byte2 / 2 % 4 == 3
  {
  }

  method MidiSendTimeCode(positionMs: u32) returns (sent: seq<Packet>)
    ensures forall r :: Shown(r, sent) == [ToSmpte(positionMs)]
    ensures |sent| == 8 && sent[7].byte2 / 2 % 4 == 3  // 30 fps
  {
    var t := ToSmpte(positionMs);
    var framerateCode := 3;
    sent := [];
    sent := sent + [QuarterFrame(0, t.frames % 16)];
    sent := sent + [QuarterFrame(1, t.frames / 16 % 2)];
    sent := sent + [QuarterFrame(2, t.seconds % 16)];
    sent := sent + [QuarterFrame(3, t.seconds / 16 % 4)];
    sent := sent + [QuarterFrame(4, t.minutes % 16)];
    sent := sent + [QuarterFrame(5, t.minutes / 16 % 4)];
    sent := sent + [QuarterFrame(6, t.hours % 16)];
    sent := sent + [QuarterFrame(7, t.hours / 16 % 2 + 2 * framerateCode)];
    ghost var n := Nibbles(t);
    RateOf(t.hours);
    EightPieces(n);
    assert sent == Pieces(n, 0);
    forall r
      ensures Shown(r, sent) == [t]
    {
      PiecesRoundTrip(r, n, 0);
    }
  }

  lemma EightPieces(n: Registers)
    requires forall i :: 0 <= i < 8 ==> n[i] < 16
    ensures Pieces(n, 0) == [QuarterFrame(0, n[0]), QuarterFrame(1, n[1]), QuarterFrame(2, n[2]), QuarterFrame(3, n[3]),
                             QuarterFrame(4, n[4]), QuarterFrame(5, n[5]), QuarterFrame(6, n[6]), QuarterFrame(7, n[7])]
  {
    assert Pieces(n, 6) == [QuarterFrame(6, n[6]), QuarterFrame(7, n[7])];
    assert Pieces(n, 3) == [QuarterFrame(3, n[3]), QuarterFrame(4, n[4]), QuarterFrame(5, n[5])] + Pieces(n, 6);
  }

  method SendTen(msg: seq<byte>) returns (sent: seq<Packet>)
    requires |msg| == 10
    ensures sent == Packetise(msg)
  {
    sent := [];
    sent := sent + [Packet(4, msg[0], msg[1], msg[2])];
    sent := sent + [Packet(4, msg[3], msg[4], msg[5])];
    sent := sent + [Packet(4, msg[6], msg[7], msg[8])];
    sent := sent + [Packet(5, msg[9], 0, 0)];
    TenBytes(msg);
  }

  /** Sent in the packets any SysEx frame would travel in, and read back as the same time. */
  method MidiSendFullFrame(positionMs: u32) returns (sent: seq<Packet>)
    ensures |Payload(sent)| == 10 && IsFrame(Payload(sent)) && sent == Packetise(Payload(sent))
    ensures ReadFullFrame(Payload(sent)) == ToSmpte(positionMs)
    ensures Payload(sent)[..5] == [0xF0, 0x7F, 0x7F, 0x01, 0x01] && Payload(sent)[5] / 32 == 3  // MTC, 30 fps
  {
    var t := ToSmpte(positionMs);
    var msg := FullFrame(t);
    FullFrameReads(t);
    PayloadRoundTrip(msg);
    sent := SendTen(msg);
  }

  lemma TenBytes(m: seq<byte>)
    requires |m| == 10
    ensures Packetise(m) == [Packet(4, m[0], m[1], m[2]), Packet(4, m[3], m[4], m[5]),
                             Packet(4, m[6], m[7], m[8]), Packet(5, m[9], 0, 0)]
  {
    assert Packetise(m[9..]) == [Packet(5, m[9], 0, 0)];
    assert Rest(m[6..]) == m[9..];
    assert Packetise(m[6..]) == [Packet(4, m[6], m[7], m[8])] + Packetise(m[9..]);
    assert Rest(m[3..]) == m[6..];
    assert Packetise(m[3..]) == [Packet(4, m[3], m[4], m[5])] + Packetise(m[6..]);
  }

  // ----- the frame count -----

  function FrameCount(t: Smpte): nat {
    ((t.hours * 60 + t.minutes) * 60 + t.seconds) * 30 + t.frames
  }

  lemma SplitTotal(total: nat)
    ensures total / 1800 == total / 30 / 60
    ensures total / 108000 == total / 30 / 60 / 60
  {
  }

  lemma Parts(x: nat, k: nat)
    requires k > 0
    ensures x == k * (x / k) + x % k && x % k < k
  {
  }

  lemma WithinDay(x: nat, days: nat, rest: nat)
    requires x == FRAMES_PER_DAY * days + rest && rest < FRAMES_PER_DAY
    ensures x % FRAMES_PER_DAY == rest
  {
  }

  lemma CountOfTotal(total: nat)
    ensures FrameCount(Smpte(total / 108000 % 24, total / 1800 % 60, total / 30 % 60, total % 30)) ==
            total % FRAMES_PER_DAY
  {
    var s, m, h := total / 30, total / 1800, total / 108000;
    SplitTotal(total);
    Parts(total, 30);
    Parts(s, 60);
    Parts(m, 60);
    Parts(h, 24);
    WithinDay(total, h / 24, FrameCount(Smpte(h % 24, m % 60, s % 60, total % 30)));
  }

  /** No number of wraps of the 32-bit product is within a frame of a whole number of days. */
  lemma NoWholeDays(days: int, wraps: int)
    requires 1 <= wraps <= 29
    ensures 2592000000 * days - 4294967296 * wraps >= 1000 || 2592000000 * days - 4294967296 * wraps <= -1000
  {
  }

  /** The time sent is the number of whole frames since the start, modulo 24 h, exactly up to LAST_EXACT_MS
      (39 h 46 min); past it the product wraps and the time is wrong for every position. */
  lemma FrameCountIff(positionMs: u32)
    ensures FrameCount(ToSmpte(positionMs)) == 30 * positionMs / 1000 % FRAMES_PER_DAY <==> positionMs <= LAST_EXACT_MS
  {
    var product := 30 * positionMs;
    var wraps, low := product / 0x1_0000_0000, product % 0x1_0000_0000;
    CountOfTotal(low / 1000);
    if wraps > 0 && low / 1000 % FRAMES_PER_DAY == product / 1000 % FRAMES_PER_DAY {
      var days := product / 1000 / FRAMES_PER_DAY - low / 1000 / FRAMES_PER_DAY;
      NoWholeDays(days, wraps);
      assert false;
    }
  }
}
