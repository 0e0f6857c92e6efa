// The MediaSyncPacket as the master writes it (src/sysex.cpp), and what a slave reads back of it.
module MediaPacket {
  import opened Bytes
  import opened RelaySpec
  import opened FollowSpec

  const MAX_LAYER_LENGTH: nat := 16

  /** What the master puts into one packet; `layer` is the C string it copies the layer name from. */
  datatype Media = Media(layer: seq<byte>, mediaIndex: byte, positionMs: u32, state: byte, meshTimestamp: u32,
                         volume: byte, flags: byte)

  /** What fits of a layer name: fifteen bytes and the terminator. */
  function LayerName(layer: seq<byte>): (name: seq<byte>)
    ensures |name| < MAX_LAYER_LENGTH
  {
    var name := CString(layer);
    if |name| < MAX_LAYER_LENGTH then name else name[..MAX_LAYER_LENGTH - 1]
  }

  function LayerField(layer: seq<byte>): (field: seq<byte>)
    ensures |field| == MAX_LAYER_LENGTH
  {
    LayerName(layer) + seq(MAX_LAYER_LENGTH - |LayerName(layer)|, _ => 0)
  }

  /** The packed struct, field after field. */
  function MediaFrame(m: Media, seqNo: word): (frame: seq<byte>)
    ensures |frame| == MEDIA_SYNC_LEN && frame[0] == ESPNOW_MSG_MEDIA_SYNC
  {
    [ESPNOW_MSG_MEDIA_SYNC] + LayerField(m.layer) + [m.mediaIndex] + Le32(m.positionMs) + [m.state]
    + Le32(m.meshTimestamp) + [m.volume, m.flags] + Le16(seqNo)
  }

  class Master {
    var mediaSyncSeq: word

    constructor ()
      ensures mediaSyncSeq == 0
    {
      mediaSyncSeq := 0;
    }

    /** `strncpy` into the 16 bytes behind the type, and the terminator. */
    method CopyLayer(packet: array<byte>, layer: seq<byte>)
      requires packet.Length == MEDIA_SYNC_LEN
      modifies packet
      ensures packet[1..17] == LayerField(layer)
      ensures forall k :: k == 0 || 17 <= k < MEDIA_SYNC_LEN ==> packet[k] == old(packet[k])
    {
      var name := CString(layer);
      for i := 0 to MAX_LAYER_LENGTH
        invariant forall k :: 1 <= k < 1 + i ==> packet[k] == if k - 1 < |name| then name[k - 1] else 0
        invariant forall k :: k == 0 || 17 <= k < MEDIA_SYNC_LEN ==> packet[k] == old(packet[k])
      {
        packet[1 + i] := if i < |name| then name[i] else 0;
      }
      packet[MAX_LAYER_LENGTH] := 0;
      FieldIs(packet[1..17], layer);
    }

    /** One 32-bit field of the packed struct. */
    method Store32(packet: array<byte>, at: nat, x: u32)
      requires at + 4 <= packet.Length
      modifies packet
      ensures packet[at..at + 4] == Le32(x)
      ensures forall k :: 0 <= k < packet.Length && !(at <= k < at + 4) ==> packet[k] == old(packet[k])
    {
      packet[at] := x % 0x100;
      packet[at + 1] := x / 0x100 % 0x100;
      packet[at + 2] := x / 0x1_0000 % 0x100;
      packet[at + 3] := x / 0x100_0000;
    }

    /** The struct is filled field by field at its packed offsets, under the next sequence number. */
    method SendMediaSync(m: Media) returns (frame: seq<byte>)
      modifies this
      ensures mediaSyncSeq == (old(mediaSyncSeq) + 1) % 0x1_0000
      ensures frame == MediaFrame(m, mediaSyncSeq)
    {
      var packet := new byte[MEDIA_SYNC_LEN];
      packet[0] := ESPNOW_MSG_MEDIA_SYNC;
      CopyLayer(packet, m.layer);
      ghost var layer := packet[1..17];
      packet[17] := m.mediaIndex;
      Store32(packet, 18, m.positionMs);
      packet[22] := m.state;
      Store32(packet, 23, m.meshTimestamp);
      packet[27] := m.volume;
      packet[28] := m.flags;
      mediaSyncSeq := (mediaSyncSeq + 1) % 0x1_0000;
      packet[29] := mediaSyncSeq % 0x100;
      packet[30] := mediaSyncSeq / 0x100;
      frame := packet[..];
      assert frame[1..17] == layer;
      FrameIs(frame, m, mediaSyncSeq);
    }
  }

  lemma FieldIs(field: seq<byte>, layer: seq<byte>)
    requires |field| == MAX_LAYER_LENGTH && field[15] == 0
    requires forall k :: 0 <= k < 15 ==> field[k] == if k < |CString(layer)| then CString(layer)[k] else 0
    ensures field == LayerField(layer)
  {
  }

  lemma FrameIs(f: seq<byte>, m: Media, seqNo: word)
    requires |f| == MEDIA_SYNC_LEN && f[0] == ESPNOW_MSG_MEDIA_SYNC && f[1..17] == LayerField(m.layer)
    requires f[17] == m.mediaIndex && f[18..22] == Le32(m.positionMs) && f[22] == m.state
    requires f[23..27] == Le32(m.meshTimestamp) && f[27] == m.volume && f[28] == m.flags && f[29..] == Le16(seqNo)
    ensures f == MediaFrame(m, seqNo)
  {
    assert f == [f[0]] + f[1..17] + [f[17]] + f[18..22] + [f[22]] + f[23..27] + [f[27], f[28]] + f[29..];
  }

  // ----- reading it back -----

  lemma DivTwice(x: nat)
    ensures x / 0x1_0000 == x / 0x100 / 0x100 && x / 0x100_0000 == x / 0x1_0000 / 0x100
  {
  }

  lemma Le32RoundTrip(x: u32)
    ensures FromLe32(Le32(x)) == x
  {
    DivTwice(x);
  }

  lemma FieldsAt(m: Media, seqNo: word)
    ensures
      var f := MediaFrame(m, seqNo);
      && f[1..17] == LayerField(m.layer) && f[17] == m.mediaIndex && f[18..22] == Le32(m.positionMs)
      && f[22] == m.state && f[23..27] == Le32(m.meshTimestamp) && f[27] == m.volume && f[28] == m.flags
      && f[29..31] == Le16(seqNo)
  {
  }

  /** A slave reads exactly what the master put in, for all field values, from as much of the frame as arrives: nothing
      below 27 bytes, the volume from 29 on and if flagged, the sequence number from 31 on. */
  lemma ReadsBack(m: Media, seqNo: word, n: nat)
    requires n <= MEDIA_SYNC_LEN
    ensures ReadPacket(MediaFrame(m, seqNo)[..n]) ==
            if n < 27 then None
            else Some(Packet(LayerField(m.layer), m.mediaIndex, m.positionMs, m.state, m.meshTimestamp,
                             if n >= 29 && m.flags % 2 == 1 then Some(m.volume) else None,
                             if n >= 31 then Some(seqNo) else None))
  {
    var f := MediaFrame(m, seqNo);
    FieldsAt(m, seqNo);
    Le32RoundTrip(m.positionMs);
    Le32RoundTrip(m.meshTimestamp);
    if n >= 27 {
      assert f[..n][1..17] == f[1..17] && f[..n][18..22] == f[18..22] && f[..n][23..27] == f[23..27];
      if n >= 31 {
        assert f[..n][29..31] == f[29..31];
      }
    }
  }

  /** The packet a slave of the same generation reads. */
  function Sent(m: Media, seqNo: word): Packet {
    Packet(LayerField(m.layer), m.mediaIndex, m.positionMs, m.state, m.meshTimestamp,
           if m.flags % 2 == 1 then Some(m.volume) else None, Some(seqNo))
  }

  lemma ReadsWhole(m: Media, seqNo: word)
    ensures ReadPacket(MediaFrame(m, seqNo)) == Some(Sent(m, seqNo))
  {
    ReadsBack(m, seqNo, MEDIA_SYNC_LEN);
    assert MediaFrame(m, seqNo)[..MEDIA_SYNC_LEN] == MediaFrame(m, seqNo);
  }

  lemma {:induction false} CStringPadded(name: seq<byte>, zeros: nat)
    requires forall i :: 0 <= i < |name| ==> name[i] != 0
    ensures CString(name + seq(zeros, _ => 0)) == name
  {
    if |name| > 0 {
      assert (name + seq(zeros, _ => 0))[1..] == name[1..] + seq(zeros, _ => 0);
      CStringPadded(name[1..], zeros);
    }
  }

  lemma {:induction false} CStringHasNoNul(s: seq<byte>)
    ensures forall i :: 0 <= i < |CString(s)| ==> CString(s)[i] != 0
  {
    if |s| > 0 && s[0] != 0 {
      CStringHasNoNul(s[1..]);
    }
  }

  /** Whom a packet is for: every slave of the wildcard, and those whose layer is the name as far as it fits. */
  lemma LayerMatchesIff(subscribed: seq<byte>, layer: seq<byte>)
    ensures LayerMatches(subscribed, LayerField(layer)) <==>
            CString(subscribed) == [0x2A] || CString(subscribed) == LayerName(layer)
  {
    CStringHasNoNul(layer);
    CStringPadded(LayerName(layer), MAX_LAYER_LENGTH - |LayerName(layer)|);
  }
}
