// Firmware update over USB-MIDI: the session of src/sysex.cpp and the stop-and-wait transfer that feeds it.
module Ota {
  import opened Bytes
  import opened RelaySpec
  import opened Codec7
  import SysexChannel

  /** No flash partition is larger than this, so the 32-bit counters never wrap. */
  const FLASH_LIMIT: nat := 0xFFFF_FFFF

  const ACK_OK: byte := 0
  const ACK_BAD_LENGTH: byte := 1
  const ACK_WRITE_FAILED: byte := 2
  const ACK_NO_SESSION: byte := 3

  /** The firmware's session counters; what the update library holds (`running`, `image`) and last made bootable. */
  datatype Session = Session(inProgress: bool, total: u32, received: u32, running: bool, image: seq<byte>,
                             booted: Option<seq<byte>>)

  function Be32(n: u32): (b: seq<byte>)
    ensures |b| == 4
  {
    var a := n / 0x100;
    var b := a / 0x100;
    [b / 0x100, b % 0x100, a % 0x100, n % 0x100]
  }

  function FromBe32(b: seq<byte>): u32
    requires |b| == 4
  {
    0x100_0000 * (b[0] as int) + 0x1_0000 * (b[1] as int) + 0x100 * (b[2] as int) + b[3] as int
  }

  function AnnouncedSize(data: seq<byte>): u32
    requires |data| >= 9
  {
    DecodedLength(data[3..8]);
    FromBe32(Decode(data[3..8]))
  }

  function Begin(s: Session, data: seq<byte>, flashOk: bool): Session {
    if |data| < 9 then s
    else if !flashOk then s.(total := AnnouncedSize(data), running := false, image := [])
    else Session(true, AnnouncedSize(data), 0, true, [], s.booted)
  }

  /** `Update.write` takes all of it; writing nothing succeeds even when the library is not running. */
  predicate Writes(s: Session, bytes: seq<byte>, flashOk: bool) {
    bytes == [] || (s.running && flashOk && |s.image| + |bytes| <= FLASH_LIMIT)
  }

  function Append(s: Session, bytes: seq<byte>): Session {
    s.(image := s.image + bytes, received := U32(s.received + |bytes|))
  }

  function Aborted(s: Session): Session {
    s.(inProgress := false, running := false, image := [])
  }

  function Data(s: Session, data: seq<byte>, flashOk: bool): Session {
    if !s.inProgress || |data| <= 4 then s
    else
      var bytes := Decode(data[3..|data| - 1]);
      if Writes(s, bytes, flashOk) then Append(s, bytes) else Aborted(s)
  }

  function Chunk(s: Session, want: byte, bytes: seq<byte>, flashOk: bool): (Session, byte) {
    if |bytes| != want as int || want == 0 then (s, ACK_BAD_LENGTH)
    else if Writes(s, bytes, flashOk) then (Append(s, bytes), ACK_OK)
    else (Aborted(s), ACK_WRITE_FAILED)
  }

  function DataAcked(s: Session, data: seq<byte>, flashOk: bool): (Session, byte) {
    if !s.inProgress || |data| < 6 then (s, ACK_NO_SESSION)
    else Chunk(s, data[4], Decode(data[5..|data| - 1]), flashOk)
  }

  /** `endOk`: the update library accepts the image as firmware. */
  function End(s: Session, endOk: bool): Session {
    if !s.inProgress then s
    else if s.received != s.total then Aborted(s)
    else s.(inProgress := false, running := false, image := [],
            booted := if s.running && endOk then Some(s.image) else s.booted)
  }

  class OtaSession {
    var otaInProgress: bool
    var otaTotalSize: u32
    var otaReceivedSize: u32
    var updateRunning: bool
    var updateImage: seq<byte>
    var bootImage: Option<seq<byte>>

    ghost function View(): Session
      reads this
    {
      Session(otaInProgress, otaTotalSize, otaReceivedSize, updateRunning, updateImage, bootImage)
    }

    constructor (boot: Option<seq<byte>>)
      ensures View() == Session(false, 0, 0, false, [], boot)
    {
      otaInProgress, otaTotalSize, otaReceivedSize := false, 0, 0;
      updateRunning, updateImage, bootImage := false, [], boot;
    }

    method OtaBegin(data: seq<byte>, flashOk: bool)
      requires |data| <= 255
      modifies this
      ensures View() == Begin(old(View()), data, flashOk)
    {
      if |data| >= 9 {
        var sizeBytes := new byte[4];
        DecodedLength(data[3..8]);
        var n := DecodeInto(data[3..8], sizeBytes);
        assert sizeBytes[..] == sizeBytes[..4];
        otaTotalSize := FromBe32(sizeBytes[..]);
        updateRunning := false;
        updateImage := [];
        if !flashOk {
          return;
        }
        updateRunning := true;
        otaInProgress := true;
        otaReceivedSize := 0;
      }
    }

    /** `Update.write`, and `Update.abort` when it fails. */
    method WriteOrAbort(bytes: seq<byte>, flashOk: bool) returns (ok: bool)
      modifies this
      ensures ok == Writes(old(View()), bytes, flashOk)
      ensures View() == if ok then Append(old(View()), bytes) else Aborted(old(View()))
    {
      var taken := if updateRunning && flashOk && |updateImage| + |bytes| <= FLASH_LIMIT then |bytes| else 0;
      ok := taken == |bytes|;
      if ok {
        updateImage := updateImage + bytes;
        otaReceivedSize := U32(otaReceivedSize + |bytes|);
      } else {
        updateRunning := false;
        updateImage := [];
        otaInProgress := false;
      }
    }

    method OtaData(data: seq<byte>, flashOk: bool)
      requires |data| <= 255
      modifies this
      ensures View() == Data(old(View()), data, flashOk)
    {
      if otaInProgress && |data| > 4 {
        var decodedData := new byte[256];
        DecodedLength(data[3..|data| - 1]);
        var decodedLen := DecodeInto(data[3..|data| - 1], decodedData);
        var ok := WriteOrAbort(decodedData[..decodedLen], flashOk);
      }
    }

    method OtaDataAcked(data: seq<byte>, flashOk: bool) returns (ack: seq<byte>)
      requires |data| <= 255
      modifies this
      ensures View() == DataAcked(old(View()), data, flashOk).0
      ensures ack == [0xF0, 0x7D, 0x23, if |data| >= 6 then data[3] else 0,
                      DataAcked(old(View()), data, flashOk).1, 0xF7]
    {
      var seqNo: byte := if |data| >= 6 then data[3] else 0;
      var st := ACK_NO_SESSION;
      if otaInProgress && |data| >= 6 {
        var want := data[4];
        var decodedData := new byte[256];
        DecodedLength(data[5..|data| - 1]);
        var decodedLen := DecodeInto(data[5..|data| - 1], decodedData);
        if decodedLen != want as int || want == 0 {
          st := ACK_BAD_LENGTH;
        } else {
          var ok := WriteOrAbort(decodedData[..decodedLen], flashOk);
          st := if ok then ACK_OK else ACK_WRITE_FAILED;
        }
      }
      ack := [0xF0, 0x7D, 0x23, seqNo, st, 0xF7];
    }

    method OtaEnd(endOk: bool)
      modifies this
      ensures View() == End(old(View()), endOk)
    {
      if otaInProgress {
        if otaReceivedSize != otaTotalSize {
          updateRunning, updateImage := false, [];
          otaInProgress := false;
          return;
        }
        if updateRunning && endOk {
          bootImage := Some(updateImage);
        }
        updateRunning, updateImage := false, [];
        otaInProgress := false;
      }
    }
  }

  // ----- the counter is the file -----

  datatype Command =
    | CBegin(data: seq<byte>, flashOk: bool)
    | CData(data: seq<byte>, flashOk: bool)
    | CDataAcked(data: seq<byte>, flashOk: bool)
    | CEnd(endOk: bool)

  function Handle(s: Session, c: Command): Session {
    match c
    case CBegin(data, flashOk) => Begin(s, data, flashOk)
    case CData(data, flashOk) => Data(s, data, flashOk)
    case CDataAcked(data, flashOk) => DataAcked(s, data, flashOk).0
    case CEnd(endOk) => End(s, endOk)
  }

  function HandleAll(s: Session, commands: seq<Command>): Session {
    if |commands| == 0 then s
    else Handle(HandleAll(s, commands[..|commands| - 1]), commands[|commands| - 1])
  }

  /** While the update library is writing, the firmware's counter is the number of bytes written. */
  predicate Counted(s: Session) {
    s.running ==> s.inProgress && s.received == |s.image| <= FLASH_LIMIT
  }

  /** Over any commands at all, well formed or not, and with writes failing at will. */
  lemma {:induction false} AlwaysCounted(s: Session, commands: seq<Command>)
    requires Counted(s)
    ensures Counted(HandleAll(s, commands))
  {
    if |commands| > 0 {
      AlwaysCounted(s, commands[..|commands| - 1]);
    }
  }

  // ----- the transfer -----

  function BeginFrame(size: u32): seq<byte> {
    [0xF0, 0x7D, 0x05] + Encode(Be32(size)) + [0xF7]
  }

  function DataFrame(seqNo: byte, want: byte, enc: seq<byte>): seq<byte> {
    [0xF0, 0x7D, 0x0C, seqNo, want] + enc + [0xF7]
  }

  /** One try at the next chunk of n bytes: the data part as it reaches the node, or None when the frame is lost;
      whether the flash takes it; whether the ACK is lost. */
  datatype Try = Try(n: nat, seqNo: byte, enc: Option<seq<byte>>, flashOk: bool, ackLost: bool)

  /** `pos`: how much of the file the sender has seen acknowledged. */
  datatype Transfer = Transfer(s: Session, pos: nat)

  /** What the link may do to a data part: nothing, or make it shorter by any number of bytes. */
  predicate Arrives(sent: seq<byte>, received: seq<byte>) {
    received == sent || |received| < |sent|
  }

  predicate CanTry(file: seq<byte>, t: Transfer, a: Try) {
    && 1 <= a.n <= 100 && t.pos + a.n <= |file|
    && (a.enc.Some? ==> Arrives(Encode(file[t.pos..t.pos + a.n]), a.enc.value))
  }

  function Step(file: seq<byte>, t: Transfer, a: Try): Transfer
    requires CanTry(file, t, a)
  {
    match a.enc
    case None => t
    case Some(enc) =>
      var (s, status) := DataAcked(t.s, DataFrame(a.seqNo, a.n, enc), a.flashOk);
      Transfer(s, if status == ACK_OK && !a.ackLost then t.pos + a.n else t.pos)
  }

  /** The chunk is written and its ACK is lost, so the sender will send it again. */
  predicate Unheard(file: seq<byte>, t: Transfer, a: Try)
    requires CanTry(file, t, a)
  {
    a.enc.Some? && a.ackLost && DataAcked(t.s, DataFrame(a.seqNo, a.n, a.enc.value), a.flashOk).1 == ACK_OK
  }

  predicate CanSend(file: seq<byte>, t: Transfer, tries: seq<Try>)
    decreases |tries|
  {
    |tries| == 0 || (CanTry(file, t, tries[0]) && CanSend(file, Step(file, t, tries[0]), tries[1..]))
  }

  function Send(file: seq<byte>, t: Transfer, tries: seq<Try>): Transfer
    requires CanSend(file, t, tries)
    decreases |tries|
  {
    if |tries| == 0 then t else Send(file, Step(file, t, tries[0]), tries[1..])
  }

  /** Bytes written twice or more because an ACK was lost. */
  function UnheardBytes(file: seq<byte>, t: Transfer, tries: seq<Try>): nat
    requires CanSend(file, t, tries)
    decreases |tries|
  {
    if |tries| == 0 then 0
    else
      (if Unheard(file, t, tries[0]) then tries[0].n else 0) +
      UnheardBytes(file, Step(file, t, tries[0]), tries[1..])
  }

  /** No ACK of a written chunk was lost. */
  predicate AllHeard(file: seq<byte>, t: Transfer, tries: seq<Try>)
    requires CanSend(file, t, tries)
    decreases |tries|
  {
    |tries| == 0 || (!Unheard(file, t, tries[0]) && AllHeard(file, Step(file, t, tries[0]), tries[1..]))
  }

  lemma {:induction false} AllHeardIsNone(file: seq<byte>, t: Transfer, tries: seq<Try>)
    requires CanSend(file, t, tries)
    ensures AllHeard(file, t, tries) <==> UnheardBytes(file, t, tries) == 0
    decreases |tries|
  {
    if |tries| > 0 {
      AllHeardIsNone(file, Step(file, t, tries[0]), tries[1..]);
    }
  }

  /** An update is open, and counted. */
  predicate Open(s: Session) {
    s.running && Counted(s)
  }

  /** What a transfer that began in session `first` has come to, `lost` bytes having gone unheard. A session that was
      aborted on the way never gets to the end of the file. */
  predicate Tracks(file: seq<byte>, first: Session, t: Transfer, lost: nat) {
    && t.pos <= |file| && t.s.booted == first.booted
    && if t.s.running then
         && Counted(t.s) && t.s.total == first.total
         && first.image <= t.s.image && |t.s.image| == |first.image| + t.pos + lost
         && (lost == 0 ==> t.s.image == first.image + file[..t.pos])
       else t.pos < |file|
  }

  lemma Be32RoundTrip(n: u32)
    ensures FromBe32(Be32(n)) == n
  {
  }

  lemma BeginRoundTrip(s: Session, size: u32)
    ensures Begin(s, BeginFrame(size), true) == Session(true, size, 0, true, [], s.booted)
  {
    var b := Be32(size);
    Be32RoundTrip(size);
    EncodedLength(b);
    DecodeEncode(b);
    assert BeginFrame(size)[3..8] == Encode(b);
  }

  lemma FrameChunk(s: Session, seqNo: byte, want: byte, enc: seq<byte>, flashOk: bool)
    ensures DataAcked(s, DataFrame(seqNo, want, enc), flashOk) ==
            if s.inProgress then Chunk(s, want, Decode(enc), flashOk) else (s, ACK_NO_SESSION)
  {
    var data := DataFrame(seqNo, want, enc);
    assert data[4] == want && data[5..|data| - 1] == enc;
  }

  /** A chunk the node accepts is the chunk the sender meant: a shortened one always fails the length check. */
  lemma AcceptedIsWhole(s: Session, chunk: seq<byte>, enc: seq<byte>, flashOk: bool)
    requires 1 <= |chunk| <= 100 && Arrives(Encode(chunk), enc)
    ensures Chunk(s, |chunk|, Decode(enc), flashOk) ==
            if enc != Encode(chunk) then (s, ACK_BAD_LENGTH)
            else if Writes(s, chunk, flashOk) then (Append(s, chunk), ACK_OK)
            else (Aborted(s), ACK_WRITE_FAILED)
  {
    if enc == Encode(chunk) {
      DecodeEncode(chunk);
    } else {
      LosingBytesShortens(chunk, enc);
    }
  }

  lemma AppendTracks(file: seq<byte>, first: Session, t: Transfer, lost: nat, n: nat, heard: bool)
    requires Tracks(file, first, t, lost) && t.pos + n <= |file| && n > 0
    requires t.s.running && |t.s.image| + n <= FLASH_LIMIT
    ensures
      var s := Append(t.s, file[t.pos..t.pos + n]);
      Tracks(file, first, Transfer(s, if heard then t.pos + n else t.pos), if heard then lost else lost + n)
  {
    assert file[..t.pos] + file[t.pos..t.pos + n] == file[..t.pos + n];
  }

  /** The chunk reaches an open session whole. */
  predicate Lands(file: seq<byte>, t: Transfer, a: Try)
    requires CanTry(file, t, a)
  {
    t.s.inProgress && a.enc == Some(Encode(file[t.pos..t.pos + a.n]))
  }

  lemma StepIs(file: seq<byte>, t: Transfer, a: Try)
    requires CanTry(file, t, a)
    ensures
      var chunk := file[t.pos..t.pos + a.n];
      Step(file, t, a) ==
      if !Lands(file, t, a) then t
      else if !Writes(t.s, chunk, a.flashOk) then Transfer(Aborted(t.s), t.pos)
      else Transfer(Append(t.s, chunk), if a.ackLost then t.pos else t.pos + a.n)
    ensures Unheard(file, t, a) <==>
            Lands(file, t, a) && Writes(t.s, file[t.pos..t.pos + a.n], a.flashOk) && a.ackLost
  {
    if a.enc.Some? {
      FrameChunk(t.s, a.seqNo, a.n, a.enc.value, a.flashOk);
      AcceptedIsWhole(t.s, file[t.pos..t.pos + a.n], a.enc.value, a.flashOk);
    }
  }

  lemma StepTracks(file: seq<byte>, first: Session, t: Transfer, lost: nat, a: Try)
    requires CanTry(file, t, a) && Tracks(file, first, t, lost)
    ensures Tracks(file, first, Step(file, t, a), if Unheard(file, t, a) then lost + a.n else lost)
  {
    StepIs(file, t, a);
    if Lands(file, t, a) {
      if Writes(t.s, file[t.pos..t.pos + a.n], a.flashOk) {
        assert t.s.running;
        AppendTracks(file, first, t, lost, a.n, !a.ackLost);
      } else {
        assert Tracks(file, first, Transfer(Aborted(t.s), t.pos), lost);
      }
    }
  }

  lemma {:induction false} SendTracks(file: seq<byte>, first: Session, t: Transfer, lost: nat, tries: seq<Try>)
    requires CanSend(file, t, tries) && Tracks(file, first, t, lost)
    ensures Tracks(file, first, Send(file, t, tries), lost + UnheardBytes(file, t, tries))
    decreases |tries|
  {
    if |tries| > 0 {
      var a := tries[0];
      StepTracks(file, first, t, lost, a);
      SendTracks(file, first, Step(file, t, a), if Unheard(file, t, a) then lost + a.n else lost, tries[1..]);
    }
  }

  /** The tries get the sender to the end of the file. */
  predicate Finishes(s: Session, file: seq<byte>, tries: seq<Try>) {
    CanSend(file, Transfer(s, 0), tries) && Send(file, Transfer(s, 0), tries).pos == |file|
  }

  /** The image OTA_END makes bootable, if any. */
  function Committed(s: Session, endOk: bool): Option<seq<byte>> {
    if s.inProgress && s.received == s.total && s.running && endOk then Some(s.image) else None
  }

  lemma EndCommits(s: Session, endOk: bool)
    ensures End(s, endOk).booted == if Committed(s, endOk).Some? then Committed(s, endOk) else s.booted
  {
  }

  /** A finished transfer into ANY open session, whoever opened it: what OTA_END commits is what the session held, then
      the file with the unheard chunks repeated, and it commits exactly if that makes up the announced size. */
  lemma CommitsWhat(s: Session, file: seq<byte>, tries: seq<Try>, endOk: bool)
    requires Open(s) && Finishes(s, file, tries)
    ensures
      var t, lost := Send(file, Transfer(s, 0), tries).s, UnheardBytes(file, Transfer(s, 0), tries);
      && (Committed(t, endOk).Some? <==> |s.image| + |file| + lost == s.total && endOk)
      && (Committed(t, endOk).Some? ==> Committed(t, endOk).value == t.image)
      && s.image <= t.image && |t.image| == |s.image| + |file| + lost
      && (AllHeard(file, Transfer(s, 0), tries) ==> t.image == s.image + file)
  {
    assert s.image + file[..0] == s.image;
    SendTracks(file, s, Transfer(s, 0), 0, tries);
    AllHeardIsNone(file, Transfer(s, 0), tries);
    assert file[..|file|] == file;
  }

  /** No session open: no transfer of anything ever finishes, and nothing is committed. */
  lemma {:induction false} ClosedTakesNothing(file: seq<byte>, t: Transfer, tries: seq<Try>)
    requires !t.s.running && CanSend(file, t, tries)
    ensures
      var u := Send(file, t, tries);
      !u.s.running && u.pos == t.pos && forall endOk :: Committed(u.s, endOk).None?
    decreases |tries|
  {
    if |tries| > 0 {
      StepIs(file, t, tries[0]);
      ClosedTakesNothing(file, Step(file, t, tries[0]), tries[1..]);
    }
  }

  /** OTA_BEGIN has arrived; then any tries whatever that get the sender to its end, and OTA_END. What becomes bootable
      is exactly the file, and it does exactly when no ACK of a written chunk was lost and the update library accepts
      the image. A failed write never gets here: it closes the session, and the sender never reaches its end. */
  lemma CommitsExactFile(s: Session, file: seq<byte>, tries: seq<Try>, endOk: bool)
    requires |file| <= FLASH_LIMIT && Finishes(Begin(s, BeginFrame(|file|), true), file, tries)
    ensures
      var t := Transfer(Begin(s, BeginFrame(|file|), true), 0);
      End(Send(file, t, tries).s, endOk).booted ==
      if AllHeard(file, t, tries) && endOk then Some(file) else s.booted
  {
    BeginRoundTrip(s, |file|);
    var begun := Begin(s, BeginFrame(|file|), true);
    CommitsWhat(begun, file, tries, endOk);
    AllHeardIsNone(file, Transfer(begun, 0), tries);
    SendTracks(file, begun, Transfer(begun, 0), 0, tries);
    EndCommits(Send(file, Transfer(begun, 0), tries).s, endOk);
    assert [] + file == file;
  }

  // ----- the blind stream -----

  function BlindFrame(enc: seq<byte>): seq<byte> {
    [0xF0, 0x7D, 0x06] + enc + [0xF7]
  }

  /** Each chunk of the file with what arrives of its data part, if anything. */
  datatype Sent = Sent(chunk: seq<byte>, arrived: Option<seq<byte>>)

  predicate Stream(sent: seq<Sent>) {
    forall i :: 0 <= i < |sent| ==>
      1 <= |sent[i].chunk| <= 200 && (sent[i].arrived.Some? ==> Arrives(Encode(sent[i].chunk), sent[i].arrived.value))
  }

  function File(sent: seq<Sent>): seq<byte> {
    if |sent| == 0 then [] else File(sent[..|sent| - 1]) + sent[|sent| - 1].chunk
  }

  /** The frames that arrive. */
  function Frames(sent: seq<Sent>): seq<Command> {
    if |sent| == 0 then []
    else
      var last := sent[|sent| - 1].arrived;
      Frames(sent[..|sent| - 1]) + if last.Some? then [CData(BlindFrame(last.value), true)] else []
  }

  predicate Whole(sent: seq<Sent>) {
    forall i :: 0 <= i < |sent| ==> sent[i].arrived == Some(Encode(sent[i].chunk))
  }

  lemma BlindIs(s: Session, enc: seq<byte>, flashOk: bool)
    requires s.inProgress
    ensures Data(s, BlindFrame(enc), flashOk) ==
            if Writes(s, Decode(enc), flashOk) then Append(s, Decode(enc)) else Aborted(s)
  {
    assert BlindFrame(enc)[3..|BlindFrame(enc)| - 1] == enc;
  }

  /** What a stream has written, into a session opened for `size` bytes: never more than what was sent, and all of it
      iff every frame came whole. */
  predicate Streamed(s: Session, size: u32, boot: Option<seq<byte>>, sent: seq<Sent>) {
    && s.inProgress && s.running && s.total == size && s.received == |s.image| && s.booted == boot
    && |s.image| <= |File(sent)| && (|s.image| == |File(sent)| <==> Whole(sent))
    && (Whole(sent) ==> s.image == File(sent))
  }

  lemma PartIsShorter(chunk: seq<byte>, arrived: seq<byte>)
    requires Arrives(Encode(chunk), arrived)
    ensures if arrived == Encode(chunk) then Decode(arrived) == chunk else |Decode(arrived)| < |chunk|
  {
    if arrived == Encode(chunk) {
      DecodeEncode(chunk);
    } else {
      LosingBytesShortens(chunk, arrived);
    }
  }

  lemma WholeOneMore(sent: seq<Sent>)
    requires |sent| > 0
    ensures
      var init, last := sent[..|sent| - 1], sent[|sent| - 1];
      Whole(sent) <==> Whole(init) && last.arrived == Some(Encode(last.chunk))
  {
    assert sent == sent[..|sent| - 1] + [sent[|sent| - 1]];
  }

  lemma WriteGrows(s: Session, bytes: seq<byte>)
    requires s.inProgress && s.running && s.received == |s.image| && |s.image| + |bytes| <= FLASH_LIMIT
    ensures Writes(s, bytes, true)
    ensures
      var a := Append(s, bytes);
      a.received == |a.image| && a.image == s.image + bytes
  {
  }

  lemma StreamOneMore(s: Session, size: u32, boot: Option<seq<byte>>, sent: seq<Sent>)
    requires |sent| > 0 && Stream(sent) && |File(sent)| <= FLASH_LIMIT
    requires Streamed(s, size, boot, sent[..|sent| - 1])
    ensures
      var last := sent[|sent| - 1].arrived;
      Streamed(if last.Some? then Data(s, BlindFrame(last.value), true) else s, size, boot, sent)
  {
    var last := sent[|sent| - 1];
    WholeOneMore(sent);
    if last.arrived.Some? {
      var bytes := Decode(last.arrived.value);
      PartIsShorter(last.chunk, last.arrived.value);
      BlindIs(s, last.arrived.value, true);
      WriteGrows(s, bytes);
    }
  }

  lemma HandleMore(s: Session, commands: seq<Command>, c: Command)
    ensures HandleAll(s, commands + [c]) == Handle(HandleAll(s, commands), c)
  {
    assert (commands + [c])[..|commands|] == commands;
  }

  lemma {:induction false} StreamWrites(s: Session, size: u32, sent: seq<Sent>)
    requires s == Session(true, size, 0, true, [], s.booted) && Stream(sent) && |File(sent)| <= FLASH_LIMIT
    ensures Streamed(HandleAll(s, Frames(sent)), size, s.booted, sent)
    decreases |sent|
  {
    if |sent| > 0 {
      var init, last := sent[..|sent| - 1], sent[|sent| - 1].arrived;
      StreamWrites(s, size, init);
      StreamOneMore(HandleAll(s, Frames(init)), size, s.booted, sent);
      if last.Some? {
        HandleMore(s, Frames(init), CData(BlindFrame(last.value), true));
      } else {
        assert Frames(sent) == Frames(init);
      }
    }
  }

  /** OTA_BEGIN has arrived; then the blind stream, of which the link may lose whole frames or bytes of them, and
      OTA_END: the file becomes bootable exactly if every frame came whole and the library accepts the image, and else
      nothing does. */
  lemma BlindCommitsIff(s: Session, sent: seq<Sent>, endOk: bool)
    requires Stream(sent) && |File(sent)| <= FLASH_LIMIT
    ensures
      var begun := Begin(s, BeginFrame(|File(sent)|), true);
      HandleAll(begun, Frames(sent) + [CEnd(endOk)]).booted ==
      if Whole(sent) && endOk then Some(File(sent)) else s.booted
  {
    var begun := Begin(s, BeginFrame(|File(sent)|), true);
    BeginRoundTrip(s, |File(sent)|);
    StreamWrites(begun, |File(sent)|, sent);
    HandleMore(begun, Frames(sent), CEnd(endOk));
  }

  /** While the flash refuses every OTA_BEGIN, no commands whatever make anything bootable. */
  lemma {:induction false} RefusedCommitsNothing(s: Session, commands: seq<Command>)
    requires !s.running && forall i :: 0 <= i < |commands| && commands[i].CBegin? ==>
               |commands[i].data| < 9 || !commands[i].flashOk
    ensures !HandleAll(s, commands).running && HandleAll(s, commands).booted == s.booted
  {
    if |commands| > 0 {
      RefusedCommitsNothing(s, commands[..|commands| - 1]);
    }
  }

  // ----- when OTA_BEGIN did not arrive -----

  /** Whatever happens on the link, OTA_END commits the file or nothing. */
  ghost predicate OnlyTheFile(s: Session, file: seq<byte>) {
    forall tries, endOk :: Finishes(s, file, tries) ==>
      Committed(Send(file, Transfer(s, 0), tries).s, endOk) in [None, Some(file)]
  }

  function OneByte(file: seq<byte>, pos: nat, ackLost: bool): Try
    requires pos < |file|
  {
    Try(1, 0, Some(Encode(file[pos..pos + 1])), true, ackLost)
  }

  /** The first byte again and again, unheard; then the file byte by byte. */
  function SpillAndSend(file: seq<byte>, pos: nat, spill: nat): seq<Try>
    requires pos <= |file| && (spill > 0 ==> pos < |file|)
    decreases |file| - pos, spill
  {
    if spill > 0 then [OneByte(file, pos, true)] + SpillAndSend(file, pos, spill - 1)
    else if pos < |file| then [OneByte(file, pos, false)] + SpillAndSend(file, pos + 1, 0)
    else []
  }

  lemma OneByteLands(file: seq<byte>, t: Transfer, ackLost: bool)
    requires Open(t.s) && t.pos < |file| && |t.s.image| < FLASH_LIMIT
    ensures
      var a := OneByte(file, t.pos, ackLost);
      && CanTry(file, t, a)
      && Step(file, t, a) ==
         Transfer(Append(t.s, file[t.pos..t.pos + 1]), if ackLost then t.pos else t.pos + 1)
  {
    StepIs(file, t, OneByte(file, t.pos, ackLost));
  }

  lemma {:induction false} SpillAndSendFinishes(file: seq<byte>, t: Transfer, spill: nat)
    requires Open(t.s) && t.pos <= |file| && (spill > 0 ==> t.pos < |file|)
    requires |t.s.image| + spill + (|file| - t.pos) <= FLASH_LIMIT
    ensures
      var tries := SpillAndSend(file, t.pos, spill);
      && CanSend(file, t, tries) && Send(file, t, tries).pos == |file|
      && |Send(file, t, tries).s.image| == |t.s.image| + spill + (|file| - t.pos)
    decreases |file| - t.pos, spill
  {
    var tries := SpillAndSend(file, t.pos, spill);
    if tries != [] {
      OneByteLands(file, t, spill > 0);
      var next := Step(file, t, tries[0]);
      SpillAndSendFinishes(file, next, if spill > 0 then spill - 1 else 0);
      assert tries[1..] == SpillAndSend(file, next.pos, if spill > 0 then spill - 1 else 0);
    }
  }

  /** The exact condition for a session that was open already, OTA_BEGIN being lost or not: only the file can ever be
      committed iff the announced size is out of reach, or the session is empty and of the size of the file (an empty
      file, of which no chunk can repeat, also needs only a size that differs). */
  lemma OnlyTheFileIff(s: Session, file: seq<byte>)
    requires Open(s)
    ensures OnlyTheFile(s, file) <==>
            s.total < |s.image| + |file| || (s.image == [] && s.total == |file|) || (file == [] && s.total != |s.image|)
  {
    if s.total < |s.image| + |file| || (s.image == [] && s.total == |file|) || (file == [] && s.total != |s.image|) {
      forall tries, endOk | Finishes(s, file, tries)
        ensures Committed(Send(file, Transfer(s, 0), tries).s, endOk) in [None, Some(file)]
      {
        CommitsWhat(s, file, tries, endOk);
        AllHeardIsNone(file, Transfer(s, 0), tries);
        EmptyIsHeard(file, Transfer(s, 0), tries);
        assert [] + file == file;
      }
    } else {
      var spill := s.total - |s.image| - |file|;
      var tries := SpillAndSend(file, 0, spill);
      SpillAndSendFinishes(file, Transfer(s, 0), spill);
      CommitsWhat(s, file, tries, true);
      var c := Committed(Send(file, Transfer(s, 0), tries).s, true);
      assert c.Some? && |c.value| == s.total;
      assert c.value != file;
    }
  }

  lemma EmptyIsHeard(file: seq<byte>, t: Transfer, tries: seq<Try>)
    requires CanSend(file, t, tries)
    ensures file == [] ==> UnheardBytes(file, t, tries) == 0
  {
  }

  /** The shortest way to go wrong: an open session of two bytes that has one, and a new file of one byte. */
  lemma LostBeginCommitsAnother(older: byte, newer: byte)
    requires older != newer
    ensures !OnlyTheFile(Session(true, 2, 1, true, [older], None), [newer])
  {
    OnlyTheFileIff(Session(true, 2, 1, true, [older], None), [newer]);
  }

  lemma FrameIsSysex(seqNo: byte, want: byte, enc: seq<byte>)
    requires seqNo < 0x80 && want < 0x80 && forall i :: 0 <= i < |enc| ==> enc[i] < 0x80
    ensures SysexChannel.IsFrame(DataFrame(seqNo, want, enc)) && |DataFrame(seqNo, want, enc)| == 6 + |enc|
  {
    var head: seq<byte> := [0xF0, 0x7D, 0x0C, seqNo, want];
    var f := DataFrame(seqNo, want, enc);
    assert f == head + enc + [0xF7];
    forall i | 0 < i < |f| - 1
      ensures f[i] < 0x80
    {
      if i >= 5 {
        assert f[i] == enc[i - 5];
      }
    }
  }

  /** Between the sender and the handler: a data frame in USB-MIDI packets reaches the handler whole, from any
      state of the reassembler without a pending overflow. */
  lemma FrameOverMidi(a: SysexChannel.Assembly, seqNo: byte, chunk: seq<byte>)
    requires seqNo < 0x80 && 1 <= |chunk| <= 100
    requires |a.buffer| <= SysexChannel.SYSEX_BUFFER_SIZE && !a.overflow
    ensures
      var frame := DataFrame(seqNo, |chunk|, Encode(chunk));
      SysexChannel.Feed(a, SysexChannel.Packetise(frame)) == (SysexChannel.Idle(), [frame])
  {
    var frame := DataFrame(seqNo, |chunk|, Encode(chunk));
    EncodedLength(chunk);
    EncodeIsCanonical(chunk);
    FrameIsSysex(seqNo, |chunk|, Encode(chunk));
    SysexChannel.FrameFromAnyState(a, frame);
    SysexChannel.HandedWholeIff(frame);
  }
}
