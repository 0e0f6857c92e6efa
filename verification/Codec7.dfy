// The 7-bit codec of src/sysex.cpp, its host twin in tools/nowde_sysex.py, and what a lost byte does to it.
module Codec7 {
  import opened Bytes

  function Pow2(n: nat): (p: nat)
    ensures p > 0
  {
    if n == 0 then 1 else 2 * Pow2(n - 1)
  }

  /** x & (1 << i). */
  predicate Bit(x: nat, i: nat) {
    if i == 0 then x % 2 == 1 else Bit(x / 2, i - 1)
  }

  function Min(a: int, b: int): int {
    if a < b then a else b
  }

  // ----- the host's form: one chunk of 7 at a time -----

  /** Bit j is set when byte j of the chunk has its top bit set, for j < k. */
  function MsbByte(chunk: seq<byte>, k: nat): (m: nat)
    requires k <= |chunk|
    ensures m < Pow2(k)
  {
    if k == 0 then 0 else MsbByte(chunk, k - 1) + (if chunk[k - 1] >= 0x80 then Pow2(k - 1) else 0)
  }

  function Low7(b: byte): byte {
    b % 0x80
  }

  function Lows(chunk: seq<byte>): (low: seq<byte>)
    ensures |low| == |chunk|
  {
    seq(|chunk|, i requires 0 <= i < |chunk| => Low7(chunk[i]))
  }

  lemma MsbIsByte(chunk: seq<byte>)
    requires |chunk| <= 7
    ensures MsbByte(chunk, |chunk|) < 0x80
  {
    assert Pow2(3) == 8;
    assert Pow2(7) == 128;
    Pow2Monotone(|chunk|, 7);
  }

  lemma {:induction false} Pow2Monotone(a: nat, b: nat)
    requires a <= b
    ensures Pow2(a) <= Pow2(b)
  {
    if a < b {
      Pow2Monotone(a, b - 1);
    }
  }

  function EncodeChunk(chunk: seq<byte>): (e: seq<byte>)
    requires |chunk| <= 7
    ensures |e| == 1 + |chunk|
  {
    MsbIsByte(chunk);
    [MsbByte(chunk, |chunk|)] + Lows(chunk)
  }

  function Encode(raw: seq<byte>): seq<byte> {
    if |raw| == 0 then []
    else
      var n := Min(7, |raw|);
      EncodeChunk(raw[..n]) + Encode(raw[n..])
  }

  function Or80(b: byte): byte {
    if b >= 0x80 then b else b + 0x80
  }

  function DecodeChunk(msb: byte, chunk: seq<byte>): (d: seq<byte>)
    ensures |d| == |chunk|
  {
    seq(|chunk|, i requires 0 <= i < |chunk| => if Bit(msb, i) then Or80(chunk[i]) else chunk[i])
  }

  function Decode(enc: seq<byte>): seq<byte> {
    if |enc| == 0 then []
    else
      var n := Min(8, |enc|);
      DecodeChunk(enc[0], enc[1..n]) + Decode(enc[n..])
  }

  // ----- the firmware's form: index loops over buffers -----

  method PackMsbs(input: seq<byte>, inIdx: nat, chunkSize: nat) returns (msbByte: byte)
    requires inIdx + chunkSize <= |input| && chunkSize <= 7
    ensures msbByte == MsbByte(input[inIdx..][..chunkSize], chunkSize)
  {
    ghost var chunk := input[inIdx..][..chunkSize];
    var msbs := 0;
    for i := 0 to chunkSize
      invariant msbs == MsbByte(chunk, i)
    {
      assert MsbByte(chunk, i + 1) == MsbByte(chunk, i) + if input[inIdx + i] >= 0x80 then Pow2(i) else 0;
      if input[inIdx + i] >= 0x80 {
        msbs := msbs + Pow2(i);
      }
    }
    MsbIsByte(chunk);
    msbByte := msbs;
  }

  method CopyLows(input: seq<byte>, inIdx: nat, chunkSize: nat, output: array<byte>, outIdx: nat)
    requires inIdx + chunkSize <= |input| && outIdx + chunkSize <= output.Length
    modifies output
    ensures output[..outIdx + chunkSize] == old(output[..outIdx]) + Lows(input[inIdx..][..chunkSize])
    ensures output[outIdx + chunkSize..] == old(output[outIdx + chunkSize..])
  {
    ghost var lows := Lows(input[inIdx..][..chunkSize]);
    for i := 0 to chunkSize
      invariant forall k :: 0 <= k < outIdx ==> output[k] == old(output[k])
      invariant forall k :: outIdx <= k < outIdx + i ==> output[k] == lows[k - outIdx]
      invariant forall k :: outIdx + i <= k < output.Length ==> output[k] == old(output[k])
    {
      output[outIdx + i] := Low7(input[inIdx + i]);
    }
  }

  method PackChunk(input: seq<byte>, inIdx: nat, chunkSize: nat, output: array<byte>, outIdx: nat)
    requires inIdx + chunkSize <= |input| && chunkSize <= 7 && outIdx + 1 + chunkSize <= output.Length
    modifies output
    ensures output[..outIdx + 1 + chunkSize] == old(output[..outIdx]) + EncodeChunk(input[inIdx..][..chunkSize])
    ensures output[outIdx + 1 + chunkSize..] == old(output[outIdx + 1 + chunkSize..])
  {
    ghost var done := output[..outIdx];
    var msbByte := PackMsbs(input, inIdx, chunkSize);
    output[outIdx] := msbByte;
    assert output[..outIdx + 1] == done + [msbByte];
    CopyLows(input, inIdx, chunkSize, output, outIdx + 1);
  }

  lemma SameTail(a: seq<byte>, b: seq<byte>, i: nat, j: nat)
    requires i <= j <= |a| == |b| && a[i..] == b[i..]
    ensures a[j..] == b[j..]
  {
    assert a[i..][j - i..] == a[j..] && b[i..][j - i..] == b[j..];
  }

  method EncodeInto(input: seq<byte>, output: array<byte>) returns (outIdx: nat)
    requires output.Length >= |Encode(input)|
    modifies output
    ensures outIdx == |Encode(input)| && output[..outIdx] == Encode(input)
    ensures output[outIdx..] == old(output[outIdx..])
  {
    outIdx := 0;
    var inIdx := 0;
    while inIdx < |input|
      invariant 0 <= inIdx <= |input| && outIdx <= output.Length
      invariant output[..outIdx] + Encode(input[inIdx..]) == Encode(input)
      invariant output[outIdx..] == old(output[..])[outIdx..]
    {
      var chunkSize := Min(7, |input| - inIdx);
      EncodeUnfolds(output[..outIdx], input, inIdx);
      SameTail(output[..], old(output[..]), outIdx, outIdx + 1 + chunkSize);
      PackChunk(input, inIdx, chunkSize, output, outIdx);
      outIdx := outIdx + 1 + chunkSize;
      inIdx := inIdx + chunkSize;
    }
  }

  lemma EncodeUnfolds(done: seq<byte>, input: seq<byte>, i: nat)
    requires i < |input|
    ensures
      var n := Min(7, |input| - i);
      done + Encode(input[i..]) == done + EncodeChunk(input[i..][..n]) + Encode(input[i + n..])
  {
    var n := Min(7, |input| - i);
    assert input[i..][n..] == input[i + n..];
  }

  lemma DecodeUnfolds(done: seq<byte>, input: seq<byte>, i: nat)
    requires i < |input|
    ensures
      var n := Min(7, |input| - (i + 1));
      && done + Decode(input[i..]) == done + DecodeChunk(input[i], input[i + 1..][..n]) + Decode(input[i + 1 + n..])
      && |done| + n <= |done + Decode(input[i..])|
  {
    var n := Min(7, |input| - (i + 1));
    assert input[i..][n + 1..] == input[i + 1 + n..];
    assert input[i..][1..n + 1] == input[i + 1..][..n];
  }

  method RestoreChunk(input: seq<byte>, inIdx: nat, chunkSize: nat, msbByte: byte, output: array<byte>, outIdx: nat)
    requires inIdx + chunkSize <= |input| && outIdx + chunkSize <= output.Length
    modifies output
    ensures output[..outIdx + chunkSize] == old(output[..outIdx]) + DecodeChunk(msbByte, input[inIdx..][..chunkSize])
    ensures output[outIdx + chunkSize..] == old(output[outIdx + chunkSize..])
  {
    ghost var decoded := DecodeChunk(msbByte, input[inIdx..][..chunkSize]);
    var i := 0;
    while i < chunkSize && inIdx + i < |input|
      invariant 0 <= i <= chunkSize
      invariant forall k :: 0 <= k < outIdx ==> output[k] == old(output[k])
      invariant forall k :: outIdx <= k < outIdx + i ==> output[k] == decoded[k - outIdx]
      invariant forall k :: outIdx + i <= k < output.Length ==> output[k] == old(output[k])
    {
      output[outIdx + i] := input[inIdx + i];
      if Bit(msbByte, i) {
        output[outIdx + i] := Or80(output[outIdx + i]);
      }
      i := i + 1;
    }
  }

  method UnpackChunk(input: seq<byte>, inIdx: nat, output: array<byte>, outIdx: nat) returns (chunkSize: nat)
    requires inIdx < |input| && outIdx + Min(7, |input| - (inIdx + 1)) <= output.Length
    modifies output
    ensures chunkSize == Min(7, |input| - (inIdx + 1))
    ensures output[..outIdx + chunkSize] ==
            old(output[..outIdx]) + DecodeChunk(input[inIdx], input[inIdx + 1..][..chunkSize])
    ensures output[outIdx + chunkSize..] == old(output[outIdx + chunkSize..])
  {
    var msbByte := input[inIdx];
    chunkSize := Min(7, |input| - (inIdx + 1));
    RestoreChunk(input, inIdx + 1, chunkSize, msbByte, output, outIdx);
  }

  method DecodeInto(input: seq<byte>, output: array<byte>) returns (outIdx: nat)
    requires output.Length >= |Decode(input)|
    modifies output
    ensures outIdx == |Decode(input)| && output[..outIdx] == Decode(input)
    ensures output[outIdx..] == old(output[outIdx..])
  {
    outIdx := 0;
    var inIdx := 0;
    while inIdx < |input|
      invariant 0 <= inIdx <= |input| && outIdx <= output.Length
      invariant output[..outIdx] + Decode(input[inIdx..]) == Decode(input)
      invariant output[outIdx..] == old(output[..])[outIdx..]
    {
      DecodeUnfolds(output[..outIdx], input, inIdx);
      SameTail(output[..], old(output[..]), outIdx, outIdx + Min(7, |input| - (inIdx + 1)));
      var chunkSize := UnpackChunk(input, inIdx, output, outIdx);
      outIdx := outIdx + chunkSize;
      inIdx := inIdx + 1 + chunkSize;
    }
  }

  // ----- lengths -----

  lemma {:induction false} EncodedLength(raw: seq<byte>)
    ensures |Encode(raw)| == |raw| + (|raw| + 6) / 7
  {
    if |raw| > 0 {
      EncodedLength(raw[Min(7, |raw|)..]);
    }
  }

  lemma {:induction false} DecodedLength(enc: seq<byte>)
    ensures |Decode(enc)| == |enc| - (|enc| + 7) / 8
  {
    if |enc| > 0 {
      DecodedLength(enc[Min(8, |enc|)..]);
    }
  }

  /** A valid encoding that loses any of its bytes, wherever they were, decodes to strictly fewer bytes. */
  lemma LosingBytesShortens(raw: seq<byte>, received: seq<byte>)
    requires |received| < |Encode(raw)|
    ensures |Decode(received)| < |raw|
  {
    EncodedLength(raw);
    DecodedLength(received);
  }

  // ----- round trips -----

  lemma {:induction false} AddedBit(x: nat, k: nat, j: nat)
    requires x < Pow2(k)
    ensures Bit(x + Pow2(k), j) == (Bit(x, j) || j == k)
    ensures j >= k ==> !Bit(x, j)
    decreases k
  {
    if k == 0 {
      NoBits(j);
      if j > 0 {
        NoBits(j - 1);
      }
    } else if j > 0 {
      AddedBit(x / 2, k - 1, j - 1);
      assert (x + Pow2(k)) / 2 == x / 2 + Pow2(k - 1);
    }
  }

  lemma {:induction false} NoBits(j: nat)
    ensures !Bit(0, j)
  {
    if j > 0 {
      NoBits(j - 1);
    }
  }

  lemma {:induction false} MsbBits(chunk: seq<byte>, k: nat, j: nat)
    requires k <= |chunk|
    ensures Bit(MsbByte(chunk, k), j) <==> j < k && chunk[j] >= 0x80
  {
    if k == 0 {
      NoBits(j);
    } else {
      MsbBits(chunk, k - 1, j);
      AddedBit(MsbByte(chunk, k - 1), k - 1, j);
    }
  }

  lemma ChunkAt(chunk: seq<byte>, b: nat)
    requires b < |chunk| <= 7
    ensures EncodeChunk(chunk)[1 + b] == chunk[b] % 0x80
    ensures Bit(EncodeChunk(chunk)[0], b) <==> chunk[b] >= 0x80
  {
    MsbBits(chunk, |chunk|, b);
  }

  /** Where the byte that leads the seven of byte i goes, and where byte i itself goes. */
  function Lead(i: nat): nat {
    8 * (i / 7)
  }

  function Place(i: nat): nat {
    Lead(i) + 1 + i % 7
  }

  lemma PlaceNext(i: nat)
    requires i >= 7
    ensures Lead(i) == Lead(i - 7) + 8 && i % 7 == (i - 7) % 7 && Place(i) == Place(i - 7) + 8
  {
    assert i / 7 == (i - 7) / 7 + 1;
  }

  /** The encoding places byte i. */
  predicate Placed(raw: seq<byte>, enc: seq<byte>, i: nat)
    requires i < |raw|
  {
    && Place(i) < |enc| && enc[Place(i)] == raw[i] % 0x80
    && (Bit(enc[Lead(i)], i % 7) <==> raw[i] >= 0x80)
  }

  lemma PlacedInFirst(raw: seq<byte>, n: nat, rest: seq<byte>, i: nat)
    requires i < n <= 7 && n <= |raw|
    ensures Placed(raw, EncodeChunk(raw[..n]) + rest, i)
  {
    assert i / 7 == 0 && i % 7 == i;
    ChunkAt(raw[..n], i);
  }

  lemma PlacedLater(raw: seq<byte>, head: seq<byte>, rest: seq<byte>, i: nat)
    requires 7 <= i < |raw| && |head| == 8 && Placed(raw[7..], rest, i - 7)
    ensures Placed(raw, head + rest, i)
  {
    PlaceNext(i);
    assert (head + rest)[Place(i)] == rest[Place(i - 7)] && (head + rest)[Lead(i)] == rest[Lead(i - 7)];
  }

  /** Where each byte goes: its low seven bits behind those before it in its seven, its top bit into the byte that leads
      the seven, the first of them in bit 0. */
  lemma {:induction false} EncodedAt(raw: seq<byte>, i: nat)
    requires i < |raw|
    ensures Placed(raw, Encode(raw), i)
  {
    var n := Min(7, |raw|);
    if i < n {
      PlacedInFirst(raw, n, Encode(raw[n..]), i);
    } else {
      EncodedAt(raw[7..], i - 7);
      PlacedLater(raw, EncodeChunk(raw[..7]), Encode(raw[7..]), i);
    }
  }

  lemma ChunkRoundTrip(chunk: seq<byte>)
    requires |chunk| <= 7
    ensures DecodeChunk(EncodeChunk(chunk)[0], EncodeChunk(chunk)[1..]) == chunk
  {
    forall i | 0 <= i < |chunk|
      ensures DecodeChunk(EncodeChunk(chunk)[0], EncodeChunk(chunk)[1..])[i] == chunk[i]
    {
      MsbBits(chunk, |chunk|, i);
    }
  }

  /** Decoding what was encoded gives it back, for every byte string. */
  lemma {:induction false} DecodeEncode(raw: seq<byte>)
    ensures Decode(Encode(raw)) == raw
  {
    if |raw| > 0 {
      var n := Min(7, |raw|);
      var head, rest := EncodeChunk(raw[..n]), Encode(raw[n..]);
      DecodeEncode(raw[n..]);
      ChunkRoundTrip(raw[..n]);
      if n < 7 {
        assert raw[n..] == [];
      }
      assert Encode(raw) == head + rest;
      assert Encode(raw)[1..n + 1] == head[1..];
      assert Encode(raw)[n + 1..] == rest;
    }
  }

  /** What a MIDI wire could carry and no encoder would write otherwise: data bytes only, no chunk that is
      just its MSB byte, no MSB bit for a byte that is not there. */
  predicate Canonical(enc: seq<byte>) {
    (forall i :: 0 <= i < |enc| ==> enc[i] < 0x80) && LastChunkFits(enc)
  }

  predicate LastChunkFits(enc: seq<byte>) {
    var n := |enc| % 8;
    n != 1 && (n > 1 ==> enc[|enc| - n] < Pow2(n - 1))
  }

  lemma FrontChunk(head: seq<byte>, rest: seq<byte>)
    requires |head| == 8
    ensures LastChunkFits(head + rest) == LastChunkFits(rest)
  {
    var e := head + rest;
    var n := |rest| % 8;
    assert |e| % 8 == n;
    if n > 1 {
      assert e[|e| - n] == rest[|rest| - n];
    }
  }

  lemma OnlyChunk(head: seq<byte>)
    requires 0 < |head| < 8
    ensures LastChunkFits(head) <==> |head| >= 2 && head[0] < Pow2(|head| - 1)
  {
    assert |head| % 8 == |head|;
  }

  lemma {:induction false} EncodeIsCanonical(raw: seq<byte>)
    ensures Canonical(Encode(raw))
  {
    if |raw| > 0 {
      var n := Min(7, |raw|);
      MsbIsByte(raw[..n]);
      EncodeIsCanonical(raw[n..]);
      var head, rest := EncodeChunk(raw[..n]), Encode(raw[n..]);
      if n == 7 {
        FrontChunk(head, rest);
      } else {
        OnlyChunk(head);
        assert head + rest == head;
      }
    }
  }

  /** An MSB byte within the chunk's bits is the one its restored bytes give. */
  lemma {:induction false} BitsDetermine(x: nat, y: nat, k: nat)
    requires x < Pow2(k) && y < Pow2(k)
    requires forall j: nat :: j < k ==> Bit(x, j) == Bit(y, j)
    ensures x == y
  {
    if k > 0 {
      assert Bit(x, 0) == Bit(y, 0);
      forall j: nat | j < k - 1
        ensures Bit(x / 2, j) == Bit(y / 2, j)
      {
        assert Bit(x, j + 1) == Bit(y, j + 1);
      }
      BitsDetermine(x / 2, y / 2, k - 1);
    }
  }

  lemma Restored(b: byte)
    requires b < 0x80
    ensures Low7(b) == Low7(Or80(b)) == b && Or80(b) >= 0x80
  {
  }

  lemma ChunkRestored(msb: byte, low: seq<byte>)
    requires |low| <= 7 && msb < Pow2(|low|)
    requires forall i :: 0 <= i < |low| ==> low[i] < 0x80
    ensures EncodeChunk(DecodeChunk(msb, low)) == [msb] + low
  {
    var d := DecodeChunk(msb, low);
    forall j: nat | j < |low|
      ensures Bit(MsbByte(d, |d|), j) == Bit(msb, j)
    {
      MsbBits(d, |d|, j);
      Restored(low[j]);
    }
    BitsDetermine(MsbByte(d, |d|), msb, |d|);
    forall j | 0 <= j < |low|
      ensures Lows(d)[j] == low[j]
    {
      Restored(low[j]);
    }
    assert Lows(d) == low;
  }

  /** A canonical string is a canonical chunk and a canonical string. */
  lemma CanonicalSplit(enc: seq<byte>) returns (low: seq<byte>, rest: seq<byte>)
    requires Canonical(enc) && |enc| > 0
    ensures enc == [enc[0]] + low + rest && 0 < |low| <= 7 && (|low| < 7 ==> rest == [])
    ensures enc[0] < Pow2(|low|) && (forall i :: 0 <= i < |low| ==> low[i] < 0x80) && Canonical(rest)
  {
    if |enc| >= 8 {
      low, rest := enc[1..8], enc[8..];
      FrontChunk(enc[..8], rest);
      assert enc == enc[..8] + rest;
      assert Pow2(3) == 8;
      assert Pow2(7) == 128;
    } else {
      OnlyChunk(enc);
      low, rest := enc[1..], [];
    }
  }

  lemma EncodeFirst(chunk: seq<byte>, rest: seq<byte>)
    requires 0 < |chunk| <= 7 && (|chunk| < 7 ==> rest == [])
    ensures Encode(chunk + rest) == EncodeChunk(chunk) + Encode(rest)
  {
    var raw := chunk + rest;
    assert raw[..|chunk|] == chunk && raw[|chunk|..] == rest;
  }

  lemma OneChunk(enc: seq<byte>, low: seq<byte>, rest: seq<byte>)
    requires 0 < |low| <= 7 && (|low| < 7 ==> rest == [])
    requires |enc| > 0 && enc == [enc[0]] + low + rest
    requires EncodeChunk(DecodeChunk(enc[0], low)) == [enc[0]] + low && Encode(Decode(rest)) == rest
    ensures Encode(Decode(enc)) == enc
  {
    assert enc[1..|low| + 1] == low && enc[|low| + 1..] == rest;
    EncodeFirst(DecodeChunk(enc[0], low), Decode(rest));
  }

  lemma {:induction false} EncodeDecode(enc: seq<byte>)
    requires Canonical(enc)
    ensures Encode(Decode(enc)) == enc
    decreases |enc|
  {
    if |enc| > 0 {
      var low, rest := CanonicalSplit(enc);
      EncodeDecode(rest);
      ChunkRestored(enc[0], low);
      OneChunk(enc, low, rest);
    }
  }

  /** Re-encoding what was decoded gives it back exactly for the canonical strings. */
  lemma EncodeDecodeIff(enc: seq<byte>)
    ensures Encode(Decode(enc)) == enc <==> Canonical(enc)
  {
    if Canonical(enc) {
      EncodeDecode(enc);
    } else {
      EncodeIsCanonical(Decode(enc));
    }
  }
}
