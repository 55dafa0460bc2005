/**
 The four-partition term log as bytes: frame headers, appending, padding, cleaning and the
 scan that walks committed frames.
 */
module TermLog {
  import opened Arith
  import opened Bytes

  const HEADER: nat := 32 // DATA_HEADER_LENGTH
  const TYPE_PAD: nat := 0
  const TYPE_DATA: nat := 1
  const FLAGS_UNFRAGMENTED: nat := 0xC0 // DATA_FLAG_BEGIN | DATA_FLAG_END

  /** The packed little-endian `DataHeader`. */
  function HeaderBytes(frameLength: int, flags: nat, frameType: nat, termOffset: int,
                       sessionId: int, streamId: int, termId: int): (r: seq<Byte>)
    requires flags < 256 && frameType < 0x1_0000
    ensures |r| == HEADER
  {
    EncodeI32(frameLength) + [0, flags] + EncodeU16(frameType)
    + EncodeI32(termOffset) + EncodeI32(sessionId) + EncodeI32(streamId) + EncodeI32(termId) + Zeros(8)
  }

  function DataFrame(termOffset: int, sessionId: int, streamId: int, termId: int, payload: seq<Byte>): (r: seq<Byte>)
    ensures |r| == HEADER + |payload|
  {
    HeaderBytes(HEADER + |payload|, FLAGS_UNFRAGMENTED, TYPE_DATA, termOffset, sessionId, streamId, termId) + payload
  }

  function PadHeader(frameLength: int, termOffset: int): (r: seq<Byte>)
    ensures |r| == HEADER
  {
    HeaderBytes(frameLength, 0, TYPE_PAD, termOffset, 0, 0, 0)
  }

  /** The length and type words a reader finds in a frame that starts with the given header. */
  lemma HeaderFields(frameLength: int, flags: nat, frameType: nat, termOffset: int,
                     sessionId: int, streamId: int, termId: int, rest: seq<Byte>)
    requires flags < 256 && frameType < 0x1_0000 && IsI32(frameLength)
    ensures var f := HeaderBytes(frameLength, flags, frameType, termOffset, sessionId, streamId, termId) + rest;
            DecodeI32(f, 0) == frameLength && DecodeU16(f, 6) == frameType
  {
    var f := HeaderBytes(frameLength, flags, frameType, termOffset, sessionId, streamId, termId) + rest;
    DecodeEncodeI32(frameLength);
    var e := EncodeI32(frameLength);
    assert f[0] == e[0] && f[1] == e[1] && f[2] == e[2] && f[3] == e[3];
    var t := EncodeU16(frameType);
    assert f[6] == t[0] && f[7] == t[1];
  }

  /** Word `at` of a frame is the little-endian form of `x`. */
  lemma WordRead(f: seq<Byte>, at: nat, x: int)
    requires IsI32(x) && at + 4 <= |f| && f[at..at + 4] == EncodeI32(x)
    ensures DecodeI32(f, at) == x
  {
    hide Wrap32, Word32, EncodeI32;
    DecodeEncodeI32(x);
    var e := f[at..at + 4];
    assert e[0] == f[at] && e[1] == f[at + 1] && e[2] == f[at + 2] && e[3] == f[at + 3];
  }

  /** What a reader finds in a frame, field by field, at the offsets of the wire layout. */
  ghost predicate HeaderIs(f: seq<Byte>, frameLength: int, flags: nat, frameType: nat, termOffset: int,
                           sessionId: int, streamId: int, termId: int) {
    && |f| >= HEADER
    && DecodeI32(f, 0) == frameLength && f[4] == 0 && f[5] == flags && DecodeU16(f, 6) == frameType
    && DecodeI32(f, 8) == termOffset && DecodeI32(f, 12) == sessionId && DecodeI32(f, 16) == streamId
    && DecodeI32(f, 20) == termId && f[24..32] == Zeros(8)
  }

  /** A frame that starts with a written header gives every field of it back. */
  lemma HeaderRoundTrip(frameLength: int, flags: nat, frameType: nat, termOffset: int,
                        sessionId: int, streamId: int, termId: int, rest: seq<Byte>)
    requires flags < 256 && frameType < 0x1_0000 && IsI32(frameLength) && IsI32(termOffset)
    requires IsI32(sessionId) && IsI32(streamId) && IsI32(termId)
    ensures var f := HeaderBytes(frameLength, flags, frameType, termOffset, sessionId, streamId, termId) + rest;
            HeaderIs(f, frameLength, flags, frameType, termOffset, sessionId, streamId, termId) && f[HEADER..] == rest
  {
    hide EncodeI32, DecodeI32;
    var f := HeaderBytes(frameLength, flags, frameType, termOffset, sessionId, streamId, termId) + rest;
    assert f[0..4] == EncodeI32(frameLength) && f[8..12] == EncodeI32(termOffset) && f[12..16] == EncodeI32(sessionId);
    assert f[16..20] == EncodeI32(streamId) && f[20..24] == EncodeI32(termId) && f[24..32] == Zeros(8);
    WordRead(f, 0, frameLength);
    WordRead(f, 8, termOffset);
    WordRead(f, 12, sessionId);
    WordRead(f, 16, streamId);
    WordRead(f, 20, termId);
    var t := EncodeU16(frameType);
    assert f[6] == t[0] && f[7] == t[1];
  }

  /** A data frame: its own length, both fragment flags, its place, its stream, and the payload. */
  lemma DataFrameRoundTrip(termOffset: int, sessionId: int, streamId: int, termId: int, payload: seq<Byte>)
    requires IsI32(termOffset) && IsI32(sessionId) && IsI32(streamId) && IsI32(termId) && HEADER + |payload| < TWO31
    ensures var f := DataFrame(termOffset, sessionId, streamId, termId, payload);
            HeaderIs(f, |f|, 0xC0, 1, termOffset, sessionId, streamId, termId) && f[HEADER..] == payload
  {
    hide HeaderBytes, HeaderIs;
    HeaderRoundTrip(HEADER + |payload|, FLAGS_UNFRAGMENTED, TYPE_DATA, termOffset, sessionId, streamId, termId,
                    payload);
  }

  /** A pad header covers the given length, names its offset, and belongs to no stream. */
  lemma PadRoundTrip(frameLength: int, termOffset: int)
    requires IsI32(frameLength) && IsI32(termOffset)
    ensures HeaderIs(PadHeader(frameLength, termOffset), frameLength, 0, 0, termOffset, 0, 0, 0)
  {
    hide HeaderBytes, HeaderIs;
    HeaderRoundTrip(frameLength, 0, TYPE_PAD, termOffset, 0, 0, 0, []);
    assert PadHeader(frameLength, termOffset) + [] == PadHeader(frameLength, termOffset);
  }

  /** The length word and the rest of a header are written separately. */
  lemma HeaderSplits(frameLength: int, flags: nat, frameType: nat, termOffset: int,
                     sessionId: int, streamId: int, termId: int)
    requires flags < 256 && frameType < 0x1_0000
    ensures HeaderBytes(frameLength, flags, frameType, termOffset, sessionId, streamId, termId)
         == EncodeI32(frameLength) + HeaderBytes(0, flags, frameType, termOffset, sessionId, streamId, termId)[4..]
  {
  }

  // ---- Writing ----

  /** `write_pad_frame`: a header covering the unused tail, when it fits. */
  function WritePad(buf: seq<Byte>, termLength: nat, partition: nat, termOffset: nat): (r: seq<Byte>)
    requires |buf| == 4 * termLength && partition < 4 && termOffset <= termLength
    ensures |r| == |buf|
  {
    if termLength - termOffset < HEADER then buf
    else
      PartitionFits(partition, termLength);
      Splice(buf, partition * termLength + termOffset, PadHeader(termLength - termOffset, termOffset))
  }

  function CleanPartition(buf: seq<Byte>, termLength: nat, partition: nat): (r: seq<Byte>)
    requires |buf| == 4 * termLength && partition < 4
    ensures |r| == |buf|
  {
    PartitionFits(partition, termLength);
    Splice(buf, partition * termLength, Zeros(termLength))
  }

  lemma PartitionFits(partition: nat, termLength: nat)
    requires partition < 4
    ensures 0 <= partition * termLength
    ensures partition * termLength + termLength <= 4 * termLength
  {
  }

  /** Header with length 0, payload, then the length word: together the whole frame. */
  lemma CommitLastIsWholeFrame(buf: seq<Byte>, at: nat, header: seq<Byte>, length: seq<Byte>, payload: seq<Byte>)
    requires |header| == HEADER && |length| == 4 && at + HEADER + |payload| <= |buf|
    ensures Splice(Splice(Splice(buf, at, header), at + HEADER, payload), at, length)
         == Splice(buf, at, length + header[4..] + payload)
  {
    var written := Splice(Splice(Splice(buf, at, header), at + HEADER, payload), at, length);
    var whole := Splice(buf, at, length + header[4..] + payload);
    forall i | 0 <= i < |buf| ensures written[i] == whole[i] {
    }
  }

  /** Pad header without its length word, then the length word. */
  lemma CommitLastIsWholePad(buf: seq<Byte>, at: nat, tail: seq<Byte>, length: seq<Byte>)
    requires |tail| == HEADER - 4 && |length| == 4 && at + HEADER <= |buf|
    ensures Splice(Splice(buf, at + 4, tail), at, length) == Splice(buf, at, length + tail)
  {
    var written := Splice(Splice(buf, at + 4, tail), at, length);
    var whole := Splice(buf, at, length + tail);
    forall i | 0 <= i < |buf| ensures written[i] == whole[i] {
    }
  }

  // ---- Scanning ----

  datatype Emission = Emission(termOffset: nat, slice: seq<Byte>)

  datatype ScanResult = ScanResult(scanned: nat, frames: seq<Emission>)

  /** Length of the committed frame at `pos` of the partition at `base`, or 0 where a scan stops. */
  function FrameLengthAt(buf: seq<Byte>, base: nat, termLength: nat, pos: nat): (r: nat)
    requires base + termLength <= |buf| && pos < termLength
    ensures r != 0 ==> HEADER <= r && pos + Align32(r) <= termLength
  {
    if termLength - pos < 4 then 0
    else
      var frameLength := DecodeI32(buf, base + pos);
      if frameLength < HEADER then 0
      else if pos + Align32(frameLength) > termLength then 0
      else frameLength
  }

  /** What `scan_frames` does from `pos` on, having already scanned `scanned` bytes. */
  function Scan(buf: seq<Byte>, base: nat, termLength: nat, pos: nat, scanned: nat, limit: nat): (r: ScanResult)
    requires base + termLength <= |buf| && pos <= termLength
    ensures scanned <= r.scanned && pos + (r.scanned - scanned) <= termLength
    decreases termLength - pos
  {
    if pos >= termLength || scanned >= limit then ScanResult(scanned, [])
    else
      var frameLength := FrameLengthAt(buf, base, termLength, pos);
      if frameLength == 0 then ScanResult(scanned, [])
      else
        var aligned := Align32(frameLength);
        var rest := Scan(buf, base, termLength, pos + aligned, scanned + aligned, limit);
        ScanResult(rest.scanned, [Emission(pos, buf[base + pos..base + pos + frameLength])] + rest.frames)
  }

  /** One turn of the scan loop. */
  lemma ScanUnfold(buf: seq<Byte>, base: nat, termLength: nat, pos: nat, scanned: nat, limit: nat)
    requires base + termLength <= |buf| && pos <= termLength
    ensures var r := Scan(buf, base, termLength, pos, scanned, limit);
            if pos >= termLength || scanned >= limit || FrameLengthAt(buf, base, termLength, pos) == 0
            then r == ScanResult(scanned, [])
            else
              var length := FrameLengthAt(buf, base, termLength, pos);
              var rest := Scan(buf, base, termLength, pos + Align32(length), scanned + Align32(length), limit);
              r == ScanResult(rest.scanned, [Emission(pos, buf[base + pos..base + pos + length])] + rest.frames)
  {
  }

  /** The emissions follow one another from `pos` on, each with the bytes that stand at its offset. */
  ghost predicate InPlace(buf: seq<Byte>, base: nat, pos: nat, end: nat, frames: seq<Emission>)
    decreases |frames|
  {
    if |frames| == 0 then pos == end
    else
      var e := frames[0];
      && e.termOffset == pos && base + pos + |e.slice| <= |buf| && e.slice == buf[base + pos..base + pos + |e.slice|]
      && |e.slice| >= HEADER && DecodeI32(e.slice, 0) == |e.slice|
      && InPlace(buf, base, pos + Align32(|e.slice|), end, frames[1..])
  }

  /** A scan emits every frame it covers, with its offset and its bytes. */
  lemma {:induction false} ScanInPlace(buf: seq<Byte>, base: nat, termLength: nat, pos: nat, scanned: nat, limit: nat)
    requires base + termLength <= |buf| && pos <= termLength
    ensures var r := Scan(buf, base, termLength, pos, scanned, limit);
            InPlace(buf, base, pos, pos + (r.scanned - scanned), r.frames)
    decreases termLength - pos
  {
    hide Align32, DecodeI32, Scan, FrameLengthAt;
    ScanUnfold(buf, base, termLength, pos, scanned, limit);
    if pos < termLength && scanned < limit && FrameLengthAt(buf, base, termLength, pos) != 0 {
      var length := FrameLengthAt(buf, base, termLength, pos);
      var aligned := Align32(length);
      ScanInPlace(buf, base, termLength, pos + aligned, scanned + aligned, limit);
      EmittedLength(buf, base, termLength, pos);
      var first := [Emission(pos, buf[base + pos..base + pos + length])];
      var rest := Scan(buf, base, termLength, pos + aligned, scanned + aligned, limit).frames;
      assert (first + rest)[1..] == rest;
    }
  }

  lemma EmittedLength(buf: seq<Byte>, base: nat, termLength: nat, pos: nat)
    requires base + termLength <= |buf| && pos < termLength && FrameLengthAt(buf, base, termLength, pos) != 0
    ensures var length := FrameLengthAt(buf, base, termLength, pos);
            base + pos + length <= |buf| && DecodeI32(buf[base + pos..base + pos + length], 0) == length
  {
  }

  /** The sender's filter: pad frames only move the scan and are not transmitted. */
  predicate IsPad(slice: seq<Byte>) {
    |slice| >= 8 && DecodeU16(slice, 6) == TYPE_PAD
  }

  function Transmitted(frames: seq<Emission>): (r: seq<seq<Byte>>) {
    if |frames| == 0 then []
    else (if IsPad(frames[0].slice) then [] else [frames[0].slice]) + Transmitted(frames[1..])
  }
}
