/**
 An image: the receiver's bookkeeping for one (session, stream) together with the four-partition
 log it shares with a subscriber.  `on_data` writes frames as they arrive, in any order, and
 `poll_fragments` reads committed frames and steps over gaps.
 */
module Image {
  import opened Arith
  import opened Bytes
  import opened TermLog

  datatype Image = Image(
    initialTermId: int, termLength: nat,
    buf: seq<Byte>, receiverPosition: int, subscriberPosition: int,
    activeTermId: int, consumptionTermId: int, consumptionTermOffset: int, expectedTermOffset: int,
    timeOfLastNak: int, timeOfLastSm: int, smPending: bool)

  /** A data frame as it arrives: the fields `on_data` looks at, the 32 header bytes and the payload. */
  datatype Wire = Wire(termId: int, termOffset: int, header: seq<Byte>, payload: seq<Byte>)

  datatype Nak = Nak(termId: int, termOffset: int, length: int)

  ghost predicate ImageOk(x: Image) {
    && HEADER <= x.termLength <= 0x2000_0000 && IsPowerOfTwo(x.termLength) && Aligned(x.termLength)
    && |x.buf| == 4 * x.termLength
    && IsI32(x.initialTermId) && IsI32(x.activeTermId)
  }

  /** A frame is one datagram, and the 32-bit sum of its offset and aligned length does not wrap. */
  ghost predicate WireOk(f: Wire) {
    && IsI32(f.termId) && IsI32(f.termOffset) && NewOffset(f) < TWO32
    && |f.header| == HEADER && |f.payload| < 0x1_0000
  }

  /** The image `on_setup` creates. */
  function NewImage(initialTermId: int, activeTermId: int, termLength: nat, termOffset: int): Image {
    var position := ComputePosition(activeTermId, termOffset, initialTermId, termLength);
    Image(initialTermId, termLength, Zeros(4 * termLength), position, position,
          activeTermId, activeTermId, termOffset, termOffset, 0, 0, false)
  }

  // ---- on_data ----

  function Gap(x: Image, f: Wire): int {
    Wrap32(f.termOffset - x.expectedTermOffset)
  }

  predicate GapSeen(x: Image, f: Wire) {
    0 < Gap(x, f) < HALF_I32 && f.termId == x.activeTermId
  }

  predicate NakDue(x: Image, f: Wire, now: int, nakDelay: int) {
    var sinceLast := Wrap64(now - x.timeOfLastNak);
    GapSeen(x, f) && sinceLast >= 0 && sinceLast >= nakDelay
  }

  function NakFor(x: Image, f: Wire): Nak {
    Nak(x.activeTermId, x.expectedTermOffset, Gap(x, f))
  }

  function TermAhead(x: Image, f: Wire): int {
    Wrap32(f.termId - x.activeTermId)
  }

  predicate Advances(x: Image, f: Wire) {
    0 < TermAhead(x, f) < HALF_I32
  }

  /** The log with the partitions of the next `steps` terms cleaned. */
  function CleanAhead(x: Image, steps: nat): (r: seq<Byte>)
    requires |x.buf| == 4 * x.termLength
    ensures |r| == |x.buf|
  {
    if steps == 0 then x.buf
    else
      CleanPartition(CleanAhead(x, steps - 1), x.termLength,
                     PartitionIndex(Wrap32(x.activeTermId + steps), x.initialTermId))
  }

  function CleanSteps(x: Image, f: Wire): (r: nat)
    ensures r <= PARTITION_COUNT
  {
    var ahead := TermAhead(x, f);
    if ahead <= 0 then 0 else if ahead < PARTITION_COUNT then ahead else PARTITION_COUNT
  }

  /** Moves the window so that the frame's term is the active one, if the frame is ahead. */
  function Advance(x: Image, f: Wire): (x': Image)
    requires |x.buf| == 4 * x.termLength
    ensures |x'.buf| == |x.buf|
  {
    if !Advances(x, f) then x
    else x.(buf := CleanAhead(x, CleanSteps(x, f)), activeTermId := f.termId,
            consumptionTermId := f.termId, consumptionTermOffset := 0, expectedTermOffset := 0)
  }

  predicate Stale(x: Image, f: Wire) {
    AsU32(Wrap32(x.activeTermId - f.termId)) >= PARTITION_COUNT
  }

  /** The offset as `append_frame` takes it: an unsigned word, so a negative one is beyond every term. */
  function Offset(f: Wire): nat {
    AsU32(f.termOffset)
  }

  function NewOffset(f: Wire): nat {
    Offset(f) + Align32(HEADER + |f.payload|)
  }

  predicate TermFull(x: Image, f: Wire) {
    NewOffset(f) > x.termLength
  }

  function WirePartition(x: Image, f: Wire): (r: nat)
    ensures r < PARTITION_COUNT
  {
    PartitionIndex(f.termId, x.initialTermId)
  }

  /** What `append_frame` leaves in the log: the header with its committed length, and the payload. */
  function CommittedBytes(f: Wire): (r: seq<Byte>)
    requires |f.header| == HEADER
    ensures |r| == HEADER + |f.payload|
  {
    EncodeI32(HEADER + |f.payload|) + f.header[4..] + f.payload
  }

  function Raise(current: int, end: int): int {
    var advance := Wrap32(end - current);
    if 0 < advance < HALF_I32 then end else current
  }

  function RaisePosition(current: int, position: int): int {
    var advance := Wrap64(position - current);
    if 0 < advance < HALF_I64 then position else current
  }

  /** A frame that fits its term is written and the cursors follow it. */
  function Accept(x: Image, f: Wire, sendSmOnData: bool): (x': Image)
    requires |x.buf| == 4 * x.termLength && |f.header| == HEADER && !TermFull(x, f)
    ensures |x'.buf| == |x.buf|
  {
    PartitionFits(WirePartition(x, f), x.termLength);
    var end := NewOffset(f);
    x.(buf := Splice(x.buf, WirePartition(x, f) * x.termLength + Offset(f), CommittedBytes(f)),
       consumptionTermOffset :=
         if f.termId == x.consumptionTermId then Raise(x.consumptionTermOffset, end) else x.consumptionTermOffset,
       expectedTermOffset :=
         if f.termId == x.activeTermId then Raise(x.expectedTermOffset, end) else x.expectedTermOffset,
       smPending := x.smPending || sendSmOnData,
       receiverPosition :=
         RaisePosition(x.receiverPosition, ComputePosition(f.termId, end, x.initialTermId, x.termLength)))
  }

  function OnData(x: Image, f: Wire, now: int, nakDelay: int, sendSmOnData: bool): (x': Image)
    requires |x.buf| == 4 * x.termLength && |f.header| == HEADER
    ensures |x'.buf| == |x.buf|
  {
    var x1 := Advance(x, f);
    var x2 := if Stale(x1, f) || TermFull(x1, f) then x1 else Accept(x1, f, sendSmOnData);
    if NakDue(x, f, now, nakDelay) then x2.(timeOfLastNak := now) else x2
  }

  // ---- poll_fragments ----

  datatype PollResult = PollResult(scanned: nat, delivered: seq<seq<Byte>>)

  /** Length word at byte `at`; offsets are 32-aligned, so the bound never bites. */
  function LengthWord(buf: seq<Byte>, at: nat): (r: int) {
    if at + 4 <= |buf| then DecodeI32(buf, at) else 0
  }

  /** Where a gap that reaches up to offset `q` ends: the next committed frame, or the end of the term. */
  function GapEnd(buf: seq<Byte>, base: nat, termLength: nat, q: nat): (r: nat)
    ensures q <= termLength ==> q <= r <= termLength
    ensures q > termLength ==> r == termLength
    decreases termLength - q
  {
    if q >= termLength then termLength
    else if LengthWord(buf, base + q) > 0 then q
    else GapEnd(buf, base, termLength, q + FRAME_ALIGNMENT)
  }

  /**
   The polling loop at offset `pos`, having scanned `scanned` bytes, with `left` fragments still
   wanted; `ahead` is how far `receiver_position` lies beyond the start of the poll.
   */
  function PollFrom(buf: seq<Byte>, base: nat, termLength: nat, pos: nat, scanned: nat, left: nat,
                    ahead: int): (r: PollResult)
    requires base + termLength <= |buf| && pos <= termLength
    ensures scanned <= r.scanned && pos + (r.scanned - scanned) <= termLength
    decreases termLength - pos
  {
    if pos >= termLength || left == 0 || termLength - pos < 4 then PollResult(scanned, [])
    else
      var frameLength := LengthWord(buf, base + pos);
      if frameLength <= 0 then
        if ahead <= scanned then PollResult(scanned, [])
        else
          var next := GapEnd(buf, base, termLength, pos + FRAME_ALIGNMENT);
          PollFrom(buf, base, termLength, next, scanned + (next - pos), left, ahead)
      else if frameLength < HEADER || pos + Align32(frameLength) > termLength then PollResult(scanned, [])
      else
        var aligned := Align32(frameLength);
        var at := base + pos;
        if DecodeU16(buf, at + 6) == TYPE_PAD then
          PollFrom(buf, base, termLength, pos + aligned, scanned + aligned, left, ahead)
        else
          var rest := PollFrom(buf, base, termLength, pos + aligned, scanned + aligned, left - 1, ahead);
          PollResult(rest.scanned, [buf[at + HEADER..at + frameLength]] + rest.delivered)
  }

  function Poll(x: Image, limit: int): (r: (Image, seq<seq<Byte>>))
    requires |x.buf| == 4 * x.termLength && x.termLength > 0
    ensures |r.0.buf| == |x.buf|
  {
    if limit <= 0 then (x, [])
    else
      var termId := TermIdOf(x.subscriberPosition, x.initialTermId, x.termLength);
      var partition := PartitionIndex(termId, x.initialTermId);
      PartitionFits(partition, x.termLength);
      var result := PollFrom(x.buf, partition * x.termLength, x.termLength,
                             TermOffsetOf(x.subscriberPosition, x.termLength), 0, limit,
                             x.receiverPosition - x.subscriberPosition);
      (x.(subscriberPosition := x.subscriberPosition + result.scanned), result.delivered)
  }

  // ---- Status messages ----

  datatype Sm = Sm(consumptionTermId: int, consumptionTermOffset: int)

  predicate SmDue(x: Image, now: int, smInterval: int) {
    Wrap64(now - x.timeOfLastSm) > smInterval || x.smPending
  }

  function AfterSm(x: Image, now: int): Image {
    x.(timeOfLastSm := now, smPending := false)
  }
}
