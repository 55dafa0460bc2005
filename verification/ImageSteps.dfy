/**
 The receiver thread and the subscriber thread on one image, interleaved one memory access at a time:
 bytes are cleaned, copied and read singly, the length word and the receiver position are atomic.
 Loads and stores are sequentially consistent.
 */
module ImageSteps {
  import opened Wrappers
  import opened Arith
  import opened Bytes
  import opened TermLog
  import opened PublicationHistory
  import opened PublicationScan
  import opened Image
  import opened ImageStream
  import opened ImagePoll
  import W = ImageWindow

  /**
   `on_data` for frame `i` of the stream.  Two fields are bookkeeping: `before` is the image when the call
   began, and `again` says that the place of the frame held a length when its writing began.
   */
  datatype ReceiverPc =
    | Resting
    | Cleaning(i: nat, step: nat, done: nat, before: Image) // `done` bytes of the `step`-th partition entered
    | Copying(i: nat, done: nat, again: bool)                // header with length 0, then payload
    | Committing(i: nat, again: bool)                        // about to store the length word
    | Following(i: nat)                                      // about to store the cursors and receiver_position

  /** `poll_fragments`, `scanned` bytes beyond subscriber_position, with `left` fragments still wanted. */
  datatype SubscriberPc =
    | Idle
    | Loading(scanned: nat, left: nat)               // about to load a length word
    | Checking(scanned: nat, left: nat)              // found none; about to load receiver_position
    | Skipping(scanned: nat, left: nat, skip: nat)   // about to load the length word `skip` bytes on
    | Typing(scanned: nat, left: nat, length: nat)   // about to read the frame type
    | Reading(scanned: nat, left: nat, length: nat, got: seq<Byte>)

  datatype State = State(x: Image, receiver: ReceiverPc, subscriber: SubscriberPc, delivered: seq<seq<Byte>>)

  datatype Action =
    | StartArrive(i: nat) // frame `i` of the stream reaches `on_data`
    | ReceiverStep
    | StartPoll(limit: nat)
    | SubscriberStep

  /** The bytes of frame `r` as first written, with length 0. */
  function OpenBytes(r: Rec): (b: seq<Byte>)
    ensures |b| == |r.bytes| || |r.bytes| < 4
  {
    if |r.bytes| < 4 then r.bytes else BLANK + r.bytes[4..]
  }

  // ---- The receiver ----

  function FrameBase(x: Image, f: Wire): nat { WirePartition(x, f) * x.termLength + Offset(f) }

  function CleanBase(x: Image, step: nat): nat {
    PartitionIndex(Wrap32(x.activeTermId + step), x.initialTermId) * x.termLength
  }

  /** After the window has moved, or at once: write the frame, unless it is stale or does not fit. */
  function BeginAppend(s: State, i: nat, f: Wire): State {
    s.(receiver := if Stale(s.x, f) || TermFull(s.x, f) then Resting
                   else Copying(i, 0, LengthWord(s.x.buf, FrameBase(s.x, f)) != 0))
  }

  function BeginArrive(h: seq<Rec>, s: State, i: nat): State
    requires s.x.termLength > 0
  {
    if i >= |h| || |h[i].bytes| < HEADER then s
    else
      var f := WireOf(s.x, h[i]);
      if Advances(s.x, f) then s.(receiver := Cleaning(i, 1, 0, s.x)) else BeginAppend(s, i, f)
  }

  /** The cursors after the frame is committed. */
  function Followed(x: Image, f: Wire): Image {
    var end := NewOffset(f);
    x.(consumptionTermOffset :=
         if f.termId == x.consumptionTermId then Raise(x.consumptionTermOffset, end) else x.consumptionTermOffset,
       expectedTermOffset :=
         if f.termId == x.activeTermId then Raise(x.expectedTermOffset, end) else x.expectedTermOffset,
       receiverPosition :=
         RaisePosition(x.receiverPosition, ComputePosition(f.termId, end, x.initialTermId, x.termLength)))
  }

  function MoveWindow(x: Image, f: Wire): Image {
    x.(activeTermId := f.termId, consumptionTermId := f.termId, consumptionTermOffset := 0, expectedTermOffset := 0)
  }

  function CleanStep(s: State, f: Wire): State
    requires s.receiver.Cleaning?
  {
    var Cleaning(i, step, done, before) := s.receiver;
    if done < s.x.termLength then
      s.(x := s.x.(buf := Store(s.x.buf, CleanBase(s.x, step) + done, [0])),
         receiver := Cleaning(i, step, done + 1, before))
    else if step < CleanSteps(s.x, f) then s.(receiver := Cleaning(i, step + 1, 0, before))
    else BeginAppend(s.(x := MoveWindow(s.x, f)), i, f)
  }

  function ReceiverNext(h: seq<Rec>, s: State): State
    requires s.x.termLength > 0
  {
    if s.receiver.Resting? || s.receiver.i >= |h| || |h[s.receiver.i].bytes| < HEADER then s
    else
      var r := h[s.receiver.i];
      var f := WireOf(s.x, r);
      match s.receiver
      case Cleaning(_, _, _, _) => CleanStep(s, f)
      case Copying(i, done, again) =>
        if done < |OpenBytes(r)| then
          s.(x := s.x.(buf := Store(s.x.buf, FrameBase(s.x, f) + done, [OpenBytes(r)[done]])),
             receiver := Copying(i, done + 1, again))
        else s.(receiver := Committing(i, again))
      case Committing(i, _) =>
        s.(x := s.x.(buf := Store(s.x.buf, FrameBase(s.x, f), EncodeI32(HEADER + |f.payload|))),
           receiver := Following(i))
      case Following(_) => s.(x := Followed(s.x, f), receiver := Resting)
  }

  // ---- The subscriber ----

  /** Base of the partition the subscriber reads. */
  function ReadBase(x: Image): nat
    requires x.termLength > 0
  {
    PartitionIndex(TermIdOf(x.subscriberPosition, x.initialTermId, x.termLength), x.initialTermId) * x.termLength
  }

  function ReadOffset(x: Image): nat
    requires x.termLength > 0
  {
    TermOffsetOf(x.subscriberPosition, x.termLength)
  }

  function ByteAt(buf: seq<Byte>, at: nat): Byte { if at < |buf| then buf[at] else 0 }

  function Finish(s: State, scanned: nat): State {
    s.(x := s.x.(subscriberPosition := s.x.subscriberPosition + scanned), subscriber := Idle)
  }

  function LoadStep(s: State, scanned: nat, left: nat): State
    requires s.x.termLength > 0
  {
    var pos, tl := ReadOffset(s.x) + scanned, s.x.termLength;
    if pos >= tl || left == 0 || tl - pos < 4 then Finish(s, scanned)
    else
      var length := LengthWord(s.x.buf, ReadBase(s.x) + pos);
      if length <= 0 then s.(subscriber := Checking(scanned, left))
      else if length < HEADER || pos + Align32(length) > tl then Finish(s, scanned)
      else s.(subscriber := Typing(scanned, left, length))
  }

  function SkipStep(s: State, scanned: nat, left: nat, skip: nat): State
    requires s.x.termLength > 0
  {
    var pos, tl := ReadOffset(s.x) + scanned, s.x.termLength;
    if pos + skip >= tl then
      s.(subscriber := Loading(if pos <= tl then scanned + (tl - pos) else scanned, left))
    else if LengthWord(s.x.buf, ReadBase(s.x) + pos + skip) > 0 then s.(subscriber := Loading(scanned + skip, left))
    else s.(subscriber := Skipping(scanned, left, skip + FRAME_ALIGNMENT))
  }

  function SubscriberNext(s: State): State
    requires s.x.termLength > 0
  {
    match s.subscriber
    case Idle => s
    case Loading(scanned, left) => LoadStep(s, scanned, left)
    case Checking(scanned, left) =>
      if s.x.receiverPosition <= s.x.subscriberPosition + scanned then Finish(s, scanned)
      else s.(subscriber := Skipping(scanned, left, FRAME_ALIGNMENT))
    case Skipping(scanned, left, skip) => SkipStep(s, scanned, left, skip)
    case Typing(scanned, left, length) =>
      var at := ReadBase(s.x) + ReadOffset(s.x) + scanned;
      if at + 8 <= |s.x.buf| && DecodeU16(s.x.buf, at + 6) == TYPE_PAD then
        s.(subscriber := Loading(scanned + Align32(length), left))
      else s.(subscriber := Reading(scanned, left, length, []))
    case Reading(scanned, left, length, got) =>
      var at := ReadBase(s.x) + ReadOffset(s.x) + scanned;
      if HEADER + |got| < length then
        s.(subscriber := Reading(scanned, left, length, got + [ByteAt(s.x.buf, at + HEADER + |got|)]))
      else
        s.(subscriber := Loading(scanned + Align32(length), if left > 0 then left - 1 else 0),
           delivered := s.delivered + [got])
  }

  function Next(h: seq<Rec>, s: State, action: Action): State
    requires s.x.termLength > 0
  {
    match action
    case StartArrive(i) => if s.receiver.Resting? then BeginArrive(h, s, i) else s
    case ReceiverStep => ReceiverNext(h, s)
    case StartPoll(limit) =>
      if s.subscriber.Idle? && limit > 0 then s.(subscriber := Loading(0, limit)) else s
    case SubscriberStep => SubscriberNext(s)
  }

  // ---- What the log holds while a frame is being written ----

  ghost predicate InFrame(h: seq<Rec>, a: nat, q: int) { a < |h| && h[a].pos <= q < End(h[a]) }

  /** As `Holds`, with nothing said about the bytes of frame `a`. */
  ghost predicate HoldsExcept(buf: seq<Byte>, k: int, tl: nat, h: seq<Rec>, stored: set<nat>, a: nat) {
    && tl > 0
    && (forall j :: j in stored ==> IsData(h, j) && InTerms(k, tl, h[j].pos))
    && (forall j :: j in stored && j != a ==> Shows(buf, h[j].pos, h[j].bytes))
    && (forall q: nat :: InLog(k, tl, q) && Aligned(q) && !Covered(h, stored, q) && !InFrame(h, a, q) ==>
          Shows(buf, q, BLANK))
  }

  lemma HoldsIsExcept(buf: seq<Byte>, k: int, tl: nat, h: seq<Rec>, stored: set<nat>, a: nat)
    requires Holds(buf, k, tl, h, stored)
    ensures HoldsExcept(buf, k, tl, h, stored, a)
  {
  }

  /** A piece written inside frame `a` leaves a frame of the window in place. */
  lemma PieceKeepsFrame(buf: seq<Byte>, k: int, tl: nat, h: seq<Rec>, a: nat, j: nat, at: nat, piece: seq<Byte>)
    requires |buf| == 4 * tl && StreamOk(tl, h) && a < |h| && j < |h| && a != j
    requires InTerms(k, tl, h[a].pos) && InTerms(k, tl, h[j].pos) && Shows(buf, h[j].pos, h[j].bytes)
    requires h[a].pos <= at && at + |piece| <= h[a].pos + |h[a].bytes| && InOnePiece(at, |piece|, |buf|)
    ensures Shows(Splice(buf, at % |buf|, piece), h[j].pos, h[j].bytes)
  {
    hide Align32, Aligned, RecOk, Contiguous, Shows, Splice;
    EndInTerms(tl, h, a, k);
    EndInTerms(tl, h, j, k);
    WindowWidth(k, tl);
    if a < j {
      PositionsOrdered(h, a, j);
      SpliceKeepsLater(buf, h[j].pos, h[j].bytes, at, piece);
    } else {
      PositionsOrdered(h, j, a);
      SpliceKeeps(buf, h[j].pos, h[j].bytes, at, piece);
    }
  }

  lemma PieceKeepsBlank(buf: seq<Byte>, k: int, tl: nat, h: seq<Rec>, a: nat, q: nat, at: nat, piece: seq<Byte>)
    requires |buf| == 4 * tl && StreamOk(tl, h) && a < |h|
    requires InTerms(k, tl, h[a].pos) && InLog(k, tl, q) && Shows(buf, q, BLANK) && Aligned(q) && !InFrame(h, a, q)
    requires h[a].pos <= at && at + |piece| <= h[a].pos + |h[a].bytes| && InOnePiece(at, |piece|, |buf|)
    ensures Shows(Splice(buf, at % |buf|, piece), q, BLANK)
  {
    hide Align32, Aligned, RecOk, HistoryOk, Shows, Splice;
    var t, off, origin := FramePlace(tl, h, a);
    EndInTerms(tl, h, a, k);
    LogWidth(k, tl, h[a].pos, q);
    if q < h[a].pos {
      AlignedSum(q, h[a].pos);
      SpliceKeeps(buf, q, BLANK, at, piece);
    } else {
      SpliceKeepsLater(buf, q, BLANK, at, piece);
    }
  }

  lemma PieceKeepsExcept(buf: seq<Byte>, k: int, tl: nat, h: seq<Rec>, stored: set<nat>, a: nat, at: nat,
                         piece: seq<Byte>)
    requires |buf| == 4 * tl && StreamOk(tl, h) && a < |h| && HoldsExcept(buf, k, tl, h, stored, a)
    requires InTerms(k, tl, h[a].pos)
    requires h[a].pos <= at && at + |piece| <= h[a].pos + |h[a].bytes| && InOnePiece(at, |piece|, |buf|)
    ensures HoldsExcept(Splice(buf, at % |buf|, piece), k, tl, h, stored, a)
  {
    hide Align32, Aligned, HistoryOk, Shows, InTerms, Splice, InFrame, InLog;
    var buf' := Splice(buf, at % |buf|, piece);
    forall j | j in stored && j != a ensures Shows(buf', h[j].pos, h[j].bytes) {
      PieceKeepsFrame(buf, k, tl, h, a, j, at, piece);
    }
    forall q: nat | InLog(k, tl, q) && Aligned(q) && !Covered(h, stored, q) && !InFrame(h, a, q)
      ensures Shows(buf', q, BLANK)
    {
      PieceKeepsBlank(buf, k, tl, h, a, q, at, piece);
    }
  }

  /** Once frame `a` is shown it is one of the stored frames. */
  lemma ExceptCommit(buf: seq<Byte>, k: int, tl: nat, h: seq<Rec>, stored: set<nat>, a: nat)
    requires HoldsExcept(buf, k, tl, h, stored, a) && IsData(h, a) && InTerms(k, tl, h[a].pos)
    requires Shows(buf, h[a].pos, h[a].bytes)
    ensures Holds(buf, k, tl, h, stored + {a})
  {
    hide Shows, InTerms, InLog, Aligned;
    forall q: nat | InLog(k, tl, q) && Aligned(q) && !Covered(h, stored + {a}, q) ensures Shows(buf, q, BLANK) {
      assert a in stored + {a};
      assert !Covered(h, stored, q);
    }
  }

  /** A frame that is not stored has no length word. */
  lemma UnstoredBlank(buf: seq<Byte>, k: int, tl: nat, h: seq<Rec>, stored: set<nat>, a: nat)
    requires StreamOk(tl, h) && Holds(buf, k, tl, h, stored) && IsData(h, a) && InTerms(k, tl, h[a].pos) && a !in stored
    ensures Shows(buf, h[a].pos, BLANK)
  {
    hide Align32, Aligned, RecOk, Contiguous, Shows, InTerms, Holds;
    var t, off, origin := FramePlace(tl, h, a);
    if Covered(h, stored, h[a].pos) {
      var i :| i in stored && i < |h| && h[i].pos <= h[a].pos < End(h[i]);
      if i < a {
        PositionsOrdered(h, i, a);
      } else {
        PositionsOrdered(h, a, i);
        StoredNonempty(tl, h, a);
      }
    }
    HoldsBlank(buf, k, tl, h, stored, h[a].pos);
  }

  // ---- The invariant ----

  function Scanned(pc: SubscriberPc): nat {
    if pc.Idle? then 0 else pc.scanned
  }

  /** Absolute position the subscriber has reached. */
  function Cursor(s: State): int { s.x.subscriberPosition + Scanned(s.subscriber) }

  /** End of the term the subscriber reads. */
  function ReadEnd(x: Image): int
    requires x.termLength > 0
  {
    x.subscriberPosition - x.subscriberPosition % x.termLength + x.termLength
  }

  /** From the fifth byte on the log shows `bytes` at `pos`. */
  ghost predicate ShowsRest(buf: seq<Byte>, pos: nat, bytes: seq<Byte>) {
    && 4 <= |bytes| && InOnePiece(pos, |bytes|, |buf|)
    && buf[pos % |buf| + 4..pos % |buf| + |bytes|] == bytes[4..]
  }

  /**
   Frame `i` is being written: the rest of the log is in order.  A frame that is not stored yet has no
   length until it is committed; one that is written again keeps all but its length.
   */
  ghost predicate Writing(h: seq<Rec>, x: Image, stored: set<nat>, i: nat) {
    && IsData(h, i) && InTerms(W.TermCount(x), x.termLength, h[i].pos)
    && HoldsExcept(x.buf, W.TermCount(x), x.termLength, h, stored, i)
    && (i !in stored ==> Shows(x.buf, h[i].pos, BLANK))
    && (i in stored ==> ShowsRest(x.buf, h[i].pos, h[i].bytes))
  }

  /** Frame `i` belongs to a later term, which it makes the active one. */
  ghost predicate MovesWindow(h: seq<Rec>, x: Image, i: nat) {
    x.termLength > 0 && IsData(h, i) && 0 < h[i].pos / x.termLength - W.TermCount(x) < HALF_I32
  }

  /** The log with `step - 1` partitions cleaned and `done` bytes of the next. */
  function PartlyClean(x: Image, step: nat, done: nat): (r: seq<Byte>)
    requires |x.buf| == 4 * x.termLength && step > 0
    ensures |r| == |x.buf|
  {
    Store(CleanAhead(x, step - 1), CleanBase(x, step), Zeros(done))
  }

  ghost predicate LogOk(h: seq<Rec>, s: State, stored: set<nat>) {
    var x, k, tl := s.x, W.TermCount(s.x), s.x.termLength;
    && |x.buf| == 4 * tl
    && match s.receiver
       case Resting => Holds(x.buf, k, tl, h, stored)
       case Cleaning(i, step, done, before) =>
         && x == before.(buf := x.buf, subscriberPosition := x.subscriberPosition)
         && |before.buf| == 4 * tl && Holds(before.buf, k, tl, h, stored) && MovesWindow(h, x, i)
         && 0 < step <= 4 && step <= h[i].pos / tl - k && done <= tl
         && x.buf == PartlyClean(before, step, done)
       case Copying(i, done, again) =>
         && Writing(h, x, stored, i) && (again <==> i in stored)
         && done <= |h[i].bytes| == |OpenBytes(h[i])| && Shows(x.buf, h[i].pos, OpenBytes(h[i])[..done])
       case Committing(i, again) =>
         && Writing(h, x, stored, i) && (again <==> i in stored)
         && Shows(x.buf, h[i].pos, OpenBytes(h[i]))
       case Following(i) => Holds(x.buf, k, tl, h, stored) && i in stored
  }

  ghost predicate Appending(s: State) { s.receiver.Copying? || s.receiver.Committing? }

  /** The newest term the receiver has begun to make room for. */
  function TargetTerm(h: seq<Rec>, s: State): int {
    if s.receiver.Cleaning? && s.receiver.i < |h| && s.x.termLength > 0 then h[s.receiver.i].pos / s.x.termLength
    else W.TermCount(s.x)
  }

  /** Every stored frame ends by receiver_position, except one just committed. */
  ghost predicate Ends(h: seq<Rec>, s: State, stored: set<nat>) {
    forall j :: j in stored && j < |h| ==>
      End(h[j]) <= s.x.receiverPosition || (s.receiver.Following? && j == s.receiver.i)
  }

  /** The frame that ends at receiver_position is stored, if it lies ahead of the subscriber. */
  ghost predicate Newest(h: seq<Rec>, stored: set<nat>, recv: int, p: int) {
    recv <= p || exists top :: top in stored && top < |h| && End(h[top]) == recv
  }

  ghost predicate NoneIn(h: seq<Rec>, stored: set<nat>, from: int, to: int) {
    forall j :: j in stored && j < |h| ==> h[j].pos < from || to <= h[j].pos
  }

  /** The gap ends with the term, or with a stored frame at or after `q`. */
  ghost predicate LiesAhead(h: seq<Rec>, stored: set<nat>, recv: int, q: int, end: int) {
    end <= recv || exists top :: top in stored && top < |h| && q <= h[top].pos < end && End(h[top]) <= recv
  }

  ghost predicate FrameAt(h: seq<Rec>, stored: set<nat>, j: nat, p: int, length: int) {
    j in stored && j < |h| && h[j].pos == p && h[j].len == length && |h[j].bytes| == length >= HEADER
  }

  /** `got` are the first payload bytes of frame `j`. */
  ghost predicate PartRead(h: seq<Rec>, j: nat, got: seq<Byte>) {
    j < |h| && HEADER + |got| <= |h[j].bytes| && got == h[j].bytes[HEADER..HEADER + |got|]
  }

  /** What the subscriber knows at each point of a poll; `p` is its cursor and `end` the end of its term. */
  ghost predicate PcOk(h: seq<Rec>, stored: set<nat>, recv: int, p: nat, end: int, pc: SubscriberPc) {
    match pc
    case Idle => true
    case Loading(_, _) => p <= end
    case Checking(_, _) => p < end && (p < recv ==> !Covered(h, stored, p))
    case Skipping(_, _, skip) =>
      && p < end && p < recv && 0 < skip && p + skip <= end && Aligned(p + skip)
      && Clear(h, stored, p + skip) && NoneIn(h, stored, p, p + skip) && LiesAhead(h, stored, recv, p + skip, end)
    case Typing(_, _, length) => p < end && exists j :: FrameAt(h, stored, j, p, length)
    case Reading(_, _, length, got) => p < end && exists j :: FrameAt(h, stored, j, p, length) && PartRead(h, j, got)
  }

  /** A poll reads a term of the window, or has not found anything yet at the end of the newest one. */
  ghost predicate Reads(s: State) {
    && s.x.termLength > 0
    && (s.x.subscriberPosition / s.x.termLength <= W.TermCount(s.x)
        || (Scanned(s.subscriber) == 0 && (s.subscriber.Loading? || s.subscriber.Checking?)))
  }

  ghost predicate ReaderOk(h: seq<Rec>, s: State, stored: set<nat>) {
    var x, p := s.x, Cursor(s);
    && x.termLength > 0 && 0 <= x.subscriberPosition
    && NotInside(h, p) && Aligned(p)
    && (p <= x.receiverPosition || (s.receiver.Following? && s.receiver.i < |h| && p <= End(h[s.receiver.i])))
    && Ends(h, s, stored) && Newest(h, stored, x.receiverPosition, p)
    && (TargetTerm(h, s) - 3) * x.termLength <= p
    && (!s.subscriber.Idle? ==> Reads(s))
    && PcOk(h, stored, x.receiverPosition, p, ReadEnd(x), s.subscriber)
  }

  /** The fragments delivered are the frames `picked`, in order, all behind the cursor. */
  ghost predicate Delivered(h: seq<Rec>, s: State, picked: seq<nat>) {
    && Increasing(picked)
    && (forall a :: 0 <= a < |picked| ==> IsData(h, picked[a]) && h[picked[a]].pos < Cursor(s))
    && s.delivered == Payloads(h, picked)
  }

  ghost predicate Invariant(h: seq<Rec>, s: State, stored: set<nat>, picked: seq<nat>) {
    && W.CursorsAgree(s.x) && StreamOk(s.x.termLength, h)
    && LogOk(h, s, stored) && ReaderOk(h, s, stored) && Delivered(h, s, picked)
  }

  // ---- Which interleavings ----

  /**
   Frames may arrive at any time, in any order and repeatedly, and polls may start at any time.  What the
   two threads must not do to each other:
   - clean a term the subscriber still reads;
   - load a length inside a frame while it is written, unless it is the length of a frame not stored yet;
   - load a length beyond the newest term, where an older one is still in place;
   - complete a frame whose length a poll has just found missing, before the poll has gone past it or stopped.
   */
  ghost predicate StepOk(h: seq<Rec>, s: State, action: Action) {
    match action
    case StartArrive(i) => s.receiver.Resting? ==> ArriveOk(h, s, i)
    case ReceiverStep => !PublishesUnderCheck(h, s) && !CommitsUnderScan(h, s)
    case StartPoll(_) => true
    case SubscriberStep => !LoadsUnderWrite(h, s) && !LoadsStale(s)
  }

  ghost predicate ArriveOk(h: seq<Rec>, s: State, i: nat) {
    && IsData(h, i)
    && (MovesWindow(h, s.x, i) ==> (h[i].pos / s.x.termLength - 3) * s.x.termLength <= Cursor(s))
  }

  /** Position of the length word a poll is about to load, if it is. */
  function NextLoad(s: State): Option<int> {
    match s.subscriber
    case Loading(_, left) => if left > 0 then Some(Cursor(s)) else None
    case Skipping(_, _, skip) => Some(Cursor(s) + skip)
    case _ => None
  }

  /** The load falls in the frame being written, and not on the missing length of a new one. */
  ghost predicate LoadsUnderWrite(h: seq<Rec>, s: State) {
    && Appending(s) && s.receiver.i < |h| && NextLoad(s).Some? && s.x.termLength > 0
    && var q, i := NextLoad(s).value, s.receiver.i;
       q < ReadEnd(s.x) && InFrame(h, i, q) && (q == h[i].pos ==> s.receiver.again)
  }

  /** At the end of the newest term: the load finds a length of the term four terms back. */
  ghost predicate LoadsStale(s: State) {
    && s.x.termLength > 0 && s.subscriber.Loading? && s.subscriber.left > 0
    && s.x.subscriberPosition / s.x.termLength > W.TermCount(s.x)
    && LengthWord(s.x.buf, ReadBase(s.x) + ReadOffset(s.x) + s.subscriber.scanned) > 0
  }

  /** Beyond receiver_position: the frame at the cursor is published before the poll loads the position. */
  ghost predicate PublishesUnderCheck(h: seq<Rec>, s: State) {
    s.receiver.Following? && s.receiver.i < |h| && s.subscriber.Checking? && h[s.receiver.i].pos == Cursor(s)
  }

  /** Before receiver_position: a new frame is committed where the poll has found no length. */
  ghost predicate CommitsUnderScan(h: seq<Rec>, s: State) {
    && s.receiver.Committing? && !s.receiver.again && s.receiver.i < |h|
    && h[s.receiver.i].pos < s.x.receiverPosition
    && Cursor(s) <= h[s.receiver.i].pos < Cursor(s) + Searched(s.subscriber)
  }

  /** How far beyond its cursor a poll has looked for lengths in vain. */
  function Searched(pc: SubscriberPc): nat {
    match pc
    case Checking(_, _) => FRAME_ALIGNMENT
    case Skipping(_, _, skip) => skip
    case _ => 0
  }
}
