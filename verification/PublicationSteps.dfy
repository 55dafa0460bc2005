/**
 The publisher thread and the sender thread interleaved at the granularity of single memory
 accesses: bytes are copied, cleaned and read one at a time, and the length word and the two
 positions are atomic.  Loads and stores are sequentially consistent.
 */
module PublicationSteps {
  import opened Arith
  import opened Bytes
  import opened TermLog
  import opened Publication
  import opened PublicationHistory
  import opened PublicationScan
  import PublicationRuns

  /** What the publisher does once a copy is complete. */
  datatype After =
    | ThenPayload(payload: seq<Byte>)
    | ThenCommit(payload: seq<Byte>)
    | ThenCommitPad
    | ThenDone

  datatype PublisherPc =
    | Idle
    | Copying(at: nat, bytes: seq<Byte>, done: nat, after: After)
    | Committing(payload: seq<Byte>) // store the length word of a data frame
    | Publishing(payload: seq<Byte>) // advance the cursor and store pub_position
    | CommittingPad                  // store the length word of a pad frame

  datatype SenderPc =
    | Waiting
    | Scanning(limit: nat, scanned: nat)
    | Reading(limit: nat, scanned: nat, length: nat, got: seq<Byte>)

  datatype State = State(
    buf: seq<Byte>, pubPosition: int, senderPosition: int,               // shared
    activeTermId: int, termOffset: nat, publisher: PublisherPc,          // publisher thread
    sender: SenderPc,                                                    // sender thread
    accepted: seq<seq<Byte>>, sent: seq<seq<Byte>>)                      // results of the calls

  datatype Action =
    | StartOffer(payload: seq<Byte>) // guards of `offer`, with its load of sender_position
    | PublisherStep
    | StartScan(limit: nat)          // `sender_scan` with a limit clamped by a load of pub_position
    | SenderStep

  function View(s: State): Pub {
    Pub(s.buf, s.activeTermId, s.termOffset, s.pubPosition, s.senderPosition)
  }

  function InitialState(c: Config): State {
    State(Zeros(4 * c.termLength), 0, 0, c.initialTermId, 0, Idle, Waiting, [], [])
  }

  function Cursor(c: Config, s: State): nat {
    PartitionIndex(s.activeTermId, c.initialTermId) * c.termLength + s.termOffset
  }

  /** The header as first written, with length 0. */
  function OpenHeader(c: Config, s: State): (r: seq<Byte>)
    ensures |r| == HEADER
  {
    HeaderBytes(0, FLAGS_UNFRAGMENTED, TYPE_DATA, s.termOffset, c.sessionId, c.streamId, s.activeTermId)
  }

  function PadTail(s: State): (r: seq<Byte>)
    ensures |r| == HEADER - 4
  {
    PadHeader(0, s.termOffset)[4..]
  }

  /** `rotate_term` up to the cleaning loop. */
  function Rotate(c: Config, s: State): State {
    var next := Wrap32(s.activeTermId + 1);
    s.(activeTermId := next, termOffset := 0,
       publisher := Copying(PartitionIndex(next, c.initialTermId) * c.termLength, Zeros(c.termLength), 0, ThenDone))
  }

  function BeginOffer(c: Config, s: State, payload: seq<Byte>): State {
    if TooLarge(c, payload) || Backed(c, View(s)) then s
    else if !Overflows(c, View(s), payload) then
      s.(publisher := Copying(Cursor(c, s), OpenHeader(c, s), 0, ThenPayload(payload)))
    else if c.termLength - s.termOffset < HEADER then Rotate(c, s)
    else s.(publisher := Copying(Cursor(c, s) + 4, PadTail(s), 0, ThenCommitPad))
  }

  function CopyStep(c: Config, s: State): State
    requires s.publisher.Copying?
  {
    var pc := s.publisher;
    if pc.done < |pc.bytes| then
      s.(buf := Store(s.buf, pc.at + pc.done, [pc.bytes[pc.done]]), publisher := pc.(done := pc.done + 1))
    else
      match pc.after
      case ThenPayload(payload) => s.(publisher := Copying(Cursor(c, s) + HEADER, payload, 0, ThenCommit(payload)))
      case ThenCommit(payload) => s.(publisher := Committing(payload))
      case ThenCommitPad => s.(publisher := CommittingPad)
      case ThenDone => s.(publisher := Idle)
  }

  function PublisherNext(c: Config, s: State): State {
    match s.publisher
    case Idle => s
    case Copying(_, _, _, _) => CopyStep(c, s)
    case Committing(payload) =>
      s.(buf := Store(s.buf, Cursor(c, s), EncodeI32(HEADER + |payload|)), publisher := Publishing(payload))
    case Publishing(payload) =>
      var newOffset := s.termOffset + Align32(HEADER + |payload|);
      s.(termOffset := newOffset,
         pubPosition := ComputePosition(s.activeTermId, newOffset, c.initialTermId, c.termLength),
         accepted := s.accepted + [FrameFor(c, View(s), payload)],
         publisher := Idle)
    case CommittingPad =>
      Rotate(c, s.(buf := Store(s.buf, Cursor(c, s), EncodeI32(c.termLength - s.termOffset))))
  }

  /** Base of the partition the sender reads, and the offset of its cursor. */
  function ReadBase(c: Config, s: State): nat
    requires c.termLength > 0
  {
    PartitionIndex(TermIdOf(s.senderPosition, c.initialTermId, c.termLength), c.initialTermId) * c.termLength
  }

  function StartSending(c: Config, s: State, limit: nat): State
    requires c.termLength > 0
  {
    var remaining := c.termLength - TermOffsetOf(s.senderPosition, c.termLength);
    if !s.sender.Waiting? || limit == 0 || limit > s.pubPosition - s.senderPosition then s
    else s.(sender := Scanning(if limit < remaining then limit else remaining, 0))
  }

  function FinishScan(s: State, scanned: nat): State {
    s.(senderPosition := s.senderPosition + scanned, sender := Waiting)
  }

  function SenderNext(c: Config, s: State): State
    requires c.termLength > 0
  {
    match s.sender
    case Waiting => s
    case Scanning(limit, scanned) =>
      var pos := TermOffsetOf(s.senderPosition, c.termLength) + scanned;
      if pos >= c.termLength || scanned >= limit then FinishScan(s, scanned)
      else
        var base := ReadBase(c, s);
        var length := if base + c.termLength <= |s.buf| then FrameLengthAt(s.buf, base, c.termLength, pos) else 0;
        if length == 0 then FinishScan(s, scanned)
        else s.(sender := Reading(limit, scanned, length, []))
    case Reading(limit, scanned, length, got) =>
      var at := ReadBase(c, s) + TermOffsetOf(s.senderPosition, c.termLength) + scanned + |got|;
      if |got| < length then
        s.(sender := Reading(limit, scanned, length, got + [if at < |s.buf| then s.buf[at] else 0]))
      else
        s.(sender := Scanning(limit, scanned + Align32(length)),
           sent := if IsPad(got) then s.sent else s.sent + [got])
  }

  function Next(c: Config, s: State, action: Action): State
    requires c.termLength > 0
  {
    match action
    case StartOffer(payload) => if s.publisher.Idle? then BeginOffer(c, s, payload) else s
    case PublisherStep => PublisherNext(c, s)
    case StartScan(limit) => StartSending(c, s, limit)
    case SenderStep => SenderNext(c, s)
  }

  // ---- Invariant ----

  /** How much of the frame under construction the log already shows. */
  ghost predicate InProgress(c: Config, s: State)
    requires ConfigOk(c) && PubOk(c, View(s)) && WritePosition(c, View(s)) >= 0
  {
    var p, w := View(s), WritePosition(c, View(s));
    match s.publisher
    case Idle => true
    case Copying(at, bytes, done, ThenPayload(payload)) =>
      && !TooLarge(c, payload) && !Overflows(c, p, payload)
      && at == Cursor(c, s) && bytes == OpenHeader(c, s) && done <= |bytes|
      && Shows(s.buf, w, bytes[..done])
    case Copying(at, bytes, done, ThenCommit(payload)) =>
      && !TooLarge(c, payload) && !Overflows(c, p, payload)
      && at == Cursor(c, s) + HEADER && bytes == payload && done <= |bytes|
      && Shows(s.buf, w, OpenHeader(c, s) + payload[..done])
    case Committing(payload) =>
      && !TooLarge(c, payload) && !Overflows(c, p, payload)
      && Shows(s.buf, w, OpenHeader(c, s) + payload)
    case Publishing(payload) =>
      && !TooLarge(c, payload) && !Overflows(c, p, payload)
      && Shows(s.buf, w, FrameFor(c, p, payload))
    case Copying(at, bytes, done, ThenCommitPad) =>
      && RotationSafe(c, p) && TermCount(c, p) < TWO31 - 2 && s.termOffset < c.termLength
      && at == Cursor(c, s) + 4 && bytes == PadTail(s) && done <= |bytes|
      && Shows(s.buf, w + 4, bytes[..done])
    case CommittingPad =>
      && RotationSafe(c, p) && TermCount(c, p) < TWO31 - 2 && s.termOffset < c.termLength
      && Shows(s.buf, w + 4, PadTail(s))
    case Copying(at, bytes, done, ThenDone) =>
      && s.termOffset == 0 && at == Cursor(c, s) && bytes == Zeros(c.termLength) && done <= |bytes|
  }

  /** The sender stands at frame `m` of the history. */
  ghost predicate AtFrame(c: Config, s: State, h: seq<Rec>, m: nat)
    requires c.termLength > 0 && m <= |h|
  {
    var offset := TermOffsetOf(s.senderPosition, c.termLength);
    match s.sender
    case Waiting => Start(h, m) == s.senderPosition
    case Scanning(limit, scanned) =>
      && Start(h, m) == s.senderPosition + scanned <= DataEnd(h)
      && s.senderPosition + limit <= DataEnd(h) && offset + scanned <= c.termLength
    case Reading(limit, scanned, length, got) =>
      && Start(h, m) == s.senderPosition + scanned < DataEnd(h)
      && s.senderPosition + limit <= DataEnd(h) && offset + scanned < c.termLength && scanned < limit
      && m < |h| && length == h[m].len && |got| <= length
      && forall j :: 0 <= j < |got| && j < |h[m].bytes| ==> got[j] == h[m].bytes[j]
  }

  /**
   History `h` is what the publisher has published, `n` counts the frames behind sender_position and
   `m` those the sender has already emitted; the log shows everything from `m` on.
   */
  ghost predicate Invariant(c: Config, s: State, h: seq<Rec>, n: nat, m: nat) {
    && Cursors(c, View(s), h, n) && n <= m <= |h|
    && Shown(s.buf, h, m)
    && InProgress(c, s)
    && AtFrame(c, s, h, m)
    && s.accepted == DataFrames(h)
    && s.sent == DataFrames(h[..m])
  }

  lemma InitialInvariant(c: Config)
    requires ConfigOk(c)
    ensures Invariant(c, InitialState(c), [], 0, 0)
  {
    InitialTracks(c);
  }

  // ---- Publisher stores ----

  /** Positions from the write cursor to the end of the active term. */
  ghost predicate InActiveTerm(c: Config, p: Pub, pos: nat, len: nat) {
    WritePosition(c, p) <= pos && pos + len <= (TermCount(c, p) + 1) * c.termLength
  }

  /** A piece of the active term lies in one piece on the ring, at the cursor plus its distance. */
  lemma ActiveSlot(c: Config, p: Pub, h: seq<Rec>, n: nat, pos: nat, len: nat)
    requires Cursors(c, p, h, n) && InActiveTerm(c, p, pos, len) && len > 0
    ensures InOnePiece(pos, len, |p.buf|)
    ensures pos % |p.buf| == ActivePartition(c, p) * c.termLength + p.termOffset + (pos - WritePosition(c, p))
  {
    hide RecOk, Wrap32, Wrap64, Align32, Aligned, IsPowerOfTwo, DataEnd, Contiguous;
    var tl, k := c.termLength, TermCount(c, p);
    TermBases(k, tl);
    TermCountRoundTrip(c.initialTermId, k);
    var off := pos - k * tl;
    SlotOfBlock(k, off, tl, 4);
    PartitionFits(k % 4, tl);
  }

  /** Stores into the active term leave everything published and unsent in place. */
  lemma StoreKeepsShown(c: Config, p: Pub, h: seq<Rec>, n: nat, m: nat, pos: nat, bytes: seq<Byte>)
    requires Cursors(c, p, h, n) && n <= m <= |h| && Shown(p.buf, h, m)
    requires InActiveTerm(c, p, pos, |bytes|) && |bytes| > 0
    ensures pos % |p.buf| + |bytes| <= |p.buf|
    ensures Shown(Splice(p.buf, pos % |p.buf|, bytes), h, m)
  {
    hide RecOk, Wrap32, Wrap64, Align32, Aligned, IsPowerOfTwo, DataEnd, Contiguous, Shown;
    ActiveSlot(c, p, h, n, pos, |bytes|);
    TermBases(TermCount(c, p), c.termLength);
    PositionsOrdered(h, n, m);
    WriteKeepsShown(c.termLength, p.buf, h, m, pos, bytes);
  }

  /** One byte of a copy into the active term. */
  lemma CopyByte(c: Config, p: Pub, h: seq<Rec>, n: nat, m: nat, pos: nat, bytes: seq<Byte>, done: nat, at: nat)
    requires Cursors(c, p, h, n) && n <= m <= |h| && Shown(p.buf, h, m)
    requires InActiveTerm(c, p, pos, |bytes|) && done < |bytes| && Shows(p.buf, pos, bytes[..done])
    requires at == ActivePartition(c, p) * c.termLength + p.termOffset + (pos - WritePosition(c, p))
    ensures var buf' := Store(p.buf, at + done, [bytes[done]]);
            Shown(buf', h, m) && Shows(buf', pos, bytes[..done + 1])
  {
    hide RecOk, Wrap32, Wrap64, Align32, Aligned, IsPowerOfTwo, DataEnd, Contiguous, Shown, Cursors, Shows,
         WritePosition;
    CursorsSize(c, p, h, n);
    ActiveSlot(c, p, h, n, pos, |bytes|);
    SlotPlus(pos, done, |p.buf|);
    StoreKeepsShown(c, p, h, n, m, pos + done, [bytes[done]]);
    ShowsMore(p.buf, pos, bytes[..done], bytes[done]);
    assert bytes[..done] + [bytes[done]] == bytes[..done + 1];
  }

  lemma CursorsSize(c: Config, p: Pub, h: seq<Rec>, n: nat)
    requires Cursors(c, p, h, n)
    ensures ConfigOk(c) && PubOk(c, p) && |p.buf| > 0 && WritePosition(c, p) >= 0
    ensures WritePosition(c, p) + (c.termLength - p.termOffset) == (TermCount(c, p) + 1) * c.termLength
    ensures n <= |h|
  {
    hide Wrap32, IsPowerOfTwo, Aligned;
    TermBases(TermCount(c, p), c.termLength);
  }

  // ---- Publisher steps keep the invariant ----

  /** The cursors do not depend on what the log holds. */
  lemma CursorsBuf(c: Config, p: Pub, p': Pub, h: seq<Rec>, n: nat)
    requires Cursors(c, p, h, n) && p' == p.(buf := p'.buf) && |p'.buf| == |p.buf|
    ensures Cursors(c, p', h, n)
  {
    hide Wrap32, IsPowerOfTwo, Aligned, HistoryOk, DataEnd, Start;
    assert TermCount(c, p') == TermCount(c, p);
  }

  lemma NothingShown(buf: seq<Byte>, pos: nat)
    requires |buf| > 0
    ensures Shows(buf, pos, [])
  {
  }

  /** Appending to the history does not move the sender. */
  lemma AtFrameExtends(c: Config, s: State, h: seq<Rec>, r: Rec, m: nat)
    requires c.termLength > 0 && m <= |h| && AtFrame(c, s, h, m)
    requires HistoryOk(c.termLength, h) && RecOk(c.termLength, r) && r.pos == NextPos(h)
    ensures AtFrame(c, s, h + [r], m)
  {
    hide RecOk, Align32, Contiguous, NextPos;
    HistoryAppend(c.termLength, h, r);
    DataEndBound(h);
    DataEndBound(h + [r]);
  }

  lemma BeginOfferKeeps(c: Config, s: State, payload: seq<Byte>, h: seq<Rec>, n: nat, m: nat)
    requires Invariant(c, s, h, n, m) && s.publisher.Idle?
    requires Rotates(c, View(s), payload) ==> RotationSafe(c, View(s)) && TermCount(c, View(s)) < TWO31 - 2
    ensures Invariant(c, BeginOffer(c, s, payload), h, n, m)
  {
    hide Cursors, Shown, Wrap32, Wrap64, Align32, Aligned, DataFrames, HeaderBytes, PartitionIndex, Shows, RotationSafe,
         TermCount, WritePosition;
    var p := View(s);
    CursorsSize(c, p, h, n);
    NothingShown(s.buf, WritePosition(c, p));
    NothingShown(s.buf, WritePosition(c, p) + 4);
    var s' := BeginOffer(c, s, payload);
    if Rotates(c, p, payload) && c.termLength - s.termOffset < HEADER {
      RotateKeeps(c, s, h, n, m);
    } else {
      assert View(s') == p;
    }
  }

  /** Rotation out of a term that is full to the last byte. */
  lemma RotateKeeps(c: Config, s: State, h: seq<Rec>, n: nat, m: nat)
    requires Cursors(c, View(s), h, n) && n <= m <= |h| && Shown(s.buf, h, m) && AtFrame(c, s, h, m)
    requires s.accepted == DataFrames(h) && s.sent == DataFrames(h[..m])
    requires RotationSafe(c, View(s)) && TermCount(c, View(s)) < TWO31 - 2 && c.termLength - s.termOffset < HEADER
    ensures Invariant(c, Rotate(c, s), h, n, m)
  {
    hide Shown, Wrap32, Wrap64, Align32, Aligned, DataFrames, PartitionIndex, HistoryOk, DataEnd, Start, WritePad,
         CleanPartition, IsPowerOfTwo;
    var p, s' := View(s), Rotate(c, s);
    RotateCursors(c, p, h, n);
    CursorsBuf(c, RotateTerm(c, p), View(s'), RotatedHistory(c, p, h), n);
    CursorsSize(c, View(s'), h, n);
  }

  lemma FrameInTerm(c: Config, p: Pub, h: seq<Rec>, n: nat, payload: seq<Byte>)
    requires Cursors(c, p, h, n) && !Overflows(c, p, payload)
    ensures WritePosition(c, p) >= 0 && InActiveTerm(c, p, WritePosition(c, p), HEADER + |payload|)
  {
    hide Wrap32, Align32, IsPowerOfTwo, Aligned;
    TermBases(TermCount(c, p), c.termLength);
  }

  lemma PadInTerm(c: Config, p: Pub, h: seq<Rec>, n: nat)
    requires Cursors(c, p, h, n) && p.termOffset < c.termLength
    ensures WritePosition(c, p) >= 0 && p.termOffset + HEADER <= c.termLength
    ensures InActiveTerm(c, p, WritePosition(c, p), HEADER) && InActiveTerm(c, p, WritePosition(c, p) + 4, HEADER - 4)
  {
    hide Wrap32, Align32, IsPowerOfTwo, Aligned;
    AlignedSum(p.termOffset, c.termLength);
    TermBases(TermCount(c, p), c.termLength);
  }

  /** One byte of a header, payload, pad or cleaning copy. */
  lemma CopyStepShown(c: Config, s: State, h: seq<Rec>, n: nat, m: nat)
    requires Invariant(c, s, h, n, m) && s.publisher.Copying? && s.publisher.done < |s.publisher.bytes|
    ensures Shown(CopyStep(c, s).buf, h, m) && InProgress(c, CopyStep(c, s))
  {
    hide Cursors, Shown, Wrap32, Wrap64, Align32, Aligned, DataFrames, HeaderBytes, PartitionIndex, Shows, RotationSafe,
         TermCount, WritePosition, AtFrame, Splice, InActiveTerm;
    var p, pc, w := View(s), s.publisher, WritePosition(c, View(s));
    CursorsSize(c, p, h, n);
    match pc.after
    case ThenPayload(payload) =>
      FrameInTerm(c, p, h, n, payload);
      FrameInTermPart(c, p, payload);
      CopyByte(c, p, h, n, m, w, pc.bytes, pc.done, pc.at);
      CopyKeepsView(c, s);
    case ThenCommit(payload) =>
      FrameInTerm(c, p, h, n, payload);
      var whole, done := OpenHeader(c, s) + payload, HEADER + pc.done;
      assert whole[..done] == OpenHeader(c, s) + payload[..pc.done];
      assert whole[..done + 1] == OpenHeader(c, s) + payload[..pc.done + 1];
      CopyByte(c, p, h, n, m, w, whole, done, Cursor(c, s));
      CopyKeepsView(c, s);
    case ThenCommitPad =>
      PadInTerm(c, p, h, n);
      CopyByte(c, p, h, n, m, w + 4, pc.bytes, pc.done, pc.at);
      CopyKeepsView(c, s);
    case ThenDone =>
      CleanInTerm(c, p, pc.done);
      ActiveSlot(c, p, h, n, w + pc.done, 1);
      StoreKeepsShown(c, p, h, n, m, w + pc.done, [pc.bytes[pc.done]]);
      CopyKeepsView(c, s);
  }

  lemma FrameInTermPart(c: Config, p: Pub, payload: seq<Byte>)
    requires WritePosition(c, p) >= 0 && InActiveTerm(c, p, WritePosition(c, p), HEADER + |payload|)
    ensures InActiveTerm(c, p, WritePosition(c, p), HEADER)
  {
  }

  lemma CleanInTerm(c: Config, p: Pub, done: nat)
    requires WritePosition(c, p) >= 0 && done < c.termLength && p.termOffset == 0
    ensures InActiveTerm(c, p, WritePosition(c, p) + done, 1)
  {
    TermBases(TermCount(c, p), c.termLength);
  }

  lemma CopyKeepsView(c: Config, s: State)
    requires s.publisher.Copying? && s.publisher.done < |s.publisher.bytes|
    ensures var p, p' := View(s), View(CopyStep(c, s));
            && p' == p.(buf := p'.buf) && |p'.buf| == |p.buf|
            && WritePosition(c, p') == WritePosition(c, p) && TermCount(c, p') == TermCount(c, p)
            && Cursor(c, CopyStep(c, s)) == Cursor(c, s)
            && OpenHeader(c, CopyStep(c, s)) == OpenHeader(c, s) && PadTail(CopyStep(c, s)) == PadTail(s)
            && (RotationSafe(c, p') <==> RotationSafe(c, p))
  {
  }

  lemma CopyStepKeeps(c: Config, s: State, h: seq<Rec>, n: nat, m: nat)
    requires Invariant(c, s, h, n, m) && s.publisher.Copying?
    ensures Invariant(c, CopyStep(c, s), h, n, m)
  {
    hide Cursors, Shown, Wrap32, Wrap64, Align32, Aligned, DataFrames, HeaderBytes, PartitionIndex, Shows, RotationSafe,
         TermCount, WritePosition, Splice, InProgress;
    var s' := CopyStep(c, s);
    if s.publisher.done < |s.publisher.bytes| {
      CopyStepShown(c, s, h, n, m);
      CopyKeepsView(c, s);
      CursorsBuf(c, View(s), View(s'), h, n);
    } else {
      CursorsSize(c, View(s), h, n);
      CopyDone(c, s);
    }
  }

  lemma CopyDone(c: Config, s: State)
    requires ConfigOk(c) && PubOk(c, View(s)) && WritePosition(c, View(s)) >= 0 && InProgress(c, s)
    requires s.publisher.Copying? && s.publisher.done >= |s.publisher.bytes|
    ensures View(CopyStep(c, s)) == View(s) && InProgress(c, CopyStep(c, s))
  {
    hide Shows, HeaderBytes, Wrap32, Align32, RotationSafe, WritePosition, TermCount, PartitionIndex;
    var bytes := s.publisher.bytes;
    assert bytes[..|bytes|] == bytes && bytes[..0] == [];
    assert OpenHeader(c, s) + [] == OpenHeader(c, s);
  }

  /** Storing the length word over an open header completes the frame. */
  lemma CommitShows(buf: seq<Byte>, pos: nat, open: seq<Byte>, length: seq<Byte>)
    requires Shows(buf, pos, open) && |length| == 4 <= |open|
    ensures pos % |buf| + 4 <= |buf|
    ensures Shows(Splice(buf, pos % |buf|, length), pos, length + open[4..])
  {
    var at := pos % |buf|;
    var buf' := Splice(buf, at, length);
    forall i | 0 <= i < |open| ensures buf'[at + i] == (length + open[4..])[i] {
      assert buf[at..at + |open|][i] == buf[at + i];
      assert i < 4 ==> buf'[at..at + 4][i] == buf'[at + i];
    }
  }

  /** The same when only the bytes behind the length word were shown. */
  lemma CommitPadShows(buf: seq<Byte>, pos: nat, tail: seq<Byte>, length: seq<Byte>)
    requires Shows(buf, pos + 4, tail) && |length| == 4 && InOnePiece(pos, 4 + |tail|, |buf|) && |tail| > 0
    ensures Shows(Splice(buf, pos % |buf|, length), pos, length + tail)
  {
    var at := pos % |buf|;
    SlotPlus(pos, 4, |buf|);
    var buf' := Splice(buf, at, length);
    forall i | 0 <= i < 4 + |tail| ensures buf'[at + i] == (length + tail)[i] {
      if i < 4 {
        assert buf'[at..at + 4][i] == buf'[at + i];
      } else {
        assert buf[at + 4..at + 4 + |tail|][i - 4] == buf[at + i];
      }
    }
  }

  lemma FrameSplits(c: Config, s: State, payload: seq<Byte>)
    ensures FrameFor(c, View(s), payload) == EncodeI32(HEADER + |payload|) + (OpenHeader(c, s) + payload)[4..]
    ensures PadHeader(c.termLength - s.termOffset, s.termOffset)
         == EncodeI32(c.termLength - s.termOffset) + PadTail(s)
  {
    hide HeaderBytes, EncodeI32;
    HeaderSplits(HEADER + |payload|, FLAGS_UNFRAGMENTED, TYPE_DATA, s.termOffset, c.sessionId, c.streamId,
                 s.activeTermId);
    HeaderSplits(c.termLength - s.termOffset, 0, TYPE_PAD, s.termOffset, 0, 0, 0);
    assert (OpenHeader(c, s) + payload)[4..] == OpenHeader(c, s)[4..] + payload;
  }

  lemma CommitKeeps(c: Config, s: State, h: seq<Rec>, n: nat, m: nat)
    requires Invariant(c, s, h, n, m) && s.publisher.Committing?
    ensures Invariant(c, PublisherNext(c, s), h, n, m)
  {
    hide Cursors, Shown, Wrap32, Wrap64, Align32, Aligned, DataFrames, HeaderBytes, PartitionIndex, Shows, RotationSafe,
         TermCount, WritePosition, Splice, InActiveTerm, EncodeI32, DataFrame;
    var p, w, payload, s' := View(s), WritePosition(c, View(s)), s.publisher.payload, PublisherNext(c, s);
    var length := EncodeI32(HEADER + |payload|);
    CursorsSize(c, p, h, n);
    FrameInTerm(c, p, h, n, payload);
    ActiveSlot(c, p, h, n, w, HEADER + |payload|);
    LengthInTerm(c, p, HEADER + |payload|);
    StoreKeepsShown(c, p, h, n, m, w, length);
    CommitShows(s.buf, w, OpenHeader(c, s) + payload, length);
    FrameSplits(c, s, payload);
    SameCursor(c, s, s');
    CursorsBuf(c, p, View(s'), h, n);
  }

  lemma LengthInTerm(c: Config, p: Pub, len: nat)
    requires WritePosition(c, p) >= 0 && InActiveTerm(c, p, WritePosition(c, p), len) && len >= 4
    ensures InActiveTerm(c, p, WritePosition(c, p), 4)
  {
  }

  lemma SameCursor(c: Config, s: State, s': State)
    requires s'.activeTermId == s.activeTermId && s'.termOffset == s.termOffset && s'.senderPosition >= s.senderPosition
    ensures WritePosition(c, View(s')) == WritePosition(c, View(s)) && TermCount(c, View(s')) == TermCount(c, View(s))
    ensures Cursor(c, s') == Cursor(c, s) && OpenHeader(c, s') == OpenHeader(c, s) && PadTail(s') == PadTail(s)
    ensures forall payload :: FrameFor(c, View(s'), payload) == FrameFor(c, View(s), payload)
    ensures RotationSafe(c, View(s)) ==> RotationSafe(c, View(s'))
  {
  }

  /** Publishing makes the committed frame part of the history. */
  lemma PublishKeeps(c: Config, s: State, h: seq<Rec>, n: nat, m: nat)
    requires Invariant(c, s, h, n, m) && s.publisher.Publishing?
    ensures WritePosition(c, View(s)) >= 0
    ensures Invariant(c, PublisherNext(c, s), h + [OfferRec(c, View(s), s.publisher.payload)], n, m)
  {
    hide Shown, Wrap32, Wrap64, Align32, Aligned, DataFrames, Contiguous, PartitionIndex, Shows, RotationSafe,
         Splice, IsPowerOfTwo, DataFrame, RecOk, DataEnd, NextPos, Cursors;
    var p, payload, s' := View(s), s.publisher.payload, PublisherNext(c, s);
    CursorsSize(c, p, h, n);
    var r := OfferRec(c, p, payload);
    WriteOffset(c, p, h, n, payload);
    AppendCursors(c, p, h, n, payload);
    CursorsBuf(c, AppendFrame(c, p, payload), View(s'), h + [r], n);
    CursorsSize(c, View(s'), h + [r], n);
    OfferRecOk(c, p, payload);
    CursorsHistory(c, p, h, n);
    HistoryAppend(c.termLength, h, r);
    ShownAppend(s.buf, h, m, r);
    AtFrameExtends(c, s, h, r, m);
    AtFrameSame(c, s, s', h + [r], m);
    assert (h + [r])[..m] == h[..m];
  }

  lemma AtFrameSame(c: Config, s: State, s': State, h: seq<Rec>, m: nat)
    requires c.termLength > 0 && m <= |h| && AtFrame(c, s, h, m)
    requires s'.sender == s.sender && s'.senderPosition == s.senderPosition
    ensures AtFrame(c, s', h, m)
  {
  }

  lemma WriteOffset(c: Config, p: Pub, h: seq<Rec>, n: nat, payload: seq<Byte>)
    requires Cursors(c, p, h, n) && !Overflows(c, p, payload)
    ensures WritePosition(c, p) >= 0 && WritePosition(c, p) % c.termLength == p.termOffset
  {
    hide Wrap32, Align32, IsPowerOfTwo, Aligned;
    WriteSlot(c, p);
  }

  lemma CursorsHistory(c: Config, p: Pub, h: seq<Rec>, n: nat)
    requires Cursors(c, p, h, n)
    ensures HistoryOk(c.termLength, h) && NextPos(h) == WritePosition(c, p)
  {
  }

  /** Storing the pad's length word and rotating makes the pad part of the history. */
  lemma CommitPadKeeps(c: Config, s: State, h: seq<Rec>, n: nat, m: nat)
    requires Invariant(c, s, h, n, m) && s.publisher.CommittingPad?
    ensures WritePosition(c, View(s)) >= 0
    ensures Invariant(c, PublisherNext(c, s), RotatedHistory(c, View(s), h), n, m)
  {
    hide Shown, Wrap32, Wrap64, Align32, Aligned, DataFrames, Contiguous, PartitionIndex, Shows,
         Splice, IsPowerOfTwo, RecOk, DataEnd, NextPos, Cursors, WritePad, CleanPartition, HeaderBytes, EncodeI32,
         InActiveTerm, AtFrame;
    var p, s' := View(s), PublisherNext(c, s);
    CursorsSize(c, p, h, n);
    PadInTerm(c, p, h, n);
    var w, length := WritePosition(c, p), EncodeI32(c.termLength - s.termOffset);
    var r := Rec(w, c.termLength - s.termOffset, PadHeader(c.termLength - s.termOffset, s.termOffset), false);
    var h' := RotatedHistory(c, p, h);
    assert h' == h + [r];
    ActiveSlot(c, p, h, n, w, HEADER);
    LengthInTerm(c, p, HEADER);
    StoreKeepsShown(c, p, h, n, m, w, length);
    CommitPadShows(s.buf, w, PadTail(s), length);
    FrameSplits(c, s, []);
    ShownAppend(s'.buf, h, m, r);
    PadRecIsOk(c, p, h, n);
    AtFrameExtends(c, s, h, r, m);
    AtFrameSame(c, s, s', h', m);
    RotateCursors(c, p, h, n);
    CursorsBuf(c, RotateTerm(c, p), View(s'), h', n);
    CursorsSize(c, View(s'), h', n);
    PadHistory(c, p, h, n);
    assert h'[..m] == h[..m];
  }

  lemma PadRecIsOk(c: Config, p: Pub, h: seq<Rec>, n: nat)
    requires Cursors(c, p, h, n) && p.termOffset < c.termLength
    ensures WritePosition(c, p) >= 0 && HistoryOk(c.termLength, h) && NextPos(h) == WritePosition(c, p)
    ensures var remaining := c.termLength - p.termOffset;
            RecOk(c.termLength, Rec(WritePosition(c, p), remaining, PadHeader(remaining, p.termOffset), false))
  {
    hide Wrap32, Align32, IsPowerOfTwo, Aligned, HeaderBytes, RecOk;
    WriteSlot(c, p);
    PadRecOk(c, p);
  }

  // ---- Sender steps keep the invariant ----

  /** The term the sender reads. */
  lemma SenderTerm(c: Config, s: State, h: seq<Rec>, n: nat) returns (t: nat, origin: nat)
    requires Cursors(c, View(s), h, n)
    ensures c.termLength > 0 && TermAt(t, origin, ReadBase(c, s), c.termLength)
    ensures s.senderPosition == origin + TermOffsetOf(s.senderPosition, c.termLength)
    ensures ReadBase(c, s) + c.termLength <= |s.buf| == 4 * c.termLength
    ensures HistoryOk(c.termLength, h)
  {
    hide HistoryOk, Wrap32, Aligned, IsPowerOfTwo, DataEnd, Start;
    var off;
    SenderWithinTerms(c, View(s), h, n);
    t, off, origin := SplitPosition(s.senderPosition, c.termLength);
    PositionRoundTrip(s.senderPosition, c.initialTermId, c.termLength);
    PartitionFits(t % 4, c.termLength);
  }

  lemma StartSendingKeeps(c: Config, s: State, limit: nat, h: seq<Rec>, n: nat, m: nat)
    requires Invariant(c, s, h, n, m)
    ensures c.termLength > 0 && Invariant(c, StartSending(c, s, limit), h, n, m)
  {
    hide HistoryOk, Wrap32, Aligned, IsPowerOfTwo, DataEnd, Start, Shown, DataFrames, InProgress;
    InProgressSame(c, s, StartSending(c, s, limit));
  }

  /** The sender does not disturb the publisher. */
  lemma InProgressSame(c: Config, s: State, s': State)
    requires ConfigOk(c) && PubOk(c, View(s)) && WritePosition(c, View(s)) >= 0 && InProgress(c, s)
    requires s'.buf == s.buf && s'.publisher == s.publisher
    requires s'.activeTermId == s.activeTermId && s'.termOffset == s.termOffset && s'.senderPosition >= s.senderPosition
    ensures PubOk(c, View(s')) && WritePosition(c, View(s')) >= 0 && InProgress(c, s')
  {
    hide Shows, HeaderBytes, Wrap32, Align32, RotationSafe, WritePosition, TermCount, PartitionIndex;
    SameCursor(c, s, s');
  }

  /** The end of a scan: everything emitted now lies behind sender_position. */
  lemma FinishKeeps(c: Config, s: State, scanned: nat, h: seq<Rec>, n: nat, m: nat)
    requires Invariant(c, s, h, n, m) && s.sender.Scanning? && scanned == s.sender.scanned
    ensures Invariant(c, FinishScan(s, scanned), h, m, m)
  {
    hide HistoryOk, Wrap32, Aligned, IsPowerOfTwo, DataEnd, Start, Shown, DataFrames, InProgress;
    InProgressSame(c, s, FinishScan(s, scanned));
  }

  lemma ScanningKeeps(c: Config, s: State, h: seq<Rec>, n: nat, m: nat) returns (n': nat)
    requires Invariant(c, s, h, n, m) && s.sender.Scanning?
    ensures c.termLength > 0 && Invariant(c, SenderNext(c, s), h, n', m)
  {
    hide HistoryOk, Wrap32, Align32, Aligned, IsPowerOfTwo, DataEnd, Start, Shown, DataFrames, InProgress, Cursors,
         TermIdOf, PartitionIndex, TermAt, IsPad, FrameLengthAt, ReadBase;
    CursorsSize(c, View(s), h, n);
    var t, origin := SenderTerm(c, s, h, n);
    var pos := TermOffsetOf(s.senderPosition, c.termLength) + s.sender.scanned;
    n' := n;
    if pos >= c.termLength || s.sender.scanned >= s.sender.limit {
      FinishKeeps(c, s, s.sender.scanned, h, n, m);
      n' := m;
    } else {
      FrameAtCursor(s.buf, c.termLength, t, origin, ReadBase(c, s), h, m, m, pos);
      InProgressSame(c, s, SenderNext(c, s));
    }
  }

  /** The bytes the sender reads are those of the frame it stands at. */
  lemma ReadByte(buf: seq<Byte>, tl: nat, t: nat, origin: nat, base: nat, pos: nat, r: Rec, j: nat)
    requires |buf| == 4 * tl && TermAt(t, origin, base, tl) && pos < tl
    requires r.pos == origin + pos && Shows(buf, r.pos, r.bytes) && j < |r.bytes|
    ensures base + pos + j < |buf| && buf[base + pos + j] == r.bytes[j]
  {
    TermAtSlot(t, origin, base, tl, pos);
    assert buf[base + pos..base + pos + |r.bytes|][j] == buf[base + pos + j];
  }

  lemma ReadingByteKeeps(c: Config, s: State, h: seq<Rec>, n: nat, m: nat)
    requires Invariant(c, s, h, n, m) && s.sender.Reading? && |s.sender.got| < s.sender.length
    ensures c.termLength > 0 && Invariant(c, SenderNext(c, s), h, n, m)
  {
    hide HistoryOk, Wrap32, Align32, Aligned, IsPowerOfTwo, DataEnd, DataFrames, InProgress, Cursors, Shows,
         TermIdOf, PartitionIndex, TermAt, IsPad, FrameLengthAt, ReadBase;
    CursorsSize(c, View(s), h, n);
    var t, origin := SenderTerm(c, s, h, n);
    var pos := TermOffsetOf(s.senderPosition, c.termLength) + s.sender.scanned;
    if |s.sender.got| < |h[m].bytes| {
      ReadByte(s.buf, c.termLength, t, origin, ReadBase(c, s), pos, h[m], |s.sender.got|);
    }
    InProgressSame(c, s, SenderNext(c, s));
  }

  /** A fully read frame is the frame at `m`; a pad is recognised as one. */
  lemma ReadWhole(tl: nat, r: Rec, got: seq<Byte>)
    requires RecOk(tl, r) && |got| == r.len
    requires forall j :: 0 <= j < |got| && j < |r.bytes| ==> got[j] == r.bytes[j]
    ensures IsPad(got) == !r.data && (r.data ==> got == r.bytes)
  {
    hide Align32;
    assert got[6] == r.bytes[6] && got[7] == r.bytes[7];
  }

  lemma ReadingDoneKeeps(c: Config, s: State, h: seq<Rec>, n: nat, m: nat)
    requires Invariant(c, s, h, n, m) && s.sender.Reading? && |s.sender.got| == s.sender.length
    ensures c.termLength > 0 && Invariant(c, SenderNext(c, s), h, n, m + 1)
  {
    hide HistoryOk, Wrap32, Align32, Aligned, IsPowerOfTwo, DataEnd, DataFrames, InProgress, Cursors, Shown,
         TermIdOf, PartitionIndex, TermAt, IsPad, FrameLengthAt, ReadBase, RecOk;
    CursorsSize(c, View(s), h, n);
    var t, origin := SenderTerm(c, s, h, n);
    EmittedFrame(c.termLength, t, origin, ReadBase(c, s), h, m,
                 TermOffsetOf(s.senderPosition, c.termLength) + s.sender.scanned);
    ReadWhole(c.termLength, h[m], s.sender.got);
    assert h[..m + 1][..m] == h[..m];
    DataFramesSnoc(h, m);
    ShownLater(s.buf, h, m, m + 1);
    InProgressSame(c, s, SenderNext(c, s));
  }

  lemma DataFramesSnoc(h: seq<Rec>, m: nat)
    requires m < |h|
    ensures DataFrames(h[..m + 1]) == DataFrames(h[..m]) + if h[m].data then [h[m].bytes] else []
  {
    assert h[..m + 1][..m] == h[..m];
  }

  /** Stepping over frame `m` leads to frame `m + 1`, in the same term and not past the published data. */
  lemma EmittedFrame(tl: nat, t: nat, origin: nat, base: nat, h: seq<Rec>, m: nat, pos: nat)
    requires HistoryOk(tl, h) && TermAt(t, origin, base, tl) && m < |h| && pos < tl
    requires h[m].pos == origin + pos < DataEnd(h)
    ensures RecOk(tl, h[m]) && pos + Align32(h[m].len) <= tl
    ensures Start(h, m + 1) == origin + pos + Align32(h[m].len) <= DataEnd(h)
  {
    hide Align32, Contiguous, DataEnd;
    TermAtSlot(t, origin, base, tl, pos);
    DataEndIsBoundary(h, m);
    NextStart(h, m);
  }

  // ---- Runs ----

  /** A rotation started here is safe, and 2^31 terms are not exhausted. */
  ghost predicate StepOk(c: Config, s: State, action: Action) {
    action.StartOffer? && s.publisher.Idle? && Rotates(c, View(s), action.payload) ==>
      RotationSafe(c, View(s)) && TermCount(c, View(s)) < TWO31 - 2
  }

  /** The history grows when a frame is published and when a pad is committed. */
  function NextHistory(c: Config, s: State, h: seq<Rec>): seq<Rec>
    requires PubOk(c, View(s)) && WritePosition(c, View(s)) >= 0
  {
    match s.publisher
    case Publishing(payload) => h + [OfferRec(c, View(s), payload)]
    case CommittingPad => RotatedHistory(c, View(s), h)
    case _ => h
  }

  lemma PublisherKeeps(c: Config, s: State, h: seq<Rec>, n: nat, m: nat)
    requires Invariant(c, s, h, n, m)
    ensures PubOk(c, View(s)) && WritePosition(c, View(s)) >= 0
    ensures Invariant(c, PublisherNext(c, s), NextHistory(c, s, h), n, m)
  {
    hide Invariant;
    InvariantOk(c, s, h, n, m);
    match s.publisher
    case Idle =>
    case Copying(_, _, _, _) => CopyStepKeeps(c, s, h, n, m);
    case Committing(_) => CommitKeeps(c, s, h, n, m);
    case Publishing(_) => PublishKeeps(c, s, h, n, m);
    case CommittingPad => CommitPadKeeps(c, s, h, n, m);
  }

  lemma InvariantOk(c: Config, s: State, h: seq<Rec>, n: nat, m: nat)
    requires Invariant(c, s, h, n, m)
    ensures ConfigOk(c) && c.termLength > 0 && PubOk(c, View(s)) && WritePosition(c, View(s)) >= 0
  {
  }

  lemma SenderKeeps(c: Config, s: State, h: seq<Rec>, n: nat, m: nat) returns (n': nat, m': nat)
    requires Invariant(c, s, h, n, m)
    ensures c.termLength > 0 && Invariant(c, SenderNext(c, s), h, n', m')
  {
    hide Cursors, Shown, InProgress, DataFrames;
    CursorsSize(c, View(s), h, n);
    n', m' := n, m;
    match s.sender
    case Waiting =>
    case Scanning(_, _) =>
      n' := ScanningKeeps(c, s, h, n, m);
    case Reading(_, _, length, got) =>
      if |got| < length {
        ReadingByteKeeps(c, s, h, n, m);
      } else {
        ReadingDoneKeeps(c, s, h, n, m);
        m' := m + 1;
      }
  }

  /** Every memory access of either thread keeps the invariant. */
  lemma NextKeeps(c: Config, s: State, action: Action, h: seq<Rec>, n: nat, m: nat)
    returns (h': seq<Rec>, n': nat, m': nat)
    requires Invariant(c, s, h, n, m) && StepOk(c, s, action)
    ensures PubOk(c, View(s)) && WritePosition(c, View(s)) >= 0
    ensures c.termLength > 0 && Invariant(c, Next(c, s, action), h', n', m')
    ensures h' == if action.PublisherStep? then NextHistory(c, s, h) else h
  {
    hide Invariant, NextHistory;
    h', n', m' := h, n, m;
    InvariantOk(c, s, h, n, m);
    match action
    case StartOffer(payload) =>
      if s.publisher.Idle? {
        BeginOfferKeeps(c, s, payload, h, n, m);
      }
    case PublisherStep =>
      PublisherKeeps(c, s, h, n, m);
      h' := NextHistory(c, s, h);
    case StartScan(limit) =>
      StartSendingKeeps(c, s, limit, h, n, m);
    case SenderStep =>
      n', m' := SenderKeeps(c, s, h, n, m);
  }

  function Run(c: Config, actions: seq<Action>): State
    requires c.termLength > 0
  {
    if |actions| == 0 then InitialState(c)
    else Next(c, Run(c, actions[..|actions| - 1]), actions[|actions| - 1])
  }

  /** Every rotation the run starts is safe. */
  ghost predicate RunOk(c: Config, actions: seq<Action>)
    requires c.termLength > 0
  {
    |actions| == 0 ||
    (var front, last := actions[..|actions| - 1], actions[|actions| - 1];
     RunOk(c, front) && StepOk(c, Run(c, front), last))
  }

  lemma {:induction false} RunKeeps(c: Config, actions: seq<Action>) returns (h: seq<Rec>, n: nat, m: nat)
    requires ConfigOk(c) && RunOk(c, actions)
    ensures Invariant(c, Run(c, actions), h, n, m)
  {
    hide Invariant, StepOk, Next;
    if |actions| == 0 {
      h, n, m := [], 0, 0;
      InitialInvariant(c);
    } else {
      var front, last := actions[..|actions| - 1], actions[|actions| - 1];
      h, n, m := RunKeeps(c, front);
      h, n, m := NextKeeps(c, Run(c, front), last, h, n, m);
    }
  }

  /**
   At every instant, what has been sent is a prefix of what has been accepted, all of it once the
   sender has caught up.
   */
  ghost predicate InOrder(s: State) {
    && s.sent <= s.accepted
    && 0 <= s.senderPosition <= s.pubPosition
    && (s.sender.Waiting? && s.senderPosition == s.pubPosition ==> s.sent == s.accepted)
  }

  lemma InvariantInOrder(c: Config, s: State, h: seq<Rec>, n: nat, m: nat)
    requires Invariant(c, s, h, n, m)
    ensures InOrder(s)
  {
    hide Wrap32, Align32, Shown, InProgress, Aligned, IsPowerOfTwo;
    DataFramesPrefix(h, m);
    if s.sender.Waiting? && s.senderPosition == s.pubPosition {
      DataFramesComplete(h, m);
    }
  }

  /**
   Every interleaving of the two threads: each slice the sender emits is a whole frame some `offer`
   accepted, byte for byte, in the order accepted and once each.
   */
  lemma InterleavedInOrder(c: Config, actions: seq<Action>)
    requires ConfigOk(c) && RunOk(c, actions)
    ensures InOrder(Run(c, actions))
  {
    var h, n, m := RunKeeps(c, actions);
    InvariantInOrder(c, Run(c, actions), h, n, m);
  }

  // ---- Frames of one aligned length ----

  ghost predicate AllOf(pc: PublisherPc, a: nat) {
    match pc
    case Copying(_, _, _, ThenPayload(payload)) => Align32(HEADER + |payload|) == a
    case Copying(_, _, _, ThenCommit(payload)) => Align32(HEADER + |payload|) == a
    case Committing(payload) => Align32(HEADER + |payload|) == a
    case Publishing(payload) => Align32(HEADER + |payload|) == a
    case _ => true
  }

  /** Every offered frame takes `a` bytes, and every offer finds 2^31 terms not exhausted. */
  ghost predicate UniformActions(c: Config, actions: seq<Action>, a: nat)
    requires c.termLength > 0
  {
    |actions| == 0 ||
    (var front, last := actions[..|actions| - 1], actions[|actions| - 1];
     && UniformActions(c, front, a)
     && (last.StartOffer? ==>
           Align32(HEADER + |last.payload|) == a && TermCount(c, View(Run(c, front))) < TWO31 - 2))
  }

  lemma UniformNext(c: Config, s: State, action: Action, h: seq<Rec>, n: nat, m: nat, a: nat)
    requires Invariant(c, s, h, n, m) && PublicationRuns.Uniform(c, View(s), h, a) && AllOf(s.publisher, a)
    requires action.StartOffer? ==> Align32(HEADER + |action.payload|) == a && TermCount(c, View(s)) < TWO31 - 2
    requires a <= c.termLength
    ensures PubOk(c, View(s)) && WritePosition(c, View(s)) >= 0
    ensures StepOk(c, s, action)
    ensures var h' := if action.PublisherStep? then NextHistory(c, s, h) else h;
            PublicationRuns.Uniform(c, View(Next(c, s, action)), h', a)
    ensures AllOf(Next(c, s, action).publisher, a)
  {
    hide Cursors, Shown, DataFrames, Align32, Wrap32, Shows, TermCount, RotationSafe, HeaderBytes, AtFrame,
         WritePosition, OfferRec, FrameLengthAt, IsPad, ComputePosition;
    CursorsSize(c, View(s), h, n);
    match action
    case StartOffer(payload) =>
      if Rotates(c, View(s), payload) {
        PublicationRuns.UniformIsSafe(c, View(s), h, n, payload, a);
        PublicationRuns.UniformRotate(c, View(s), h, n, a);
      }
    case PublisherStep =>
      match s.publisher {
        case Publishing(payload) => PublicationRuns.UniformStep(c, View(s), h, n, payload, a);
        case CommittingPad => PublicationRuns.UniformRotate(c, View(s), h, n, a);
        case _ =>
      }
    case StartScan(_) =>
    case SenderStep =>
  }

  lemma {:induction false} UniformRun(c: Config, actions: seq<Action>, a: nat) returns (h: seq<Rec>, n: nat, m: nat)
    requires ConfigOk(c) && UniformActions(c, actions, a) && 0 < a <= c.termLength
    ensures RunOk(c, actions)
    ensures Invariant(c, Run(c, actions), h, n, m)
    ensures PublicationRuns.Uniform(c, View(Run(c, actions)), h, a) && AllOf(Run(c, actions).publisher, a)
  {
    hide Invariant, StepOk, Next, AllOf, NextHistory, Align32, PublicationRuns.Uniform;
    if |actions| == 0 {
      h, n, m := [], 0, 0;
      InitialInvariant(c);
      InitialUniform(c, a);
    } else {
      var front, last := actions[..|actions| - 1], actions[|actions| - 1];
      h, n, m := UniformRun(c, front, a);
      var s := Run(c, front);
      UniformNext(c, s, last, h, n, m, a);
      h, n, m := NextKeeps(c, s, last, h, n, m);
    }
  }

  lemma InitialUniform(c: Config, a: nat)
    requires c.termLength > 0 && a > 0
    ensures PublicationRuns.Uniform(c, View(InitialState(c)), [], a) && AllOf(InitialState(c).publisher, a)
  {
  }

  /** With one aligned frame length no assumption on rotations is left: every interleaving is in order. */
  lemma UniformInterleavedInOrder(c: Config, actions: seq<Action>, a: nat)
    requires ConfigOk(c) && UniformActions(c, actions, a) && 0 < a <= c.termLength
    ensures InOrder(Run(c, actions))
  {
    var h, n, m := UniformRun(c, actions, a);
    InterleavedInOrder(c, actions);
  }

  // ---- Short pads ----

  /** Frames of any size; every rotation started leaves a pad of at most one granule. */
  ghost predicate ShortPadActions(c: Config, actions: seq<Action>)
    requires c.termLength > 0
  {
    |actions| == 0 ||
    (var front, last := actions[..|actions| - 1], actions[|actions| - 1];
     var s := Run(c, front);
     && ShortPadActions(c, front)
     && (last.StartOffer? && s.publisher.Idle? && Rotates(c, View(s), last.payload) ==>
           && Align32(HEADER + |last.payload|) <= c.termLength && c.termLength - s.termOffset <= 32
           && TermCount(c, View(s)) < TWO31 - 2))
  }

  lemma ShortPadStep(c: Config, s: State, action: Action, h: seq<Rec>, n: nat, m: nat)
    requires Invariant(c, s, h, n, m)
    requires action.StartOffer? && s.publisher.Idle? && Rotates(c, View(s), action.payload) ==>
               && Align32(HEADER + |action.payload|) <= c.termLength && c.termLength - s.termOffset <= 32
               && TermCount(c, View(s)) < TWO31 - 2
    ensures StepOk(c, s, action)
  {
    hide Cursors, Shown, DataFrames, Align32, Wrap32, Shows, TermCount, RotationSafe, AtFrame, InProgress, Backed;
    if action.StartOffer? && s.publisher.Idle? && Rotates(c, View(s), action.payload) {
      PublicationRuns.ShortPadIsSafe(c, View(s), h, n, action.payload);
    }
  }

  lemma {:induction false} ShortPadRun(c: Config, actions: seq<Action>) returns (h: seq<Rec>, n: nat, m: nat)
    requires ConfigOk(c) && ShortPadActions(c, actions)
    ensures RunOk(c, actions) && Invariant(c, Run(c, actions), h, n, m)
  {
    hide Invariant, StepOk, Next, NextHistory, Align32, Rotates, TermCount;
    if |actions| == 0 {
      h, n, m := [], 0, 0;
      InitialInvariant(c);
    } else {
      var front, last := actions[..|actions| - 1], actions[|actions| - 1];
      h, n, m := ShortPadRun(c, front);
      var s := Run(c, front);
      ShortPadStep(c, s, last, h, n, m);
      h, n, m := NextKeeps(c, s, last, h, n, m);
    }
  }

  /** With short pads, too, every interleaving is in order. */
  lemma ShortPadInterleavedInOrder(c: Config, actions: seq<Action>)
    requires ConfigOk(c) && ShortPadActions(c, actions)
    ensures InOrder(Run(c, actions))
  {
    var h, n, m := ShortPadRun(c, actions);
    InterleavedInOrder(c, actions);
  }
}
