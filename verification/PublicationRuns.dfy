/**
 Whole runs of a publication: offers by the publisher, status messages from the receiver and
 clamped send cycles, in any order.  The data frames sent are a prefix of the frames accepted
 as long as every rotation is safe, and uniform frame sizes or short pads make it so.
 */
module PublicationRuns {
  import opened Arith
  import opened Bytes
  import opened TermLog
  import opened Publication
  import opened PublicationHistory
  import opened PublicationScan
  import opened SenderControl

  datatype Op =
    | OfferOp(payload: seq<Byte>)
    | StatusOp(termId: int, termOffset: int, receiverWindow: int)
    | SendOp(sendSlots: nat)

  datatype World = World(pub: Pub, senderLimit: int, accepted: seq<seq<Byte>>, sent: seq<seq<Byte>>)

  function InitialWorld(c: Config): World {
    World(InitialPub(c), c.termLength, [], [])
  }

  function Step(c: Config, w: World, op: Op): (w': World)
    requires PubOk(c, w.pub) && c.termLength > 0
    ensures PubOk(c, w'.pub)
  {
    match op
    case OfferOp(payload) =>
      var (p', result) := Offer(c, w.pub, payload);
      w.(pub := p', accepted := if result.Ok? then w.accepted + [FrameFor(c, w.pub, payload)] else w.accepted)
    case StatusOp(termId, termOffset, receiverWindow) =>
      w.(senderLimit := UpdateLimit(c, w.senderLimit, termId, termOffset, receiverWindow))
    case SendOp(sendSlots) =>
      var limit := ScanLimit(w.senderLimit, w.pub.senderPosition, w.pub.pubPosition, sendSlots, c.mtu);
      if limit == 0 then w
      else
        var (p', result) := SenderScan(c, w.pub, limit);
        w.(pub := p', sent := w.sent + Transmitted(result.frames))
  }

  function Run(c: Config, w: World, ops: seq<Op>): (w': World)
    requires PubOk(c, w.pub) && c.termLength > 0
    ensures PubOk(c, w'.pub)
  {
    if |ops| == 0 then w else Step(c, Run(c, w, ops[..|ops| - 1]), ops[|ops| - 1])
  }

  // ---- When a rotation keeps the unscanned frames ----

  /**
   Cleaning the next partition leaves every unscanned frame in the log exactly when the sender
   has left that partition.
   */
  lemma RotationKeepsUnscannedExactly(c: Config, p: Pub, h: seq<Rec>, n: nat)
    requires Tracks(c, p, h, n) && TermCount(c, p) < TWO31 - 2
    ensures Shown(RotateTerm(c, p).buf, h, n) <==> RotationSafe(c, p)
  {
    if RotationSafe(c, p) {
      RotateTracks(c, p, h, n);
      var h', buf' := RotatedHistory(c, p, h), RotateTerm(c, p).buf;
      forall i | n <= i < |h| ensures Shows(buf', h[i].pos, h[i].bytes) {
        assert h'[i] == h[i];
      }
    } else {
      UnsafeRotationErases(c, p, h, n);
    }
  }

  /** An unsafe rotation zeroes the very next frame the sender would read. */
  lemma UnsafeRotationErases(c: Config, p: Pub, h: seq<Rec>, n: nat)
    requires Tracks(c, p, h, n) && TermCount(c, p) < TWO31 - 2 && !RotationSafe(c, p)
    ensures n < |h| && !Shows(RotateTerm(c, p).buf, h[n].pos, h[n].bytes)
  {
    hide RecOk, PadHeader, Wrap32, Wrap64, Align32, Aligned, IsPowerOfTwo, DataEnd, Contiguous,
         WritePad, CleanPartition, InOnePiece, Shows, Splice;
    var tl, k, s := c.termLength, TermCount(c, p), p.senderPosition;
    var padded := WritePad(p.buf, tl, ActivePartition(c, p), p.termOffset);
    TermBases(k, tl);
    CleanIsSplice(c, p, padded);
    MulStep(k, 2, tl);
    MulStep(3, k, tl);
    var d := s - (k - 3) * tl;
    assert n < |h| && h[n].pos == s && RecOk(tl, h[n]);
    FrameRoom(tl, h[n], k - 3, d);
    ZeroedFrame(padded, (k + 1) * tl, tl, d, h[n]);
  }

  lemma FrameRoom(tl: nat, r: Rec, t: int, d: nat)
    requires RecOk(tl, r) && r.pos == t * tl + d && d < tl
    ensures d + HEADER <= tl && HEADER <= |r.bytes| && DecodeI32(r.bytes, 0) > 0
  {
    DivModUnique(r.pos, t, d, tl);
  }

  /** Zeroing a whole term also zeroes the frame one lap earlier. */
  lemma ZeroedFrame(buf: seq<Byte>, at: nat, tl: nat, d: nat, r: Rec)
    requires |buf| == 4 * tl && InOnePiece(at, tl, |buf|)
    requires d + HEADER <= tl && HEADER <= |r.bytes| && DecodeI32(r.bytes, 0) > 0
    requires 4 * tl <= at && r.pos == at - 4 * tl + d
    ensures !Shows(Splice(buf, at % |buf|, Zeros(tl)), r.pos, r.bytes)
  {
    hide DecodeI32;
    var buf' := Splice(buf, at % |buf|, Zeros(tl));
    OneLapEarlier(at, d, |buf|);
    var slot := at % |buf|;
    var j := NonzeroWord(r.bytes);
    var i := slot + d + j;
    assert buf'[i] == buf'[slot..slot + tl][d + j] == 0;
    assert slot + d + |r.bytes| <= |buf| ==> buf'[i] == buf'[slot + d..slot + d + |r.bytes|][j];
  }

  // ---- What back-pressure alone guarantees ----

  /** What the publisher's own positions satisfy whatever has been erased, and how far the sender can be ahead. */
  ghost predicate Paced(c: Config, p: Pub) {
    && ConfigOk(c) && PubOk(c, p)
    && 0 <= TermCount(c, p) < TWO31 - 1 && p.activeTermId == Wrap32(c.initialTermId + TermCount(c, p))
    && 0 <= p.pubPosition <= WritePosition(c, p)
    && (p.termOffset > 0 ==> p.pubPosition == WritePosition(c, p))
    && p.senderPosition <= p.pubPosition + c.termLength
  }

  lemma PacedRange(c: Config, p: Pub)
    requires Paced(c, p)
    ensures 0 <= WritePosition(c, p) <= TWO31 * 0x2000_0000
  {
    hide Wrap32, IsPowerOfTwo, Aligned;
    TermBases(TermCount(c, p), c.termLength);
    MulStep(TermCount(c, p) + 1, TWO31, c.termLength);
    MulStep(c.termLength, 0x2000_0000, TWO31);
  }

  lemma PacedOffer(c: Config, p: Pub, payload: seq<Byte>)
    requires Paced(c, p) && TermCount(c, p) < TWO31 - 2
    ensures Paced(c, Offer(c, p, payload).0)
  {
    hide Wrap32, Align32, Aligned, IsPowerOfTwo, Splice, WritePad, CleanPartition, FrameFor, PartitionIndex, Backed;
    NextTermId(c, p);
    TermBases(TermCount(c, p), c.termLength);
    if !Overflows(c, p, payload) {
      assert TermCount(c, AppendFrame(c, p, payload)) == TermCount(c, p);
    }
  }

  /** A scan ends at the latest at the end of the term it started in. */
  lemma PacedSend(c: Config, w: World, sendSlots: nat)
    requires Paced(c, w.pub)
    ensures Paced(c, Step(c, w, SendOp(sendSlots)).pub)
  {
    hide Wrap32, Wrap64, Align32, Aligned, IsPowerOfTwo, Scan, PartitionIndex, TermIdOf;
    PacedRange(c, w.pub);
    var p := w.pub;
    var limit := ScanLimit(w.senderLimit, p.senderPosition, p.pubPosition, sendSlots, c.mtu);
    if limit > 0 {
      assert p.senderPosition < p.pubPosition;
      ScanMovesSender(c, p, limit);
    }
  }

  lemma {:induction false} PacedRun(c: Config, ops: seq<Op>)
    requires ConfigOk(c) && WithinTerms(c, ops)
    ensures Paced(c, Run(c, InitialWorld(c), ops).pub)
  {
    hide Paced, Offer, ScanLimit, UpdateLimit, SenderScan;
    if |ops| == 0 {
      PacedInitially(c);
    } else {
      PacedRun(c, ops[..|ops| - 1]);
      var w := Run(c, InitialWorld(c), ops[..|ops| - 1]);
      match ops[|ops| - 1]
      case OfferOp(payload) => PacedOffer(c, w.pub, payload);
      case StatusOp(_, _, _) =>
      case SendOp(sendSlots) => PacedSend(c, w, sendSlots);
    }
  }

  lemma PacedInitially(c: Config)
    requires ConfigOk(c)
    ensures Paced(c, InitialPub(c))
  {
  }

  lemma PacedBound(c: Config, p: Pub, payload: seq<Byte>)
    requires Paced(c, p) && Rotates(c, p, payload) && Align32(HEADER + |payload|) <= c.termLength
    ensures p.termOffset > 0
    ensures (TermCount(c, p) - 2) * c.termLength - (c.termLength - p.termOffset) < p.senderPosition
  {
    hide Wrap32, Wrap64, Align32, Aligned, IsPowerOfTwo;
    PacedRange(c, p);
    TermBases(TermCount(c, p), c.termLength);
  }

  /**
   Every run, with any frame sizes and whether or not earlier rotations were safe: a rotation out of
   term `k` leaving `pad` bytes finds the sender beyond the last `pad` bytes of term `k - 3`, whose
   partition it enters.
   */
  lemma RotationBound(c: Config, ops: seq<Op>, payload: seq<Byte>)
    requires ConfigOk(c) && WithinTerms(c, ops) && Align32(HEADER + |payload|) <= c.termLength
    requires Rotates(c, Run(c, InitialWorld(c), ops).pub, payload)
    ensures var p := Run(c, InitialWorld(c), ops).pub;
            && p.termOffset > 0
            && (TermCount(c, p) - 2) * c.termLength - (c.termLength - p.termOffset) < p.senderPosition
  {
    hide Run, WithinTerms, Paced, Align32, Backed, IsPowerOfTwo, TermCount;
    PacedRun(c, ops);
    PacedBound(c, Run(c, InitialWorld(c), ops).pub, payload);
  }

  lemma CursorsPaced(c: Config, p: Pub, h: seq<Rec>, n: nat)
    requires Cursors(c, p, h, n)
    ensures Paced(c, p)
  {
    hide RecOk, Wrap32, Aligned, IsPowerOfTwo, Start;
    DataEndBound(h);
  }

  /**
   A frame that fits a term is refused exactly while the sender is three terms behind.  Otherwise the
   offer succeeds, at once or on the immediate retry after a rotation, and the position it returns is
   the end of its frame in the stream.
   */
  lemma OfferSucceeds(c: Config, p: Pub, h: seq<Rec>, n: nat, payload: seq<Byte>)
    requires Cursors(c, p, h, n) && TermCount(c, p) < TWO31 - 2
    requires !TooLarge(c, payload) && Align32(HEADER + |payload|) <= c.termLength
    ensures Offer(c, p, payload).1.BackPressured? <==> p.pubPosition - p.senderPosition >= 3 * c.termLength
    ensures Offer(c, p, payload).1.Ok? ==>
              Offer(c, p, payload).1.position == WritePosition(c, p) + Align32(HEADER + |payload|)
    ensures Offer(c, p, payload).1.AdminAction? ==>
              var p' := Offer(c, p, payload).0;
              Offer(c, p', payload).1 == Ok((TermCount(c, p) + 1) * c.termLength + Align32(HEADER + |payload|))
  {
    hide Wrap32, Align32, Aligned, IsPowerOfTwo, DataEnd, Contiguous, RecOk, Splice, WritePad, CleanPartition,
         FrameFor, Wrap64, HistoryOk, Start, PartitionIndex;
    SenderWithinTerms(c, p, h, n);
    MulStep(c.termLength, 0x2000_0000, TWO31);
    NextTermId(c, p);
    AlignedZero();
    AlignedSum(0, Align32(HEADER + |payload|));
  }

  /** Which of its four answers an offer gives, in plain arithmetic, and that a refusal changes nothing. */
  lemma OfferExactly(c: Config, p: Pub, h: seq<Rec>, n: nat, payload: seq<Byte>)
    requires Cursors(c, p, h, n)
    ensures var (p', r) := Offer(c, p, payload);
            var fits, free := |payload| + 32 <= c.mtu, p.pubPosition - p.senderPosition < 3 * c.termLength;
            var room := p.termOffset + Align32(32 + |payload|) <= c.termLength;
            && (r.PayloadTooLarge? <==> !fits) && (r.BackPressured? <==> fits && !free)
            && (r.AdminAction? <==> fits && free && !room) && (r.Ok? <==> fits && free && room)
            && (!fits || !free ==> p' == p)
  {
    hide Wrap32, Wrap64, Align32, Aligned, IsPowerOfTwo, DataEnd, Contiguous, RecOk, HistoryOk, Start, RotateTerm,
         AppendFrame;
    SenderWithinTerms(c, p, h, n);
    MulStep(c.termLength, 0x2000_0000, TWO31);
  }

  /** A pad of at most one granule leaves no room for an unscanned frame in the entered partition. */
  lemma ShortPadIsSafe(c: Config, p: Pub, h: seq<Rec>, n: nat, payload: seq<Byte>)
    requires Cursors(c, p, h, n) && Rotates(c, p, payload)
    requires Align32(HEADER + |payload|) <= c.termLength && c.termLength - p.termOffset <= 32
    ensures RotationSafe(c, p)
  {
    hide RecOk, Wrap32, Align32, Aligned, IsPowerOfTwo, DataEnd, Contiguous;
    CursorsPaced(c, p, h, n);
    PacedBound(c, p, payload);
    PositionsAligned(h, n);
    AlignedMultiple(TermCount(c, p) - 2, c.termLength);
    if !RotationSafe(c, p) {
      AlignedSum(p.senderPosition, (TermCount(c, p) - 2) * c.termLength);
    }
  }

  /** All data frames take `a` bytes, so all frames start at multiples of `a` within their term. */
  ghost predicate Uniform(c: Config, p: Pub, h: seq<Rec>, a: nat) {
    && a > 0 && c.termLength > 0
    && p.termOffset % a == 0
    && forall i :: 0 <= i < |h| ==> h[i].pos % c.termLength % a == 0
  }

  /** With one aligned frame length, back-pressure alone keeps the sender out of the entered partition. */
  lemma UniformIsSafe(c: Config, p: Pub, h: seq<Rec>, n: nat, payload: seq<Byte>, a: nat)
    requires Cursors(c, p, h, n) && Rotates(c, p, payload) && Uniform(c, p, h, a)
    requires Align32(HEADER + |payload|) == a <= c.termLength
    ensures RotationSafe(c, p)
  {
    hide RecOk, Wrap32, Align32, Aligned, IsPowerOfTwo, DataEnd, Contiguous;
    var tl, k, s := c.termLength, TermCount(c, p), p.senderPosition;
    CursorsPaced(c, p, h, n);
    PacedBound(c, p, payload);
    TermBases(k, tl);
    if !RotationSafe(c, p) {
      var d := s - (k - 3) * tl;
      DivModUnique(s, k - 3, d, tl);
      MultipleGap(p.termOffset, d, a);
    }
  }

  lemma UniformStep(c: Config, p: Pub, h: seq<Rec>, n: nat, payload: seq<Byte>, a: nat)
    requires Cursors(c, p, h, n) && Uniform(c, p, h, a) && !TooLarge(c, payload)
    requires Align32(HEADER + |payload|) == a
    ensures WritePosition(c, p) >= 0
    ensures !Overflows(c, p, payload) ==>
              Uniform(c, AppendFrame(c, p, payload), h + [OfferRec(c, p, payload)], a)
    ensures Uniform(c, RotateTerm(c, p), RotatedHistory(c, p, h), a)
  {
    hide RecOk, Wrap32, Align32, Aligned, IsPowerOfTwo, DataEnd, Contiguous, WritePad, CleanPartition, Splice;
    MultipleSum(p.termOffset, a);
    UniformRotate(c, p, h, n, a);
    if p.termOffset < c.termLength {
      WriteSlot(c, p);
    }
  }

  lemma UniformRotate(c: Config, p: Pub, h: seq<Rec>, n: nat, a: nat)
    requires Cursors(c, p, h, n) && Uniform(c, p, h, a)
    ensures WritePosition(c, p) >= 0
    ensures Uniform(c, RotateTerm(c, p), RotatedHistory(c, p, h), a)
  {
    hide RecOk, Wrap32, Align32, Aligned, IsPowerOfTwo, DataEnd, Contiguous, WritePad, CleanPartition, Splice;
    AlignedSum(p.termOffset, c.termLength);
    if p.termOffset < c.termLength {
      WriteSlot(c, p);
    }
  }

  // ---- Runs ----

  /** World `w` is explained by history `h`, of which the first `n` frames have been scanned. */
  ghost predicate Explained(c: Config, w: World, h: seq<Rec>, n: nat, a: nat) {
    && Tracks(c, w.pub, h, n)
    && w.accepted == DataFrames(h)
    && w.sent == DataFrames(h[..n])
    && FramesAtMost(h, a)
    && c.termLength <= w.senderLimit < LIMIT_RANGE
    && w.pub.senderPosition < w.senderLimit + a
  }

  /** Frames of at most `a` bytes; status messages as the wire carries them. */
  ghost predicate OpOk(op: Op, a: nat) {
    && (op.OfferOp? ==> Align32(HEADER + |op.payload|) <= a)
    && (op.StatusOp? ==> IsI32(op.receiverWindow))
  }

  /** A rotation the operation performs is safe. */
  ghost predicate Safe(c: Config, w: World, op: Op) {
    op.OfferOp? && Rotates(c, w.pub, op.payload) ==> RotationSafe(c, w.pub)
  }

  /** Another rotation does not run past 2^31 terms. */
  ghost predicate TermsLeft(c: Config, w: World) {
    TermCount(c, w.pub) < TWO31 - 2
  }

  lemma AppendExplained(c: Config, w: World, payload: seq<Byte>, h: seq<Rec>, n: nat, a: nat)
    requires Explained(c, w, h, n, a) && Align32(HEADER + |payload|) <= a
    requires !TooLarge(c, payload) && !Backed(c, w.pub) && !Overflows(c, w.pub, payload)
    ensures WritePosition(c, w.pub) >= 0
    ensures Explained(c, Step(c, w, OfferOp(payload)), h + [OfferRec(c, w.pub, payload)], n, a)
  {
    hide Cursors, Shown, Wrap32, Wrap64, Align32, DataFrames, FrameFor, TermCount, Splice, IsPowerOfTwo;
    AppendTracks(c, w.pub, h, n, payload);
    OfferDataFrames(c, w.pub, h, n, payload);
    TracksBounds(c, w.pub, h, n);
    assert (h + [OfferRec(c, w.pub, payload)])[..n] == h[..n];
  }

  lemma RotateExplained(c: Config, w: World, payload: seq<Byte>, h: seq<Rec>, n: nat, a: nat)
    requires Explained(c, w, h, n, a) && Align32(HEADER + |payload|) <= a
    requires Rotates(c, w.pub, payload) && RotationSafe(c, w.pub) && TermsLeft(c, w)
    ensures WritePosition(c, w.pub) >= 0
    ensures Explained(c, Step(c, w, OfferOp(payload)), RotatedHistory(c, w.pub, h), n, a)
  {
    hide Cursors, Shown, Wrap32, Wrap64, Align32, Aligned, DataFrames, FrameFor, TermCount, WritePad, CleanPartition,
         IsPowerOfTwo, PadHeader;
    RotateTracks(c, w.pub, h, n);
    PadHistory(c, w.pub, h, n);
    TracksBounds(c, w.pub, h, n);
    AlignedSum(c.termLength, w.pub.termOffset);
    assert RotatedHistory(c, w.pub, h)[..n] == h[..n];
  }

  lemma OfferExplained(c: Config, w: World, payload: seq<Byte>, h: seq<Rec>, n: nat, a: nat)
    returns (h': seq<Rec>)
    requires Explained(c, w, h, n, a) && Align32(HEADER + |payload|) <= a
    requires Safe(c, w, OfferOp(payload)) && TermsLeft(c, w)
    ensures Explained(c, Step(c, w, OfferOp(payload)), h', n, a)
    ensures WritePosition(c, w.pub) >= 0
    ensures h' == if TooLarge(c, payload) || Backed(c, w.pub) then h
                  else if Overflows(c, w.pub, payload) then RotatedHistory(c, w.pub, h)
                  else h + [OfferRec(c, w.pub, payload)]
  {
    hide Explained, Align32, Backed, RotationSafe, TermsLeft, AppendFrame, RotateTerm;
    ExplainedBounds(c, w, h, n, a);
    h' := h;
    if !TooLarge(c, payload) && !Backed(c, w.pub) {
      if Overflows(c, w.pub, payload) {
        RotateExplained(c, w, payload, h, n, a);
        h' := RotatedHistory(c, w.pub, h);
      } else {
        AppendExplained(c, w, payload, h, n, a);
        h' := h + [OfferRec(c, w.pub, payload)];
      }
    }
  }

  lemma TracksBounds(c: Config, p: Pub, h: seq<Rec>, n: nat)
    requires Cursors(c, p, h, n)
    ensures n <= |h| && ConfigOk(c) && PubOk(c, p) && Aligned(p.termOffset)
  {
  }

  lemma ExplainedBounds(c: Config, w: World, h: seq<Rec>, n: nat, a: nat)
    requires Explained(c, w, h, n, a)
    ensures PubOk(c, w.pub) && WritePosition(c, w.pub) >= 0
  {
  }

  lemma OfferDataFrames(c: Config, p: Pub, h: seq<Rec>, n: nat, payload: seq<Byte>)
    requires Cursors(c, p, h, n) && WritePosition(c, p) >= 0
    ensures DataFrames(h + [OfferRec(c, p, payload)]) == DataFrames(h) + [FrameFor(c, p, payload)]
  {
    assert (h + [OfferRec(c, p, payload)])[..|h|] == h;
  }

  lemma SendExplained(c: Config, w: World, sendSlots: nat, h: seq<Rec>, n: nat, a: nat)
    returns (n': nat)
    requires Explained(c, w, h, n, a)
    ensures n <= n' <= |h|
    ensures Explained(c, Step(c, w, SendOp(sendSlots)), h, n', a)
  {
    hide Wrap32, Wrap64, Align32, DataFrames, SenderScan, ScanLimit, Shown, HistoryOk, FramesAtMost, IsPowerOfTwo;
    var p := w.pub;
    SenderWithinTerms(c, p, h, n);
    MulStep(c.termLength, 0x2000_0000, TWO31);
    ScanLimitClamps(w.senderLimit, p.senderPosition, p.pubPosition, sendSlots, c.mtu);
    var limit := ScanLimit(w.senderLimit, p.senderPosition, p.pubPosition, sendSlots, c.mtu);
    n' := n;
    if limit > 0 {
      n' := ScanTracks(c, p, h, n, limit, a);
      DataFramesConcat(h[..n], h[n..n']);
      assert h[..n'] == h[..n] + h[n..n'];
      ScanMovesSender(c, p, limit);
    }
  }

  lemma ScanMovesSender(c: Config, p: Pub, limit: nat)
    requires PubOk(c, p) && c.termLength > 0
    ensures SenderScan(c, p, limit).0.senderPosition == p.senderPosition + SenderScan(c, p, limit).1.scanned
  {
  }

  lemma StepExplained(c: Config, w: World, op: Op, h: seq<Rec>, n: nat, a: nat)
    returns (h': seq<Rec>, n': nat)
    requires Explained(c, w, h, n, a) && OpOk(op, a) && Safe(c, w, op) && TermsLeft(c, w)
    ensures Explained(c, Step(c, w, op), h', n', a)
    ensures !op.OfferOp? ==> h' == h
  {
    hide Cursors, Shown, DataFrames, FramesAtMost, Offer, SenderScan, ScanLimit, UpdateLimit, Proposal;
    h', n' := h, n;
    match op
    case OfferOp(payload) =>
      h' := OfferExplained(c, w, payload, h, n, a);
    case StatusOp(termId, termOffset, receiverWindow) =>
      TracksBounds(c, w.pub, h, n);
      UpdateLimitIsMax(c, w.senderLimit, termId, termOffset, receiverWindow);
      ProposalInRange(c, termId, termOffset, receiverWindow);
    case SendOp(sendSlots) =>
      n' := SendExplained(c, w, sendSlots, h, n, a);
  }

  /** Every step of the run is within the assumptions. */
  ghost predicate RunOk(c: Config, ops: seq<Op>, a: nat)
    requires ConfigOk(c)
  {
    |ops| == 0 ||
    (var w := Run(c, InitialWorld(c), ops[..|ops| - 1]);
     RunOk(c, ops[..|ops| - 1], a) && OpOk(ops[|ops| - 1], a) && Safe(c, w, ops[|ops| - 1]) && TermsLeft(c, w))
  }

  lemma {:induction false} RunExplained(c: Config, ops: seq<Op>, a: nat)
    returns (h: seq<Rec>, n: nat)
    requires ConfigOk(c) && RunOk(c, ops, a) && a > 0
    ensures Explained(c, Run(c, InitialWorld(c), ops), h, n, a)
  {
    if |ops| == 0 {
      h, n := [], 0;
      InitialTracks(c);
    } else {
      h, n := RunExplained(c, ops[..|ops| - 1], a);
      h, n := StepExplained(c, Run(c, InitialWorld(c), ops[..|ops| - 1]), ops[|ops| - 1], h, n, a);
    }
  }

  /** What a world owes its users. */
  ghost predicate InOrder(w: World, a: nat) {
    && w.sent <= w.accepted
    && (w.pub.senderPosition == w.pub.pubPosition ==> w.sent == w.accepted)
    && 0 <= w.pub.senderPosition <= w.pub.pubPosition
    && w.pub.senderPosition < w.senderLimit + a
  }

  lemma ExplainedInOrder(c: Config, w: World, h: seq<Rec>, n: nat, a: nat)
    requires Explained(c, w, h, n, a)
    ensures InOrder(w, a)
  {
    hide Wrap32, Align32, Shown;
    DataFramesPrefix(h, n);
    if w.pub.senderPosition == w.pub.pubPosition {
      DataFramesComplete(h, n);
    }
  }

  /**
   Every run: the frames sent are a prefix of the frames accepted, all of them once the sender has
   caught up, and the sender passes neither the published data nor the flow-control limit by more
   than one frame.
   */
  lemma SentInOrder(c: Config, ops: seq<Op>, a: nat)
    requires ConfigOk(c) && RunOk(c, ops, a) && a > 0
    ensures InOrder(Run(c, InitialWorld(c), ops), a)
  {
    var h, n := RunExplained(c, ops, a);
    ExplainedInOrder(c, Run(c, InitialWorld(c), ops), h, n, a);
  }

  // ---- Progress of the sender ----

  /** A send cycle goes as far as window, published data and slots allow, or to the end of the term. */
  lemma SendReaches(c: Config, w: World, sendSlots: nat, h: seq<Rec>, n: nat, a: nat)
    requires Explained(c, w, h, n, a)
    ensures PubOk(c, w.pub) && c.termLength > 0
    ensures var p, p' := w.pub, Step(c, w, SendOp(sendSlots)).pub;
            var goal := p.senderPosition + Max(0, Min(Min(w.senderLimit, p.pubPosition) - p.senderPosition,
                                                      Min(sendSlots * c.mtu, 0xFFFF_FFFF)));
            && p'.pubPosition == p.pubPosition
            && (goal <= p'.senderPosition || p'.senderPosition == TermEndOf(p.senderPosition, c.termLength))
  {
    hide Wrap32, Wrap64, Align32, DataFrames, SenderScan, ScanLimit, Shown, HistoryOk, FramesAtMost, IsPowerOfTwo;
    var p := w.pub;
    SenderWithinTerms(c, p, h, n);
    MulStep(c.termLength, 0x2000_0000, TWO31);
    ScanLimitExactly(w.senderLimit, p.senderPosition, p.pubPosition, sendSlots, c.mtu);
    var limit := ScanLimit(w.senderLimit, p.senderPosition, p.pubPosition, sendSlots, c.mtu);
    if limit > 0 {
      var n' := ScanTracks(c, p, h, n, limit, a);
      ScanMovesSender(c, p, limit);
      ScanOnlyMovesSender(c, p, limit);
    }
  }

  /** First position of the next term. */
  function TermEndOf(position: int, termLength: nat): int
    requires termLength > 0
  {
    position - position % termLength + termLength
  }

  lemma ScanOnlyMovesSender(c: Config, p: Pub, limit: nat)
    requires PubOk(c, p) && c.termLength > 0
    ensures var p' := SenderScan(c, p, limit).0; p' == p.(senderPosition := p'.senderPosition)
  {
  }

  /** With a free slot, a sender behind both the published data and its limit gets on. */
  lemma SendAdvances(c: Config, ops: seq<Op>, a: nat, sendSlots: nat)
    requires ConfigOk(c) && RunOk(c, ops, a) && a > 0 && sendSlots > 0
    requires var w := Run(c, InitialWorld(c), ops); w.pub.senderPosition < Min(w.pub.pubPosition, w.senderLimit)
    ensures var w := Run(c, InitialWorld(c), ops);
            w.pub.senderPosition < Step(c, w, SendOp(sendSlots)).pub.senderPosition
  {
    hide Run, RunOk, Explained, Step;
    var h, n := RunExplained(c, ops, a);
    SendReaches(c, Run(c, InitialWorld(c), ops), sendSlots, h, n, a);
    SlotRoom(sendSlots, c.mtu);
  }

  lemma SlotRoom(sendSlots: nat, mtu: nat)
    requires sendSlots > 0 && mtu >= HEADER
    ensures sendSlots * mtu >= HEADER
  {
    MulStep(1, sendSlots, mtu);
  }

  /** `m` send cycles with `sendSlots` free slots each. */
  function Sends(sendSlots: nat, m: nat): (r: seq<Op>)
    ensures |r| == m && forall i :: 0 <= i < m ==> r[i] == SendOp(sendSlots)
  {
    seq(m, _ => SendOp(sendSlots))
  }

  lemma SendsMore(c: Config, ops: seq<Op>, sendSlots: nat, m: nat)
    requires ConfigOk(c)
    ensures Run(c, InitialWorld(c), ops + Sends(sendSlots, m + 1))
         == Run(c, InitialWorld(c), (ops + [SendOp(sendSlots)]) + Sends(sendSlots, m))
  {
    assert ops + Sends(sendSlots, m + 1) == (ops + [SendOp(sendSlots)]) + Sends(sendSlots, m);
  }

  lemma SendRunOk(c: Config, ops: seq<Op>, a: nat, sendSlots: nat)
    requires ConfigOk(c) && RunOk(c, ops, a) && TermsLeft(c, Run(c, InitialWorld(c), ops))
    ensures RunOk(c, ops + [SendOp(sendSlots)], a)
    ensures Run(c, InitialWorld(c), ops + [SendOp(sendSlots)])
         == Step(c, Run(c, InitialWorld(c), ops), SendOp(sendSlots))
  {
    hide Step, TermsLeft;
    var more := ops + [SendOp(sendSlots)];
    assert more[..|more| - 1] == ops;
  }

  lemma SendKeepsRest(c: Config, w: World, sendSlots: nat)
    requires PubOk(c, w.pub) && c.termLength > 0
    ensures var w' := Step(c, w, SendOp(sendSlots));
            && w'.accepted == w.accepted && w'.senderLimit == w.senderLimit
            && w'.pub == w.pub.(senderPosition := w'.pub.senderPosition)
  {
    hide ScanLimit, Scan;
  }

  /**
   A receiver window that covers the published data is enough: send cycles with any free slots send, in
   the end, everything that was accepted.
   */
  lemma {:induction false} CatchesUp(c: Config, ops: seq<Op>, a: nat, sendSlots: nat) returns (m: nat)
    requires ConfigOk(c) && RunOk(c, ops, a) && a > 0 && sendSlots > 0
    requires var w := Run(c, InitialWorld(c), ops); w.pub.pubPosition <= w.senderLimit && TermsLeft(c, w)
    ensures var w := Run(c, InitialWorld(c), ops + Sends(sendSlots, m));
            w.sent == w.accepted == Run(c, InitialWorld(c), ops).accepted
    decreases Run(c, InitialWorld(c), ops).pub.pubPosition - Run(c, InitialWorld(c), ops).pub.senderPosition
  {
    hide Run, RunOk, Step;
    var w := Run(c, InitialWorld(c), ops);
    SentInOrder(c, ops, a);
    m := 0;
    if w.pub.senderPosition == w.pub.pubPosition {
      assert ops + Sends(sendSlots, 0) == ops;
    } else {
      var more := ops + [SendOp(sendSlots)];
      SendRunOk(c, ops, a, sendSlots);
      SendAdvances(c, ops, a, sendSlots);
      SendKeepsRest(c, w, sendSlots);
      SentInOrder(c, more, a);
      m := CatchesUp(c, more, a, sendSlots);
      SendsMore(c, ops, sendSlots, m);
      m := m + 1;
    }
  }

  // ---- What an accepted frame carries ----

  /** The payloads whose offers were accepted, in order. */
  function Offered(c: Config, ops: seq<Op>): seq<seq<Byte>>
    requires PubOk(c, InitialPub(c)) && c.termLength > 0
  {
    if |ops| == 0 then []
    else
      var front, op := ops[..|ops| - 1], ops[|ops| - 1];
      var w := Run(c, InitialWorld(c), front);
      Offered(c, front) + if op.OfferOp? && Offer(c, w.pub, op.payload).1.Ok? then [op.payload] else []
  }

  /** A data frame of this publication around `payload`, standing at some place of the stream. */
  ghost predicate Carries(c: Config, f: seq<Byte>, payload: seq<Byte>) {
    && |f| >= HEADER && f[HEADER..] == payload
    && HeaderIs(f, |f|, 0xC0, 1, DecodeI32(f, 8), c.sessionId, c.streamId, DecodeI32(f, 20))
  }

  lemma FrameCarries(c: Config, p: Pub, payload: seq<Byte>)
    requires ConfigOk(c) && PubOk(c, p) && !Overflows(c, p, payload)
    ensures Carries(c, FrameFor(c, p, payload), payload)
  {
    hide DataFrame, Align32, IsPowerOfTwo;
    DataFrameRoundTrip(p.termOffset, c.sessionId, c.streamId, p.activeTermId, payload);
  }

  /**
   Every run: the accepted frames are those of the accepted offers, in order, each with its payload and
   its stream.
   */
  lemma {:induction false} AcceptedCarry(c: Config, ops: seq<Op>)
    requires ConfigOk(c)
    ensures var accepted, payloads := Run(c, InitialWorld(c), ops).accepted, Offered(c, ops);
            && |accepted| == |payloads|
            && forall i :: 0 <= i < |accepted| ==> Carries(c, accepted[i], payloads[i])
  {
    hide Carries, FrameFor, ScanLimit, SenderScan, UpdateLimit, RotateTerm, AppendFrame, Backed, IsPowerOfTwo;
    if |ops| > 0 {
      var front, op := ops[..|ops| - 1], ops[|ops| - 1];
      AcceptedCarry(c, front);
      if op.OfferOp? {
        var w := Run(c, InitialWorld(c), front);
        if !Overflows(c, w.pub, op.payload) {
          FrameCarries(c, w.pub, op.payload);
        }
      }
    }
  }

  // ---- The flow-control limit ----

  ghost predicate StatusAt(ops: seq<Op>, i: int) {
    0 <= i < |ops| && ops[i].StatusOp?
  }

  function ProposalAt(c: Config, ops: seq<Op>, i: nat): int
    requires StatusAt(ops, i)
  {
    Proposal(c, ops[i].termId, ops[i].termOffset, ops[i].receiverWindow)
  }

  /** `limit` is the maximum of the term length and of every proposal in `ops`. */
  ghost predicate IsCeiling(c: Config, ops: seq<Op>, limit: int) {
    && c.termLength <= limit < LIMIT_RANGE
    && (forall i :: StatusAt(ops, i) ==> ProposalAt(c, ops, i) <= limit)
    && (limit == c.termLength || exists i :: StatusAt(ops, i) && ProposalAt(c, ops, i) == limit)
  }

  /** Whatever else happens, the limit is the maximum of the term length and all proposals seen. */
  lemma {:induction false} LimitIsCeiling(c: Config, ops: seq<Op>)
    requires ConfigOk(c) && forall i :: StatusAt(ops, i) ==> IsI32(ops[i].receiverWindow)
    ensures IsCeiling(c, ops, Run(c, InitialWorld(c), ops).senderLimit)
  {
    hide Offer, SenderScan, Proposal, UpdateLimit, ScanLimit, IsPowerOfTwo, Transmitted;
    if |ops| > 0 {
      var front, op := ops[..|ops| - 1], ops[|ops| - 1];
      forall i | StatusAt(front, i) ensures IsI32(front[i].receiverWindow) {
        assert StatusAt(ops, i);
      }
      LimitIsCeiling(c, front);
      var w := Run(c, InitialWorld(c), front);
      CeilingStep(c, ops, w.senderLimit);
      if op.StatusOp? {
        assert StatusAt(ops, |front|);
        UpdateLimitIsMax(c, w.senderLimit, op.termId, op.termOffset, op.receiverWindow);
        ProposalInRange(c, op.termId, op.termOffset, op.receiverWindow);
      }
    }
  }

  lemma CeilingStep(c: Config, ops: seq<Op>, limit: int)
    requires |ops| > 0 && IsCeiling(c, ops[..|ops| - 1], limit)
    ensures var last := |ops| - 1;
            if !StatusAt(ops, last) then IsCeiling(c, ops, limit)
            else ProposalAt(c, ops, last) < LIMIT_RANGE ==> IsCeiling(c, ops, Max(limit, ProposalAt(c, ops, last)))
  {
    hide Proposal;
    var front, last := ops[..|ops| - 1], |ops| - 1;
    forall i | StatusAt(ops, i) && i < last ensures ProposalAt(c, ops, i) <= limit {
      assert StatusAt(front, i) && ProposalAt(c, front, i) == ProposalAt(c, ops, i);
    }
    if limit != c.termLength {
      var i :| StatusAt(front, i) && ProposalAt(c, front, i) == limit;
      assert StatusAt(ops, i) && ProposalAt(c, ops, i) == limit;
    }
  }

  // ---- Runs that are safe by construction ----

  /** The run stays under 2^31 terms. */
  ghost predicate WithinTerms(c: Config, ops: seq<Op>)
    requires ConfigOk(c)
  {
    |ops| == 0 ||
    (WithinTerms(c, ops[..|ops| - 1]) && TermsLeft(c, Run(c, InitialWorld(c), ops[..|ops| - 1])))
  }

  /** Every offered frame takes exactly `a` bytes of the stream and fits a term. */
  ghost predicate UniformOps(c: Config, ops: seq<Op>, a: nat) {
    && a <= c.termLength
    && forall i :: 0 <= i < |ops| ==>
         && (ops[i].OfferOp? ==> Align32(HEADER + |ops[i].payload|) == a)
         && (ops[i].StatusOp? ==> IsI32(ops[i].receiverWindow))
  }

  lemma UniformOfferExplained(c: Config, w: World, payload: seq<Byte>, h: seq<Rec>, n: nat, a: nat)
    returns (h': seq<Rec>)
    requires Explained(c, w, h, n, a) && Uniform(c, w.pub, h, a) && TermsLeft(c, w)
    requires Align32(HEADER + |payload|) == a <= c.termLength
    ensures Safe(c, w, OfferOp(payload))
    ensures Explained(c, Step(c, w, OfferOp(payload)), h', n, a)
    ensures Uniform(c, Step(c, w, OfferOp(payload)).pub, h', a)
  {
    hide Cursors, Shown, Uniform, FramesAtMost, DataFrames, Align32, AppendFrame, RotateTerm, TermCount, Backed,
         RotationSafe, TermsLeft;
    if Rotates(c, w.pub, payload) {
      UniformIsSafe(c, w.pub, h, n, payload, a);
    }
    h' := OfferExplained(c, w, payload, h, n, a);
    if !TooLarge(c, payload) {
      UniformStep(c, w.pub, h, n, payload, a);
    }
  }

  lemma {:induction false} UniformRun(c: Config, ops: seq<Op>, a: nat)
    returns (h: seq<Rec>, n: nat)
    requires ConfigOk(c) && UniformOps(c, ops, a) && WithinTerms(c, ops) && a > 0
    ensures RunOk(c, ops, a)
    ensures Explained(c, Run(c, InitialWorld(c), ops), h, n, a)
    ensures Uniform(c, Run(c, InitialWorld(c), ops).pub, h, a)
  {
    hide Explained, Uniform, Safe, Align32, TermsLeft, Offer, UpdateLimit;
    if |ops| == 0 {
      h, n := [], 0;
      InitialExplained(c, a);
    } else {
      var front, op := ops[..|ops| - 1], ops[|ops| - 1];
      h, n := UniformRun(c, front, a);
      var w := Run(c, InitialWorld(c), front);
      if op.OfferOp? {
        h := UniformOfferExplained(c, w, op.payload, h, n, a);
      } else {
        NoOfferIsSafe(c, w, op);
        OtherStepUniform(c, w, op, h, a);
        h, n := StepExplained(c, w, op, h, n, a);
      }
    }
  }

  lemma InitialExplained(c: Config, a: nat)
    requires ConfigOk(c) && a > 0
    ensures Explained(c, InitialWorld(c), [], 0, a) && Uniform(c, InitialWorld(c).pub, [], a)
  {
    InitialTracks(c);
  }

  lemma NoOfferIsSafe(c: Config, w: World, op: Op)
    requires !op.OfferOp?
    ensures Safe(c, w, op)
  {
  }

  /** Only offers touch the write cursor and the history. */
  lemma OtherStepUniform(c: Config, w: World, op: Op, h: seq<Rec>, a: nat)
    requires PubOk(c, w.pub) && Uniform(c, w.pub, h, a) && !op.OfferOp?
    ensures Uniform(c, Step(c, w, op).pub, h, a)
  {
    hide ScanLimit, UpdateLimit, Scan, Wrap32;
  }

  /**
   Frames of one aligned length: whatever the interleaving of offers, status messages and send
   cycles, across any number of rotations, pads and term-id wraps, the frames sent are exactly the
   accepted ones in order, once each.
   */
  lemma UniformSentInOrder(c: Config, ops: seq<Op>, a: nat)
    requires ConfigOk(c) && UniformOps(c, ops, a) && WithinTerms(c, ops) && a > 0
    ensures InOrder(Run(c, InitialWorld(c), ops), a)
  {
    var h, n := UniformRun(c, ops, a);
    SentInOrder(c, ops, a);
  }

  /** Arbitrary sizes that fit a term, where every rotation leaves a pad of at most one granule. */
  ghost predicate ShortPadOps(c: Config, ops: seq<Op>, a: nat)
    requires ConfigOk(c)
  {
    |ops| == 0 ||
    (var w, op := Run(c, InitialWorld(c), ops[..|ops| - 1]), ops[|ops| - 1];
     && ShortPadOps(c, ops[..|ops| - 1], a) && OpOk(op, a)
     && (op.OfferOp? && Rotates(c, w.pub, op.payload) ==>
           Align32(HEADER + |op.payload|) <= c.termLength && c.termLength - w.pub.termOffset <= 32))
  }

  lemma {:induction false} ShortPadRunOk(c: Config, ops: seq<Op>, a: nat)
    requires ConfigOk(c) && ShortPadOps(c, ops, a) && WithinTerms(c, ops) && a > 0
    ensures RunOk(c, ops, a)
  {
    hide Explained, Align32, TermsLeft, Offer, RotationSafe;
    if |ops| > 0 {
      var front, op := ops[..|ops| - 1], ops[|ops| - 1];
      ShortPadRunOk(c, front, a);
      var h, n := RunExplained(c, front, a);
      var w := Run(c, InitialWorld(c), front);
      if op.OfferOp? && Rotates(c, w.pub, op.payload) {
        ExplainedCursors(c, w, h, n, a);
        ShortPadIsSafe(c, w.pub, h, n, op.payload);
      }
    }
  }

  /** So with short pads, too, every run sends what was accepted, in order. */
  lemma ShortPadSentInOrder(c: Config, ops: seq<Op>, a: nat)
    requires ConfigOk(c) && ShortPadOps(c, ops, a) && WithinTerms(c, ops) && a > 0
    ensures InOrder(Run(c, InitialWorld(c), ops), a)
  {
    ShortPadRunOk(c, ops, a);
    SentInOrder(c, ops, a);
  }

  lemma ExplainedCursors(c: Config, w: World, h: seq<Rec>, n: nat, a: nat)
    requires Explained(c, w, h, n, a)
    ensures Cursors(c, w.pub, h, n)
  {
  }
}
