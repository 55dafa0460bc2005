/**
 Polling an image whose subscriber has reached the end of an exactly filled active term.  The next
 partition then still holds the term four terms back, and the poll reads it as if it were new.
 */
module ImageBoundary {
  import opened Arith
  import opened Bytes
  import opened TermLog
  import opened PublicationHistory
  import opened PublicationScan
  import opened Image
  import opened ImageStream
  import opened ImagePoll
  import opened ImageDelivery
  import W = ImageWindow

  /** A frame at the head of the term four terms back is still in the log. */
  ghost predicate StaleHead(x: Image, h: seq<Rec>, stored: set<nat>) {
    W.TermCount(x) >= 3 && Covered(h, stored, (W.TermCount(x) - 3) * x.termLength)
  }

  lemma FedStream(x: Image, h: seq<Rec>, stored: set<nat>)
    requires Fed(x, h, stored)
    ensures StreamOk(x.termLength, h) && Aligned(x.termLength) && x.termLength >= HEADER
    ensures Holds(x.buf, W.TermCount(x), x.termLength, h, stored)
  {
  }

  /** What a poll at the boundary reads. */
  lemma BoundaryPoll(x: Image, h: seq<Rec>, stored: set<nat>, limit: int, t: nat, origin: nat) returns (base: nat)
    requires Fed(x, h, stored) && AtBoundary(x) && limit > 0
    requires t % 4 == (W.TermCount(x) + 1) % 4 && origin == t * x.termLength
    ensures x.termLength > 0 && |x.buf| == 4 * x.termLength && base + x.termLength <= |x.buf|
    ensures TermAt(t, origin, base, x.termLength) && HeadWord(x) == LengthWord(x.buf, base)
    ensures var r := PollFrom(x.buf, base, x.termLength, 0, 0, limit, 0);
            Poll(x, limit) == (x.(subscriberPosition := x.subscriberPosition + r.scanned), r.delivered)
  {
    hide Wrap32, PartitionIndex, PollFrom, Fed, TermIdOf, TermOffsetOf, W.TermCount;
    BoundaryFacts(x, h, stored);
    PartitionFits(t % 4, x.termLength);
    base := t % 4 * x.termLength;
  }

  /** Where the head of the next partition is blank, the poll finds nothing. */
  lemma BlankHeadPoll(x: Image, h: seq<Rec>, stored: set<nat>, limit: int)
    requires Fed(x, h, stored) && AtBoundary(x) && !StaleHead(x, h, stored) && limit > 0
    ensures x.termLength > 0 && |x.buf| == 4 * x.termLength && Poll(x, limit) == (x, []) && HeadWord(x) == 0
  {
    hide Align32, Aligned, Wrap32, IsPowerOfTwo, HistoryOk, Holds, NotInside, PartitionIndex, W.CursorsAgree,
         W.TermCount, Frontier, GapEnd, TermIdOf, TermOffsetOf, Covered, LengthWord, AtBoundary, DecodeU16, RecOk,
         InLog, PollFrom, Poll, Fed, StreamOk, TermAt;
    BoundaryFacts(x, h, stored);
    var tl, k := x.termLength, W.TermCount(x);
    NotYetCovered(x, h, stored);
    var t: nat := if k >= 3 then k - 3 else k + 1;
    var q: nat := t * tl;
    FedStream(x, h, stored);
    AlignedMultiple(t, tl);
    HeadInLog(k, tl, t);
    var base := BoundaryPoll(x, h, stored, limit, t, q);
    HoldsBlankLog(x.buf, k, tl, h, stored, q);
    BlankWord(x.buf, tl, t, q, base, 0);
    BlankTurn(x.buf, base, tl, 0, 0, limit, 0);
  }

  lemma HeadInLog(k: int, tl: nat, t: nat)
    requires k >= 0 && tl > 0 && t == if k >= 3 then k - 3 else k + 1
    ensures InLog(k, tl, t * tl) && t % 4 == (k + 1) % 4
  {
    DivModUnique(t * tl, t, 0, tl);
  }

  /** Nothing is stored at or beyond the end of the active term. */
  lemma NotYetCovered(x: Image, h: seq<Rec>, stored: set<nat>)
    requires Fed(x, h, stored) && AtBoundary(x)
    ensures x.subscriberPosition == (W.TermCount(x) + 1) * x.termLength >= 0
    ensures !Covered(h, stored, x.subscriberPosition)
    ensures 0 <= W.TermCount(x)
  {
    hide Align32, Aligned, Wrap32, IsPowerOfTwo, HistoryOk, Holds, NotInside;
    BoundaryFacts(x, h, stored);
  }

  /** The frame at the stale head. */
  lemma StaleHeadFrame(x: Image, h: seq<Rec>, stored: set<nat>) returns (i: nat, t: nat, origin: nat)
    requires Fed(x, h, stored) && AtBoundary(x) && StaleHead(x, h, stored)
    ensures i in stored && IsData(h, i) && h[i].pos == origin == x.subscriberPosition - 4 * x.termLength
    ensures t % 4 == (W.TermCount(x) + 1) % 4 && origin == t * x.termLength
  {
    hide Align32, Aligned, Wrap32, IsPowerOfTwo, HistoryOk, Holds, W.TermCount, Frontier, Fed, StreamOk;
    FedParts(x, h, stored);
    FedStream(x, h, stored);
    var tl, k := x.termLength, W.TermCount(x);
    t, origin := k - 3, (k - 3) * tl;
    i :| i in stored && i < |h| && h[i].pos <= origin < End(h[i]);
    SameTerm(tl, h, i, origin);
    DivModUnique(origin, t, 0, tl);
    WindowWidth(k, tl);
  }

  /** Where it is not blank, the poll delivers the frame four terms back and passes the receiver. */
  lemma StaleHeadPoll(x: Image, h: seq<Rec>, stored: set<nat>, limit: int) returns (i: nat)
    requires Fed(x, h, stored) && AtBoundary(x) && StaleHead(x, h, stored) && limit > 0
    ensures x.termLength > 0 && |x.buf| == 4 * x.termLength
    ensures i in stored && IsData(h, i) && h[i].pos == x.subscriberPosition - 4 * x.termLength
    ensures var (x', delivered) := Poll(x, limit);
            |delivered| > 0 && delivered[0] == Payload(h, i) && x'.subscriberPosition > x.receiverPosition
    ensures HeadWord(x) > 0
  {
    hide Align32, Aligned, Wrap32, Holds, PartitionIndex, W.TermCount, GapEnd, TermIdOf, TermOffsetOf, LengthWord,
         DecodeU16, PollFrom, Poll, Fed, StreamOk, TermAt, AtBoundary, StaleHead;
    BoundaryFacts(x, h, stored);
    FedStream(x, h, stored);
    var t, origin;
    i, t, origin := StaleHeadFrame(x, h, stored);
    var base := BoundaryPoll(x, h, stored, limit, t, origin);
    FrameHere(x.buf, W.TermCount(x), x.termLength, h, stored, t, origin, base, 0, i);
    FrameTurn(x.buf, base, x.termLength, 0, 0, limit, 0, h[i].len);
  }

  /**
   At the boundary a poll is harmless if and only if the length word it is about to load is not
   positive; that word is positive exactly when the frame at the head of the term four terms back is
   still held.
   */
  lemma BoundaryPollExactly(x: Image, h: seq<Rec>, stored: set<nat>, limit: int)
    requires Fed(x, h, stored) && AtBoundary(x) && limit > 0
    ensures x.termLength > 0 && |x.buf| == 4 * x.termLength
    ensures Poll(x, limit) == (x, []) <==> HeadWord(x) <= 0
    ensures Poll(x, limit).0.subscriberPosition <= x.receiverPosition <==> HeadWord(x) <= 0
    ensures HeadWord(x) > 0 <==> StaleHead(x, h, stored)
  {
    BoundaryFacts(x, h, stored);
    if StaleHead(x, h, stored) {
      var i := StaleHeadPoll(x, h, stored, limit);
    } else {
      BlankHeadPoll(x, h, stored, limit);
    }
  }

  // ---- The boundary is reachable without any loss ----

  /** Every frame fills its term to the last byte. */
  ghost predicate FillsTerms(tl: nat, h: seq<Rec>) {
    && StreamOk(tl, h)
    && forall i :: 0 <= i < |h| ==> h[i].data && h[i].pos == i * tl && End(h[i]) == i * tl + tl
  }

  /** A frame arrives and is polled at once. */
  function Round(x: Image, r: Rec): (Image, seq<seq<Byte>>)
    requires x.termLength > 0 && |x.buf| == 4 * x.termLength && |r.bytes| >= HEADER
  {
    Poll(OnData(x, WireOf(x, r), 0, 0, false), 1)
  }

  /** After `n` rounds: everything consumed, and the last four frames still in the log. */
  ghost predicate AfterRounds(x: Image, tl: nat, h: seq<Rec>, stored: set<nat>, n: nat) {
    && x.termLength == tl && Fed(x, h, stored)
    && W.TermCount(x) == (if n == 0 then 0 else n - 1)
    && x.subscriberPosition == x.receiverPosition == n * tl
    && forall j: nat :: n - 4 <= j < n ==> j in stored
  }

  lemma ArriveFull(x: Image, tl: nat, h: seq<Rec>, stored: set<nat>, n: nat)
    requires FillsTerms(tl, h) && n < |h| && AfterRounds(x, tl, h, stored, n)
    ensures tl > 0 && |x.buf| == 4 * tl && |h[n].bytes| >= HEADER
    ensures var x1 := OnData(x, WireOf(x, h[n]), 0, 0, false);
            && Fed(x1, h, StoredAfter(x, h, stored, n)) && x1.termLength == tl
            && W.TermCount(x1) == n && x1.subscriberPosition == n * tl && x1.receiverPosition == n * tl + tl
            && forall j: nat :: n - 3 <= j <= n ==> j in StoredAfter(x, h, stored, n)
  {
    hide Align32, Aligned, Wrap32, IsPowerOfTwo, HistoryOk, Holds, NotInside, PartitionIndex, CommittedBytes,
         ComputePosition, Splice, CleanAhead, Fed, StreamOk, NewOffset;
    ArriveFed(x, h, stored, n, 0, 0, false);
    var x1, stored1 := OnData(x, WireOf(x, h[n]), 0, 0, false), StoredAfter(x, h, stored, n);
    DivModUnique(n * tl, n, 0, tl);
    FedCursors(x, h, stored);
    NextTermCount(x, tl, h, n);
    forall j: nat | n - 3 <= j <= n ensures j in stored1 {
      MulStep(n - 3, j, tl);
      assert h[j].pos == j * tl;
    }
    FedCursors(x1, h, stored1);
    assert n in stored1;
  }

  lemma FedCursors(x: Image, h: seq<Rec>, stored: set<nat>)
    requires Fed(x, h, stored)
    ensures W.CursorsAgree(x) && x.termLength > 0
    ensures x.receiverPosition <= W.TermCount(x) * x.termLength + x.termLength
    ensures forall j :: j in stored && j < |h| ==> End(h[j]) <= x.receiverPosition
  {
    hide Align32, Aligned, Wrap32, IsPowerOfTwo, HistoryOk, Holds, NotInside;
  }

  lemma NextTermCount(x: Image, tl: nat, h: seq<Rec>, n: nat)
    requires W.CursorsAgree(x) && StreamOk(tl, h) && x.termLength == tl && IsData(h, n) && |h[n].bytes| >= HEADER
    requires h[n].pos / tl == n && W.TermCount(x) == (if n == 0 then 0 else n - 1)
    ensures var x1 := OnData(x, WireOf(x, h[n]), 0, 0, false);
            W.TermCount(x1) == n && x1.subscriberPosition == x.subscriberPosition && x1.termLength == tl
  {
    hide Align32, Aligned, Wrap32, IsPowerOfTwo, HistoryOk, PartitionIndex, CommittedBytes, ComputePosition, Splice,
         CleanAhead, NewOffset, StreamOk, NakDue, Raise, RaisePosition;
    WireFacts(x, h, n);
    W.AdvanceCursors(x, WireOf(x, h[n]));
  }

  lemma RoundKeeps(x: Image, tl: nat, h: seq<Rec>, stored: set<nat>, n: nat)
    requires FillsTerms(tl, h) && n < |h| && AfterRounds(x, tl, h, stored, n)
    ensures tl > 0 && |x.buf| == 4 * tl && |h[n].bytes| >= HEADER
    ensures AfterRounds(Round(x, h[n]).0, tl, h, StoredAfter(x, h, stored, n), n + 1)
    ensures Round(x, h[n]).1 == [Payload(h, n)]
  {
    hide Align32, Aligned, Wrap32, IsPowerOfTwo, HistoryOk, Holds, PartitionIndex, Fed, StreamOk, OnData, Poll,
         W.TermCount, StoredAfter;
    ArriveFull(x, tl, h, stored, n);
    var x1, stored1 := OnData(x, WireOf(x, h[n]), 0, 0, false), StoredAfter(x, h, stored, n);
    TermRange(n * tl, n, tl);
    DivModUnique(n * tl, n, 0, tl);
    var picked := PollFed(x1, h, stored1, 1);
    var x2 := Poll(x1, 1).0;
    W.PollOnlyMovesSubscriber(x1, 1);
    SameTermCount(x1, x2);
    FedReaderAt(x2, h, stored1, n);
    FillsAlone(tl, h, n);
    OnlyOne(h, stored1, picked, n, n * tl, n * tl + tl, x2.subscriberPosition);
    assert (n + 1) * tl == n * tl + tl;
  }

  lemma FedReaderAt(x: Image, h: seq<Rec>, stored: set<nat>, n: nat)
    requires Fed(x, h, stored) && n < |h|
    ensures 0 <= x.subscriberPosition <= x.receiverPosition
    ensures x.subscriberPosition <= h[n].pos || End(h[n]) <= x.subscriberPosition
  {
    hide Align32, Wrap32, IsPowerOfTwo, HistoryOk, Holds;
  }

  /** Frame `n` is the only one that starts in `[start, end)`. */
  ghost predicate Alone(h: seq<Rec>, n: nat, start: nat, end: nat) {
    && n < |h| && h[n].pos == start < end
    && forall j :: 0 <= j < |h| && start <= h[j].pos < end ==> j == n
  }

  lemma FillsAlone(tl: nat, h: seq<Rec>, n: nat)
    requires FillsTerms(tl, h) && n < |h|
    ensures Alone(h, n, n * tl, n * tl + tl)
  {
    hide StreamOk, End;
    StreamParts(tl, h);
    forall j | 0 <= j < |h| && n * tl <= h[j].pos < n * tl + tl ensures j == n {
      TermIndex(j, n, tl);
    }
  }

  /** One term, one frame: a poll of that term picks it. */
  lemma OnlyOne(h: seq<Rec>, stored: set<nat>, picked: seq<nat>, n: nat, start: nat, end: nat, to: nat)
    requires Alone(h, n, start, end) && n in stored && Picks(h, stored, picked, start, to)
    requires start <= to <= end && (to <= start || end <= to) && (|picked| == 1 || to == end)
    ensures to == end && picked == [n] && Payloads(h, picked) == [Payload(h, n)]
  {
    hide Payload;
    forall a | 0 <= a < |picked| ensures picked[a] == n {
    }
    assert |picked| > 0 ==> h[picked[0]].pos < to;
    assert to == end;
    assert n in picked;
    FirstTwo(picked);
  }

  lemma TermIndex(j: nat, n: nat, tl: nat)
    requires n * tl <= j * tl < n * tl + tl
    ensures j == n
  {
    MulStep(j, n, tl);
    MulStep(n, j, tl);
  }

  lemma FirstTwo(s: seq<nat>)
    requires Increasing(s)
    ensures |s| > 1 ==> s[0] < s[1]
  {
  }

  /** Frames `0 .. n` each arrive and are polled at once. */
  ghost predicate IsRounds(tl: nat, h: seq<Rec>, xs: seq<Image>) {
    && |xs| == |h| + 1 && tl > 0
    && W.SetupOk(0, 0, tl, 0) && xs[0] == NewImage(0, 0, tl, 0)
    && forall n :: 0 <= n < |h| ==> Rounded(tl, xs[n], h[n], xs[n + 1])
  }

  ghost predicate Rounded(tl: nat, x: Image, r: Rec, x': Image) {
    x.termLength == tl && tl > 0 && |x.buf| == 4 * tl && |r.bytes| >= HEADER && x' == Round(x, r).0
  }

  lemma {:induction false} RoundsKeep(tl: nat, h: seq<Rec>, xs: seq<Image>, n: nat) returns (stored: set<nat>)
    requires FillsTerms(tl, h) && IsRounds(tl, h, xs) && n <= |h|
    ensures AfterRounds(xs[n], tl, h, stored, n)
  {
    hide AfterRounds, FillsTerms, W.SetupOk, Round;
    if n == 0 {
      stored := {};
      FreshRounds(tl, h);
    } else {
      stored := RoundsKeep(tl, h, xs, n - 1);
      assert Rounded(tl, xs[n - 1], h[n - 1], xs[n - 1 + 1]);
      RoundKeeps(xs[n - 1], tl, h, stored, n - 1);
      stored := StoredAfter(xs[n - 1], h, stored, n - 1);
    }
  }

  lemma FreshRounds(tl: nat, h: seq<Rec>)
    requires FillsTerms(tl, h) && W.SetupOk(0, 0, tl, 0)
    ensures AfterRounds(NewImage(0, 0, tl, 0), tl, h, {}, 0)
  {
    hide Align32, HistoryOk, Holds, IsPowerOfTwo;
    AlignedZero();
    FreshFed(h, 0, 0, tl, 0);
  }

  /**
   With no loss at all, one poll after `n >= 4` exactly filled terms delivers frame `n - 4` again.
   */
  lemma RedeliversAtBoundary(tl: nat, h: seq<Rec>, xs: seq<Image>, limit: int)
    requires FillsTerms(tl, h) && IsRounds(tl, h, xs) && 4 <= |h| < TWO31 && limit > 0
    ensures var x := xs[|h|];
            && x.termLength > 0 && |x.buf| == 4 * x.termLength
            && |Poll(x, limit).1| > 0 && Poll(x, limit).1[0] == Payload(h, |h| - 4)
            && Poll(x, limit).0.subscriberPosition > x.receiverPosition
  {
    hide Align32, HistoryOk, Holds, IsPowerOfTwo, Poll, Fed, AfterRounds, FillsTerms, StaleHead, AtBoundary, Payload;
    var n := |h|;
    var stored := RoundsKeep(tl, h, xs, n);
    RoundsEnd(xs[n], tl, h, stored, n);
    var i := StaleHeadPoll(xs[n], h, stored, limit);
    SamePlace(tl, h, i, n);
  }

  lemma RoundsEnd(x: Image, tl: nat, h: seq<Rec>, stored: set<nat>, n: nat)
    requires AfterRounds(x, tl, h, stored, n) && FillsTerms(tl, h) && 4 <= n <= |h| && n < TWO31
    ensures Fed(x, h, stored) && AtBoundary(x) && StaleHead(x, h, stored)
    ensures x.termLength == tl && x.subscriberPosition == n * tl
  {
    hide Align32, HistoryOk, Fed;
    var j: nat := n - 4;
    assert j in stored && h[j].pos == j * tl;
  }

  lemma SamePlace(tl: nat, h: seq<Rec>, i: nat, n: nat)
    requires FillsTerms(tl, h) && i < |h| && 4 <= n && h[i].pos == n * tl - 4 * tl
    ensures i == n - 4
  {
    hide Align32, HistoryOk;
    assert n * tl - 4 * tl == (n - 4) * tl;
    MulStep(i, n - 4, tl);
    MulStep(n - 4, i, tl);
  }

  // ---- A concrete stream ----

  function FullFrame(tl: nat, i: nat): (r: Rec)
    requires tl >= HEADER
  {
    Rec(i * tl, tl, DataFrame(0, 1, 1, i, Zeros(tl - HEADER)), true)
  }

  /** `n` frames that fill a term each, starting at term id 0. */
  function FullStream(tl: nat, n: nat): seq<Rec>
    requires tl >= HEADER
  {
    seq(n, i requires 0 <= i < n => FullFrame(tl, i))
  }

  lemma FullFrameOk(tl: nat, i: nat)
    requires HEADER <= tl <= 0x1_0000 && Aligned(tl)
    ensures RecOk(tl, FullFrame(tl, i)) && FullFrame(tl, i).pos == i * tl && End(FullFrame(tl, i)) == i * tl + tl
  {
    hide HeaderBytes, DecodeI32, DecodeU16, Aligned, Align32;
    DivModUnique(i * tl, i, 0, tl);
    HeaderFields(tl, FLAGS_UNFRAGMENTED, TYPE_DATA, 0, 1, 1, i, Zeros(tl - HEADER));
  }

  lemma {:induction false} FullStreamContiguous(tl: nat, n: nat)
    requires HEADER <= tl <= 0x1_0000 && Aligned(tl)
    ensures Contiguous(FullStream(tl, n)) && NextPos(FullStream(tl, n)) == n * tl
  {
    hide Align32, FullFrame, Aligned, RecOk;
    if n > 0 {
      FullStreamContiguous(tl, n - 1);
      FullFrameOk(tl, n - 1);
      assert FullStream(tl, n)[..n - 1] == FullStream(tl, n - 1);
      TermBases(n - 1, tl);
    }
  }

  lemma FullStreamFills(tl: nat, n: nat)
    requires HEADER <= tl <= 0x1_0000 && Aligned(tl) && n < TWO31
    ensures FillsTerms(tl, FullStream(tl, n))
  {
    hide Align32, DataFrame, Aligned, RecOk, Contiguous, NextPos;
    FullStreamContiguous(tl, n);
    MulStep(n, TWO31, tl);
    forall i | 0 <= i < n ensures RecOk(tl, FullFrame(tl, i)) && End(FullFrame(tl, i)) == i * tl + tl {
      FullFrameOk(tl, i);
    }
  }

  /** The image after the first `n` frames arrived and were polled. */
  function RoundsOf(tl: nat, n: nat): (x: Image)
    requires tl >= HEADER
    ensures x.termLength == tl && |x.buf| == 4 * tl
  {
    if n == 0 then NewImage(0, 0, tl, 0)
    else
      FullFrameLong(tl, n - 1);
      Round(RoundsOf(tl, n - 1), FullFrame(tl, n - 1)).0
  }

  lemma FullFrameLong(tl: nat, i: nat)
    requires tl >= HEADER
    ensures |FullFrame(tl, i).bytes| >= HEADER
  {
  }

  /**
   No loss, no reordering: four header-only frames in terms of 32 bytes, and the fifth poll delivers
   the first again.
   */
  lemma RedeliveryExample()
    ensures var x := RoundsOf(32, 4);
            && x.subscriberPosition == x.receiverPosition == 128
            && |Poll(x, 1).1| > 0 && Poll(x, 1).1[0] == Payload(FullStream(32, 4), 0)
            && Poll(x, 1).0.subscriberPosition > x.receiverPosition
  {
    hide RoundsOf, Round, Poll, FullStream, Payload, FillsTerms, AfterRounds, IsRounds, Fed, AtBoundary, StaleHead;
    var h, xs := FullStream(32, 4), seq(5, n requires 0 <= n < 5 => RoundsOf(32, n));
    assert Aligned(32);
    FullStreamFills(32, 4);
    RoundsOfSteps(32, 4, xs);
    RedeliversAtBoundary(32, h, xs, 1);
    var stored := RoundsKeep(32, h, xs, 4);
    RoundsEnd(xs[4], 32, h, stored, 4);
    BoundaryFacts(xs[4], h, stored);
  }

  lemma RoundsOfSteps(tl: nat, n: nat, xs: seq<Image>)
    requires HEADER <= tl && W.SetupOk(0, 0, tl, 0) && |xs| == n + 1
    requires forall i :: 0 <= i <= n ==> xs[i] == RoundsOf(tl, i)
    ensures |FullStream(tl, n)| == n && IsRounds(tl, FullStream(tl, n), xs)
  {
    hide Round, W.SetupOk;
    forall i | 0 <= i < n ensures Rounded(tl, xs[i], FullStream(tl, n)[i], xs[i + 1]) {
      FullFrameLong(tl, i);
      assert RoundsOf(tl, i + 1) == Round(RoundsOf(tl, i), FullFrame(tl, i)).0;
    }
  }
}
