/**
 Whole runs of an image fed by one sender: whatever the network loses, duplicates or reorders, the
 fragments delivered are a subsequence of those sent, in order and unchanged.
 */
module ImageDelivery {
  import opened Arith
  import opened Bytes
  import opened TermLog
  import opened PublicationHistory
  import opened PublicationScan
  import opened Image
  import opened ImageStream
  import opened ImagePoll
  import W = ImageWindow

  /** The receiver position is the end of the newest frame, which the active term holds. */
  ghost predicate Frontier(x: Image, h: seq<Rec>, stored: set<nat>) {
    && W.TermCount(x) * x.termLength <= x.receiverPosition
    && (forall j :: j in stored && j < |h| ==> End(h[j]) <= x.receiverPosition)
    && (x.subscriberPosition == x.receiverPosition || NewestStored(x, h, stored))
  }

  ghost predicate NewestStored(x: Image, h: seq<Rec>, stored: set<nat>) {
    exists top :: top in stored && top < |h| && End(h[top]) == x.receiverPosition
                  && W.TermCount(x) * x.termLength <= h[top].pos
  }

  ghost predicate ReaderOk(x: Image, h: seq<Rec>) {
    && 0 <= x.subscriberPosition <= x.receiverPosition
    && Aligned(x.subscriberPosition) && NotInside(h, x.subscriberPosition)
  }

  /** Image `x` has been fed frames of stream `h` and at present holds those in `stored`. */
  ghost predicate Fed(x: Image, h: seq<Rec>, stored: set<nat>) {
    && W.CursorsAgree(x) && StreamOk(x.termLength, h)
    && Holds(x.buf, W.TermCount(x), x.termLength, h, stored)
    && Frontier(x, h, stored)
    && ReaderOk(x, h)
  }

  // ---- Arrivals ----

  /** The frame is behind the window, or too far ahead to be recognised as ahead. */
  predicate Refused(x: Image, pos: nat)
    requires x.termLength > 0
  {
    var ahead := pos / x.termLength - W.TermCount(x);
    ahead < -3 || ahead >= HALF_I32
  }

  ghost function StoredAfter(x: Image, h: seq<Rec>, stored: set<nat>, i: nat): set<nat>
    requires x.termLength > 0 && i < |h|
  {
    var t, k := h[i].pos / x.termLength, W.TermCount(x);
    if Refused(x, h[i].pos) then stored
    else if t > k then Kept(h, stored, (t - 3) * x.termLength) + {i}
    else stored + {i}
  }

  /** Accepting a frame of the window. */
  lemma AcceptFed(x: Image, h: seq<Rec>, stored: set<nat>, i: nat, sendSm: bool)
    requires W.CursorsAgree(x) && StreamOk(x.termLength, h) && Holds(x.buf, W.TermCount(x), x.termLength, h, stored)
    requires IsData(h, i) && W.TermCount(x) - 3 <= h[i].pos / x.termLength <= W.TermCount(x)
    requires ReaderOk(x, h)
    requires forall j :: j in stored && j < |h| ==> End(h[j]) <= x.receiverPosition
    requires Frontier(x, h, stored) || (x.receiverPosition <= h[i].pos && h[i].pos / x.termLength == W.TermCount(x))
    ensures |h[i].bytes| >= HEADER && WireOk(WireOf(x, h[i])) && !TermFull(x, WireOf(x, h[i]))
    ensures !Stale(x, WireOf(x, h[i]))
    ensures Fed(Accept(x, WireOf(x, h[i]), sendSm), h, stored + {i})
  {
    hide Align32, Aligned, Wrap32, IsPowerOfTwo, HistoryOk, PartitionIndex, Splice, CommittedBytes, Raise,
         RaisePosition, Holds, NotInside, InTerms, ComputePosition, NewOffset, W.CursorsAgree, StreamOk, ReaderOk,
         Frontier, Stale, TermFull, W.TermCount, W.TermsLeft, TermAhead;
    W.CursorsParts(x);
    WireFacts(x, h, i);
    var f := WireOf(x, h[i]);
    InWindowNotStale(x, f);
    var x' := Accept(x, f, sendSm);
    SameTermCount(x, x');
    TermRange(h[i].pos, W.TermCount(x), x.termLength);
    WriteHolds(x.buf, W.TermCount(x), x.termLength, h, stored, i);
    W.AcceptCursors(x, f, sendSm);
    W.AcceptPosition(x, f);
    ReaderStays(x, x', h);
    AcceptFrontier(x, x', h, stored, i);
  }

  lemma InWindowNotStale(x: Image, f: Wire)
    requires 0 <= Wrap32(x.activeTermId - f.termId) <= 3
    ensures !Stale(x, f)
  {
    hide Wrap32;
  }

  lemma ReaderStays(x: Image, x': Image, h: seq<Rec>)
    requires ReaderOk(x, h) && x'.subscriberPosition == x.subscriberPosition
    requires x.receiverPosition <= x'.receiverPosition
    ensures ReaderOk(x', h)
  {
  }

  lemma AcceptFrontier(x: Image, x': Image, h: seq<Rec>, stored: set<nat>, i: nat)
    requires StreamOk(x.termLength, h) && i < |h| && h[i].pos / x.termLength <= W.TermCount(x)
    requires x'.activeTermId == x.activeTermId && x'.initialTermId == x.initialTermId && x'.termLength == x.termLength
    requires x'.subscriberPosition == x.subscriberPosition
    requires x'.receiverPosition == if x.receiverPosition < End(h[i]) then End(h[i]) else x.receiverPosition
    requires forall j :: j in stored && j < |h| ==> End(h[j]) <= x.receiverPosition
    requires Frontier(x, h, stored) || (x.receiverPosition <= h[i].pos && h[i].pos / x.termLength == W.TermCount(x))
    ensures Frontier(x', h, stored + {i})
  {
    hide Align32, Aligned, HistoryOk, W.TermCount, RecOk;
    var tl, k := x.termLength, W.TermCount(x);
    assert W.TermCount(x') == k by { SameTermCount(x, x'); }
    var t, off, origin := FramePlace(tl, h, i);
    StoredNonempty(tl, h, i);
    MulStep(t, k, tl);
    assert i in stored + {i};
    if x.receiverPosition >= End(h[i]) && x.subscriberPosition != x.receiverPosition {
      var top :| top in stored && top < |h| && End(h[top]) == x.receiverPosition && k * tl <= h[top].pos;
      assert top in stored + {i};
    }
  }

  lemma SameTermCount(x: Image, x': Image)
    requires x'.activeTermId == x.activeTermId && x'.initialTermId == x.initialTermId
    ensures W.TermCount(x') == W.TermCount(x)
  {
  }

  /** A frame ahead of the window moves the window first. */
  lemma AdvanceFed(x: Image, h: seq<Rec>, stored: set<nat>, i: nat, sendSm: bool)
    requires Fed(x, h, stored) && IsData(h, i) && |h[i].bytes| >= HEADER && Advances(x, WireOf(x, h[i]))
    requires 0 < h[i].pos / x.termLength - W.TermCount(x) < HALF_I32
    requires TermAhead(x, WireOf(x, h[i])) == h[i].pos / x.termLength - W.TermCount(x)
    requires W.TermsLeft(x, WireOf(x, h[i]))
    requires WireOk(WireOf(x, h[i]))
    ensures var f, x1, t := WireOf(x, h[i]), Advance(x, WireOf(x, h[i])), h[i].pos / x.termLength;
            && WireOf(x1, h[i]) == f && !TermFull(x1, f) && !Stale(x1, f)
            && Fed(Accept(x1, f, sendSm), h, Kept(h, stored, (t - 3) * x.termLength) + {i})
  {
    hide Align32, Aligned, Wrap32, IsPowerOfTwo, HistoryOk, PartitionIndex, Holds, NotInside, InTerms, W.CursorsAgree,
         W.TermCount, CleanAhead, Kept, Accept, TermAhead, StreamOk;
    W.CursorsParts(x);
    var f := WireOf(x, h[i]);
    var tl, k, t, x1 := x.termLength, W.TermCount(x), h[i].pos / x.termLength, Advance(x, f);
    W.AdvanceCursors(x, f);
    AdvanceHolds(x, h, stored, t - k);
    StepsFor(x, f);
    MulStep(k + 1, t, tl);
    BehindFrame(x, h, i);
    AcceptFed(x1, h, Kept(h, stored, (t - 3) * tl), i, sendSm);
  }

  lemma StepsFor(x: Image, f: Wire)
    requires Advances(x, f)
    ensures CleanSteps(x, f) == if TermAhead(x, f) < 4 then TermAhead(x, f) else 4
  {
  }

  /** All positions so far lie before a frame of a later term. */
  lemma BehindFrame(x: Image, h: seq<Rec>, i: nat)
    requires W.CursorsAgree(x) && StreamOk(x.termLength, h) && i < |h| && h[i].pos / x.termLength > W.TermCount(x)
    ensures x.receiverPosition <= h[i].pos
  {
    hide Align32, Aligned, HistoryOk, RecOk, Wrap32, IsPowerOfTwo;
    var t, off, origin := FramePlace(x.termLength, h, i);
    MulStep(W.TermCount(x), t, x.termLength);
  }

  /** An arriving frame of the stream is stored or refused; the image stays fed. */
  lemma ArriveFed(x: Image, h: seq<Rec>, stored: set<nat>, i: nat, now: int, nakDelay: int, sendSm: bool)
    requires Fed(x, h, stored) && IsData(h, i)
    ensures x.termLength > 0 && |x.buf| == 4 * x.termLength && |h[i].bytes| >= HEADER
    ensures Fed(OnData(x, WireOf(x, h[i]), now, nakDelay, sendSm), h, StoredAfter(x, h, stored, i))
  {
    hide Align32, Aligned, Wrap32, IsPowerOfTwo, HistoryOk, PartitionIndex, Splice, Holds, NotInside, InTerms,
         ComputePosition, NewOffset, W.CursorsAgree, W.TermCount, Accept, Kept, Frontier, ReaderOk, StreamOk,
         CommittedBytes, NakDue, CleanAhead, OnData, Stale, TermFull, W.TermsLeft;
    W.CursorsParts(x);
    WireFacts(x, h, i);
    var f, t, k := WireOf(x, h[i]), h[i].pos / x.termLength, W.TermCount(x);
    OnDataStages(x, f, now, nakDelay, sendSm);
    var x2;
    if 0 < t - k < HALF_I32 {
      AdvanceFed(x, h, stored, i, sendSm);
      x2 := Accept(Advance(x, f), f, sendSm);
    } else {
      StaysPut(x, f);
      if k - t < 0 || k - t > 3 {
        RefusedIsStale(x, f, k - t);
        x2 := x;
      } else {
        FrontierEnds(x, h, stored);
        AcceptFed(x, h, stored, i, sendSm);
        x2 := Accept(x, f, sendSm);
      }
    }
    FedStamp(x2, OnData(x, f, now, nakDelay, sendSm), h, StoredAfter(x, h, stored, i));
  }

  lemma FrontierEnds(x: Image, h: seq<Rec>, stored: set<nat>)
    requires Frontier(x, h, stored)
    ensures forall j :: j in stored && j < |h| ==> End(h[j]) <= x.receiverPosition
  {
  }

  lemma OnDataStages(x: Image, f: Wire, now: int, nakDelay: int, sendSm: bool)
    requires |x.buf| == 4 * x.termLength && |f.header| == HEADER
    ensures var x1, x' := Advance(x, f), OnData(x, f, now, nakDelay, sendSm);
            var x2 := if Stale(x1, f) || TermFull(x1, f) then x1 else Accept(x1, f, sendSm);
            x' == x2.(timeOfLastNak := x'.timeOfLastNak)
  {
  }

  lemma StaysPut(x: Image, f: Wire)
    requires |x.buf| == 4 * x.termLength && !(0 < TermAhead(x, f) < HALF_I32)
    ensures Advance(x, f) == x
  {
  }

  lemma RefusedIsStale(x: Image, f: Wire, behind: int)
    requires Wrap32(x.activeTermId - f.termId) == behind && (behind < 0 || behind > 3)
    ensures Stale(x, f)
  {
    hide Wrap32;
  }

  lemma FedStamp(x: Image, x': Image, h: seq<Rec>, stored: set<nat>)
    requires Fed(x, h, stored)
    requires x' == x.(timeOfLastNak := x'.timeOfLastNak, timeOfLastSm := x'.timeOfLastSm, smPending := x'.smPending)
    ensures Fed(x', h, stored)
  {
    hide Align32, Aligned, Wrap32, IsPowerOfTwo, HistoryOk, Holds, NotInside;
  }

  // ---- Polls ----

  /** The subscriber's term is in the window. */
  ghost predicate InReach(x: Image) {
    InTerms(W.TermCount(x), x.termLength, if x.subscriberPosition < 0 then 0 else x.subscriberPosition)
  }

  /** The subscriber stands at the end of the active term. */
  ghost predicate AtBoundary(x: Image) {
    && 0 <= W.TermCount(x) < TWO31 - 1
    && x.subscriberPosition == (W.TermCount(x) + 1) * x.termLength
  }

  /** The length word at the head of the partition the subscriber is about to read. */
  function HeadWord(x: Image): int
    requires x.termLength > 0
  {
    LengthWord(x.buf, PartitionIndex(TermIdOf(x.subscriberPosition, x.initialTermId, x.termLength), x.initialTermId)
                      * x.termLength)
  }

  /** A poll finds the subscriber's term in the window, or stands at its end and finds no length there. */
  ghost predicate PollOk(x: Image) {
    InReach(x) || (AtBoundary(x) && x.termLength > 0 && HeadWord(x) <= 0)
  }

  lemma BoundaryFacts(x: Image, h: seq<Rec>, stored: set<nat>)
    requires Fed(x, h, stored) && AtBoundary(x)
    ensures x.termLength > 0 && |x.buf| == 4 * x.termLength
    ensures x.receiverPosition == x.subscriberPosition
    ensures TermOffsetOf(x.subscriberPosition, x.termLength) == 0
    ensures PartitionIndex(TermIdOf(x.subscriberPosition, x.initialTermId, x.termLength), x.initialTermId)
         == (W.TermCount(x) + 1) % 4
  {
    hide Align32, Aligned, Wrap32, IsPowerOfTwo, HistoryOk, Holds, NotInside, PartitionIndex;
    var s, tl, k := x.subscriberPosition, x.termLength, W.TermCount(x);
    assert (k + 1) * tl == k * tl + tl;
    DivModUnique(s, k + 1, 0, tl);
    MulStep(k + 1, TWO31, tl);
    PositionRoundTrip(s, x.initialTermId, tl);
  }

  /** At the end of the active term, with no length behind it, a poll does nothing. */
  lemma IdlePoll(x: Image, h: seq<Rec>, stored: set<nat>, limit: int)
    requires Fed(x, h, stored) && AtBoundary(x)
    ensures x.termLength > 0 && |x.buf| == 4 * x.termLength && x.receiverPosition == x.subscriberPosition
    ensures HeadWord(x) <= 0 ==> Poll(x, limit) == (x, [])
  {
    hide Wrap32, PartitionIndex, Fed, TermIdOf, TermOffsetOf, W.TermCount, LengthWord, AtBoundary;
    BoundaryFacts(x, h, stored);
    PartitionFits((W.TermCount(x) + 1) % 4, x.termLength);
    LongEnough(x, h, stored);
    assert x.(subscriberPosition := x.subscriberPosition + 0) == x;
  }

  lemma LongEnough(x: Image, h: seq<Rec>, stored: set<nat>)
    requires Fed(x, h, stored)
    ensures x.termLength >= HEADER
  {
  }

  lemma ReachFromFrontier(x: Image, h: seq<Rec>, stored: set<nat>, t: nat, origin: nat, base: nat)
    requires Frontier(x, h, stored) && 0 <= x.subscriberPosition <= x.receiverPosition
    requires TermAt(t, origin, base, x.termLength) && t <= W.TermCount(x)
    ensures Reach(h, stored, x.receiverPosition, x.subscriberPosition, origin, x.termLength)
  {
    hide Align32, Wrap32;
    var k, tl := W.TermCount(x), x.termLength;
    MulStep(t, k, tl);
    if x.subscriberPosition != x.receiverPosition {
      var top :| top in stored && top < |h| && End(h[top]) == x.receiverPosition && k * tl <= h[top].pos;
    }
  }

  /** First position of the next term. */
  function TermEnd(s: int, tl: nat): int
    requires tl > 0
  {
    s - s % tl + tl
  }

  lemma PollInReach(x: Image, h: seq<Rec>, stored: set<nat>, limit: int) returns (picked: seq<nat>)
    requires Fed(x, h, stored) && InReach(x)
    ensures x.termLength > 0 && |x.buf| == 4 * x.termLength
    ensures var (x', delivered) := Poll(x, limit);
            && Fed(x', h, stored)
            && 0 <= x.subscriberPosition <= x'.subscriberPosition
            && Picks(h, stored, picked, x.subscriberPosition, x'.subscriberPosition)
            && delivered == Payloads(h, picked)
            && x'.subscriberPosition <= TermEnd(x.subscriberPosition, x.termLength)
            && (limit <= 0 ==> picked == [] && x' == x)
            && (limit > 0 ==> |picked| <= limit
                              && (|picked| == limit || x'.subscriberPosition == x.receiverPosition
                                  || x'.subscriberPosition == TermEnd(x.subscriberPosition, x.termLength)))
  {
    hide Align32, Aligned, Wrap32, IsPowerOfTwo, HistoryOk, Holds, NotInside, InTerms, W.CursorsAgree, W.TermCount,
         Frontier, StreamOk, PollFrom, Picks, Payloads, Reach, PartitionIndex, TermIdOf, TermAt;
    W.CursorsParts(x);
    var s, tl, k := x.subscriberPosition, x.termLength, W.TermCount(x);
    picked := [];
    if limit <= 0 {
      PicksNothing(h, stored, s);
    } else {
      var t, off, origin := SplitPosition(s, tl);
      TermRange(s, k, tl);
      SubscriberTerm(x, t);
      StreamParts(tl, h);
      AlignedOffset(t, tl, s);
      MakeTermAt(t, origin, tl);
      ReachFromFrontier(x, h, stored, t, origin, t % 4 * tl);
      PartitionFits(t % 4, tl);
      picked := PollWalks(x.buf, k, tl, h, stored, t, origin, t % 4 * tl, off, 0, limit,
                          x.receiverPosition, x.receiverPosition - s);
      AlignedMultiple(t, tl);
      var r := PollFrom(x.buf, t % 4 * tl, tl, off, 0, limit, x.receiverPosition - s);
      AlignedSum(origin, off + r.scanned);
      FedReader(x, Poll(x, limit).0, h, stored);
    }
  }

  /**
   A poll delivers, in stream order and unchanged, exactly the stored frames between the old and the
   new subscriber position.  It delivers at most `limit` of them, and stops with fewer only at the end
   of the term or at the receiver position, which it does not pass.
   */
  lemma PollFed(x: Image, h: seq<Rec>, stored: set<nat>, limit: int) returns (picked: seq<nat>)
    requires Fed(x, h, stored) && PollOk(x)
    ensures x.termLength > 0 && |x.buf| == 4 * x.termLength
    ensures var (x', delivered) := Poll(x, limit);
            && Fed(x', h, stored)
            && 0 <= x.subscriberPosition <= x'.subscriberPosition
            && Picks(h, stored, picked, x.subscriberPosition, x'.subscriberPosition)
            && delivered == Payloads(h, picked)
            && x'.subscriberPosition <= TermEnd(x.subscriberPosition, x.termLength)
            && (limit <= 0 ==> picked == [] && x' == x)
            && (limit > 0 ==> |picked| <= limit
                              && (|picked| == limit || x'.subscriberPosition == x.receiverPosition
                                  || x'.subscriberPosition == TermEnd(x.subscriberPosition, x.termLength)))
            && (x'.subscriberPosition == x.subscriberPosition || InReach(x))
  {
    hide Fed, Poll, Picks, Payloads, InReach, AtBoundary, HeadWord;
    if InReach(x) {
      picked := PollInReach(x, h, stored, limit);
    } else {
      picked := [];
      IdlePoll(x, h, stored, limit);
      ReaderBound(x, h, stored);
      PicksNothing(h, stored, x.subscriberPosition);
    }
  }

  lemma MakeTermAt(t: nat, origin: nat, tl: nat)
    requires tl > 0 && origin == t * tl
    ensures TermAt(t, origin, t % 4 * tl, tl)
  {
  }

  /** The partition a poll reads. */
  lemma SubscriberTerm(x: Image, t: nat)
    requires W.CursorsAgree(x) && x.subscriberPosition >= 0 && t == x.subscriberPosition / x.termLength
    requires t <= W.TermCount(x)
    ensures PartitionIndex(TermIdOf(x.subscriberPosition, x.initialTermId, x.termLength), x.initialTermId) == t % 4
  {
    hide IsPowerOfTwo, Wrap32;
    MulStep(TWO31, t, x.termLength);
    MulStep(t, TWO31, x.termLength);
    PositionRoundTrip(x.subscriberPosition, x.initialTermId, x.termLength);
  }

  lemma FedReader(x: Image, x': Image, h: seq<Rec>, stored: set<nat>)
    requires Fed(x, h, stored)
    requires x' == x.(subscriberPosition := x'.subscriberPosition)
    requires x.subscriberPosition <= x'.subscriberPosition <= x.receiverPosition
    requires Aligned(x'.subscriberPosition) && NotInside(h, x'.subscriberPosition)
    ensures Fed(x', h, stored)
  {
    hide Align32, Aligned, Wrap32, IsPowerOfTwo, HistoryOk, Holds, NotInside;
    if x'.subscriberPosition != x'.receiverPosition {
      var top :| top in stored && top < |h| && End(h[top]) == x.receiverPosition
                 && W.TermCount(x) * x.termLength <= h[top].pos;
      assert End(h[top]) == x'.receiverPosition;
    }
  }

  /** A data frame the poll passed over had no committed length. */
  lemma PassedUncommitted(x: Image, h: seq<Rec>, stored: set<nat>, picked: seq<nat>, from: nat, to: nat, j: nat)
    requires Fed(x, h, stored) && Picks(h, stored, picked, from, to) && IsData(h, j) && from <= h[j].pos < to
    requires InTerms(W.TermCount(x), x.termLength, h[j].pos) && j !in picked
    ensures Shows(x.buf, h[j].pos, BLANK)
  {
    hide Align32, Aligned, Wrap32, IsPowerOfTwo, RecOk, Contiguous, Shows, InTerms, W.CursorsAgree, Frontier, Holds;
    var t, off, origin := FramePlace(x.termLength, h, j);
    if Covered(h, stored, h[j].pos) {
      var i :| i in stored && i < |h| && h[i].pos <= h[j].pos < End(h[i]);
      BoundaryNotInside(x.termLength, h, j);
      if i < j {
        PositionsOrdered(h, i, j);
      } else if j < i {
        PositionsOrdered(h, j, i);
        StoredNonempty(x.termLength, h, j);
      }
    }
    HoldsBlank(x.buf, W.TermCount(x), x.termLength, h, stored, h[j].pos);
  }

  // ---- Runs ----

  datatype Op =
    | Arrive(i: nat, now: int) // frame `i` of the stream reaches the image, perhaps late or again
    | PollOp(limit: int)
    | SmOp(now: int)

  datatype World = World(image: Image, delivered: seq<seq<Byte>>)

  function Step(c: W.Settings, h: seq<Rec>, w: World, op: Op): World
    requires w.image.termLength > 0 && |w.image.buf| == 4 * w.image.termLength
    requires op.Arrive? ==> op.i < |h| && |h[op.i].bytes| >= HEADER
  {
    var x := w.image;
    match op
    case Arrive(i, now) => w.(image := OnData(x, WireOf(x, h[i]), now, c.nakDelay, c.sendSmOnData))
    case PollOp(limit) => World(Poll(x, limit).0, w.delivered + Poll(x, limit).1)
    case SmOp(now) => if SmDue(x, now, c.smInterval) then w.(image := AfterSm(x, now)) else w
  }

  /** Data frames arrive; a poll reads a term of the window, or nothing at its end. */
  ghost predicate OpOk(h: seq<Rec>, w: World, op: Op) {
    && (op.Arrive? ==> IsData(h, op.i))
    && (op.PollOp? ==> PollOk(w.image))
  }

  /** The fragments delivered so far are the frames `picked`, all of them before the subscriber's position. */
  ghost predicate Delivered(h: seq<Rec>, w: World, picked: seq<nat>) {
    && Increasing(picked)
    && (forall a :: 0 <= a < |picked| ==> IsData(h, picked[a]) && h[picked[a]].pos < w.image.subscriberPosition)
    && w.delivered == Payloads(h, picked)
  }

  /**
   What poll `w` to `w'` owes: each data frame between the old and the new position is among the frames
   it delivered, or had no committed length; it delivers no more than the limit, and stops for no other
   reason than the limit, the receiver position or the end of the term.
   */
  ghost predicate PollAccounts(h: seq<Rec>, w: World, w': World, limit: int, picked: seq<nat>) {
    && |w.delivered| <= |w'.delivered| <= |picked| && w.image.termLength > 0
    && 0 <= w.image.subscriberPosition <= w'.image.subscriberPosition <= w.image.receiverPosition
    && (forall j: nat :: IsData(h, j) && w.image.subscriberPosition <= h[j].pos < w'.image.subscriberPosition ==>
          j in picked[|w.delivered|..|w'.delivered|] || Shows(w.image.buf, h[j].pos, BLANK))
    && (limit <= 0 ==> w' == w)
    && (limit > 0 ==>
          && |w'.delivered| - |w.delivered| <= limit
          && (|w'.delivered| - |w.delivered| == limit
              || w'.image.subscriberPosition == w.image.receiverPosition
              || w'.image.subscriberPosition == TermEnd(w.image.subscriberPosition, w.image.termLength)))
  }

  lemma PassedOver(x: Image, h: seq<Rec>, stored: set<nat>, picked: seq<nat>, to: nat, j: nat)
    requires Fed(x, h, stored) && InReach(x) && x.termLength > 0
    requires 0 <= x.subscriberPosition <= to <= TermEnd(x.subscriberPosition, x.termLength)
    requires Picks(h, stored, picked, x.subscriberPosition, to)
    requires IsData(h, j) && x.subscriberPosition <= h[j].pos < to && j !in picked
    ensures Shows(x.buf, h[j].pos, BLANK)
  {
    hide Fed, Picks, Shows, InTerms, W.TermCount;
    var s, tl, k := x.subscriberPosition, x.termLength, W.TermCount(x);
    var t, off, origin := SplitPosition(s, tl);
    DivModUnique(h[j].pos, t, h[j].pos - origin, tl);
    TermRange(s, k, tl);
    TermRange(h[j].pos, k, tl);
    PassedUncommitted(x, h, stored, picked, s, to, j);
  }

  lemma PollAccountsLater(h: seq<Rec>, w: World, w': World, limit: int, picked: seq<nat>, more: seq<nat>)
    requires PollAccounts(h, w, w', limit, picked)
    ensures PollAccounts(h, w, w', limit, picked + more)
  {
    hide Shows;
    assert (picked + more)[|w.delivered|..|w'.delivered|] == picked[|w.delivered|..|w'.delivered|];
  }

  lemma PayloadsConcat(h: seq<Rec>, a: seq<nat>, b: seq<nat>)
    ensures Payloads(h, a + b) == Payloads(h, a) + Payloads(h, b)
  {
  }

  lemma DeliveredPoll(tl: nat, h: seq<Rec>, w: World, w': World, stored: set<nat>, before: seq<nat>, now: seq<nat>)
    requires HistoryOk(tl, h) && Delivered(h, w, before)
    requires forall i :: i in stored ==> IsData(h, i)
    requires 0 <= w.image.subscriberPosition <= w'.image.subscriberPosition
    requires Picks(h, stored, now, w.image.subscriberPosition, w'.image.subscriberPosition)
    requires w'.delivered == w.delivered + Payloads(h, now)
    ensures Delivered(h, w', before + now)
  {
    hide Align32, Payloads, Contiguous, RecOk;
    PayloadsConcat(h, before, now);
    var all := before + now;
    forall a, b | 0 <= a < b < |all| ensures all[a] < all[b] {
      if a < |before| <= b {
        assert h[all[a]].pos < w.image.subscriberPosition <= h[all[b]].pos;
        if all[b] < all[a] {
          PositionsOrdered(h, all[b], all[a]);
        }
      }
    }
  }

  /** One operation: the image stays fed, and a poll accounts for what it passes. */
  lemma StepKeeps(c: W.Settings, h: seq<Rec>, w: World, op: Op, stored: set<nat>, picked: seq<nat>)
    returns (stored': set<nat>, more: seq<nat>)
    requires Fed(w.image, h, stored) && Delivered(h, w, picked) && OpOk(h, w, op)
    ensures w.image.termLength > 0 && |w.image.buf| == 4 * w.image.termLength
    ensures op.Arrive? ==> op.i < |h| && |h[op.i].bytes| >= HEADER
    ensures Fed(Step(c, h, w, op).image, h, stored') && Delivered(h, Step(c, h, w, op), picked + more)
    ensures op.PollOp? ==> PollAccounts(h, w, Step(c, h, w, op), op.limit, picked + more)
  {
    hide Fed, OnData, Poll, Picks, Payloads, PollOk, InReach, PollAccounts, TermEnd;
    FedParts(w.image, h, stored);
    stored', more := stored, [];
    assert picked + [] == picked;
    match op
    case Arrive(i, now) =>
      ArriveFed(w.image, h, stored, i, now, c.nakDelay, c.sendSmOnData);
      stored' := StoredAfter(w.image, h, stored, i);
      ArriveKeepsReader(w.image, WireOf(w.image, h[i]), now, c.nakDelay, c.sendSmOnData);
    case PollOp(limit) =>
      more := PollFed(w.image, h, stored, limit);
      DeliveredPoll(w.image.termLength, h, w, Step(c, h, w, op), stored, picked, more);
      PollStepAccounts(h, w, Step(c, h, w, op), limit, stored, picked, more);
    case SmOp(now) =>
      FedStamp(w.image, AfterSm(w.image, now), h, stored);
  }

  lemma PollStepAccounts(h: seq<Rec>, w: World, w': World, limit: int, stored: set<nat>, picked: seq<nat>,
                         more: seq<nat>)
    requires Fed(w.image, h, stored) && w.image.termLength > 0
    requires w'.image.subscriberPosition == w.image.subscriberPosition || InReach(w.image)
    requires |w.image.buf| == 4 * w.image.termLength
    requires Fed(w'.image, h, stored) && w'.image == Poll(w.image, limit).0
    requires 0 <= w.image.subscriberPosition <= w'.image.subscriberPosition
    requires w'.image.subscriberPosition <= TermEnd(w.image.subscriberPosition, w.image.termLength)
    requires Picks(h, stored, more, w.image.subscriberPosition, w'.image.subscriberPosition)
    requires w.delivered == Payloads(h, picked) && w'.delivered == w.delivered + Payloads(h, more)
    requires limit <= 0 ==> w' == w
    requires limit > 0 ==>
               && |more| <= limit
               && (|more| == limit || w'.image.subscriberPosition == w.image.receiverPosition
                   || w'.image.subscriberPosition == TermEnd(w.image.subscriberPosition, w.image.termLength))
    ensures PollAccounts(h, w, w', limit, picked + more)
  {
    hide Fed, Poll, Picks, Payloads, InReach, Shows, TermEnd;
    ReaderBound(w'.image, h, stored);
    W.PollOnlyMovesSubscriber(w.image, limit);
    assert (picked + more)[|w.delivered|..|w'.delivered|] == more;
    forall j: nat | IsData(h, j) && w.image.subscriberPosition <= h[j].pos < w'.image.subscriberPosition
      ensures j in more || Shows(w.image.buf, h[j].pos, BLANK)
    {
      if j !in more {
        PassedOver(w.image, h, stored, more, w'.image.subscriberPosition, j);
      }
    }
  }

  lemma ReaderBound(x: Image, h: seq<Rec>, stored: set<nat>)
    requires Fed(x, h, stored)
    ensures 0 <= x.subscriberPosition <= x.receiverPosition
  {
  }

  lemma FedParts(x: Image, h: seq<Rec>, stored: set<nat>)
    requires Fed(x, h, stored)
    ensures x.termLength > 0 && |x.buf| == 4 * x.termLength && HistoryOk(x.termLength, h)
    ensures forall i :: i in stored ==> IsData(h, i)
  {
  }

  lemma ArriveKeepsReader(x: Image, f: Wire, now: int, nakDelay: int, sendSm: bool)
    requires |x.buf| == 4 * x.termLength && |f.header| == HEADER
    ensures OnData(x, f, now, nakDelay, sendSm).subscriberPosition == x.subscriberPosition
  {
  }

  ghost predicate Follows(c: W.Settings, h: seq<Rec>, w: World, op: Op, w': World) {
    && w.image.termLength > 0 && |w.image.buf| == 4 * w.image.termLength
    && (op.Arrive? ==> op.i < |h| && |h[op.i].bytes| >= HEADER)
    && w' == Step(c, h, w, op)
  }

  ghost predicate IsRun(c: W.Settings, h: seq<Rec>, ws: seq<World>, ops: seq<Op>) {
    && |ws| == |ops| + 1
    && forall n :: 0 <= n < |ops| ==> OpOk(h, ws[n], ops[n]) && Follows(c, h, ws[n], ops[n], ws[n + 1])
  }

  /** Every poll among the first `n` operations accounts for what it passed. */
  ghost predicate PollsAccount(h: seq<Rec>, ws: seq<World>, ops: seq<Op>, n: nat, picked: seq<nat>)
    requires n <= |ops| && |ws| == |ops| + 1
  {
    forall m :: 0 <= m < n && ops[m].PollOp? ==> PollAccounts(h, ws[m], ws[m + 1], ops[m].limit, picked)
  }

  lemma {:induction false} RunKeeps(c: W.Settings, h: seq<Rec>, ws: seq<World>, ops: seq<Op>, n: nat)
    returns (stored: set<nat>, picked: seq<nat>)
    requires IsRun(c, h, ws, ops) && n < |ws|
    requires Fed(ws[0].image, h, {}) && ws[0].delivered == []
    ensures Fed(ws[n].image, h, stored) && Delivered(h, ws[n], picked) && PollsAccount(h, ws, ops, n, picked)
  {
    hide Fed, Step, OpOk, PollAccounts, Delivered;
    if n == 0 {
      stored, picked := {}, [];
      NothingDelivered(h, ws[0]);
    } else {
      var before, more;
      stored, before := RunKeeps(c, h, ws, ops, n - 1);
      assert Follows(c, h, ws[n - 1], ops[n - 1], ws[n - 1 + 1]);
      stored, more := StepKeeps(c, h, ws[n - 1], ops[n - 1], stored, before);
      picked := before + more;
      forall m | 0 <= m < n - 1 && ops[m].PollOp? ensures PollAccounts(h, ws[m], ws[m + 1], ops[m].limit, picked) {
        PollAccountsLater(h, ws[m], ws[m + 1], ops[m].limit, before, more);
      }
    }
  }

  lemma NothingDelivered(h: seq<Rec>, w: World)
    requires w.delivered == []
    ensures Delivered(h, w, [])
  {
  }

  /** The image a setup frame creates is fed, and holds nothing, when the setup names a frame boundary. */
  lemma FreshFed(h: seq<Rec>, initialTermId: int, activeTermId: int, termLength: nat, termOffset: int)
    requires W.SetupOk(initialTermId, activeTermId, termLength, termOffset) && Aligned(termOffset)
    requires StreamOk(termLength, h)
    requires var position := ComputePosition(activeTermId, termOffset, initialTermId, termLength);
             position >= 0 && NotInside(h, position)
    ensures Fed(NewImage(initialTermId, activeTermId, termLength, termOffset), h, {})
  {
    hide IsPowerOfTwo, Wrap32, HistoryOk, NotInside, Aligned;
    var x := NewImage(initialTermId, activeTermId, termLength, termOffset);
    var k := W.TermCount(x);
    AlignedMultiple(k, termLength);
    AlignedSum(k * termLength, termOffset);
    forall q: nat | InLog(k, termLength, q) && Aligned(q) && !Covered(h, {}, q) ensures Shows(x.buf, q, BLANK) {
      BlankEverywhere(termLength, q);
    }
  }

  lemma BlankEverywhere(tl: nat, q: nat)
    requires tl > 0 && Aligned(tl) && Aligned(q)
    ensures Shows(Zeros(4 * tl), q, BLANK)
  {
    hide Aligned;
    BlankFits(q, tl);
    var t, off, origin := SplitPosition(q, tl);
    SlotOfBlock(t, off, tl, 4);
    PartitionFits(t % 4, tl);
    assert Zeros(4 * tl)[q % (4 * tl)..q % (4 * tl) + 4] == BLANK;
  }

  /**
   Every run: the fragments delivered are a subsequence of the frames sent, in strictly increasing
   stream position, with unchanged payloads; and every poll delivered each data frame it moved past,
   unless that frame was uncommitted when it was passed.
   */
  lemma DeliveredInOrder(c: W.Settings, h: seq<Rec>, ws: seq<World>, ops: seq<Op>, n: nat)
    returns (picked: seq<nat>)
    requires IsRun(c, h, ws, ops) && n < |ws|
    requires Fed(ws[0].image, h, {}) && ws[0].delivered == []
    ensures Increasing(picked) && forall a :: 0 <= a < |picked| ==> IsData(h, picked[a])
    ensures ws[n].delivered == Payloads(h, picked)
    ensures PollsAccount(h, ws, ops, n, picked)
  {
    hide PollsAccount, Payloads;
    var stored;
    stored, picked := RunKeeps(c, h, ws, ops, n);
  }

  /** The poll at which the subscriber moved past position `q`. */
  lemma {:induction false} PassingPoll(c: W.Settings, h: seq<Rec>, ws: seq<World>, ops: seq<Op>, n: nat, q: int)
    returns (m: nat)
    requires IsRun(c, h, ws, ops) && n < |ws|
    requires ws[0].image.subscriberPosition <= q < ws[n].image.subscriberPosition
    ensures m < n && ops[m].PollOp?
    ensures ws[m].image.subscriberPosition <= q < ws[m + 1].image.subscriberPosition
    decreases n
  {
    hide OpOk;
    m := n - 1;
    if q < ws[m].image.subscriberPosition {
      m := PassingPoll(c, h, ws, ops, m, q);
    } else {
      assert Follows(c, h, ws[m], ops[m], ws[m + 1]);
      OnlyPollsMove(c, h, ws[m], ops[m]);
    }
  }

  lemma OnlyPollsMove(c: W.Settings, h: seq<Rec>, w: World, op: Op)
    requires w.image.termLength > 0 && |w.image.buf| == 4 * w.image.termLength
    requires op.Arrive? ==> op.i < |h| && |h[op.i].bytes| >= HEADER
    ensures !op.PollOp? ==> Step(c, h, w, op).image.subscriberPosition == w.image.subscriberPosition
  {
    hide OnData, Poll;
    if op.Arrive? {
      ArriveKeepsReader(w.image, WireOf(w.image, h[op.i]), op.now, c.nakDelay, c.sendSmOnData);
    }
  }

  /** Over a whole run no frame is lost without reason: delivered, or uncommitted at the poll that passed it. */
  lemma EveryFrameAccounted(c: W.Settings, h: seq<Rec>, ws: seq<World>, ops: seq<Op>, n: nat, j: nat)
    returns (picked: seq<nat>, m: nat)
    requires IsRun(c, h, ws, ops) && n < |ws|
    requires Fed(ws[0].image, h, {}) && ws[0].delivered == []
    requires IsData(h, j) && ws[0].image.subscriberPosition <= h[j].pos < ws[n].image.subscriberPosition
    ensures ws[n].delivered == Payloads(h, picked)
    ensures m < n && ops[m].PollOp?
    ensures ws[m].image.subscriberPosition <= h[j].pos < ws[m + 1].image.subscriberPosition
    ensures j in picked || Shows(ws[m].image.buf, h[j].pos, BLANK)
  {
    hide Fed, IsRun, Payloads, Shows;
    IsRunLength(c, h, ws, ops);
    picked := DeliveredInOrder(c, h, ws, ops, n);
    m := PassingPoll(c, h, ws, ops, n, h[j].pos);
    assert PollAccounts(h, ws[m], ws[m + 1], ops[m].limit, picked);
  }

  lemma IsRunLength(c: W.Settings, h: seq<Rec>, ws: seq<World>, ops: seq<Op>)
    requires IsRun(c, h, ws, ops)
    ensures |ws| == |ops| + 1
  {
  }
}
