/**
 Every step of the receiver thread keeps the invariant of `ImageSteps`.
 */
module ImageStepsWrite {
  import opened Arith
  import opened Bytes
  import opened TermLog
  import opened PublicationHistory
  import opened PublicationScan
  import opened Image
  import opened ImageStream
  import opened ImagePoll
  import opened ImageSteps
  import opened ImageStepsKept
  import W = ImageWindow
  import D = ImageDelivery

  // ---- What a receiver step may do to the subscriber's view ----

  /** The receiver moves on without storing receiver_position. */
  lemma ReceiverMoves(h: seq<Rec>, s: State, s': State, stored: set<nat>, picked: seq<nat>)
    requires Invariant(h, s, stored, picked)
    requires s'.subscriber == s.subscriber && s'.delivered == s.delivered
    requires s'.x == s.x.(buf := s'.x.buf) && LogOk(h, s', stored)
    requires s'.receiver.Following? == s.receiver.Following? == false
    requires (TargetTerm(h, s') - 3) * s.x.termLength <= Cursor(s)
    ensures Invariant(h, s', stored, picked)
  {
    hide NotInside, Aligned, PcOk, W.TermCount, Align32, LogOk, TargetTerm, StreamOk, Payloads, Newest;
    assert W.TermCount(s'.x) == W.TermCount(s.x) by { D.SameTermCount(s.x, s'.x); }
    CursorsIgnoreLog(s.x, s'.x) by { LogSize(h, s, stored); LogSize(h, s', stored); }
  }

  lemma CursorsIgnoreLog(x: Image, x': Image)
    requires W.CursorsAgree(x) && |x'.buf| == |x.buf|
    requires x' == x.(buf := x'.buf, subscriberPosition := x'.subscriberPosition, smPending := x'.smPending)
    ensures W.CursorsAgree(x')
  {
    hide IsPowerOfTwo, Wrap32, Aligned;
  }

  // ---- A frame arrives ----

  lemma CleaningBegins(h: seq<Rec>, s: State, stored: set<nat>, picked: seq<nat>, i: nat)
    requires Invariant(h, s, stored, picked) && s.receiver.Resting? && MovesWindow(h, s.x, i)
    requires (h[i].pos / s.x.termLength - 3) * s.x.termLength <= Cursor(s)
    ensures Invariant(h, s.(receiver := Cleaning(i, 1, 0, s.x)), stored, picked)
  {
    hide W.TermCount, Holds, W.CursorsAgree, StreamOk, ReaderOk, Delivered, Wrap32, PartitionIndex;
    var s' := s.(receiver := Cleaning(i, 1, 0, s.x));
    StoreNothing(s.x.buf, CleanBase(s.x, 1));
    assert PartlyClean(s.x, 1, 0) == s.x.buf;
    ReceiverMoves(h, s, s', stored, picked);
  }

  lemma OpenParts(tl: nat, h: seq<Rec>, i: nat)
    requires HistoryOk(tl, h) && i < |h|
    ensures |OpenBytes(h[i])| == |h[i].bytes| >= HEADER && OpenBytes(h[i]) == BLANK + h[i].bytes[4..]
  {
    assert RecOk(tl, h[i]);
  }

  lemma OpenByte(tl: nat, h: seq<Rec>, i: nat, d: nat)
    requires HistoryOk(tl, h) && i < |h| && d < |h[i].bytes|
    ensures |OpenBytes(h[i])| == |h[i].bytes|
    ensures OpenBytes(h[i])[d] == if d < 4 then 0 else h[i].bytes[d]
  {
    hide HistoryOk;
    OpenParts(tl, h, i);
  }

  lemma AppendLog(h: seq<Rec>, x: Image, stored: set<nat>, i: nat)
    requires W.CursorsAgree(x) && StreamOk(x.termLength, h) && Holds(x.buf, W.TermCount(x), x.termLength, h, stored)
    requires IsData(h, i) && InTerms(W.TermCount(x), x.termLength, h[i].pos)
    ensures Writing(h, x, stored, i) && Shows(x.buf, h[i].pos, OpenBytes(h[i])[..0])
  {
    hide W.TermCount, Holds, HoldsExcept, Aligned, Align32, HistoryOk, OpenBytes, InTerms, W.CursorsAgree, ShowsRest;
    W.CursorsParts(x);
    HoldsIsExcept(x.buf, W.TermCount(x), x.termLength, h, stored, i);
    if i !in stored {
      UnstoredBlank(x.buf, W.TermCount(x), x.termLength, h, stored, i);
    } else {
      StoredRest(x.buf, W.TermCount(x), x.termLength, h, stored, i);
    }
    var t, off, origin := FramePlace(x.termLength, h, i);
  }

  lemma StoredRest(buf: seq<Byte>, k: int, tl: nat, h: seq<Rec>, stored: set<nat>, i: nat)
    requires Holds(buf, k, tl, h, stored) && HistoryOk(tl, h) && i in stored
    ensures i < |h| && Shows(buf, h[i].pos, h[i].bytes) && ShowsRest(buf, h[i].pos, h[i].bytes)
  {
    hide InTerms, Covered, Contiguous, Align32;
    assert RecOk(tl, h[i]);
    var at, bytes := h[i].pos % |buf|, h[i].bytes;
    assert buf[at + 4..at + |bytes|] == buf[at..at + |bytes|][4..];
  }

  /** The place of a frame holds a length exactly when the frame is stored. */
  lemma AgainIsStored(h: seq<Rec>, x: Image, stored: set<nat>, i: nat)
    requires W.CursorsAgree(x) && StreamOk(x.termLength, h) && Holds(x.buf, W.TermCount(x), x.termLength, h, stored)
    requires IsData(h, i) && InTerms(W.TermCount(x), x.termLength, h[i].pos) && |h[i].bytes| >= HEADER
    ensures x.termLength > 0
    ensures LengthWord(x.buf, FrameBase(x, WireOf(x, h[i]))) != 0 <==> i in stored
  {
    hide W.TermCount, Holds, Aligned, Align32, HistoryOk, InTerms, W.CursorsAgree, ShowsRest, LengthWord, Wrap32,
         PartitionIndex, CommittedBytes, ComputePosition, TermFull, W.TermsLeft, DecodeI32, DecodeU16;
    W.CursorsParts(x);
    WireFacts(x, h, i);
    var t, off, origin := FramePlace(x.termLength, h, i);
    var at := h[i].pos % (4 * x.termLength);
    if i in stored {
      StoredRest(x.buf, W.TermCount(x), x.termLength, h, stored, i);
      SliceLength(x.buf, at, h[i].bytes);
    } else {
      UnstoredBlank(x.buf, W.TermCount(x), x.termLength, h, stored, i);
      BlankSlice(x.buf, at);
    }
  }

  lemma SliceLength(buf: seq<Byte>, at: nat, bytes: seq<Byte>)
    requires |bytes| >= HEADER && at + |bytes| <= |buf| && buf[at..at + |bytes|] == bytes
    ensures LengthWord(buf, at) == DecodeI32(bytes, 0)
  {
    SliceWords(buf, at, bytes);
  }

  lemma AppendBegins(h: seq<Rec>, s: State, stored: set<nat>, picked: seq<nat>, i: nat)
    requires Invariant(h, s, stored, picked) && s.receiver.Resting?
    requires IsData(h, i) && s.x.termLength > 0 && 0 <= W.TermCount(s.x) - h[i].pos / s.x.termLength <= 3
    ensures |h[i].bytes| >= HEADER
    ensures LengthWord(s.x.buf, FrameBase(s.x, WireOf(s.x, h[i]))) != 0 <==> i in stored
    ensures Invariant(h, s.(receiver := Copying(i, 0, i in stored)), stored, picked)
  {
    hide W.TermCount, Holds, W.CursorsAgree, StreamOk, Delivered, Writing, OpenBytes, Shows, HistoryOk, NotInside, PcOk,
         Newest, Ends, InTerms, WireOf, LengthWord, FrameBase;
    InvariantParts(h, s, stored, picked);
    var s' := s.(receiver := Copying(i, 0, i in stored));
    TermRange(h[i].pos, W.TermCount(s.x), s.x.termLength);
    AppendLog(h, s.x, stored, i);
    OpenParts(s.x.termLength, h, i);
    AgainIsStored(h, s.x, stored, i);
    ReceiverMoves(h, s, s', stored, picked);
  }

  lemma ArriveKeeps(h: seq<Rec>, s: State, stored: set<nat>, picked: seq<nat>, i: nat)
    requires Invariant(h, s, stored, picked) && s.receiver.Resting? && ArriveOk(h, s, i)
    ensures s.x.termLength > 0 && Invariant(h, BeginArrive(h, s, i), stored, picked)
  {
    hide W.TermCount, W.CursorsAgree, StreamOk, LogOk, ReaderOk, Delivered, Wrap32, PartitionIndex, CommittedBytes,
         ComputePosition, Align32, NewOffset, Offset, TermFull, Stale, HistoryOk, W.TermsLeft, WirePartition,
         FrameBase, LengthWord;
    InvariantParts(h, s, stored, picked);
    WireFacts(s.x, h, i);
    var f, ahead := WireOf(s.x, h[i]), h[i].pos / s.x.termLength - W.TermCount(s.x);
    if 0 < ahead < HALF_I32 {
      CleaningBegins(h, s, stored, picked, i);
    } else if -3 <= ahead <= 0 {
      D.InWindowNotStale(s.x, f);
      AppendBegins(h, s, stored, picked, i);
    } else {
      D.RefusedIsStale(s.x, f, -ahead);
      assert s.(receiver := Resting) == s;
    }
  }

  // ---- Cleaning ----

  lemma CleanByte(x: Image, step: nat, done: nat)
    requires |x.buf| == 4 * x.termLength && step > 0 && done < x.termLength
    ensures Store(PartlyClean(x, step, done), CleanBase(x, step) + done, [0]) == PartlyClean(x, step, done + 1)
  {
    hide CleanAhead, Wrap32, PartitionIndex, Splice;
    PartitionFits(PartitionIndex(Wrap32(x.activeTermId + step), x.initialTermId), x.termLength);
    SpliceAdjacent(CleanAhead(x, step - 1), CleanBase(x, step), Zeros(done), [0]);
    assert Zeros(done) + [0] == Zeros(done + 1);
  }

  lemma PartitionDone(x: Image, step: nat)
    requires |x.buf| == 4 * x.termLength && step > 0
    ensures PartlyClean(x, step, x.termLength) == CleanAhead(x, step) == PartlyClean(x, step + 1, 0)
  {
    hide Wrap32, PartitionIndex, Splice;
    PartitionFits(PartitionIndex(Wrap32(x.activeTermId + step), x.initialTermId), x.termLength);
    StoreNothing(CleanAhead(x, step), CleanBase(x, step + 1));
  }

  /** Cleaning goes on: a byte, or the next partition. */
  lemma CleaningGoesOn(h: seq<Rec>, s: State, s': State, stored: set<nat>, picked: seq<nat>)
    requires Invariant(h, s, stored, picked) && s.receiver.Cleaning? && s'.receiver.Cleaning?
    requires s' == s.(x := s.x.(buf := s'.x.buf), receiver := s'.receiver)
    requires s'.receiver.i == s.receiver.i && s'.receiver.before == s.receiver.before && |s'.x.buf| == |s.x.buf|
    requires var i := s.receiver.i;
             MovesWindow(h, s.x, i) ==>
               0 < s'.receiver.step <= 4 && s'.receiver.step <= h[i].pos / s.x.termLength - W.TermCount(s.x)
    requires s'.receiver.done <= s.x.termLength
    requires |s.receiver.before.buf| == 4 * s.receiver.before.termLength && s'.receiver.step > 0
             ==> s'.x.buf == PartlyClean(s.receiver.before, s'.receiver.step, s'.receiver.done)
    ensures Invariant(h, s', stored, picked)
  {
    hide W.TermCount, Holds, W.CursorsAgree, StreamOk, Delivered, PartlyClean, NotInside, PcOk, Newest, Ends;
    D.SameTermCount(s.x, s'.x);
    ReceiverMoves(h, s, s', stored, picked);
  }

  lemma CleanStepKeeps(h: seq<Rec>, s: State, stored: set<nat>, picked: seq<nat>, f: Wire)
    requires Invariant(h, s, stored, picked) && s.receiver.Cleaning? && f == CleanedFor(h, s)
    requires s.receiver.done < s.x.termLength || s.receiver.step < CleanSteps(s.x, f)
    ensures Invariant(h, CleanStep(s, f), stored, picked)
  {
    hide W.TermCount, Holds, W.CursorsAgree, StreamOk, Delivered, PartlyClean, ReaderOk, CleanSteps, CleanBase,
         HistoryOk, MovesWindow, Wrap32;
    InvariantParts(h, s, stored, picked);
    var Cleaning(i, step, done, before) := s.receiver;
    if done < s.x.termLength {
      CleanByte(before, step, done);
      SameBase(s.x, before, step);
    } else {
      StepsLeft(h, s, stored, picked, f);
      PartitionDone(before, step);
    }
    CleaningGoesOn(h, s, CleanStep(s, f), stored, picked);
  }

  function CleanedFor(h: seq<Rec>, s: State): Wire {
    if s.receiver.Cleaning? && s.receiver.i < |h| && s.x.termLength > 0 && |h[s.receiver.i].bytes| >= HEADER
    then WireOf(s.x, h[s.receiver.i]) else Wire(0, 0, [], [])
  }

  lemma SameBase(x: Image, y: Image, step: nat)
    requires x.activeTermId == y.activeTermId && x.initialTermId == y.initialTermId && x.termLength == y.termLength
    ensures CleanBase(x, step) == CleanBase(y, step)
  {
  }

  /** The partitions to be cleaned are those between the active term and that of the frame. */
  lemma StepsLeft(h: seq<Rec>, s: State, stored: set<nat>, picked: seq<nat>, f: Wire)
    requires Invariant(h, s, stored, picked) && s.receiver.Cleaning? && f == CleanedFor(h, s)
    ensures var d := h[s.receiver.i].pos / s.x.termLength - W.TermCount(s.x);
            && MovesWindow(h, s.x, s.receiver.i) && |h[s.receiver.i].bytes| >= HEADER && TermAhead(s.x, f) == d
            && Advances(s.x, f) && WireOk(f) && W.TermsLeft(s.x, f)
            && CleanSteps(s.x, f) == if d < 4 then d else 4
  {
    hide W.TermCount, Holds, W.CursorsAgree, StreamOk, Delivered, PartlyClean, ReaderOk, CommittedBytes,
         ComputePosition, Wrap32, Align32, HistoryOk, TermFull, PartitionIndex, W.TermsLeft, NewOffset;
    InvariantParts(h, s, stored, picked);
    WireFacts(s.x, h, s.receiver.i);
    D.StepsFor(s.x, f);
  }

  /** Dropping frames below the subscriber's window changes nothing the subscriber knows. */
  lemma KeptView(tl: nat, h: seq<Rec>, stored: set<nat>, low: int, recv: int, p: nat, end: int, pc: SubscriberPc)
    requires StreamOk(tl, h) && low * tl <= p && NotInside(h, p) && Newest(h, stored, recv, p)
    requires PcOk(h, stored, recv, p, end, pc)
    ensures var stored' := Kept(h, stored, low * tl);
            Newest(h, stored', recv, p) && PcOk(h, stored', recv, p, end, pc)
  {
    hide Align32, Aligned, HistoryOk;
    var stored' := Kept(h, stored, low * tl);
    if p < recv {
      var top :| top in stored && top < |h| && End(h[top]) == recv;
      assert top in stored';
    }
    if pc.Skipping? && recv < end {
      var top :| top in stored && top < |h| && p + pc.skip <= h[top].pos < end && End(h[top]) <= recv;
      assert top in stored';
    } else if pc.Typing? {
      var j :| FrameAt(h, stored, j, p, pc.length);
      assert FrameAt(h, stored', j, p, pc.length);
    } else if pc.Reading? {
      var j: nat :| FrameAt(h, stored, j, p, pc.length) && PartRead(h, j, pc.got);
      assert FrameAt(h, stored', j, p, pc.length);
    }
  }

  ghost function Rested(s: State, f: Wire): State {
    s.(x := MoveWindow(s.x, f), receiver := Resting)
  }

  /** The last partition is clean and the window moves. */
  lemma WindowMoves(h: seq<Rec>, s: State, stored: set<nat>, picked: seq<nat>, f: Wire)
    requires Invariant(h, s, stored, picked) && s.receiver.Cleaning? && f == CleanedFor(h, s) && s.x.termLength > 0
    requires s.receiver.done >= s.x.termLength && s.receiver.step >= CleanSteps(s.x, f) && s.receiver.i < |h|
    ensures var x', t := MoveWindow(s.x, f), h[s.receiver.i].pos / s.x.termLength;
            && W.CursorsAgree(x') && W.TermCount(x') == t
            && |x'.buf| == 4 * x'.termLength
            && Holds(x'.buf, t, x'.termLength, h, Kept(h, stored, (t - 3) * s.x.termLength))
  {
    hide W.TermCount, Holds, W.CursorsAgree, StreamOk, Delivered, PartlyClean, ReaderOk, CleanSteps, HistoryOk, Wrap32,
         MovesWindow, CleanAhead, Kept, TermAhead, W.TermsLeft, WireOk;
    InvariantParts(h, s, stored, picked);
    StepsLeft(h, s, stored, picked, f);
    var Cleaning(i, step, _, before) := s.receiver;
    D.SameTermCount(s.x, before);
    CursorsIgnoreLog(s.x, before);
    SameAhead(s.x, before, f);
    PartitionDone(before, step);
    MovedTermLeft(h, s.x, i);
    AdvanceHolds(before, h, stored, h[i].pos / s.x.termLength - W.TermCount(s.x));
    W.AdvanceCursors(before, f);
    CursorsIgnoreLog(Advance(before, f), MoveWindow(s.x, f));
    D.SameTermCount(Advance(before, f), MoveWindow(s.x, f));
  }

  lemma SameAhead(x: Image, y: Image, f: Wire)
    requires x.activeTermId == y.activeTermId && x.initialTermId == y.initialTermId && Advances(x, f)
    ensures TermAhead(y, f) == TermAhead(x, f) && Advances(y, f) && CleanSteps(y, f) == CleanSteps(x, f)
    ensures W.TermsLeft(x, f) ==> W.TermsLeft(y, f)
  {
  }

  lemma MovedTermLeft(h: seq<Rec>, x: Image, i: nat)
    requires W.CursorsAgree(x) && StreamOk(x.termLength, h) && MovesWindow(h, x, i)
    ensures 0 < h[i].pos / x.termLength - W.TermCount(x) && h[i].pos / x.termLength < TWO31
  {
    hide W.CursorsAgree, StreamOk, W.TermCount;
    MovedTerm(h, x, i);
  }

  lemma RestedReader(h: seq<Rec>, s: State, stored: set<nat>, picked: seq<nat>, f: Wire)
    requires Invariant(h, s, stored, picked) && s.receiver.Cleaning? && s.x.termLength > 0 && s.receiver.i < |h|
    requires W.TermCount(MoveWindow(s.x, f)) == h[s.receiver.i].pos / s.x.termLength >= W.TermCount(s.x)
    ensures ReaderOk(h, Rested(s, f), Kept(h, stored, (h[s.receiver.i].pos / s.x.termLength - 3) * s.x.termLength))
  {
    hide W.TermCount, W.CursorsAgree, Delivered, HistoryOk, NotInside, PcOk, Newest, LogOk, Aligned, Kept, StreamOk,
         Align32;
    KeptView(s.x.termLength, h, stored, h[s.receiver.i].pos / s.x.termLength - 3, s.x.receiverPosition, Cursor(s),
             ReadEnd(s.x), s.subscriber);
  }

  lemma CleanDoneKeeps(h: seq<Rec>, s: State, stored: set<nat>, picked: seq<nat>, f: Wire) returns (stored': set<nat>)
    requires Invariant(h, s, stored, picked) && s.receiver.Cleaning? && f == CleanedFor(h, s)
    requires s.receiver.done >= s.x.termLength && s.receiver.step >= CleanSteps(s.x, f)
    ensures Invariant(h, CleanStep(s, f), stored', picked)
  {
    hide W.TermCount, Holds, W.CursorsAgree, StreamOk, LogOk, ReaderOk, CleanSteps, HistoryOk, Wrap32, Kept, TermAhead,
         W.TermsLeft, WireOk, Delivered, Stale, TermFull, Advances, FrameBase, LengthWord;
    InvariantParts(h, s, stored, picked);
    StepsLeft(h, s, stored, picked, f);
    var i, t := s.receiver.i, h[s.receiver.i].pos / s.x.termLength;
    WindowMoves(h, s, stored, picked, f);
    var s1 := Rested(s, f);
    stored' := Kept(h, stored, (t - 3) * s.x.termLength);
    RestedReader(h, s, stored, picked, f);
    RestingLog(h, s1, stored');
    DeliveredStays(h, s, s1, stored, picked);
    MakeInvariant(h, s1, stored', picked);
    NewTermAccepted(h, s, s1.x, i, f);
    AppendBegins(h, s1, stored', picked, i);
  }

  lemma RestingLog(h: seq<Rec>, s: State, stored: set<nat>)
    requires s.receiver.Resting? && |s.x.buf| == 4 * s.x.termLength
    requires Holds(s.x.buf, W.TermCount(s.x), s.x.termLength, h, stored)
    ensures LogOk(h, s, stored)
  {
  }

  lemma DeliveredStays(h: seq<Rec>, s: State, s': State, stored: set<nat>, picked: seq<nat>)
    requires Invariant(h, s, stored, picked) && s'.delivered == s.delivered && Cursor(s') == Cursor(s)
    ensures Delivered(h, s', picked)
  {
    hide W.CursorsAgree, StreamOk, LogOk, ReaderOk, Payloads;
  }

  lemma NewTermAccepted(h: seq<Rec>, s: State, x': Image, i: nat, f: Wire)
    requires s.x.termLength > 0 && IsData(h, i) && |h[i].bytes| >= HEADER && f == WireOf(s.x, h[i])
    requires x'.initialTermId == s.x.initialTermId && x'.termLength == s.x.termLength
    requires W.CursorsAgree(x') && StreamOk(x'.termLength, h) && W.TermCount(x') == h[i].pos / s.x.termLength
    ensures !Stale(x', f) && !TermFull(x', f)
  {
    hide W.TermCount, W.CursorsAgree, StreamOk, Stale, TermFull, Wrap32, Align32, ComputePosition, CommittedBytes,
         W.TermsLeft, PartitionIndex;
    WireFacts(x', h, i);
    D.InWindowNotStale(x', f);
  }

  // ---- Writing the frame ----

  /** Overwriting a zero of the length word by zero, or a byte behind it. */
  lemma BlankStays(buf: seq<Byte>, pos: nat, d: nat, b: Byte)
    requires Shows(buf, pos, BLANK) && pos % |buf| + d < |buf| && (d < 4 ==> b == 0)
    ensures Shows(Splice(buf, pos % |buf| + d, [b]), pos, BLANK)
  {
    var at := pos % |buf|;
    var buf' := Splice(buf, at + d, [b]);
    assert buf'[at + d..at + d + 1][0] == b;
    forall j | 0 <= j < 4 ensures buf'[at + j] == BLANK[j] {
      assert buf[at..at + 4][j] == BLANK[j];
    }
  }

  /** Overwriting a byte behind the length word by the same byte, or one of the length word. */
  lemma RestStays(buf: seq<Byte>, pos: nat, bytes: seq<Byte>, d: nat, b: Byte)
    requires ShowsRest(buf, pos, bytes) && d < |bytes| && (d >= 4 ==> b == bytes[d])
    ensures pos % |buf| + d < |buf| && ShowsRest(Splice(buf, pos % |buf| + d, [b]), pos, bytes)
  {
    var at := pos % |buf|;
    var buf' := Splice(buf, at + d, [b]);
    assert buf'[at + d..at + d + 1][0] == b;
    forall j | 4 <= j < |bytes| ensures buf'[at + j] == bytes[j] {
      assert buf[at + 4..at + |bytes|][j - 4] == bytes[4..][j - 4];
    }
  }

  lemma WritingStays(h: seq<Rec>, x: Image, stored: set<nat>, i: nat, d: nat, b: Byte)
    requires |x.buf| == 4 * x.termLength && StreamOk(x.termLength, h) && Writing(h, x, stored, i)
    requires d < |h[i].bytes| && b == if d < 4 then 0 else h[i].bytes[d]
    ensures h[i].pos % |x.buf| + d < |x.buf|
    ensures Writing(h, x.(buf := Splice(x.buf, h[i].pos % |x.buf| + d, [b])), stored, i)
  {
    hide W.TermCount, HoldsExcept, Shows, ShowsRest, InTerms, Splice, Align32, Aligned, HistoryOk, InOnePiece;
    var t, off, origin := FramePlace(x.termLength, h, i);
    OneByteFits(h[i].pos, |h[i].bytes|, |x.buf|, d);
    SlotPlus(h[i].pos, d, |x.buf|);
    PieceKeepsExcept(x.buf, W.TermCount(x), x.termLength, h, stored, i, h[i].pos + d, [b]);
    if i !in stored {
      BlankStays(x.buf, h[i].pos, d, b);
    } else {
      RestStays(x.buf, h[i].pos, h[i].bytes, d, b);
    }
    D.SameTermCount(x, x.(buf := Splice(x.buf, h[i].pos % |x.buf| + d, [b])));
  }

  lemma CopyLog(h: seq<Rec>, x: Image, stored: set<nat>, i: nat, done: nat)
    requires |x.buf| == 4 * x.termLength && StreamOk(x.termLength, h) && Writing(h, x, stored, i)
    requires done < |OpenBytes(h[i])| == |h[i].bytes| && Shows(x.buf, h[i].pos, OpenBytes(h[i])[..done])
    ensures h[i].pos % |x.buf| + done < |x.buf|
    ensures var x' := x.(buf := Splice(x.buf, h[i].pos % |x.buf| + done, [OpenBytes(h[i])[done]]));
            Writing(h, x', stored, i) && Shows(x'.buf, h[i].pos, OpenBytes(h[i])[..done + 1])
  {
    hide Writing, Shows, Splice, Align32, Aligned, HistoryOk, InOnePiece, OpenBytes;
    assert IsData(h, i) by { WritingData(h, x, stored, i); }
    var t, off, origin := FramePlace(x.termLength, h, i);
    var b := OpenBytes(h[i])[done];
    OpenByte(x.termLength, h, i, done);
    OneByteFits(h[i].pos, |h[i].bytes|, |x.buf|, done);
    WritingStays(h, x, stored, i, done, b);
    ShowsMore(x.buf, h[i].pos, OpenBytes(h[i])[..done], b);
    assert OpenBytes(h[i])[..done] + [b] == OpenBytes(h[i])[..done + 1];
  }

  lemma WritingData(h: seq<Rec>, x: Image, stored: set<nat>, i: nat)
    requires Writing(h, x, stored, i)
    ensures IsData(h, i)
  {
  }

  lemma OneByteFits(pos: nat, len: nat, n: nat, d: nat)
    requires InOnePiece(pos, len, n) && d < len
    ensures pos % n + d < n && InOnePiece(pos, d + 1, n) && InOnePiece(pos + d, 1, n)
  {
    SlotPlus(pos, d, n);
  }

  /** The slot of the frame being written. */
  lemma WriteBase(h: seq<Rec>, s: State, stored: set<nat>, picked: seq<nat>, i: nat)
    requires Invariant(h, s, stored, picked) && IsData(h, i) && s.x.termLength > 0 && |h[i].bytes| >= HEADER
    ensures FrameBase(s.x, WireOf(s.x, h[i])) == h[i].pos % (4 * s.x.termLength)
    ensures EncodeI32(HEADER + |WireOf(s.x, h[i]).payload|) == h[i].bytes[..4]
  {
    hide W.TermCount, W.CursorsAgree, StreamOk, LogOk, ReaderOk, Delivered, Wrap32, Align32, ComputePosition,
         W.TermsLeft, PartitionIndex, TermFull, HistoryOk;
    WireFacts(s.x, h, i);
    var f := WireOf(s.x, h[i]);
    assert CommittedBytes(f)[..4] == EncodeI32(HEADER + |f.payload|);
  }

  lemma CopyKeeps(h: seq<Rec>, s: State, stored: set<nat>, picked: seq<nat>)
    requires Invariant(h, s, stored, picked) && s.receiver.Copying?
    ensures s.x.termLength > 0 && Invariant(h, ReceiverNext(h, s), stored, picked)
  {
    hide W.TermCount, W.CursorsAgree, StreamOk, ReaderOk, Delivered, HistoryOk, Writing, OpenBytes, Shows, WireOf,
         FrameBase, Splice;
    InvariantParts(h, s, stored, picked);
    var Copying(i, done, _) := s.receiver;
    WritingData(h, s.x, stored, i);
    OpenParts(s.x.termLength, h, i);
    WriteBase(h, s, stored, picked, i);
    var s' := ReceiverNext(h, s);
    if done < |OpenBytes(h[i])| {
      CopyLog(h, s.x, stored, i, done);
    } else {
      assert OpenBytes(h[i])[..done] == OpenBytes(h[i]);
    }
    StillWriting(h, s, s', stored, picked);
  }

  lemma StillWriting(h: seq<Rec>, s: State, s': State, stored: set<nat>, picked: seq<nat>)
    requires Invariant(h, s, stored, picked) && Appending(s) && Appending(s')
    requires s' == s.(x := s.x.(buf := s'.x.buf), receiver := s'.receiver) && LogOk(h, s', stored)
    ensures Invariant(h, s', stored, picked)
  {
    hide W.TermCount, W.CursorsAgree, StreamOk, LogOk, Delivered, PcOk, Newest, Ends, NotInside;
    D.SameTermCount(s.x, s'.x);
    ReceiverMoves(h, s, s', stored, picked);
  }

  /** Storing the length word completes the frame. */
  lemma ShowsCommitted(buf: seq<Byte>, pos: nat, bytes: seq<Byte>)
    requires |bytes| >= 4 && Shows(buf, pos, BLANK + bytes[4..])
    ensures pos % |buf| + 4 <= |buf| && Shows(Splice(buf, pos % |buf|, bytes[..4]), pos, bytes)
  {
    var at := pos % |buf|;
    var buf' := Splice(buf, at, bytes[..4]);
    forall j | 0 <= j < |bytes| ensures buf'[at + j] == bytes[j] {
      if j < 4 {
        assert buf'[at..at + 4][j] == bytes[..4][j];
      } else {
        assert buf[at..at + |bytes|][j] == (BLANK + bytes[4..])[j];
      }
    }
  }

  lemma CommitLog(h: seq<Rec>, x: Image, stored: set<nat>, i: nat)
    requires |x.buf| == 4 * x.termLength && StreamOk(x.termLength, h) && Writing(h, x, stored, i)
    requires |h[i].bytes| >= HEADER && Shows(x.buf, h[i].pos, BLANK + h[i].bytes[4..])
    ensures h[i].pos % |x.buf| + 4 <= |x.buf|
    ensures Holds(Splice(x.buf, h[i].pos % |x.buf|, h[i].bytes[..4]), W.TermCount(x), x.termLength, h, stored + {i})
  {
    hide W.TermCount, HoldsExcept, Shows, InTerms, Splice, Align32, Aligned, HistoryOk, Holds;
    ShowsCommitted(x.buf, h[i].pos, h[i].bytes);
    PieceKeepsExcept(x.buf, W.TermCount(x), x.termLength, h, stored, i, h[i].pos, h[i].bytes[..4]);
    ExceptCommit(Splice(x.buf, h[i].pos % |x.buf|, h[i].bytes[..4]), W.TermCount(x), x.termLength, h, stored, i);
  }

  /** A frame completed where the poll has not just looked in vain changes nothing the subscriber knows. */
  lemma CommitView(tl: nat, h: seq<Rec>, stored: set<nat>, i: nat, recv: int, p: nat, end: int, pc: SubscriberPc)
    requires StreamOk(tl, h) && i < |h| && NotInside(h, p) && PcOk(h, stored, recv, p, end, pc)
    requires i in stored || recv <= h[i].pos || !(p <= h[i].pos < p + Searched(pc))
    ensures PcOk(h, stored + {i}, recv, p, end, pc)
  {
    hide Align32, Aligned, HistoryOk;
    var stored' := stored + {i};
    StoredNonempty(tl, h, i);
    if i in stored {
      assert stored' == stored;
    } else if pc.Skipping? && recv < end {
      var top :| top in stored && top < |h| && p + pc.skip <= h[top].pos < end && End(h[top]) <= recv;
      StoredNonempty(tl, h, top);
      assert top in stored';
    } else if pc.Typing? {
      var j :| FrameAt(h, stored, j, p, pc.length);
      assert FrameAt(h, stored', j, p, pc.length);
    } else if pc.Reading? {
      var j: nat :| FrameAt(h, stored, j, p, pc.length) && PartRead(h, j, pc.got);
      assert FrameAt(h, stored', j, p, pc.length);
    }
  }

  lemma CommitReader(h: seq<Rec>, s: State, s': State, stored: set<nat>)
    requires StreamOk(s.x.termLength, h) && ReaderOk(h, s, stored) && s.receiver.Committing? && s.receiver.i < |h|
    requires s.receiver.i in stored || !CommitsUnderScan(h, s.(receiver := Committing(s.receiver.i, false)))
    requires s' == s.(x := s.x.(buf := s'.x.buf), receiver := Following(s.receiver.i))
    ensures ReaderOk(h, s', stored + {s.receiver.i})
  {
    hide W.TermCount, NotInside, PcOk, Align32, Aligned, StreamOk;
    var i, stored' := s.receiver.i, stored + {s.receiver.i};
    CommitView(s.x.termLength, h, stored, i, s.x.receiverPosition, Cursor(s), ReadEnd(s.x), s.subscriber);
    D.SameTermCount(s.x, s'.x);
    if Cursor(s) < s.x.receiverPosition {
      var top :| top in stored && top < |h| && End(h[top]) == s.x.receiverPosition;
      assert top in stored';
    }
  }

  lemma CommitKeeps(h: seq<Rec>, s: State, stored: set<nat>, picked: seq<nat>)
    requires Invariant(h, s, stored, picked) && s.receiver.Committing? && !CommitsUnderScan(h, s)
    ensures s.x.termLength > 0 && Invariant(h, ReceiverNext(h, s), stored + {s.receiver.i}, picked)
  {
    hide W.TermCount, W.CursorsAgree, StreamOk, ReaderOk, Delivered, HistoryOk, Writing, OpenBytes, Shows, WireOf,
         FrameBase, Splice, Holds, EncodeI32, CommitsUnderScan;
    InvariantParts(h, s, stored, picked);
    var i := s.receiver.i;
    WritingData(h, s.x, stored, i);
    OpenParts(s.x.termLength, h, i);
    WriteBase(h, s, stored, picked, i);
    CommitLog(h, s.x, stored, i);
    var s' := ReceiverNext(h, s);
    D.SameTermCount(s.x, s'.x);
    if i !in stored {
      assert s.(receiver := Committing(i, false)) == s;
    }
    CommitReader(h, s, s', stored);
    CursorsIgnoreLog(s.x, s'.x);
    DeliveredStays(h, s, s', stored, picked);
  }

  // ---- Following the frame ----

  lemma FollowedIsAccepted(x: Image, f: Wire)
    requires |x.buf| == 4 * x.termLength && |f.header| == HEADER && !TermFull(x, f)
    ensures var y := Accept(x, f, false); Followed(x, f) == y.(buf := x.buf)
  {
    hide Raise, RaisePosition, CommittedBytes, Splice;
  }

  lemma FollowCursors(h: seq<Rec>, s: State, stored: set<nat>, picked: seq<nat>)
    requires Invariant(h, s, stored, picked) && s.receiver.Following?
    ensures s.receiver.i < |h| && s.x.termLength > 0 && |h[s.receiver.i].bytes| >= HEADER
    ensures var i, x' := s.receiver.i, Followed(s.x, WireOf(s.x, h[s.receiver.i]));
            && W.CursorsAgree(x') && x'.subscriberPosition == s.x.subscriberPosition && x'.buf == s.x.buf
            && W.TermCount(x') == W.TermCount(s.x) && x'.termLength == s.x.termLength
            && x'.receiverPosition == if s.x.receiverPosition < End(h[i]) then End(h[i]) else s.x.receiverPosition
  {
    hide W.CursorsAgree, StreamOk, ReaderOk, Delivered, HistoryOk, Wrap32, Align32, ComputePosition, W.TermsLeft,
         W.TermCount, PartitionIndex, TermFull, Stale, Accept, CommittedBytes, InTerms, Raise, RaisePosition,
         NewOffset, Offset;
    InvariantParts(h, s, stored, picked);
    var i := s.receiver.i;
    WireFacts(s.x, h, i);
    var f := WireOf(s.x, h[i]);
    TermRange(h[i].pos, W.TermCount(s.x), s.x.termLength);
    D.InWindowNotStale(s.x, f);
    FollowedIsAccepted(s.x, f);
    W.AcceptCursors(s.x, f, false);
    W.AcceptPosition(s.x, f);
    CursorsIgnoreLog(Accept(s.x, f, false), Followed(s.x, f));
    D.SameTermCount(s.x, Followed(s.x, f));
  }

  /**
   A higher receiver_position, when the frame at the cursor is not stored or the subscriber is not
   between its loads.
   */
  lemma FollowView(h: seq<Rec>, stored: set<nat>, recv: int, recv': int, p: nat, end: int, pc: SubscriberPc)
    requires PcOk(h, stored, recv, p, end, pc) && recv <= recv'
    requires pc.Checking? ==> !Covered(h, stored, p)
    ensures PcOk(h, stored, recv', p, end, pc)
  {
    hide Covered, Clear, NoneIn, FrameAt, PartRead, Align32;
    if pc.Skipping? && recv' < end {
      var top :| top in stored && top < |h| && p + pc.skip <= h[top].pos < end && End(h[top]) <= recv;
      assert End(h[top]) <= recv';
    }
  }

  lemma NotStoredUnderCheck(h: seq<Rec>, s: State, stored: set<nat>)
    requires HistoryOk(s.x.termLength, h) && ReaderOk(h, s, stored)
    requires s.subscriber.Checking? && s.receiver.Following? && !PublishesUnderCheck(h, s)
    ensures !Covered(h, stored, Cursor(s))
  {
    hide Align32, Aligned, HistoryOk, W.TermCount, Newest;
  }

  lemma FollowReader(h: seq<Rec>, s: State, s': State, stored: set<nat>)
    requires HistoryOk(s.x.termLength, h) && ReaderOk(h, s, stored) && !PublishesUnderCheck(h, s)
    requires s.receiver.Following? && s.receiver.i in stored && s.receiver.i < |h|
    requires s'.receiver.Resting? && s'.subscriber == s.subscriber && s'.x.subscriberPosition == s.x.subscriberPosition
    requires W.TermCount(s'.x) == W.TermCount(s.x) && s'.x.termLength == s.x.termLength
    requires var e := End(h[s.receiver.i]);
             s'.x.receiverPosition == if s.x.receiverPosition < e then e else s.x.receiverPosition
    ensures ReaderOk(h, s', stored)
  {
    hide W.TermCount, NotInside, PcOk, Align32, Aligned, HistoryOk, Covered;
    if s.subscriber.Checking? {
      NotStoredUnderCheck(h, s, stored);
    }
    FollowView(h, stored, s.x.receiverPosition, s'.x.receiverPosition, Cursor(s), ReadEnd(s.x), s.subscriber);
    if s.x.receiverPosition >= End(h[s.receiver.i]) && Cursor(s) < s.x.receiverPosition {
      var top :| top in stored && top < |h| && End(h[top]) == s.x.receiverPosition;
      assert End(h[top]) == s'.x.receiverPosition;
    } else if s.x.receiverPosition < End(h[s.receiver.i]) {
      assert End(h[s.receiver.i]) == s'.x.receiverPosition;
    }
  }

  lemma FollowKeeps(h: seq<Rec>, s: State, stored: set<nat>, picked: seq<nat>)
    requires Invariant(h, s, stored, picked) && s.receiver.Following? && !PublishesUnderCheck(h, s)
    ensures s.x.termLength > 0 && Invariant(h, ReceiverNext(h, s), stored, picked)
  {
    hide W.TermCount, W.CursorsAgree, StreamOk, ReaderOk, Delivered, HistoryOk, Holds, Followed, WireOf,
         PublishesUnderCheck;
    InvariantParts(h, s, stored, picked);
    FollowCursors(h, s, stored, picked);
    var s' := ReceiverNext(h, s);
    FollowReader(h, s, s', stored);
    DeliveredStays(h, s, s', stored, picked);
  }

  lemma ReceiverKeeps(h: seq<Rec>, s: State, stored: set<nat>, picked: seq<nat>) returns (stored': set<nat>)
    requires Invariant(h, s, stored, picked) && !PublishesUnderCheck(h, s) && !CommitsUnderScan(h, s)
    ensures s.x.termLength > 0 && Invariant(h, ReceiverNext(h, s), stored', picked)
    ensures Cursor(ReceiverNext(h, s)) == Cursor(s)
  {
    hide Invariant, PublishesUnderCheck, CommitsUnderScan, WireOf, FrameBase, OpenBytes, CleanSteps, Stale, TermFull;
    InvariantParts(h, s, stored, picked);
    stored' := stored;
    match s.receiver
    case Resting =>
    case Cleaning(i, step, done, _) =>
      StepsLeft(h, s, stored, picked, CleanedFor(h, s));
      if done < s.x.termLength || step < CleanSteps(s.x, CleanedFor(h, s)) {
        CleanStepKeeps(h, s, stored, picked, CleanedFor(h, s));
      } else {
        stored' := CleanDoneKeeps(h, s, stored, picked, CleanedFor(h, s));
      }
    case Copying(_, _, _) => CopyKeeps(h, s, stored, picked);
    case Committing(i, _) =>
      CommitKeeps(h, s, stored, picked);
      stored' := stored + {i};
    case Following(_) => FollowKeeps(h, s, stored, picked);
  }
}
