/**
 Every step of either thread keeps the invariant of `ImageSteps`.
 */
module ImageStepsKept {
  import opened Wrappers
  import opened Arith
  import opened Bytes
  import opened TermLog
  import opened PublicationHistory
  import opened PublicationScan
  import opened Image
  import opened ImageStream
  import opened ImagePoll
  import opened ImageSteps
  import W = ImageWindow
  import D = ImageDelivery

  // ---- What the subscriber sees of a log under work ----

  lemma {:induction false} NotYetCleaned(x: Image, step: nat, d: int, t: nat)
    requires 0 <= W.TermCount(x) && 0 < step <= 4 && step <= d && W.TermCount(x) + d < TWO31
    requires W.TermCount(x) + d - 3 <= t <= W.TermCount(x)
    ensures !W.Cleaned(x, step, t % 4)
  {
    hide W.Cleaned, W.TermCount;
    W.CleanedExactly(x, step, t % 4);
    var k := W.TermCount(x);
    assert (t % 4 - k - 1) % 4 == (t - k - 1) % 4;
  }

  /** Cleaning under way leaves the terms of the next window alone. */
  lemma PieceStaysPartly(x: Image, step: nat, done: nat, d: int, pos: nat, bytes: seq<Byte>)
    requires ImageOk(x) && Shows(x.buf, pos, bytes) && pos % x.termLength + |bytes| <= x.termLength
    requires 0 <= W.TermCount(x) && 0 < step <= 4 && step <= d && W.TermCount(x) + d < TWO31 && done <= x.termLength
    requires W.TermCount(x) + d - 3 <= pos / x.termLength <= W.TermCount(x)
    ensures Shows(PartlyClean(x, step, done), pos, bytes)
  {
    hide IsPowerOfTwo, CleanAhead, Wrap32, PartitionIndex, W.TermCount, Aligned;
    var tl := x.termLength;
    var t, off, origin := SplitPosition(pos, tl);
    NotYetCleaned(x, step, d, t);
    PieceStays(x, step - 1, pos, bytes) by { hide PartlyClean, Store; }
    SlotOfBlock(t, off, tl, 4);
    var p := PartitionIndex(Wrap32(x.activeTermId + step), x.initialTermId);
    PartitionFits(p, tl);
    assert p != t % 4;
    OtherPartition(CleanAhead(x, step - 1), tl, p, Zeros(done), t % 4, off, bytes);
  }

  lemma OtherPartition(buf: seq<Byte>, tl: nat, p: nat, piece: seq<Byte>, p': nat, off: nat, bytes: seq<Byte>)
    requires |buf| == 4 * tl && tl > 0 && p < 4 && p' < 4 && p != p' && |piece| <= tl && off + |bytes| <= tl
    requires p' * tl + off + |bytes| <= |buf| && buf[p' * tl + off..p' * tl + off + |bytes|] == bytes
    requires p * tl + |piece| <= |buf|
    ensures Splice(buf, p * tl, piece)[p' * tl + off..p' * tl + off + |bytes|] == bytes
  {
    var at := p' * tl + off;
    assert p * tl + tl <= p' * tl || p' * tl + tl <= p * tl by {
      PartitionsApart(p, p', tl);
    }
    forall j | 0 <= j < |bytes| ensures Splice(buf, p * tl, piece)[at + j] == bytes[j] {
      assert buf[at..at + |bytes|][j] == buf[at + j];
    }
  }

  lemma PartitionsApart(p: nat, p': nat, tl: nat)
    requires p != p' && tl > 0
    ensures p * tl + tl <= p' * tl || p' * tl + tl <= p * tl
  {
    MulStep(p, p', tl);
    MulStep(p', p, tl);
  }

  /** The receiver is not writing at `q`. */
  ghost predicate Undisturbed(h: seq<Rec>, s: State, q: nat) {
    Appending(s) ==> !InFrame(h, s.receiver.i, q)
  }

  ghost predicate InView(h: seq<Rec>, s: State, q: nat) {
    s.x.termLength > 0 && TargetTerm(h, s) - 3 <= q / s.x.termLength <= W.TermCount(s.x)
  }

  lemma ViewBlank(h: seq<Rec>, s: State, stored: set<nat>, q: nat)
    requires W.CursorsAgree(s.x) && StreamOk(s.x.termLength, h) && LogOk(h, s, stored)
    requires InView(h, s, q) && Aligned(q) && Undisturbed(h, s, q) && !Covered(h, stored, q)
    ensures Shows(s.x.buf, q, BLANK)
  {
    hide IsPowerOfTwo, CleanAhead, Wrap32, PartitionIndex, W.TermCount, Aligned, Shows, Covered, PartlyClean, InFrame,
         W.CursorsAgree, HistoryOk, OpenBytes, Holds;
    W.CursorsParts(s.x);
    var x, k, tl := s.x, W.TermCount(s.x), s.x.termLength;
    TermRange(q, k, tl);
    match s.receiver
    case Resting => HoldsBlank(x.buf, k, tl, h, stored, q);
    case Following(_) => HoldsBlank(x.buf, k, tl, h, stored, q);
    case Cleaning(i, step, done, before) =>
      HoldsBlank(before.buf, k, tl, h, stored, q);
      BlankFits(q, tl);
      MovedTerm(h, x, i);
      D.SameTermCount(x, before);
      PieceStaysPartly(before, step, done, h[i].pos / tl - k, q, BLANK);
    case Copying(i, _, _) => ExceptBlank(x.buf, k, tl, h, stored, i, q);
    case Committing(i, _) => ExceptBlank(x.buf, k, tl, h, stored, i, q);
  }

  lemma ExceptBlank(buf: seq<Byte>, k: int, tl: nat, h: seq<Rec>, stored: set<nat>, a: nat, q: nat)
    requires HoldsExcept(buf, k, tl, h, stored, a) && InTerms(k, tl, q) && Aligned(q)
    requires !Covered(h, stored, q) && !InFrame(h, a, q)
    ensures Shows(buf, q, BLANK)
  {
    hide Shows, Aligned, InTerms, Covered, InFrame;
    TermRange(q, k, tl);
  }

  lemma MovedTerm(h: seq<Rec>, x: Image, i: nat)
    requires W.CursorsAgree(x) && StreamOk(x.termLength, h) && MovesWindow(h, x, i)
    ensures h[i].pos / x.termLength < TWO31
  {
    hide IsPowerOfTwo, HistoryOk, Wrap32, Aligned;
    var t, off, origin := FramePlace(x.termLength, h, i);
  }

  lemma ViewFrame(h: seq<Rec>, s: State, stored: set<nat>, j: nat)
    requires W.CursorsAgree(s.x) && StreamOk(s.x.termLength, h) && LogOk(h, s, stored)
    requires j in stored && j < |h| && InView(h, s, h[j].pos) && Undisturbed(h, s, h[j].pos)
    ensures IsData(h, j) && Shows(s.x.buf, h[j].pos, h[j].bytes)
  {
    hide IsPowerOfTwo, CleanAhead, Wrap32, PartitionIndex, W.TermCount, Aligned, Shows, Covered, PartlyClean,
         W.CursorsAgree, HistoryOk, OpenBytes, Align32, InTerms;
    W.CursorsParts(s.x);
    var x, k, tl := s.x, W.TermCount(s.x), s.x.termLength;
    if s.receiver.Cleaning? {
      var Cleaning(i, step, done, before) := s.receiver;
      MovedTerm(h, x, i);
      D.SameTermCount(x, before);
      var t, off, origin := FramePlace(tl, h, j);
      PieceStaysPartly(before, step, done, h[i].pos / tl - k, h[j].pos, h[j].bytes);
    } else if Appending(s) {
      NonemptyStart(s.x.termLength, h, j);
    }
  }

  lemma NonemptyStart(tl: nat, h: seq<Rec>, j: nat)
    requires StreamOk(tl, h) && j < |h|
    ensures InFrame(h, j, h[j].pos)
  {
    hide Align32;
    StoredNonempty(tl, h, j);
  }

  // ---- The subscriber ----

  /** Where the subscriber reads: term, offset in it and partition. */
  lemma ReadPlace(h: seq<Rec>, s: State) returns (t: nat, origin: nat, pos: nat)
    requires W.CursorsAgree(s.x) && s.x.termLength > 0 && Aligned(s.x.termLength)
    requires s.x.subscriberPosition >= 0 && Aligned(Cursor(s)) && Cursor(s) <= ReadEnd(s.x)
    requires s.x.subscriberPosition / s.x.termLength <= W.TermCount(s.x)
    ensures TermAt(t, origin, ReadBase(s.x), s.x.termLength) && t == s.x.subscriberPosition / s.x.termLength
    ensures pos == ReadOffset(s.x) + Scanned(s.subscriber) <= s.x.termLength && Cursor(s) == origin + pos
    ensures Aligned(pos) && ReadEnd(s.x) == origin + s.x.termLength
  {
    hide IsPowerOfTwo, Wrap32, Aligned, PartitionIndex, TermIdOf, W.TermCount, W.CursorsAgree;
    W.CursorsParts(s.x);
    var off;
    t, off, origin := SplitPosition(s.x.subscriberPosition, s.x.termLength);
    D.SubscriberTerm(s.x, t);
    D.MakeTermAt(t, origin, s.x.termLength);
    pos := off + Scanned(s.subscriber);
    AlignedOffset(t, s.x.termLength, Cursor(s));
  }

  /** A position of the subscriber's term from the cursor on is one the receiver leaves alone. */
  lemma ReadInView(h: seq<Rec>, s: State, stored: set<nat>, t: nat, origin: nat, base: nat, q: nat)
    requires s.x.termLength > 0 && TermAt(t, origin, base, s.x.termLength) && t <= W.TermCount(s.x)
    requires (TargetTerm(h, s) - 3) * s.x.termLength <= Cursor(s) <= q < origin + s.x.termLength && origin <= q
    ensures InView(h, s, q)
  {
    hide W.TermCount, TargetTerm;
    var tl, low := s.x.termLength, TargetTerm(h, s) - 3;
    DivModUnique(q, t, q - origin, tl);
    if low > t {
      MulStep(t, low, tl);
    }
  }

  /** Moving the cursor, or stopping. */
  lemma ReaderMoves(h: seq<Rec>, s: State, s': State, stored: set<nat>)
    requires ReaderOk(h, s, stored)
    requires s'.x == s.x.(subscriberPosition := s'.x.subscriberPosition) && s'.receiver == s.receiver
    requires s.x.subscriberPosition <= s'.x.subscriberPosition && Cursor(s) <= Cursor(s')
    requires NotInside(h, Cursor(s')) && Aligned(Cursor(s'))
    requires Cursor(s') == Cursor(s) || Cursor(s') <= s.x.receiverPosition
             || (s.receiver.Following? && s.receiver.i < |h| && Cursor(s') <= End(h[s.receiver.i]))
    requires !s'.subscriber.Idle? ==> Reads(s')
    requires PcOk(h, stored, s.x.receiverPosition, Cursor(s'), ReadEnd(s'.x), s'.subscriber)
    ensures ReaderOk(h, s', stored)
  {
    hide NotInside, Aligned, PcOk, W.TermCount, Align32;
    assert W.TermCount(s'.x) == W.TermCount(s.x) by { D.SameTermCount(s.x, s'.x); }
    if s.x.receiverPosition > Cursor(s') {
      var top :| top in stored && top < |h| && End(h[top]) == s.x.receiverPosition;
      assert End(h[top]) == s'.x.receiverPosition;
    }
  }

  lemma LogStays(h: seq<Rec>, s: State, s': State, stored: set<nat>)
    requires LogOk(h, s, stored)
    requires s'.x == s.x.(subscriberPosition := s'.x.subscriberPosition) && s'.receiver == s.receiver
    ensures LogOk(h, s', stored)
  {
    hide Holds, Shows, HoldsExcept, PartlyClean, W.TermCount, InTerms, OpenBytes;
    D.SameTermCount(s.x, s'.x);
  }

  lemma CursorsStay(x: Image, x': Image)
    requires W.CursorsAgree(x) && x' == x.(subscriberPosition := x'.subscriberPosition)
    ensures W.CursorsAgree(x')
  {
    hide IsPowerOfTwo, Wrap32, Aligned;
  }

  /** A step that only moves the subscriber and delivers nothing. */
  lemma QuietStep(h: seq<Rec>, s: State, s': State, stored: set<nat>, picked: seq<nat>)
    requires Invariant(h, s, stored, picked)
    requires s'.x == s.x.(subscriberPosition := s'.x.subscriberPosition) && s'.receiver == s.receiver
    requires Cursor(s) <= Cursor(s') && s'.delivered == s.delivered && ReaderOk(h, s', stored)
    ensures Invariant(h, s', stored, picked)
  {
    hide LogOk, ReaderOk, W.CursorsAgree, StreamOk, Payloads;
    LogStays(h, s, s', stored);
    CursorsStay(s.x, s'.x);
  }

  lemma FinishKeeps(h: seq<Rec>, s: State, stored: set<nat>, picked: seq<nat>)
    requires Invariant(h, s, stored, picked)
    ensures Invariant(h, Finish(s, Scanned(s.subscriber)), stored, picked)
  {
    hide LogOk, W.CursorsAgree, StreamOk, Delivered, NotInside, Aligned, W.TermCount;
    var s' := Finish(s, Scanned(s.subscriber));
    ReaderMoves(h, s, s', stored);
    QuietStep(h, s, s', stored, picked);
  }

  lemma TermAtOrigin(t: nat, origin: nat, base: nat, tl: nat)
    requires TermAt(t, origin, base, tl)
    ensures origin == t * tl
  {
  }

  lemma LogSize(h: seq<Rec>, s: State, stored: set<nat>)
    requires LogOk(h, s, stored)
    ensures |s.x.buf| == 4 * s.x.termLength
  {
  }

  lemma HistoryRec(tl: nat, h: seq<Rec>, j: nat)
    requires HistoryOk(tl, h) && j < |h|
    ensures RecOk(tl, h[j])
  {
  }

  lemma DataLength(tl: nat, h: seq<Rec>, j: nat)
    requires HistoryOk(tl, h) && IsData(h, j)
    ensures |h[j].bytes| == h[j].len >= HEADER
  {
    assert RecOk(tl, h[j]);
  }

  /** Two frames, one of which starts inside the other, are the same. */
  lemma SameFrame(tl: nat, h: seq<Rec>, i: nat, j: nat)
    requires HistoryOk(tl, h) && j < |h| && InFrame(h, i, h[j].pos)
    ensures i == j
  {
    hide Align32, HistoryOk;
    BoundaryNotInside(tl, h, j);
    StartsDiffer(tl, h, i, j);
  }

  lemma AgainStored(h: seq<Rec>, s: State, stored: set<nat>)
    requires LogOk(h, s, stored) && Appending(s)
    ensures s.receiver.again <==> s.receiver.i in stored
  {
  }

  /** A stored frame whose length is about to be loaded is not the one being written. */
  lemma StoredUndisturbed(h: seq<Rec>, s: State, stored: set<nat>, j: nat)
    requires HistoryOk(s.x.termLength, h) && s.x.termLength > 0 && LogOk(h, s, stored) && !LoadsUnderWrite(h, s)
    requires j in stored && j < |h| && NextLoad(s) == Some(h[j].pos) && h[j].pos < ReadEnd(s.x)
    ensures Undisturbed(h, s, h[j].pos)
  {
    hide Align32, HistoryOk, LogOk, ReadEnd;
    if Appending(s) && InFrame(h, s.receiver.i, h[j].pos) {
      SameFrame(s.x.termLength, h, s.receiver.i, j);
      AgainStored(h, s, stored);
    }
  }

  /** Where nothing is stored there is no length, even while a frame that starts there is being written. */
  lemma WordBlank(h: seq<Rec>, s: State, stored: set<nat>, q: nat)
    requires W.CursorsAgree(s.x) && StreamOk(s.x.termLength, h) && LogOk(h, s, stored)
    requires InView(h, s, q) && Aligned(q) && !Covered(h, stored, q)
    requires Appending(s) && InFrame(h, s.receiver.i, q) ==> h[s.receiver.i].pos == q
    ensures Shows(s.x.buf, q, BLANK)
  {
    hide Align32, Aligned, HistoryOk, Shows, W.TermCount, W.CursorsAgree, Holds, HoldsExcept, InTerms, OpenBytes,
         PartlyClean, ShowsRest;
    if !(Appending(s) && InFrame(h, s.receiver.i, q)) {
      ViewBlank(h, s, stored, q);
    }
  }

  /** A length load gives the length of the stored frame there, or zero. */
  lemma LoadedWord(h: seq<Rec>, s: State, stored: set<nat>, t: nat, origin: nat, g: nat) returns (j: nat)
    requires W.CursorsAgree(s.x) && StreamOk(s.x.termLength, h) && LogOk(h, s, stored) && !LoadsUnderWrite(h, s)
    requires s.x.termLength > 0 && TermAt(t, origin, ReadBase(s.x), s.x.termLength) && g < s.x.termLength
    requires ReadEnd(s.x) == origin + s.x.termLength && NextLoad(s) == Some(origin + g)
    requires InView(h, s, origin + g) && Aligned(origin + g) && Clear(h, stored, origin + g)
    ensures var word := LengthWord(s.x.buf, ReadBase(s.x) + g);
            if Covered(h, stored, origin + g)
            then FrameAt(h, stored, j, origin + g, word) && g + Align32(word) <= s.x.termLength
            else word == 0
  {
    hide Align32, Aligned, HistoryOk, Shows, LengthWord, TermAt, W.CursorsAgree, W.TermCount, LogOk, Clear, Covered,
         ReadBase, InView, StreamOk, InFrame, ReadEnd, LoadsUnderWrite, NextLoad, Appending;
    StreamParts(s.x.termLength, h);
    LogSize(h, s, stored);
    j := 0;
    if Covered(h, stored, origin + g) {
      j := CoveredStart(h, stored, origin + g);
      StoredUndisturbed(h, s, stored, j);
      ViewFrame(h, s, stored, j);
      HistoryRec(s.x.termLength, h, j);
      FrameWord(s.x.buf, s.x.termLength, t, origin, ReadBase(s.x), g, h[j]);
      DataLength(s.x.termLength, h, j);
    } else {
      HeadOnly(h, s, origin + g);
      WordBlank(h, s, stored, origin + g);
      BlankWord(s.x.buf, s.x.termLength, t, origin, ReadBase(s.x), g);
    }
  }

  lemma HeadOnly(h: seq<Rec>, s: State, q: nat)
    requires !LoadsUnderWrite(h, s) && NextLoad(s) == Some(q) && s.x.termLength > 0 && q < ReadEnd(s.x)
    ensures Appending(s) && InFrame(h, s.receiver.i, q) ==> h[s.receiver.i].pos == q
  {
    hide ReadEnd, NextLoad;
  }

  /** A data frame the cursor passes is delivered by that step, or has no committed length. */
  ghost predicate Accounts(h: seq<Rec>, s: State, s': State) {
    forall j: nat :: IsData(h, j) && Cursor(s) <= h[j].pos < Cursor(s') ==>
      s'.delivered == s.delivered + [Payload(h, j)] || Shows(s.x.buf, h[j].pos, BLANK)
  }

  lemma InvariantParts(h: seq<Rec>, s: State, stored: set<nat>, picked: seq<nat>)
    requires Invariant(h, s, stored, picked)
    ensures s.x.termLength > 0 && |s.x.buf| == 4 * s.x.termLength && Aligned(s.x.termLength)
    ensures HistoryOk(s.x.termLength, h) && 0 <= s.x.subscriberPosition && Aligned(Cursor(s))
    ensures !s.subscriber.Idle? ==> Cursor(s) <= ReadEnd(s.x)
    ensures s.subscriber.Skipping? || s.subscriber.Typing? || s.subscriber.Reading? ==>
              s.x.subscriberPosition / s.x.termLength <= W.TermCount(s.x)
  {
    hide Aligned, HistoryOk, W.TermCount, Covered, Clear, NoneIn, LiesAhead, FrameAt, PartRead;
  }

  /** The word at the cursor. */
  lemma CursorWord(h: seq<Rec>, s: State, stored: set<nat>, picked: seq<nat>, t: nat, origin: nat, pos: nat)
    returns (j: nat)
    requires Invariant(h, s, stored, picked) && s.subscriber.Loading? && s.subscriber.left > 0 && !LoadsUnderWrite(h, s)
    requires s.x.subscriberPosition / s.x.termLength == t <= W.TermCount(s.x)
    requires ReadEnd(s.x) == origin + s.x.termLength
    requires TermAt(t, origin, ReadBase(s.x), s.x.termLength) && pos < s.x.termLength && Cursor(s) == origin + pos
    ensures var word := LengthWord(s.x.buf, ReadBase(s.x) + pos);
            if Covered(h, stored, origin + pos)
            then FrameAt(h, stored, j, Cursor(s), word) && pos + Align32(word) <= s.x.termLength
            else word == 0
  {
    hide Align32, Aligned, HistoryOk, LengthWord, NotInside, TermAt, W.CursorsAgree, W.TermCount, LogOk, Delivered,
         PcOk, Clear, Covered, ReadBase, StreamOk, ReadEnd, LoadsUnderWrite, InView, Newest, Ends;
    TermAtOrigin(t, origin, ReadBase(s.x), s.x.termLength);
    ReadInView(h, s, stored, t, origin, ReadBase(s.x), origin + pos);
    ClearIfNotInside(h, stored, origin + pos);
    j := LoadedWord(h, s, stored, t, origin, pos);
  }

  /** Beyond the newest term there is nothing to be reached. */
  lemma PastEnd(x: Image)
    requires W.CursorsAgree(x) && x.subscriberPosition >= 0 && x.subscriberPosition / x.termLength > W.TermCount(x)
    ensures x.receiverPosition <= x.subscriberPosition
  {
    hide IsPowerOfTwo, Aligned, Wrap32, W.CursorsAgree, W.TermCount;
    W.CursorsParts(x);
    Furthest(x);
    var t, off, origin := SplitPosition(x.subscriberPosition, x.termLength);
    MulStep(W.TermCount(x), t, x.termLength);
  }

  lemma Furthest(x: Image)
    requires W.CursorsAgree(x)
    ensures x.receiverPosition <= W.TermCount(x) * x.termLength + x.termLength
  {
    hide IsPowerOfTwo, Aligned, Wrap32;
  }

  /** A poll that has not passed a position of the window reads a term of the window. */
  lemma BelowWindowEnd(x: Image, q: nat)
    requires x.termLength > 0 && 0 <= x.subscriberPosition <= q && InTerms(W.TermCount(x), x.termLength, q)
    ensures x.subscriberPosition / x.termLength <= W.TermCount(x)
  {
    hide W.TermCount, InTerms;
    var k, tl := W.TermCount(x), x.termLength;
    TermRange(q, k, tl);
    var t, off, origin := SplitPosition(x.subscriberPosition, tl);
    var u, off', origin' := SplitPosition(q, tl);
    if u < t {
      MulStep(u, t, tl);
    }
  }

  /** A poll at the end of the newest term that finds no length. */
  lemma EndLoadKeeps(h: seq<Rec>, s: State, stored: set<nat>, picked: seq<nat>)
    requires Invariant(h, s, stored, picked) && s.subscriber.Loading? && !LoadsStale(s)
    requires s.x.subscriberPosition / s.x.termLength > W.TermCount(s.x)
    ensures s.x.termLength > 0
    ensures Invariant(h, SubscriberNext(s), stored, picked) && Cursor(SubscriberNext(s)) == Cursor(s)
  {
    hide Align32, Aligned, HistoryOk, LengthWord, W.TermCount, Covered, ReadBase, ReadOffset, NotInside, Ends, Newest,
         W.CursorsAgree, StreamOk, LogOk, Delivered;
    var s' := SubscriberNext(s);
    FinishKeeps(h, s, stored, picked);
    PastEnd(s.x);
    if s'.subscriber != Idle {
      ReaderMoves(h, s, s', stored);
      QuietStep(h, s, s', stored, picked);
    }
  }

  lemma LoadKeeps(h: seq<Rec>, s: State, stored: set<nat>, picked: seq<nat>)
    requires Invariant(h, s, stored, picked) && s.subscriber.Loading? && !LoadsUnderWrite(h, s)
    requires s.x.subscriberPosition / s.x.termLength <= W.TermCount(s.x)
    ensures s.x.termLength > 0
    ensures Invariant(h, SubscriberNext(s), stored, picked) && Cursor(SubscriberNext(s)) == Cursor(s)
  {
    hide Align32, Aligned, HistoryOk, LengthWord, TermAt, W.TermCount, Covered, ReadBase, ReadOffset, Invariant,
         NotInside, Ends, Newest, Shows, LoadsUnderWrite, ReadEnd;
    InvariantParts(h, s, stored, picked);
    var s' := SubscriberNext(s);
    var t, origin, pos := ReadPlace(h, s) by {
      hide StreamOk, LogOk, ReaderOk, Delivered;
      InvariantReader(h, s, stored, picked);
    }
    FinishKeeps(h, s, stored, picked);
    if s'.subscriber != Idle {
      var j := CursorWord(h, s, stored, picked, t, origin, pos);
      InvariantReader(h, s, stored, picked);
      ReaderMoves(h, s, s', stored) by { hide FrameAt; }
      QuietStep(h, s, s', stored, picked) by { hide ReaderOk; }
    }
  }

  lemma InvariantReader(h: seq<Rec>, s: State, stored: set<nat>, picked: seq<nat>)
    requires Invariant(h, s, stored, picked)
    ensures W.CursorsAgree(s.x) && StreamOk(s.x.termLength, h) && LogOk(h, s, stored) && ReaderOk(h, s, stored)
  {
  }

  /** A gap that receiver_position shows to exist. */
  lemma GapBegins(tl: nat, h: seq<Rec>, stored: set<nat>, recv: int, p: nat, end: int)
    requires StreamOk(tl, h) && Aligned(p) && Aligned(end) && p < end && p < recv && NotInside(h, p)
    requires !Covered(h, stored, p) && Newest(h, stored, recv, p)
    ensures p + 32 <= end && Aligned(p + 32) && Clear(h, stored, p + 32) && NoneIn(h, stored, p, p + 32)
    ensures LiesAhead(h, stored, recv, p + 32, end)
  {
    hide Align32, Aligned, HistoryOk, Clear, Covered;
    AlignedSum(p, end);
    GranuleNext(p);
    ClearNext(tl, h, stored, p);
    var top :| top in stored && top < |h| && End(h[top]) == recv;
  }

  lemma ReadEndAligned(h: seq<Rec>, s: State, stored: set<nat>, picked: seq<nat>)
    requires Invariant(h, s, stored, picked)
    ensures s.x.termLength > 0 && Aligned(ReadEnd(s.x))
  {
    hide Aligned, HistoryOk, W.TermCount, PcOk, W.CursorsAgree, LogOk;
    W.CursorsParts(s.x);
    var t, off, origin := SplitPosition(s.x.subscriberPosition, s.x.termLength);
    AlignedMultiple(t, s.x.termLength);
    AlignedSum(origin, s.x.termLength);
  }

  lemma CheckKeeps(h: seq<Rec>, s: State, stored: set<nat>, picked: seq<nat>)
    requires Invariant(h, s, stored, picked) && s.subscriber.Checking?
    ensures s.x.termLength > 0
    ensures Invariant(h, SubscriberNext(s), stored, picked) && Cursor(SubscriberNext(s)) == Cursor(s)
  {
    hide Align32, Aligned, HistoryOk, W.TermCount, Covered, Invariant, NotInside, Ends, Newest, Shows, Clear,
         NoneIn, LiesAhead, LogOk, ReadEnd;
    ReadEndAligned(h, s, stored, picked);
    var s' := SubscriberNext(s);
    FinishKeeps(h, s, stored, picked);
    if s'.subscriber != Idle {
      InvariantReader(h, s, stored, picked);
      if s.x.subscriberPosition / s.x.termLength > W.TermCount(s.x) {
        PastEnd(s.x);
      }
      GapBegins(s.x.termLength, h, stored, s.x.receiverPosition, Cursor(s), ReadEnd(s.x));
      ReaderMoves(h, s, s', stored);
      QuietStep(h, s, s', stored, picked) by { hide ReaderOk; }
    }
  }

  /** Reading on in a gap: at a stored frame the gap ends, else the next granule is still in it. */
  lemma SkipWord(h: seq<Rec>, s: State, stored: set<nat>, picked: seq<nat>, t: nat, origin: nat, g: nat)
    requires Invariant(h, s, stored, picked) && s.subscriber.Skipping? && !LoadsUnderWrite(h, s)
    requires s.x.subscriberPosition / s.x.termLength == t
    requires TermAt(t, origin, ReadBase(s.x), s.x.termLength) && g < s.x.termLength
    requires ReadEnd(s.x) == origin + s.x.termLength
    requires Cursor(s) + s.subscriber.skip == origin + g
    ensures LengthWord(s.x.buf, ReadBase(s.x) + g) > 0 <==> Covered(h, stored, origin + g)
  {
    hide Align32, Aligned, HistoryOk, LengthWord, NotInside, TermAt, W.CursorsAgree, W.TermCount, LogOk, Clear, Covered,
         ReadBase, StreamOk, Delivered, NoneIn, LiesAhead, ReadEnd, Ends, Newest, LoadsUnderWrite, InView;
    TermAtOrigin(t, origin, ReadBase(s.x), s.x.termLength);
    ReadInView(h, s, stored, t, origin, ReadBase(s.x), origin + g);
    var j := LoadedWord(h, s, stored, t, origin, g);
  }

  /** The end of a gap, or its next granule. */
  lemma GapGoesOn(tl: nat, h: seq<Rec>, stored: set<nat>, recv: int, p: nat, q: nat, end: int)
    requires StreamOk(tl, h) && Aligned(q) && Aligned(end) && p <= q < end && !Covered(h, stored, q)
    requires NoneIn(h, stored, p, q) && LiesAhead(h, stored, recv, q, end)
    ensures q + 32 <= end && Aligned(q + 32) && Clear(h, stored, q + 32) && NoneIn(h, stored, p, q + 32)
    ensures LiesAhead(h, stored, recv, q + 32, end)
  {
    hide Align32, Aligned, HistoryOk, Clear, Covered;
    AlignedSum(q, end);
    GranuleNext(q);
    ClearNext(tl, h, stored, q);
    if recv < end {
      var top :| top in stored && top < |h| && q <= h[top].pos < end && End(h[top]) <= recv;
      assert q + 32 <= h[top].pos;
    }
  }

  lemma GapEnds(h: seq<Rec>, s: State, stored: set<nat>, q: nat)
    requires StreamOk(s.x.termLength, h) && ReaderOk(h, s, stored) && Covered(h, stored, q) && Clear(h, stored, q)
    ensures NotInside(h, q)
    ensures q <= s.x.receiverPosition || (s.receiver.Following? && s.receiver.i < |h| && q <= End(h[s.receiver.i]))
  {
    hide Align32, Aligned, HistoryOk, NotInside, PcOk, W.TermCount, Newest, Clear;
    var j := CoveredStart(h, stored, q);
    BoundaryNotInside(s.x.termLength, h, j);
    StoredNonempty(s.x.termLength, h, j);
  }

  lemma SkipKeeps(h: seq<Rec>, s: State, stored: set<nat>, picked: seq<nat>)
    requires Invariant(h, s, stored, picked) && s.subscriber.Skipping? && !LoadsUnderWrite(h, s)
    ensures s.x.termLength > 0
    ensures Invariant(h, SubscriberNext(s), stored, picked) && Cursor(s) <= Cursor(SubscriberNext(s)) <= ReadEnd(s.x)
    ensures NoneIn(h, stored, Cursor(s), Cursor(SubscriberNext(s)))
  {
    hide Align32, Aligned, HistoryOk, LengthWord, TermAt, W.TermCount, Covered, ReadBase, ReadOffset, Invariant,
         NotInside, Ends, Newest, Shows, Clear, LiesAhead, LogOk, ReadEnd, StreamOk, W.CursorsAgree,
         LoadsUnderWrite;
    InvariantParts(h, s, stored, picked);
    InvariantReader(h, s, stored, picked);
    ReadEndAligned(h, s, stored, picked);
    var s', tl := SubscriberNext(s), s.x.termLength;
    var t, origin, pos := ReadPlace(h, s);
    var p, q, end := Cursor(s), Cursor(s) + s.subscriber.skip, ReadEnd(s.x);
    if q < end {
      SkipWord(h, s, stored, picked, t, origin, pos + s.subscriber.skip);
      if Covered(h, stored, q) {
        GapEnds(h, s, stored, q);
      } else {
        GapGoesOn(tl, h, stored, s.x.receiverPosition, p, q, end);
      }
    } else {
      TermEndNotInside(tl, h, t, origin, ReadBase(s.x));
      NothingAhead(h, stored, s.x.receiverPosition, q, end);
    }
    ReaderMoves(h, s, s', stored);
    QuietStep(h, s, s', stored, picked) by { hide ReaderOk; }
  }

  lemma NothingAhead(h: seq<Rec>, stored: set<nat>, recv: int, q: int, end: int)
    requires LiesAhead(h, stored, recv, q, end) && end <= q
    ensures end <= recv
  {
  }

  /** The frame under the cursor is in the log as it was sent. */
  lemma FrameUnderCursor(h: seq<Rec>, s: State, stored: set<nat>, picked: seq<nat>, j: nat, t: nat, origin: nat,
                         pos: nat)
    requires Invariant(h, s, stored, picked) && (s.subscriber.Typing? || s.subscriber.Reading?)
    requires s.x.subscriberPosition / s.x.termLength == t
    requires TermAt(t, origin, ReadBase(s.x), s.x.termLength) && pos < s.x.termLength && Cursor(s) == origin + pos
    requires j in stored && j < |h| && h[j].pos == Cursor(s)
    ensures var at, len := ReadBase(s.x) + pos, h[j].len;
            && IsData(h, j) && HEADER <= len == |h[j].bytes| && at + len <= |s.x.buf|
            && DecodeU16(s.x.buf, at + 6) == TYPE_DATA && pos + Align32(len) <= s.x.termLength
            && s.x.buf[at + HEADER..at + len] == h[j].bytes[HEADER..]
  {
    hide Align32, Aligned, HistoryOk, Shows, LengthWord, NotInside, TermAt, W.CursorsAgree, W.TermCount, LogOk, PcOk,
         ReadBase, StreamOk, Delivered, Ends, Newest, DecodeU16;
    InvariantParts(h, s, stored, picked);
    TermAtOrigin(t, origin, ReadBase(s.x), s.x.termLength);
    ReadInView(h, s, stored, t, origin, ReadBase(s.x), origin + pos);
    HistoryRec(s.x.termLength, h, j);
    if Appending(s) && InFrame(h, s.receiver.i, h[j].pos) {
      SameFrame(s.x.termLength, h, s.receiver.i, j);
      WrittenAgain(h, s, stored, j, t, origin, pos);
    } else {
      ViewFrame(h, s, stored, j);
      FrameWord(s.x.buf, s.x.termLength, t, origin, ReadBase(s.x), pos, h[j]);
    }
    DataLength(s.x.termLength, h, j);
  }

  /** Even a frame that is being written again can be read on. */
  lemma WrittenAgain(h: seq<Rec>, s: State, stored: set<nat>, j: nat, t: nat, origin: nat, pos: nat)
    requires LogOk(h, s, stored) && Appending(s) && s.receiver.i == j && j in stored && j < |h| && s.x.termLength > 0
    requires TermAt(t, origin, ReadBase(s.x), s.x.termLength) && pos < s.x.termLength && h[j].pos == origin + pos
    requires RecOk(s.x.termLength, h[j])
    ensures var at, len := ReadBase(s.x) + pos, h[j].len;
            && IsData(h, j) && HEADER <= len == |h[j].bytes| && at + len <= |s.x.buf|
            && DecodeU16(s.x.buf, at + 6) == TYPE_DATA && pos + Align32(len) <= s.x.termLength
            && s.x.buf[at + HEADER..at + len] == h[j].bytes[HEADER..]
  {
    hide Align32, Shows, HoldsExcept, Holds, InTerms, OpenBytes, PartlyClean, W.TermCount, ReadBase, DecodeI32, TermAt,
         DecodeU16;
    TermAtSlot(t, origin, ReadBase(s.x), s.x.termLength, pos);
    DivModUnique(h[j].pos, t, pos, s.x.termLength) by { TermAtOrigin(t, origin, ReadBase(s.x), s.x.termLength); }
    RestRead(s.x.buf, ReadBase(s.x) + pos, h[j].bytes);
  }

  lemma RestRead(buf: seq<Byte>, at: nat, bytes: seq<Byte>)
    requires HEADER <= |bytes| && at + |bytes| <= |buf| && buf[at + 4..at + |bytes|] == bytes[4..]
    ensures DecodeU16(buf, at + 6) == DecodeU16(bytes, 6) && buf[at + HEADER..at + |bytes|] == bytes[HEADER..]
  {
    forall j | 4 <= j < |bytes| ensures buf[at + j] == bytes[j] {
      assert buf[at + 4..at + |bytes|][j - 4] == bytes[4..][j - 4];
    }
  }

  lemma TypeKeeps(h: seq<Rec>, s: State, stored: set<nat>, picked: seq<nat>)
    requires Invariant(h, s, stored, picked) && s.subscriber.Typing?
    ensures s.x.termLength > 0
    ensures Invariant(h, SubscriberNext(s), stored, picked) && Cursor(SubscriberNext(s)) == Cursor(s)
  {
    hide Align32, Aligned, HistoryOk, TermAt, W.TermCount, ReadBase, ReadOffset, Invariant, NotInside, Ends,
         Newest, LogOk, ReadEnd, StreamOk, W.CursorsAgree, DecodeU16;
    InvariantParts(h, s, stored, picked);
    InvariantReader(h, s, stored, picked);
    var t, origin, pos := ReadPlace(h, s);
    var j: nat :| FrameAt(h, stored, j, Cursor(s), s.subscriber.length);
    FrameUnderCursor(h, s, stored, picked, j, t, origin, pos);
    var s' := SubscriberNext(s);
    assert PartRead(h, j, []);
    ReaderMoves(h, s, s', stored);
    QuietStep(h, s, s', stored, picked) by { hide ReaderOk; }
  }

  lemma NextByte(h: seq<Rec>, j: nat, got: seq<Byte>, b: Byte)
    requires PartRead(h, j, got) && HEADER + |got| < |h[j].bytes| && b == h[j].bytes[HEADER + |got|]
    ensures PartRead(h, j, got + [b])
  {
  }

  lemma ReadByte(h: seq<Rec>, s: State, stored: set<nat>, picked: seq<nat>)
    requires Invariant(h, s, stored, picked) && s.subscriber.Reading?
    requires HEADER + |s.subscriber.got| < s.subscriber.length
    ensures s.x.termLength > 0
    ensures Invariant(h, SubscriberNext(s), stored, picked) && Cursor(SubscriberNext(s)) == Cursor(s)
  {
    hide Align32, Aligned, HistoryOk, TermAt, W.TermCount, ReadBase, ReadOffset, Invariant, NotInside, Ends,
         Newest, LogOk, ReadEnd, StreamOk, W.CursorsAgree, DecodeU16;
    InvariantParts(h, s, stored, picked);
    InvariantReader(h, s, stored, picked);
    var t, origin, pos := ReadPlace(h, s);
    var length, got := s.subscriber.length, s.subscriber.got;
    var j: nat :| FrameAt(h, stored, j, Cursor(s), length) && PartRead(h, j, got);
    FrameUnderCursor(h, s, stored, picked, j, t, origin, pos);
    var s', at := SubscriberNext(s), ReadBase(s.x) + pos;
    assert s.x.buf[at + HEADER..at + length][|got|] == h[j].bytes[HEADER..][|got|];
    NextByte(h, j, got, h[j].bytes[HEADER + |got|]);
    ReaderMoves(h, s, s', stored);
    QuietStep(h, s, s', stored, picked) by { hide ReaderOk; }
  }

  /** All bytes of the frame at the cursor have been read. */
  lemma WholeFrame(h: seq<Rec>, s: State, stored: set<nat>, picked: seq<nat>) returns (j: nat)
    requires Invariant(h, s, stored, picked) && s.subscriber.Reading?
    requires HEADER + |s.subscriber.got| >= s.subscriber.length
    ensures s.x.termLength > 0 && j in stored && IsData(h, j) && h[j].pos == Cursor(s)
    ensures h[j].len == s.subscriber.length
    ensures s.subscriber.got == Payload(h, j) && Cursor(s) + Align32(h[j].len) <= ReadEnd(s.x)
  {
    hide Align32, Aligned, HistoryOk, TermAt, W.TermCount, ReadBase, ReadOffset, Invariant, NotInside, Newest,
         Ends, LogOk, ReadEnd, StreamOk, W.CursorsAgree, DecodeU16;
    InvariantParts(h, s, stored, picked);
    InvariantReader(h, s, stored, picked);
    var t, origin, pos := ReadPlace(h, s);
    j :| FrameAt(h, stored, j, Cursor(s), s.subscriber.length) && PartRead(h, j, s.subscriber.got);
    FrameUnderCursor(h, s, stored, picked, j, t, origin, pos);
  }

  lemma ReadDone(h: seq<Rec>, s: State, stored: set<nat>, picked: seq<nat>) returns (j: nat)
    requires Invariant(h, s, stored, picked) && s.subscriber.Reading?
    requires HEADER + |s.subscriber.got| >= s.subscriber.length
    ensures s.x.termLength > 0
    ensures j < |h| && h[j].pos == Cursor(s) && Cursor(SubscriberNext(s)) == End(h[j])
    ensures SubscriberNext(s).delivered == s.delivered + [Payload(h, j)]
    ensures Invariant(h, SubscriberNext(s), stored, picked + [j])
  {
    hide Align32, Aligned, HistoryOk, W.TermCount, ReadBase, ReadOffset, Invariant, NotInside, Newest, Payload,
         LogOk, ReadEnd, StreamOk, W.CursorsAgree, DecodeU16, Delivered, FrameAt, PartRead;
    InvariantParts(h, s, stored, picked);
    j := WholeFrame(h, s, stored, picked);
    var s' := SubscriberNext(s);
    BoundaryNotInside(s.x.termLength, h, j);
    StoredNonempty(s.x.termLength, h, j);
    AlignedSum(Cursor(s), Align32(h[j].len));
    InvariantReader(h, s, stored, picked);
    ReaderMoves(h, s, s', stored);
    LogStays(h, s, s', stored) by { hide ReaderOk; }
    InvariantDelivered(h, s, stored, picked);
    DeliveredOne(h, s, s', picked, j) by { hide ReaderOk; }
    MakeInvariant(h, s', stored, picked + [j]) by { hide ReaderOk; }
  }

  lemma InvariantDelivered(h: seq<Rec>, s: State, stored: set<nat>, picked: seq<nat>)
    requires Invariant(h, s, stored, picked)
    ensures Delivered(h, s, picked)
  {
  }

  lemma MakeInvariant(h: seq<Rec>, s: State, stored: set<nat>, picked: seq<nat>)
    requires W.CursorsAgree(s.x) && StreamOk(s.x.termLength, h)
    requires LogOk(h, s, stored) && ReaderOk(h, s, stored) && Delivered(h, s, picked)
    ensures Invariant(h, s, stored, picked)
  {
  }

  lemma DeliveredOne(h: seq<Rec>, s: State, s': State, picked: seq<nat>, j: nat)
    requires HistoryOk(s.x.termLength, h) && Delivered(h, s, picked) && IsData(h, j)
    requires h[j].pos == Cursor(s) < Cursor(s')
    requires s'.delivered == s.delivered + [Payload(h, j)]
    ensures Delivered(h, s', picked + [j])
  {
    hide Align32, Payloads, Contiguous, RecOk;
    D.PayloadsConcat(h, picked, [j]);
    assert Payloads(h, [j]) == [Payload(h, j)] by { OnePayload(h, j); }
    forall a | 0 <= a < |picked| ensures picked[a] < j {
      if j < picked[a] {
        PositionsOrdered(h, j, picked[a]);
        StoredNonempty(s.x.termLength, h, j);
      }
    }
  }

  lemma OnePayload(h: seq<Rec>, j: nat)
    ensures Payloads(h, [j]) == [Payload(h, j)]
  {
  }

  /** A data frame in the gap that was passed has no length. */
  lemma GapFrameBlank(h: seq<Rec>, s: State, stored: set<nat>, picked: seq<nat>, j: nat)
    requires Invariant(h, s, stored, picked) && s.subscriber.Skipping? && IsData(h, j) && s.x.termLength > 0
    requires Cursor(s) <= h[j].pos < ReadEnd(s.x) && h[j].pos < Cursor(s) + s.subscriber.skip
    ensures Shows(s.x.buf, h[j].pos, BLANK)
  {
    hide Align32, Aligned, HistoryOk, Shows, TermAt, W.CursorsAgree, W.TermCount, LogOk, Clear, ReadBase, StreamOk,
         Delivered, LiesAhead, ReadEnd, Ends, Newest, RecOk, Covered, NotInside;
    InvariantParts(h, s, stored, picked);
    var t, origin, pos := ReadPlace(h, s);
    TermAtOrigin(t, origin, ReadBase(s.x), s.x.termLength);
    ReadInView(h, s, stored, t, origin, ReadBase(s.x), h[j].pos);
    var u, off, start := FramePlace(s.x.termLength, h, j);
    if Covered(h, stored, h[j].pos) {
      BoundaryNotInside(s.x.termLength, h, j);
      ClearIfNotInside(h, stored, h[j].pos);
      var i := CoveredStart(h, stored, h[j].pos);
    }
    if Appending(s) && InFrame(h, s.receiver.i, h[j].pos) {
      SameFrame(s.x.termLength, h, s.receiver.i, j);
    }
    WordBlank(h, s, stored, h[j].pos);
  }

  lemma SubscriberKeeps(h: seq<Rec>, s: State, stored: set<nat>, picked: seq<nat>) returns (picked': seq<nat>)
    requires Invariant(h, s, stored, picked) && !LoadsUnderWrite(h, s) && !LoadsStale(s)
    ensures s.x.termLength > 0
    ensures Invariant(h, SubscriberNext(s), stored, picked') && Accounts(h, s, SubscriberNext(s))
  {
    hide Invariant, LoadStep, NoneIn, Shows, Payload, ReadEnd, LoadsUnderWrite, LoadsStale, W.TermCount;
    InvariantParts(h, s, stored, picked);
    picked' := picked;
    match s.subscriber
    case Idle =>
    case Loading(_, _) =>
      if s.x.subscriberPosition / s.x.termLength <= W.TermCount(s.x) {
        LoadKeeps(h, s, stored, picked);
      } else {
        EndLoadKeeps(h, s, stored, picked);
      }
    case Checking(_, _) => CheckKeeps(h, s, stored, picked);
    case Skipping(_, _, _) =>
      SkipKeeps(h, s, stored, picked);
      forall j: nat | IsData(h, j) && Cursor(s) <= h[j].pos < Cursor(SubscriberNext(s))
        ensures Shows(s.x.buf, h[j].pos, BLANK)
      {
        SkipMovesWithin(h, s, stored, picked);
        GapFrameBlank(h, s, stored, picked, j);
      }
    case Typing(_, _, _) => TypeKeeps(h, s, stored, picked);
    case Reading(_, _, length, got) =>
      if HEADER + |got| < length {
        ReadByte(h, s, stored, picked);
      } else {
        var j := ReadDone(h, s, stored, picked);
        picked' := picked + [j];
        OnlyOneHere(h, s, j);
      }
  }

  lemma SkipMovesWithin(h: seq<Rec>, s: State, stored: set<nat>, picked: seq<nat>)
    requires Invariant(h, s, stored, picked) && s.subscriber.Skipping? && s.x.termLength > 0
    ensures Cursor(SubscriberNext(s)) <= Cursor(s) + s.subscriber.skip
  {
    hide Align32, Aligned, HistoryOk, W.TermCount, ReadBase, LogOk, Delivered, Clear, NoneIn, LiesAhead, LengthWord,
         NotInside;
  }

  /** No other frame starts inside a frame. */
  lemma OnlyOneHere(h: seq<Rec>, s: State, i: nat)
    requires HistoryOk(s.x.termLength, h) && i < |h| && h[i].pos == Cursor(s)
    ensures forall j: nat :: IsData(h, j) && h[i].pos <= h[j].pos < End(h[i]) ==> j == i
  {
    hide Align32, HistoryOk;
    forall j: nat | IsData(h, j) && h[i].pos <= h[j].pos < End(h[i]) ensures j == i {
      BoundaryNotInside(s.x.termLength, h, j);
      BoundaryNotInside(s.x.termLength, h, i);
      StoredNonempty(s.x.termLength, h, j);
      StoredNonempty(s.x.termLength, h, i);
      StartsDiffer(s.x.termLength, h, i, j);
    }
  }

  lemma StartsDiffer(tl: nat, h: seq<Rec>, i: nat, j: nat)
    requires HistoryOk(tl, h) && i < |h| && j < |h| && h[i].pos == h[j].pos
    ensures i == j
  {
    hide Align32, RecOk, Contiguous;
    StoredNonempty(tl, h, i);
    StoredNonempty(tl, h, j);
    if i < j {
      PositionsOrdered(h, i, j);
    } else if j < i {
      PositionsOrdered(h, j, i);
    }
  }
}
