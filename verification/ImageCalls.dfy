/**
 A thread that is not interrupted: the steps of `ImageSteps` add up to the calls `on_data` and
 `poll_fragments` of `Image`.
 */
module ImageCalls {
  import opened Arith
  import opened Bytes
  import opened TermLog
  import opened PublicationHistory
  import opened Image
  import opened ImageStream
  import opened ImageSteps
  import opened ImageStepsWrite
  import opened ImageInterleaved

  // ---- poll_fragments ----

  lemma {:induction false} RunsAdd(s: State, a: nat, b: nat)
    requires s.x.termLength > 0
    ensures SubscriberRuns(s, a + b) == SubscriberRuns(SubscriberRuns(s, a), b)
    decreases a
  {
    hide SubscriberNext;
    if a > 0 {
      assert SubscriberRuns(s, a + b) == SubscriberRuns(SubscriberNext(s), a - 1 + b);
      RunsAdd(SubscriberNext(s), a - 1, b);
    }
  }

  lemma RunsOne(s: State)
    requires s.x.termLength > 0
    ensures SubscriberRuns(s, 1) == SubscriberNext(s)
  {
    assert SubscriberRuns(SubscriberNext(s), 0) == SubscriberNext(s);
  }

  /** The gap scan. */
  lemma {:induction false} SkipRuns(s: State) returns (n: nat)
    requires s.subscriber.Skipping? && s.x.termLength > 0 && ReadOffset(s.x) + s.subscriber.scanned < s.x.termLength
    ensures var pos := ReadOffset(s.x) + s.subscriber.scanned;
            var e := GapEnd(s.x.buf, ReadBase(s.x), s.x.termLength, pos + s.subscriber.skip);
            && pos <= e
            && SubscriberRuns(s, n) == s.(subscriber := Loading(s.subscriber.scanned + (e - pos), s.subscriber.left))
    decreases s.x.termLength - s.subscriber.skip
  {
    hide LengthWord, ReadBase, ReadOffset, SubscriberRuns;
    n := 1;
    RunsOne(s);
    if SubscriberNext(s).subscriber.Skipping? {
      n := SkipRuns(SubscriberNext(s));
      RunsAdd(s, 1, n);
      n := 1 + n;
    }
  }

  /** Reading the payload byte by byte. */
  lemma {:induction false} ReadRuns(s: State) returns (n: nat)
    requires s.subscriber.Reading? && s.x.termLength > 0 && s.subscriber.left > 0
    requires var at := ReadBase(s.x) + ReadOffset(s.x) + s.subscriber.scanned;
             && HEADER + |s.subscriber.got| <= s.subscriber.length && at + s.subscriber.length <= |s.x.buf|
             && s.subscriber.got == s.x.buf[at + HEADER..at + HEADER + |s.subscriber.got|]
    ensures var at, length := ReadBase(s.x) + ReadOffset(s.x) + s.subscriber.scanned, s.subscriber.length;
            SubscriberRuns(s, n)
            == s.(subscriber := Loading(s.subscriber.scanned + Align32(length), s.subscriber.left - 1),
                  delivered := s.delivered + [s.x.buf[at + HEADER..at + length]])
    decreases s.subscriber.length - |s.subscriber.got|
  {
    hide ReadBase, ReadOffset, SubscriberRuns, Align32;
    n := 1;
    RunsOne(s);
    if HEADER + |s.subscriber.got| < s.subscriber.length {
      n := ReadRuns(SubscriberNext(s));
      RunsAdd(s, 1, n);
      n := 1 + n;
    }
  }

  /** The state after a poll, or the rest of one, with result `r`. */
  function Polled(s: State, r: PollResult): State {
    s.(x := s.x.(subscriberPosition := s.x.subscriberPosition + r.scanned), subscriber := Idle,
       delivered := s.delivered + r.delivered)
  }

  /** One fragment. */
  lemma FrameRuns(s: State, len: nat) returns (n: nat)
    requires s.subscriber.Loading? && s.subscriber.left > 0 && s.x.termLength > 0
    requires var pos := ReadOffset(s.x) + s.subscriber.scanned;
             && ReadBase(s.x) + s.x.termLength <= |s.x.buf| && pos + 4 <= s.x.termLength
             && LengthWord(s.x.buf, ReadBase(s.x) + pos) == len >= HEADER && pos + Align32(len) <= s.x.termLength
             && DecodeU16(s.x.buf, ReadBase(s.x) + pos + 6) != TYPE_PAD
    ensures var at := ReadBase(s.x) + ReadOffset(s.x) + s.subscriber.scanned;
            && at + len <= |s.x.buf|
            && SubscriberRuns(s, n)
               == s.(subscriber := Loading(s.subscriber.scanned + Align32(len), s.subscriber.left - 1),
                     delivered := s.delivered + [s.x.buf[at + HEADER..at + len]])
  {
    hide ReadBase, ReadOffset, SubscriberRuns, LengthWord, DecodeU16;
    var s1 := SubscriberNext(s);
    var s2 := SubscriberNext(s1);
    RunsOne(s);
    RunsOne(s1);
    RunsAdd(s, 1, 1);
    n := ReadRuns(s2);
    RunsAdd(s, 2, n);
    n := 2 + n;
  }

  /** One turn of the loop of the call. */
  lemma PollTurn(buf: seq<Byte>, base: nat, tl: nat, pos: nat, scanned: nat, left: nat, ahead: int)
    requires base + tl <= |buf| && pos + 4 <= tl && left > 0
    ensures var word, r := LengthWord(buf, base + pos), PollFrom(buf, base, tl, pos, scanned, left, ahead);
            && (word <= 0 && ahead <= scanned ==> r == PollResult(scanned, []))
            && (word <= 0 && ahead > scanned ==>
                  var e := GapEnd(buf, base, tl, pos + FRAME_ALIGNMENT);
                  pos <= e <= tl && r == PollFrom(buf, base, tl, e, scanned + (e - pos), left, ahead))
            && (word > 0 && (word < HEADER || pos + Align32(word) > tl) ==> r == PollResult(scanned, []))
            && (word >= HEADER && pos + Align32(word) <= tl ==>
                  base + pos + 8 <= |buf| &&
                  if DecodeU16(buf, base + pos + 6) == TYPE_PAD
                  then r == PollFrom(buf, base, tl, pos + Align32(word), scanned + Align32(word), left, ahead)
                  else var rest := PollFrom(buf, base, tl, pos + Align32(word), scanned + Align32(word), left - 1,
                                            ahead);
                       r == PollResult(rest.scanned, [buf[base + pos + HEADER..base + pos + word]] + rest.delivered))
  {
    hide LengthWord, DecodeU16, GapEnd;
  }

  /** No word to read: the poll ends. */
  lemma PollLast(buf: seq<Byte>, base: nat, tl: nat, pos: nat, scanned: nat, left: nat, ahead: int)
    requires base + tl <= |buf| && pos <= tl && (pos >= tl || left == 0 || tl - pos < 4)
    ensures PollFrom(buf, base, tl, pos, scanned, left, ahead) == PollResult(scanned, [])
  {
  }

  /** A gap: the two loads and the scan. */
  lemma GapRuns(s: State) returns (n: nat)
    requires s.subscriber.Loading? && s.subscriber.left > 0 && s.x.termLength > 0
    requires var pos := ReadOffset(s.x) + s.subscriber.scanned;
             pos + 4 <= s.x.termLength && LengthWord(s.x.buf, ReadBase(s.x) + pos) <= 0
    ensures var Loading(scanned, left) := s.subscriber;
            var pos := ReadOffset(s.x) + scanned;
            var e := GapEnd(s.x.buf, ReadBase(s.x), s.x.termLength, pos + FRAME_ALIGNMENT);
            && pos <= e && n > 0
            && SubscriberRuns(s, n)
               == if s.x.receiverPosition <= s.x.subscriberPosition + scanned then Finish(s, scanned)
                  else s.(subscriber := Loading(scanned + (e - pos), left))
  {
    hide ReadBase, ReadOffset, SubscriberRuns, LengthWord, GapEnd;
    var s1 := SubscriberNext(s);
    var s2 := SubscriberNext(s1);
    RunsOne(s);
    RunsOne(s1);
    RunsAdd(s, 1, 1);
    n := 2;
    var more := SkipRuns(s1.(subscriber := Skipping(s.subscriber.scanned, s.subscriber.left, FRAME_ALIGNMENT)));
    if s2.subscriber.Skipping? {
      RunsAdd(s, 2, more);
      n := 2 + more;
    }
  }

  /** A pad frame. */
  lemma PadRuns(s: State, len: nat)
    requires s.subscriber.Loading? && s.subscriber.left > 0 && s.x.termLength > 0
    requires var pos := ReadOffset(s.x) + s.subscriber.scanned;
             && ReadBase(s.x) + s.x.termLength <= |s.x.buf| && pos + 4 <= s.x.termLength
             && LengthWord(s.x.buf, ReadBase(s.x) + pos) == len >= HEADER && pos + Align32(len) <= s.x.termLength
             && DecodeU16(s.x.buf, ReadBase(s.x) + pos + 6) == TYPE_PAD
    ensures SubscriberRuns(s, 2) == s.(subscriber := Loading(s.subscriber.scanned + Align32(len), s.subscriber.left))
  {
    hide ReadBase, ReadOffset, SubscriberRuns, LengthWord, DecodeU16;
    var s1 := SubscriberNext(s);
    assert s1 == s.(subscriber := Typing(s.subscriber.scanned, s.subscriber.left, len));
    RunsOne(s);
    RunsOne(s1);
    RunsAdd(s, 1, 1);
  }

  /** The rest of the call from state `s`. */
  function Rest(s: State): PollResult
    requires s.subscriber.Loading? && s.x.termLength > 0
    requires ReadBase(s.x) + s.x.termLength <= |s.x.buf| && ReadOffset(s.x) + s.subscriber.scanned <= s.x.termLength
  {
    PollFrom(s.x.buf, ReadBase(s.x), s.x.termLength, ReadOffset(s.x) + s.subscriber.scanned, s.subscriber.scanned,
             s.subscriber.left, s.x.receiverPosition - s.x.subscriberPosition)
  }

  /** Going on after `n` steps. */
  lemma RunsThen(s: State, n: nat, s1: State, m: nat, s2: State)
    requires s.x.termLength > 0 && SubscriberRuns(s, n) == s1 && s1.x.termLength > 0 && SubscriberRuns(s1, m) == s2
    ensures SubscriberRuns(s, n + m) == s2
  {
    RunsAdd(s, n, m);
  }

  /** The loop of the poll. */
  lemma {:induction false} LoopRuns(s: State) returns (n: nat)
    requires s.subscriber.Loading? && s.x.termLength > 0
    requires ReadBase(s.x) + s.x.termLength <= |s.x.buf| && ReadOffset(s.x) + s.subscriber.scanned <= s.x.termLength
    ensures SubscriberRuns(s, n) == Polled(s, Rest(s))
    decreases s.x.termLength - s.subscriber.scanned
  {
    hide ReadBase, ReadOffset, SubscriberRuns, LengthWord, DecodeU16, GapEnd, Align32, PollFrom, SubscriberNext;
    var Loading(scanned, left) := s.subscriber;
    var base, pos, tl, ahead := ReadBase(s.x), ReadOffset(s.x) + scanned, s.x.termLength,
                                s.x.receiverPosition - s.x.subscriberPosition;
    if pos >= tl || left == 0 || tl - pos < 4 {
      PollLast(s.x.buf, base, tl, pos, scanned, left, ahead);
      n := 1;
      StopRuns(s);
    } else {
      var word := LengthWord(s.x.buf, base + pos);
      PollTurn(s.x.buf, base, tl, pos, scanned, left, ahead);
      if word <= 0 {
        n := GapRuns(s);
        if ahead > scanned {
          var s1 := SubscriberRuns(s, n);
          var m := LoopRuns(s1);
          RunsThen(s, n, s1, m, Polled(s1, Rest(s1)));
          n := n + m;
        }
      } else if word < HEADER || pos + Align32(word) > tl {
        n := 1;
        StopRuns(s);
      } else {
        if DecodeU16(s.x.buf, base + pos + 6) == TYPE_PAD {
          PadRuns(s, word);
          n := 2;
        } else {
          n := FrameRuns(s, word);
        }
        var s1 := SubscriberRuns(s, n);
        var m := LoopRuns(s1);
        RunsThen(s, n, s1, m, Polled(s1, Rest(s1)));
        n := n + m;
      }
    }
  }

  /** The poll ends where it stands. */
  lemma StopRuns(s: State)
    requires s.subscriber.Loading? && s.x.termLength > 0
    requires var pos, tl := ReadOffset(s.x) + s.subscriber.scanned, s.x.termLength;
             var word := LengthWord(s.x.buf, ReadBase(s.x) + pos);
             || pos >= tl || s.subscriber.left == 0 || tl - pos < 4
             || (word > 0 && (word < HEADER || pos + Align32(word) > tl))
    ensures SubscriberRuns(s, 1) == Polled(s, PollResult(s.subscriber.scanned, []))
  {
    hide ReadBase, ReadOffset, SubscriberRuns, LengthWord, Align32;
    RunsOne(s);
  }

  /** A poll that is not interrupted is the call. */
  lemma PollCall(h: seq<Rec>, s: State, limit: nat) returns (n: nat)
    requires s.subscriber.Idle? && s.x.termLength > 0 && |s.x.buf| == 4 * s.x.termLength && limit > 0
    ensures SubscriberRuns(Next(h, s, StartPoll(limit)), n)
         == s.(x := Poll(s.x, limit).0, delivered := s.delivered + Poll(s.x, limit).1)
  {
    hide PollFrom, SubscriberRuns, PartitionIndex, TermIdOf;
    var termId := TermIdOf(s.x.subscriberPosition, s.x.initialTermId, s.x.termLength);
    PartitionFits(PartitionIndex(termId, s.x.initialTermId), s.x.termLength);
    n := LoopRuns(Next(h, s, StartPoll(limit)));
  }

  // ---- on_data ----

  /** The receiver alone takes `n` steps. */
  function ReceiverRuns(h: seq<Rec>, s: State, n: nat): (s': State)
    requires s.x.termLength > 0
    ensures s'.x.termLength == s.x.termLength
    decreases n
  {
    if n == 0 then s else ReceiverRuns(h, ReceiverNext(h, s), n - 1)
  }

  lemma {:induction false} ReceiverRunsAdd(h: seq<Rec>, s: State, a: nat, b: nat)
    requires s.x.termLength > 0
    ensures ReceiverRuns(h, s, a + b) == ReceiverRuns(h, ReceiverRuns(h, s, a), b)
    decreases a
  {
    hide ReceiverNext;
    if a > 0 {
      assert ReceiverNext(h, s).x.termLength == s.x.termLength by { StepKeepsLength(h, s); }
      assert ReceiverRuns(h, s, a + b) == ReceiverRuns(h, ReceiverNext(h, s), a - 1 + b);
      ReceiverRunsAdd(h, ReceiverNext(h, s), a - 1, b);
    }
  }

  lemma StepKeepsLength(h: seq<Rec>, s: State)
    requires s.x.termLength > 0
    ensures ReceiverNext(h, s).x.termLength == s.x.termLength && ReceiverRuns(h, s, 1) == ReceiverNext(h, s)
  {
    assert ReceiverRuns(h, ReceiverNext(h, s), 0) == ReceiverNext(h, s);
  }

  /** Cleaning all the partitions ahead, byte by byte. */
  lemma {:induction false} CleanRuns(h: seq<Rec>, s: State, x0: Image) returns (n: nat)
    requires s.receiver.Cleaning? && s.receiver.i < |h| && |h[s.receiver.i].bytes| >= HEADER && s.x.termLength > 0
    requires |x0.buf| == 4 * x0.termLength && s.x == x0.(buf := s.x.buf)
    requires 0 < s.receiver.step <= CleanSteps(x0, WireOf(x0, h[s.receiver.i])) && s.receiver.done <= x0.termLength
    requires s.x.buf == PartlyClean(x0, s.receiver.step, s.receiver.done)
    requires Advances(x0, WireOf(x0, h[s.receiver.i]))
    ensures var i, f := s.receiver.i, WireOf(x0, h[s.receiver.i]);
            ReceiverRuns(h, s, n) == BeginAppend(s.(x := Advance(x0, f)), i, f)
    decreases PARTITION_COUNT - s.receiver.step, s.x.termLength - s.receiver.done
  {
    hide ReceiverRuns, PartlyClean, CleanAhead, WireOf, Stale, TermFull, Wrap32, CleanSteps, CleanBase;
    var Cleaning(i, step, done, before) := s.receiver;
    var f := WireOf(x0, h[i]);
    SameWire(s.x, x0, h[i]);
    SameBase(s.x, x0, step);
    assert CleanSteps(s.x, f) == CleanSteps(x0, f) by { SameAhead(x0, s.x, f); }
    StepKeepsLength(h, s);
    var s1 := ReceiverNext(h, s);
    n := 1;
    if done < x0.termLength {
      CleanByte(x0, step, done);
    } else {
      PartitionDone(x0, step);
    }
    if done < x0.termLength || step < CleanSteps(x0, f) {
      n := CleanRuns(h, s1, x0);
      ReceiverRunsAdd(h, s, 1, n);
      n := 1 + n;
    }
  }

  lemma SameWire(x: Image, y: Image, r: Rec)
    requires x.initialTermId == y.initialTermId && x.termLength == y.termLength > 0 && |r.bytes| >= HEADER
    ensures WireOf(x, r) == WireOf(y, r)
  {
  }

  /** Copying the frame with length 0. */
  lemma {:induction false} CopyRuns(h: seq<Rec>, s: State, x0: Image, i: nat, done: nat, again: bool)
    returns (n: nat)
    requires s.receiver == Copying(i, done, again) && i < |h| && |h[i].bytes| >= HEADER && s.x.termLength > 0
    requires |x0.buf| == 4 * x0.termLength && s.x == x0.(buf := s.x.buf) && done <= |OpenBytes(h[i])|
    requires FrameBase(x0, WireOf(x0, h[i])) + |OpenBytes(h[i])| <= |x0.buf|
    requires s.x.buf == Splice(x0.buf, FrameBase(x0, WireOf(x0, h[i])), OpenBytes(h[i])[..done])
    ensures ReceiverRuns(h, s, n)
         == s.(x := x0.(buf := Splice(x0.buf, FrameBase(x0, WireOf(x0, h[i])), OpenBytes(h[i]))),
               receiver := Committing(i, again))
    decreases |OpenBytes(h[i])| - done
  {
    hide ReceiverRuns, WireOf, OpenBytes, Splice, FrameBase;
    var open, base := OpenBytes(h[i]), FrameBase(x0, WireOf(x0, h[i]));
    SameWire(s.x, x0, h[i]);
    assert FrameBase(s.x, WireOf(x0, h[i])) == base by { SameSlot(s.x, x0, WireOf(x0, h[i])); }
    StepKeepsLength(h, s);
    n := 1;
    if done < |open| {
      SpliceAdjacent(x0.buf, base, open[..done], [open[done]]);
      assert open[..done] + [open[done]] == open[..done + 1];
      n := CopyRuns(h, ReceiverNext(h, s), x0, i, done + 1, again);
      ReceiverRunsAdd(h, s, 1, n);
      n := 1 + n;
    } else {
      assert open[..done] == open;
    }
  }

  lemma SameSlot(x: Image, y: Image, f: Wire)
    requires x.initialTermId == y.initialTermId && x.termLength == y.termLength
    ensures FrameBase(x, f) == FrameBase(y, f)
  {
  }

  /** Overwriting the first word of a frame just copied. */
  lemma SpliceHead(buf: seq<Byte>, at: nat, bytes: seq<Byte>, word: seq<Byte>)
    requires at + |bytes| <= |buf| && |word| == 4 <= |bytes|
    ensures Splice(Splice(buf, at, BLANK + bytes[4..]), at, word) == Splice(buf, at, word + bytes[4..])
  {
    SpliceAdjacent(buf, at, BLANK, bytes[4..]);
    SpliceAdjacent(buf, at, word, bytes[4..]);
    var rest := Splice(buf, at + 4, bytes[4..]);
    forall j | 0 <= j < |buf|
      ensures Splice(Splice(rest, at, BLANK), at, word)[j] == Splice(rest, at, word)[j]
    {
    }
    assert Splice(Splice(rest, at, BLANK), at, word) == Splice(rest, at, word);
  }

  lemma CommitAndFollow(h: seq<Rec>, s: State, i: nat)
    requires s.receiver.Committing? && s.receiver.i == i && i < |h| && |h[i].bytes| >= HEADER && s.x.termLength > 0
    ensures var f := WireOf(s.x, h[i]);
            var x' := s.x.(buf := Store(s.x.buf, FrameBase(s.x, f), EncodeI32(HEADER + |f.payload|)));
            ReceiverRuns(h, s, 2) == s.(x := Followed(x', f), receiver := Resting)
  {
    hide ReceiverRuns, Followed, FrameBase, Store, WireOf, EncodeI32;
    StepKeepsLength(h, s);
    var s1 := ReceiverNext(h, s);
    SameWire(s.x, s1.x, h[i]);
    StepKeepsLength(h, s1);
    ReceiverRunsAdd(h, s, 1, 1);
  }

  lemma AcceptIsFollowed(x: Image, f: Wire)
    requires |x.buf| == 4 * x.termLength && |f.header| == HEADER && !TermFull(x, f)
    ensures FrameBase(x, f) + HEADER + |f.payload| <= |x.buf|
    ensures Accept(x, f, x.smPending) == Followed(x.(buf := Splice(x.buf, FrameBase(x, f), CommittedBytes(f))), f)
  {
    hide Splice, Raise, RaisePosition, CommittedBytes, ComputePosition, PartitionIndex;
    PartitionFits(WirePartition(x, f), x.termLength);
  }

  lemma ReceiverRunsInto(h: seq<Rec>, s: State, a: nat, s1: State, b: nat)
    requires s.x.termLength > 0 && ReceiverRuns(h, s, a) == s1 && s1.x.termLength > 0
    ensures ReceiverRuns(h, s, a + b) == ReceiverRuns(h, s1, b)
  {
    ReceiverRunsAdd(h, s, a, b);
  }

  /** The bytes of a frame, as first written and as committed. */
  lemma FrameBytes(x: Image, r: Rec)
    requires x.termLength > 0 && |r.bytes| >= HEADER
    ensures var f := WireOf(x, r);
            && |f.header| == HEADER && HEADER + |f.payload| == |r.bytes| == |OpenBytes(r)|
            && OpenBytes(r) == BLANK + r.bytes[4..]
            && CommittedBytes(f) == EncodeI32(HEADER + |f.payload|) + r.bytes[4..]
  {
    hide EncodeI32;
  }

  /** The log after the copy, with the length stored, is the log after `append_frame`. */
  lemma CommittedLog(x: Image, r: Rec, x1: Image, f: Wire)
    requires x.termLength > 0 && |r.bytes| >= HEADER && f == WireOf(x, r) && FrameBase(x, f) + |r.bytes| <= |x.buf|
    requires |OpenBytes(r)| == |r.bytes| && x1 == x.(buf := Splice(x.buf, FrameBase(x, f), OpenBytes(r)))
    ensures |CommittedBytes(f)| == |r.bytes|
    ensures x1.(buf := Store(x1.buf, FrameBase(x1, f), EncodeI32(HEADER + |f.payload|)))
         == x.(buf := Splice(x.buf, FrameBase(x, f), CommittedBytes(f)))
  {
    FrameBytes(x, r);
    hide FrameBase, Splice, EncodeI32, WireOf, OpenBytes, CommittedBytes;
    SameSlot(x, x1, f);
    SpliceHead(x.buf, FrameBase(x, f), r.bytes, EncodeI32(HEADER + |f.payload|));
  }

  /** `append_frame` and the cursors after it. */
  lemma AppendRuns(h: seq<Rec>, s: State, i: nat, f: Wire) returns (n: nat)
    requires s.receiver.Copying? && s.receiver.i == i && s.receiver.done == 0
    requires i < |h| && |h[i].bytes| >= HEADER && s.x.termLength > 0
    requires f == WireOf(s.x, h[i]) && |f.header| == HEADER && |s.x.buf| == 4 * s.x.termLength && !TermFull(s.x, f)
    ensures ReceiverRuns(h, s, n) == s.(x := Accept(s.x, f, s.x.smPending), receiver := Resting)
  {
    hide ReceiverRuns, Splice, EncodeI32, FrameBase, WireOf, Followed, Accept, CommittedBytes, TermFull, OpenBytes,
         Store;
    FrameBytes(s.x, h[i]);
    AcceptIsFollowed(s.x, f);
    NothingCopied(s.x, f, h[i]);
    n := CopyRuns(h, s, s.x, i, 0, s.receiver.again);
    var s1 := s.(x := s.x.(buf := Splice(s.x.buf, FrameBase(s.x, f), OpenBytes(h[i]))),
                 receiver := Committing(i, s.receiver.again));
    ReceiverRunsInto(h, s, n, s1, 2);
    n := n + 2;
    SameWire(s.x, s1.x, h[i]);
    CommitAndFollow(h, s1, i);
    CommittedLog(s.x, h[i], s1.x, f);
  }

  lemma NothingCopied(x: Image, f: Wire, r: Rec)
    requires FrameBase(x, f) + |OpenBytes(r)| <= |x.buf|
    ensures Splice(x.buf, FrameBase(x, f), OpenBytes(r)[..0]) == x.buf
  {
    hide FrameBase, OpenBytes;
    StoreNothing(x.buf, FrameBase(x, f));
  }

  /** The call, apart from the NAK time stamp. */
  function Written(x: Image, f: Wire): Image
    requires |x.buf| == 4 * x.termLength && |f.header| == HEADER
  {
    if Stale(x, f) || TermFull(x, f) then x else Accept(x, f, x.smPending)
  }

  /** The window has moved, if it had to: what is left of the call. */
  lemma AfterWindow(h: seq<Rec>, s: State, i: nat, f: Wire) returns (n: nat)
    requires i < |h| && |h[i].bytes| >= HEADER && s.x.termLength > 0 && |s.x.buf| == 4 * s.x.termLength
    requires f == WireOf(s.x, h[i]) && |f.header| == HEADER
    ensures ReceiverRuns(h, BeginAppend(s, i, f), n)
         == s.(x := Written(s.x, f), receiver := Resting)
  {
    hide ReceiverRuns, WireOf, Stale, TermFull, Accept;
    var s1 := BeginAppend(s, i, f);
    n := 0;
    NoSteps(h, s1);
    if s1.receiver.Copying? {
      n := AppendRuns(h, s1, i, f);
    }
  }

  lemma CallParts(x: Image, f: Wire, now: int, nakDelay: int)
    requires |x.buf| == 4 * x.termLength && |f.header| == HEADER
    ensures OnData(x, f, now, nakDelay, x.smPending).(timeOfLastNak := x.timeOfLastNak) == Written(Advance(x, f), f)
  {
    hide Stale, TermFull, Accept, NakDue, CleanAhead;
    StampStays(Advance(x, f), f, x.smPending);
  }

  lemma ArriveBegins(h: seq<Rec>, s: State, i: nat, f: Wire)
    requires s.receiver.Resting? && i < |h| && |h[i].bytes| >= HEADER && s.x.termLength > 0 && f == WireOf(s.x, h[i])
    ensures Next(h, s, StartArrive(i))
         == if Advances(s.x, f) then s.(receiver := Cleaning(i, 1, 0, s.x)) else BeginAppend(s, i, f)
  {
    hide WireOf, Advances, BeginAppend;
  }

  lemma WindowFields(x: Image, f: Wire)
    requires |x.buf| == 4 * x.termLength
    ensures var x1 := Advance(x, f);
            && x1.initialTermId == x.initialTermId && x1.termLength == x.termLength && |x1.buf| == |x.buf|
            && x1.smPending == x.smPending && (!Advances(x, f) ==> x1 == x)
  {
    hide CleanAhead;
  }

  /** An arrival that is not interrupted is the call, up to the timing of NAKs and status messages. */
  lemma ArriveCall(h: seq<Rec>, s: State, i: nat, now: int, nakDelay: int) returns (n: nat)
    requires s.receiver.Resting? && i < |h| && |h[i].bytes| >= HEADER
    requires s.x.termLength > 0 && |s.x.buf| == 4 * s.x.termLength
    ensures Next(h, s, StartArrive(i)).x.termLength > 0
    ensures ReceiverRuns(h, Next(h, s, StartArrive(i)), n)
         == s.(x := OnData(s.x, WireOf(s.x, h[i]), now, nakDelay, s.x.smPending).(timeOfLastNak := s.x.timeOfLastNak))
  {
    hide ReceiverRuns, WireOf, BeginAppend, OpenBytes, CommittedBytes, Advance, OnData, Next, Written, CleanSteps,
         PartlyClean, Advances;
    FrameBytes(s.x, h[i]);
    var f := WireOf(s.x, h[i]);
    var x1 := Advance(s.x, f);
    WindowFields(s.x, f);
    SameWire(s.x, x1, h[i]);
    CallParts(s.x, f, now, nakDelay);
    ArriveBegins(h, s, i, f);
    AppendLength(s.(x := x1), i, f);
    n := AfterWindow(h, s.(x := x1), i, f);
    if Advances(s.x, f) {
      var s1 := s.(receiver := Cleaning(i, 1, 0, s.x));
      CleaningStarts(s.x);
      SomeSteps(s.x, f);
      var cleaning := CleanRuns(h, s1, s.x);
      SameAppend(s1.(x := x1), s.(x := x1), i, f);
      ReceiverRunsInto(h, s1, cleaning, BeginAppend(s.(x := x1), i, f), n);
      n := cleaning + n;
    } else {
      assert s.(x := x1) == s;
    }
  }

  lemma SomeSteps(x: Image, f: Wire)
    requires Advances(x, f)
    ensures 0 < CleanSteps(x, f)
  {
  }

  lemma SameAppend(s: State, s': State, i: nat, f: Wire)
    requires s' == s.(receiver := s'.receiver)
    ensures BeginAppend(s, i, f) == BeginAppend(s', i, f)
  {
  }

  lemma AppendLength(s: State, i: nat, f: Wire)
    ensures BeginAppend(s, i, f).x == s.x
  {
  }

  lemma StampStays(x: Image, f: Wire, sendSm: bool)
    requires |x.buf| == 4 * x.termLength && |f.header| == HEADER
    ensures !TermFull(x, f) ==> Accept(x, f, sendSm).timeOfLastNak == x.timeOfLastNak
  {
  }

  lemma NoSteps(h: seq<Rec>, s: State)
    requires s.x.termLength > 0
    ensures ReceiverRuns(h, s, 0) == s
  {
  }

  lemma CleaningStarts(x: Image)
    requires |x.buf| == 4 * x.termLength
    ensures PartlyClean(x, 1, 0) == x.buf
  {
    StoreNothing(x.buf, CleanBase(x, 1));
  }
}
