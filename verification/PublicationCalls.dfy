/**
 The steps of a call, run without interruption, are the call: the byte-by-byte publisher and sender of
 PublicationSteps refine `offer` and `sender_scan` as module Publication defines them.
 */
module PublicationCalls {
  import opened Arith
  import opened Bytes
  import opened TermLog
  import opened Publication
  import opened PublicationSteps

  /** `k` steps of the publisher and none of the sender. */
  function PublisherSteps(c: Config, s: State, k: nat): State
    decreases k
  {
    if k == 0 then s else PublisherSteps(c, PublisherNext(c, s), k - 1)
  }

  lemma {:induction false} PublisherStepsAdd(c: Config, s: State, j: nat, k: nat)
    ensures PublisherSteps(c, s, j + k) == PublisherSteps(c, PublisherSteps(c, s, j), k)
    decreases j
  {
    hide PublisherNext;
    if j > 0 {
      PublisherStepsAdd(c, PublisherNext(c, s), j - 1, k);
    }
  }

  /** A copy that is left alone copies all its bytes. */
  lemma {:induction false} CopyAll(c: Config, s: State, k: nat)
    requires s.publisher.Copying? && s.publisher.done + k == |s.publisher.bytes|
    requires s.publisher.at + |s.publisher.bytes| <= |s.buf|
    ensures var pc := s.publisher;
            PublisherSteps(c, s, k)
            == s.(buf := Splice(s.buf, pc.at + pc.done, pc.bytes[pc.done..]), publisher := pc.(done := |pc.bytes|))
    decreases k
  {
    hide Splice, PublisherNext;
    var pc := s.publisher;
    if k == 0 {
      SpliceNothing(s.buf, pc.at + pc.done);
      assert pc.bytes[pc.done..] == [];
    } else {
      CopyOne(c, s);
      CopyAll(c, PublisherNext(c, s), k - 1);
      SpliceAdjacent(s.buf, pc.at + pc.done, [pc.bytes[pc.done]], pc.bytes[pc.done + 1..]);
      assert [pc.bytes[pc.done]] + pc.bytes[pc.done + 1..] == pc.bytes[pc.done..];
    }
  }

  lemma CopyOne(c: Config, s: State)
    requires s.publisher.Copying? && s.publisher.done < |s.publisher.bytes|
    requires s.publisher.at + |s.publisher.bytes| <= |s.buf|
    ensures var pc := s.publisher;
            PublisherNext(c, s)
            == s.(buf := Splice(s.buf, pc.at + pc.done, [pc.bytes[pc.done]]), publisher := pc.(done := pc.done + 1))
  {
    hide Splice;
  }

  /** A copy from its start, and the step that leaves it. */
  lemma CopyPhase(c: Config, s: State, at: nat, bytes: seq<Byte>, after: After) returns (k: nat, s': State)
    requires s.publisher == Copying(at, bytes, 0, after) && at + |bytes| <= |s.buf|
    ensures s' == PublisherSteps(c, s, k)
    ensures var done := s.(buf := Splice(s.buf, at, bytes), publisher := Copying(at, bytes, |bytes|, after));
            s' == CopyStep(c, done)
  {
    hide Splice;
    CopyAll(c, s, |bytes|);
    assert bytes[0..] == bytes;
    k := |bytes| + 1;
    PublisherStepsAdd(c, s, |bytes|, 1);
    var done := PublisherSteps(c, s, |bytes|);
    s' := PublisherNext(c, done);
    assert PublisherSteps(c, done, 1) == s' by { OneStep(c, done); }
  }

  lemma OneStep(c: Config, s: State)
    ensures PublisherSteps(c, s, 1) == PublisherNext(c, s)
  {
    assert PublisherSteps(c, PublisherNext(c, s), 0) == PublisherNext(c, s);
  }

  lemma StepMore(c: Config, s: State, j: nat)
    ensures PublisherSteps(c, s, j + 1) == PublisherNext(c, PublisherSteps(c, s, j))
  {
    hide PublisherNext;
    PublisherStepsAdd(c, s, j, 1);
    OneStep(c, PublisherSteps(c, s, j));
  }

  lemma CursorFits(c: Config, s: State)
    requires PubOk(c, View(s))
    ensures Cursor(c, s) + (c.termLength - s.termOffset) <= |s.buf|
  {
    PartitionFits(PartitionIndex(s.activeTermId, c.initialTermId), c.termLength);
  }

  /** Header, payload, length word and position, undisturbed: the frame of `offer`. */
  lemma AppendCall(c: Config, s: State, payload: seq<Byte>) returns (k: nat)
    requires PubOk(c, View(s)) && !Overflows(c, View(s), payload)
    requires s.publisher == Copying(Cursor(c, s), OpenHeader(c, s), 0, ThenPayload(payload))
    ensures var p := View(s);
            PublisherSteps(c, s, k)
            == s.(buf := AppendFrame(c, p, payload).buf, termOffset := AppendFrame(c, p, payload).termOffset,
                  pubPosition := AppendFrame(c, p, payload).pubPosition,
                  accepted := s.accepted + [FrameFor(c, p, payload)], publisher := Idle)
  {
    hide Splice, HeaderBytes, EncodeI32, PartitionIndex, Wrap32, Align32, PublisherSteps, DataFrame;
    CursorFits(c, s);
    var at, open, length := Cursor(c, s), OpenHeader(c, s), EncodeI32(HEADER + |payload|);
    var k1, s1 := CopyPhase(c, s, at, open, ThenPayload(payload));
    SameLine(c, s, s1);
    var k2, s2 := CopyPhase(c, s1, at + HEADER, payload, ThenCommit(payload));
    PublisherStepsAdd(c, s, k1, k2);
    SameLine(c, s, s2);
    StepMore(c, s, k1 + k2);
    StepMore(c, s, k1 + k2 + 1);
    CommitLastIsWholeFrame(s.buf, at, open, length, payload);
    FrameSplits(c, s, payload);
    assert length + open[4..] + payload == FrameFor(c, View(s), payload) by {
      assert (open + payload)[4..] == open[4..] + payload;
    }
    k := k1 + k2 + 2;
  }

  lemma SameLine(c: Config, s: State, s': State)
    requires s'.activeTermId == s.activeTermId && s'.termOffset == s.termOffset
    ensures Cursor(c, s') == Cursor(c, s)
  {
  }

  /** Moving to the next term and cleaning its partition, undisturbed. */
  lemma CleanCall(c: Config, s: State) returns (k: nat)
    requires PubOk(c, View(s))
    ensures var next := Wrap32(s.activeTermId + 1);
            PublisherSteps(c, Rotate(c, s), k)
            == s.(buf := CleanPartition(s.buf, c.termLength, PartitionIndex(next, c.initialTermId)),
                  activeTermId := next, termOffset := 0, publisher := Idle)
  {
    hide Splice, PartitionIndex, Wrap32, PublisherSteps;
    var next := Wrap32(s.activeTermId + 1);
    PartitionFits(PartitionIndex(next, c.initialTermId), c.termLength);
    var s1 := Rotate(c, s);
    var s2;
    k, s2 := CopyPhase(c, s1, PartitionIndex(next, c.initialTermId) * c.termLength, Zeros(c.termLength), ThenDone);
  }

  /** Pad, rotation and cleaning, undisturbed: the rotation of `offer`. */
  lemma RotateCall(c: Config, s: State, payload: seq<Byte>) returns (k: nat)
    requires PubOk(c, View(s)) && s.publisher.Idle? && Rotates(c, View(s), payload)
    ensures var p' := RotateTerm(c, View(s));
            PublisherSteps(c, BeginOffer(c, s, payload), k)
            == s.(buf := p'.buf, activeTermId := p'.activeTermId, termOffset := p'.termOffset, publisher := Idle)
  {
    hide Splice, HeaderBytes, EncodeI32, PartitionIndex, Wrap32, Align32, PublisherSteps, CleanPartition, Backed;
    if c.termLength - s.termOffset < HEADER {
      k := CleanCall(c, s);
    } else {
      CursorFits(c, s);
      var at, tail, length := Cursor(c, s), PadTail(s), EncodeI32(c.termLength - s.termOffset);
      var s0 := BeginOffer(c, s, payload);
      var k1, s1 := CopyPhase(c, s0, at + 4, tail, ThenCommitPad);
      SameLine(c, s, s1);
      CommitLastIsWholePad(s.buf, at, tail, length);
      FrameSplits(c, s, []);
      StepMore(c, s0, k1);
      var padded := s1.(buf := Splice(s1.buf, at, length));
      PadIsWritten(c, s, padded.buf);
      var k2 := CleanCall(c, padded);
      PublisherStepsAdd(c, s0, k1 + 1, k2);
      k := k1 + 1 + k2;
    }
  }

  lemma PadIsWritten(c: Config, s: State, buf: seq<Byte>)
    requires PubOk(c, View(s)) && HEADER <= c.termLength - s.termOffset
    requires Cursor(c, s) + HEADER <= |s.buf|
    requires buf == Splice(s.buf, Cursor(c, s), PadHeader(c.termLength - s.termOffset, s.termOffset))
    ensures buf == WritePad(s.buf, c.termLength, ActivePartition(c, View(s)), s.termOffset)
  {
    hide Splice, PadHeader, PartitionIndex;
  }

  /**
   An `offer` whose steps are not interrupted ends with the log, the cursor, the position and the
   accepted frames of the whole call, in each of its four outcomes.
   */
  lemma OfferCall(c: Config, s: State, payload: seq<Byte>) returns (k: nat)
    requires PubOk(c, View(s)) && s.publisher.Idle?
    ensures var s' := PublisherSteps(c, BeginOffer(c, s, payload), k);
            && s'.publisher.Idle? && s'.sender == s.sender && s'.sent == s.sent
            && View(s') == Offer(c, View(s), payload).0
            && s'.accepted
               == s.accepted + if Offer(c, View(s), payload).1.Ok? then [FrameFor(c, View(s), payload)] else []
  {
    hide PublisherSteps, AppendFrame, RotateTerm, FrameFor, Align32, Backed;
    k := 0;
    if TooLarge(c, payload) || Backed(c, View(s)) {
      NoSteps(c, s);
    } else if Overflows(c, View(s), payload) {
      k := RotateCall(c, s, payload);
      RotateFields(c, View(s));
    } else {
      var s1 := BeginOffer(c, s, payload);
      SameLine(c, s, s1);
      k := AppendCall(c, s1, payload);
      AppendFields(c, View(s), payload);
    }
  }

  lemma NoSteps(c: Config, s: State)
    ensures PublisherSteps(c, s, 0) == s
  {
  }

  lemma RotateFields(c: Config, p: Pub)
    requires PubOk(c, p)
    ensures var p' := RotateTerm(c, p); p'.pubPosition == p.pubPosition && p'.senderPosition == p.senderPosition
  {
  }

  lemma AppendFields(c: Config, p: Pub, payload: seq<Byte>)
    requires PubOk(c, p) && !Overflows(c, p, payload)
    ensures var p' := AppendFrame(c, p, payload);
            p'.activeTermId == p.activeTermId && p'.senderPosition == p.senderPosition
  {
  }

  // ---- The sender ----

  /** `k` steps of the sender and none of the publisher. */
  function SenderSteps(c: Config, s: State, k: nat): State
    requires c.termLength > 0
    decreases k
  {
    if k == 0 then s else SenderSteps(c, SenderNext(c, s), k - 1)
  }

  lemma {:induction false} SenderStepsAdd(c: Config, s: State, j: nat, k: nat)
    requires c.termLength > 0
    ensures SenderSteps(c, s, j + k) == SenderSteps(c, SenderSteps(c, s, j), k)
    decreases j
  {
    hide SenderNext;
    if j > 0 {
      SenderStepsAdd(c, SenderNext(c, s), j - 1, k);
    }
  }

  lemma OneSenderStep(c: Config, s: State)
    requires c.termLength > 0
    ensures SenderSteps(c, s, 1) == SenderNext(c, s)
  {
    assert SenderSteps(c, SenderNext(c, s), 0) == SenderNext(c, s);
  }

  /** A frame read without interruption is the slice of the log. */
  lemma {:induction false} ReadAll(c: Config, s: State, at: nat, k: nat)
    requires c.termLength > 0 && s.sender.Reading? && |s.sender.got| + k == s.sender.length
    requires at == ReadBase(c, s) + TermOffsetOf(s.senderPosition, c.termLength) + s.sender.scanned
    requires at + s.sender.length <= |s.buf| && s.sender.got == s.buf[at..at + |s.sender.got|]
    ensures SenderSteps(c, s, k) == s.(sender := s.sender.(got := s.buf[at..at + s.sender.length]))
    decreases k
  {
    hide ReadBase, TermOffsetOf;
    if k > 0 {
      var s' := SenderNext(c, s);
      var n := |s.sender.got|;
      assert s.buf[at..at + n] + [s.buf[at + n]] == s.buf[at..at + n + 1];
      SameBase(c, s, s');
      ReadAll(c, s', at, k - 1);
    }
  }

  lemma SameBase(c: Config, s: State, s': State)
    requires c.termLength > 0 && s'.senderPosition == s.senderPosition
    ensures ReadBase(c, s') == ReadBase(c, s)
  {
  }

  /** One frame: load its length, read its bytes, emit it. */
  lemma FrameSteps(c: Config, s: State, limit: nat, scanned: nat) returns (k: nat)
    requires c.termLength > 0 && s.sender == Scanning(limit, scanned)
    requires ReadBase(c, s) + c.termLength <= |s.buf|
    requires var pos := TermOffsetOf(s.senderPosition, c.termLength) + scanned;
             pos < c.termLength && scanned < limit && FrameLengthAt(s.buf, ReadBase(c, s), c.termLength, pos) > 0
    ensures var at := ReadBase(c, s) + TermOffsetOf(s.senderPosition, c.termLength) + scanned;
            var length := FrameLengthAt(s.buf, ReadBase(c, s), c.termLength, at - ReadBase(c, s));
            && at + length <= |s.buf|
            && var slice := s.buf[at..at + length];
               SenderSteps(c, s, k) == s.(sender := Scanning(limit, scanned + Align32(length)),
                                          sent := if IsPad(slice) then s.sent else s.sent + [slice])
  {
    hide ReadBase, TermOffsetOf, FrameLengthAt, IsPad, Align32, SenderSteps;
    var base, off := ReadBase(c, s), TermOffsetOf(s.senderPosition, c.termLength);
    var length := FrameLengthAt(s.buf, base, c.termLength, off + scanned);
    var s1 := s.(sender := Reading(limit, scanned, length, []));
    assert SenderNext(c, s) == s1;
    OneSenderStep(c, s);
    SameBase(c, s, s1);
    assert s.buf[base + off + scanned..base + off + scanned] == [];
    ReadAll(c, s1, base + off + scanned, length);
    var s2 := SenderSteps(c, s1, length);
    SenderStepsAdd(c, s, 1, length);
    SenderStepsAdd(c, s, 1 + length, 1);
    OneSenderStep(c, s2);
    k := 1 + length + 1;
  }

  /** The scan loop, undisturbed. */
  lemma {:induction false} ScanSteps(c: Config, s: State, limit: nat, scanned: nat) returns (k: nat)
    requires c.termLength > 0 && s.sender == Scanning(limit, scanned)
    requires ReadBase(c, s) + c.termLength <= |s.buf|
    requires TermOffsetOf(s.senderPosition, c.termLength) + scanned <= c.termLength
    ensures var pos := TermOffsetOf(s.senderPosition, c.termLength) + scanned;
            var r := Scan(s.buf, ReadBase(c, s), c.termLength, pos, scanned, limit);
            SenderSteps(c, s, k)
            == s.(senderPosition := s.senderPosition + r.scanned, sender := Waiting,
                  sent := s.sent + Transmitted(r.frames))
    decreases c.termLength - scanned
  {
    hide ReadBase, TermOffsetOf, FrameLengthAt, IsPad, Align32, Scan, Transmitted, SenderSteps;
    var base, pos := ReadBase(c, s), TermOffsetOf(s.senderPosition, c.termLength) + scanned;
    ScanUnfold(s.buf, base, c.termLength, pos, scanned, limit);
    TransmittedNone();
    if pos >= c.termLength || scanned >= limit || FrameLengthAt(s.buf, base, c.termLength, pos) == 0 {
      k := 1;
      OneSenderStep(c, s);
      assert s.sent + [] == s.sent;
    } else {
      var length := FrameLengthAt(s.buf, base, c.termLength, pos);
      var k1 := FrameSteps(c, s, limit, scanned);
      var s1 := SenderSteps(c, s, k1);
      SameBase(c, s, s1);
      var k2 := ScanSteps(c, s1, limit, scanned + Align32(length));
      SenderStepsAdd(c, s, k1, k2);
      var slice := s.buf[base + pos..base + pos + length];
      var rest := Scan(s.buf, base, c.termLength, pos + Align32(length), scanned + Align32(length), limit);
      TransmittedCons(Emission(pos, slice), rest.frames);
      var first := if IsPad(slice) then [] else [slice];
      assert s.sent + (first + Transmitted(rest.frames)) == s.sent + first + Transmitted(rest.frames);
      assert IsPad(slice) ==> s.sent + first == s.sent;
      k := k1 + k2;
    }
  }

  lemma TransmittedNone()
    ensures Transmitted([]) == []
  {
  }

  lemma TransmittedCons(e: Emission, rest: seq<Emission>)
    ensures Transmitted([e] + rest) == (if IsPad(e.slice) then [] else [e.slice]) + Transmitted(rest)
  {
    hide IsPad;
    assert ([e] + rest)[1..] == rest;
  }

  /** A `sender_scan` whose steps are not interrupted emits and advances as the whole call. */
  lemma ScanCall(c: Config, s: State, limit: nat) returns (k: nat)
    requires c.termLength > 0 && PubOk(c, View(s)) && s.sender.Waiting? && 0 < limit <= s.pubPosition - s.senderPosition
    ensures var s' := SenderSteps(c, StartSending(c, s, limit), k);
            && s'.sender.Waiting? && s'.publisher == s.publisher && s'.accepted == s.accepted
            && View(s') == SenderScan(c, View(s), limit).0
            && s'.sent == s.sent + Transmitted(SenderScan(c, View(s), limit).1.frames)
  {
    hide Scan, Transmitted, SenderSteps, PartitionIndex, TermIdOf, Wrap32;
    var s1 := StartSending(c, s, limit);
    PartitionFits(PartitionIndex(TermIdOf(s.senderPosition, c.initialTermId, c.termLength), c.initialTermId),
                  c.termLength);
    SameBase(c, s, s1);
    k := ScanSteps(c, s1, s1.sender.limit, 0);
  }
}
