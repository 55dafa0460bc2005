/**
 Back-pressure compares `pub_position`, which does not count the pad of the current rotation,
 with `sender_position`.  With frames of different sizes a rotation can therefore enter the
 partition the sender is still reading.  This module exhibits such a run: an accepted frame is
 erased before it is sent, and afterwards neither the publisher nor the sender can move again.
 */
module PublicationStall {
  import opened Arith
  import opened Bytes
  import opened TermLog
  import opened Publication
  import opened PublicationHistory
  import opened PublicationScan
  import opened SenderControl
  import opened PublicationRuns

  /** Terms of 128 bytes and frames of at most 96. */
  const CFG := Config(1, 10, 0, 128, 96)

  lemma CfgOk()
    ensures ConfigOk(CFG)
  {
    assert IsPowerOfTwo(2) && IsPowerOfTwo(4);
    assert IsPowerOfTwo(8) && IsPowerOfTwo(16);
    assert IsPowerOfTwo(32) && IsPowerOfTwo(64);
    assert Aligned(128);
  }

  function Put(len: nat): Op {
    OfferOp(Zeros(len))
  }

  /** Frames of 96 and 32 bytes fill terms 0 to 2 and the sender scans one of them; then 64, 96 and 96 bytes. */
  function Script(): seq<Op> {
    [Put(64), Put(0), SendOp(1),
     Put(64), Put(64), Put(0),
     Put(64), Put(64), Put(0),
     Put(64), Put(32),
     Put(64), Put(64)]
  }

  /** The cursors of a world. */
  ghost predicate At(w: World, term: nat, offset: nat, pubPosition: nat, senderPosition: nat) {
    && PubOk(CFG, w.pub)
    && w.pub.activeTermId == term < 1000
    && w.pub.termOffset == offset
    && w.pub.pubPosition == pubPosition < 1000
    && w.pub.senderPosition == senderPosition <= pubPosition
  }

  lemma PutFits(w: World, term: nat, offset: nat, pubPosition: nat, senderPosition: nat, len: nat)
    requires At(w, term, offset, pubPosition, senderPosition)
    requires len <= 64 && Aligned(len) && offset + 32 + len <= 128 && pubPosition - senderPosition < 384
    requires pubPosition <= 128 * term + offset + 32 + len < 1000
    ensures var w' := Step(CFG, w, Put(len));
            && At(w', term, offset + 32 + len, 128 * term + offset + 32 + len, senderPosition)
            && w'.senderLimit == w.senderLimit && w'.sent == w.sent && |w'.accepted| == |w.accepted| + 1
            && (term == 4 ==> forall i :: offset + 32 + len <= i < 128 ==> w'.pub.buf[i] == w.pub.buf[i])
  {
    hide Splice, DataFrame;
    AlignedSum(32, len);
    assert Align32(HEADER + |Zeros(len)|) == 32 + len;
    var w' := Step(CFG, w, Put(len));
    assert w'.pub == AppendFrame(CFG, w.pub, Zeros(len));
  }

  lemma PutRotates(w: World, term: nat, offset: nat, pubPosition: nat, senderPosition: nat, len: nat)
    requires At(w, term, offset, pubPosition, senderPosition)
    requires len <= 64 && Aligned(len) && offset + 32 + len > 128 && pubPosition - senderPosition < 384
    requires term < 900
    ensures var w' := Step(CFG, w, Put(len));
            && At(w', term + 1, 0, pubPosition, senderPosition)
            && w'.senderLimit == w.senderLimit && w'.sent == w.sent && |w'.accepted| == |w.accepted|
            && (term == 3 ==> forall i :: 0 <= i < 128 ==> w'.pub.buf[i] == 0)
  {
    hide WritePad;
    AlignedSum(32, len);
    assert Align32(HEADER + |Zeros(len)|) == 32 + len;
    var w' := Step(CFG, w, Put(len));
    assert w'.pub == RotateTerm(CFG, w.pub);
    var padded := WritePad(w.pub.buf, 128, ActivePartition(CFG, w.pub), w.pub.termOffset);
    if term == 3 {
      var cleaned := CleanPartition(padded, 128, 0);
      assert forall i :: 0 <= i < 128 ==> cleaned[i] == cleaned[0..128][i];
    }
  }

  /** One send slot lets the sender scan the first of two frames. */
  lemma SendOne(w: World, h: seq<Rec>)
    requires Explained(CFG, w, h, 0, 96) && At(w, 0, 128, 128, 0) && w.senderLimit == 128
    requires |h| == 2 && h[0].len == 96 && h[0].data
    ensures var w' := Step(CFG, w, SendOp(1));
            && At(w', 0, 128, 128, 96) && |w'.sent| == |w.sent| + 1
            && w'.senderLimit == 128 && w'.accepted == w.accepted
  {
    hide FrameLengthAt, IsPad, RecOk, Wrap64, Contiguous, DataEnd;
    var buf := w.pub.buf;
    FirstPosition(h);
    FrameAtCursor(buf, 128, 0, 0, 0, h, 0, 0, 0);
    AlignedSum(32, 64);
    var rest := Scan(buf, 0, 128, 96, 96, 96);
    assert rest == ScanResult(96, []);
    var frame := Emission(0, buf[0..96]);
    assert [frame] + [] == [frame] && [frame][1..] == [];
    assert Transmitted([frame]) == [frame.slice] + Transmitted([]);
    assert Scan(buf, 0, 128, 0, 0, 96) == ScanResult(96, [frame]);
    assert ScanLimit(128, 0, 128, 1, 96) == 96;
  }

  lemma {:induction false} FirstPosition(h: seq<Rec>)
    requires Contiguous(h) && |h| > 0
    ensures h[0].pos == 0
  {
    if |h| > 1 {
      FirstPosition(h[..|h| - 1]);
    }
  }

  lemma RunSplit(w: World, ops: seq<Op>, i: nat)
    requires PubOk(CFG, w.pub) && i < |ops|
    ensures Run(CFG, w, ops[..i + 1]) == Step(CFG, Run(CFG, w, ops[..i]), ops[i])
  {
    assert ops[..i + 1][..i] == ops[..i];
  }

  lemma PutExplained(w: World, h: seq<Rec>, offset: nat, len: nat)
    returns (h': seq<Rec>)
    requires Explained(CFG, w, h, 0, 96) && At(w, 0, offset, offset, 0)
    requires len <= 64 && Aligned(len) && offset + 32 + len <= 128
    ensures Explained(CFG, Step(CFG, w, Put(len)), h', 0, 96)
    ensures |h'| == |h| + 1 && h'[..|h|] == h && h'[|h|].len == 32 + len && h'[|h|].data
  {
    hide Explained, Splice, DataFrame, Step;
    AlignedSum(32, len);
    assert Align32(HEADER + |Zeros(len)|) == 32 + len;
    h' := OfferExplained(CFG, w, Zeros(len), h, 0, 96);
    assert h' == h + [OfferRec(CFG, w.pub, Zeros(len))];
  }

  /** The first two offers, as a history. */
  lemma TwoFrames(w0: World) returns (w2: World, h: seq<Rec>)
    requires w0 == InitialWorld(CFG)
    ensures w2 == Step(CFG, Step(CFG, w0, Put(64)), Put(0))
    ensures At(w2, 0, 128, 128, 0) && w2.senderLimit == 128 && w2.sent == [] && |w2.accepted| == 2
    ensures Explained(CFG, w2, h, 0, 96) && |h| == 2 && h[0].len == 96 && h[0].data
  {
    hide Explained, Step;
    CfgOk();
    InitialExplained(CFG, 96);
    AlignedZero();
    PutFits(w0, 0, 0, 0, 0, 64);
    h := PutExplained(w0, [], 0, 64);
    var w1 := Step(CFG, w0, Put(64));
    PutFits(w1, 0, 96, 96, 0, 0);
    h := PutExplained(w1, h, 96, 0);
    w2 := Step(CFG, w1, Put(0));
  }

  /** The state the script ends in: published far ahead, sender in front of erased bytes. */
  ghost predicate Stalled(w: World) {
    && At(w, 4, 96, 608, 96)
    && forall i :: 96 <= i < 128 ==> w.pub.buf[i] == 0
  }

  lemma ScriptStalls() returns (w: World)
    ensures w == Run(CFG, InitialWorld(CFG), Script())
    ensures Stalled(w) && |w.sent| == 1 && |w.accepted| == 8
  {
    hide At, Step, Explained;
    AlignedZero();
    assert Aligned(32) && Aligned(64);
    var w0 := InitialWorld(CFG);
    var w2, h := TwoFrames(w0);
    SendOne(w2, h);
    var w3 := Step(CFG, w2, SendOp(1));
    PutRotates(w3, 0, 128, 128, 96, 64);
    var w4 := Step(CFG, w3, Put(64));
    PutFits(w4, 1, 0, 128, 96, 64);
    var w5 := Step(CFG, w4, Put(64));
    PutFits(w5, 1, 96, 224, 96, 0);
    var w6 := Step(CFG, w5, Put(0));
    PutRotates(w6, 1, 128, 256, 96, 64);
    var w7 := Step(CFG, w6, Put(64));
    PutFits(w7, 2, 0, 256, 96, 64);
    var w8 := Step(CFG, w7, Put(64));
    PutFits(w8, 2, 96, 352, 96, 0);
    var w9 := Step(CFG, w8, Put(0));
    PutRotates(w9, 2, 128, 384, 96, 64);
    var w10 := Step(CFG, w9, Put(64));
    PutFits(w10, 3, 0, 384, 96, 32);
    var w11 := Step(CFG, w10, Put(32));
    PutRotates(w11, 3, 64, 448, 96, 64);
    var w12 := Step(CFG, w11, Put(64));
    PutFits(w12, 4, 0, 448, 96, 64);
    w := Step(CFG, w12, Put(64));
    RunScript(w0);
  }

  lemma RunScript(w0: World)
    requires PubOk(CFG, w0.pub)
    ensures Run(CFG, w0, Script())
         == (var w3 := Step(CFG, Step(CFG, Step(CFG, w0, Put(64)), Put(0)), SendOp(1));
             var w6 := Step(CFG, Step(CFG, Step(CFG, w3, Put(64)), Put(64)), Put(0));
             var w9 := Step(CFG, Step(CFG, Step(CFG, w6, Put(64)), Put(64)), Put(0));
             var w11 := Step(CFG, Step(CFG, w9, Put(64)), Put(32));
             Step(CFG, Step(CFG, w11, Put(64)), Put(64)))
  {
    hide Step;
    var ops := Script();
    assert ops[..0] == [] && ops[..13] == ops;
    RunSplit(w0, ops, 0);
    RunSplit(w0, ops, 1);
    RunSplit(w0, ops, 2);
    RunSplit(w0, ops, 3);
    RunSplit(w0, ops, 4);
    RunSplit(w0, ops, 5);
    RunSplit(w0, ops, 6);
    RunSplit(w0, ops, 7);
    RunSplit(w0, ops, 8);
    RunSplit(w0, ops, 9);
    RunSplit(w0, ops, 10);
    RunSplit(w0, ops, 11);
    RunSplit(w0, ops, 12);
  }

  lemma StalledScan(w: World, limit: nat)
    requires Stalled(w)
    ensures SenderScan(CFG, w.pub, limit) == (w.pub, ScanResult(0, []))
  {
    hide FrameLengthAt, TermIdOf, PartitionIndex;
    var buf := w.pub.buf;
    SlotOf96();
    assert buf[96] == 0 && buf[97] == 0 && buf[98] == 0 && buf[99] == 0;
    ZeroLength(buf);
    assert Scan(buf, 0, 128, 96, 0, if limit < 32 then limit else 32) == ScanResult(0, []);
  }

  lemma SlotOf96()
    ensures PartitionIndex(TermIdOf(96, 0, 128), 0) == 0 && TermOffsetOf(96, 128) == 96
  {
    hide TermIdOf, PartitionIndex, ComputePosition;
    PositionRoundTrip(96, 0, 128);
    assert 96 / 128 == 0;
  }

  lemma ZeroLength(buf: seq<Byte>)
    requires |buf| == 512 && buf[96] == 0 && buf[97] == 0 && buf[98] == 0 && buf[99] == 0
    ensures FrameLengthAt(buf, 0, 128, 96) == 0
  {
    hide Wrap32;
    assert Wrap32(0) == 0;
    assert Word32(buf[96], buf[97], buf[98], buf[99]) == 0;
  }

  /** From a stalled state no call moves anything. */
  lemma StalledStays(w: World, op: Op)
    requires Stalled(w)
    ensures var w' := Step(CFG, w, op);
            w'.pub == w.pub && w'.sent == w.sent && w'.accepted == w.accepted
  {
    hide SenderScan, ScanLimit, UpdateLimit, RotateTerm, AppendFrame;
    match op
    case OfferOp(payload) =>
      assert Backed(CFG, w.pub);
    case StatusOp(_, _, _) =>
    case SendOp(sendSlots) =>
      StalledScan(w, ScanLimit(w.senderLimit, w.pub.senderPosition, w.pub.pubPosition, sendSlots, CFG.mtu));
      assert Transmitted([]) == [];
  }

  /**
   After the script, with eight frames accepted and one sent, no continuation ever sends another
   frame or accepts another offer.
   */
  lemma {:induction false} MixedSizesStall(more: seq<Op>)
    ensures ConfigOk(CFG)
    ensures var w := Run(CFG, InitialWorld(CFG), Script());
            var w' := Run(CFG, w, more);
            && |w'.accepted| == 8 && |w'.sent| == 1
            && w'.pub == w.pub && w'.sent == w.sent && w'.accepted == w.accepted
  {
    hide Stalled, Step, Script;
    CfgOk();
    var w := ScriptStalls();
    StalledForever(w, more);
  }

  lemma {:induction false} StalledForever(w: World, more: seq<Op>)
    requires Stalled(w) && PubOk(CFG, w.pub)
    ensures var w' := Run(CFG, w, more);
            w'.pub == w.pub && w'.sent == w.sent && w'.accepted == w.accepted
  {
    if |more| > 0 {
      StalledForever(w, more[..|more| - 1]);
      StalledStays(Run(CFG, w, more[..|more| - 1]), more[|more| - 1]);
    }
  }
}
