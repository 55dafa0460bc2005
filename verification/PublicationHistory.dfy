/**
 The history of a publication: every frame ever written, at its absolute stream position.
 The log shows the unscanned part of that history, and `offer` and `sender_scan` keep it so
 as long as no rotation enters the partition the sender is still reading.
 */
module PublicationHistory {
  import opened Arith
  import opened Bytes
  import opened TermLog
  import opened Publication

  /** A frame in the stream: position, frame length, the bytes known to be in the log, and its kind. */
  datatype Rec = Rec(pos: nat, len: nat, bytes: seq<Byte>, data: bool)

  function End(r: Rec): nat {
    r.pos + Align32(r.len)
  }

  ghost predicate RecOk(tl: nat, r: Rec) {
    && tl > 0
    && HEADER <= |r.bytes| <= r.len < TWO31
    && DecodeI32(r.bytes, 0) == r.len
    && DecodeU16(r.bytes, 6) == (if r.data then TYPE_DATA else TYPE_PAD)
    && (r.data ==> |r.bytes| == r.len)
    && r.pos % tl + Align32(r.len) <= tl
  }

  function NextPos(h: seq<Rec>): nat {
    if |h| == 0 then 0 else End(h[|h| - 1])
  }

  function Start(h: seq<Rec>, i: nat): nat
    requires i <= |h|
  {
    if i < |h| then h[i].pos else NextPos(h)
  }

  /** Each frame starts where the one before it ends. */
  ghost predicate Contiguous(h: seq<Rec>) {
    |h| == 0 || (Contiguous(h[..|h| - 1]) && h[|h| - 1].pos == NextPos(h[..|h| - 1]))
  }

  /** End of the last data frame: where `pub_position` points. */
  function DataEnd(h: seq<Rec>): nat {
    if |h| == 0 then 0
    else if h[|h| - 1].data then End(h[|h| - 1])
    else DataEnd(h[..|h| - 1])
  }

  function DataFrames(h: seq<Rec>): seq<seq<Byte>> {
    if |h| == 0 then []
    else DataFrames(h[..|h| - 1]) + (if h[|h| - 1].data then [h[|h| - 1].bytes] else [])
  }

  // ---- Facts about histories ----

  lemma {:induction false} PositionsOrdered(h: seq<Rec>, i: nat, j: nat)
    requires Contiguous(h) && i <= j <= |h|
    ensures Start(h, i) <= Start(h, j)
    ensures i < j ==> End(h[i]) <= Start(h, j)
  {
    if |h| > 0 && i < |h| {
      var front := h[..|h| - 1];
      PositionsOrdered(front, i, if j < |h| then j else j - 1);
    }
  }

  lemma {:induction false} PositionsAligned(h: seq<Rec>, n: nat)
    requires Contiguous(h) && n <= |h|
    ensures Aligned(Start(h, n))
  {
    hide Aligned, Align32;
    AlignedZero();
    if n == |h| && n > 0 {
      PositionsAligned(h[..n - 1], n - 1);
      AlignedSum(h[n - 1].pos, Align32(h[n - 1].len));
    } else if n < |h| {
      PositionsAligned(h[..|h| - 1], n);
    }
  }

  lemma {:induction false} DataEndBound(h: seq<Rec>)
    requires Contiguous(h)
    ensures DataEnd(h) <= NextPos(h)
  {
    if |h| > 0 {
      DataEndBound(h[..|h| - 1]);
    }
  }

  /** `pub_position` is a frame boundary: a frame that starts before it also ends by it. */
  lemma {:induction false} DataEndIsBoundary(h: seq<Rec>, m: nat)
    requires Contiguous(h) && m < |h| && h[m].pos < DataEnd(h)
    ensures End(h[m]) <= DataEnd(h)
  {
    var last := |h| - 1;
    var front := h[..last];
    PositionsOrdered(h, m, last);
    DataEndBound(front);
    if !h[last].data && m < last {
      DataEndIsBoundary(front, m);
    }
  }

  lemma {:induction false} DataFramesPrefix(h: seq<Rec>, n: nat)
    requires n <= |h|
    ensures DataFrames(h[..n]) <= DataFrames(h)
  {
    if n < |h| {
      DataFramesPrefix(h[..|h| - 1], n);
      assert h[..|h| - 1][..n] == h[..n];
    } else {
      assert h[..n] == h;
    }
  }

  /** Nothing but padding lies at or after the end of the last data frame. */
  lemma {:induction false} DataFramesComplete(h: seq<Rec>, n: nat)
    requires Contiguous(h) && n <= |h| && DataEnd(h) <= Start(h, n)
    requires forall i :: 0 <= i < |h| ==> h[i].len > 0
    ensures DataFrames(h[..n]) == DataFrames(h)
  {
    if n < |h| {
      var front := h[..|h| - 1];
      PositionsOrdered(h, n, |h| - 1);
      assert Start(front, n) == Start(h, n);
      assert front[..n] == h[..n];
      DataFramesComplete(front, n);
    } else {
      assert h[..n] == h;
    }
  }

  lemma {:induction false} DataFramesConcat(a: seq<Rec>, b: seq<Rec>)
    ensures DataFrames(a + b) == DataFrames(a) + DataFrames(b)
  {
    if |b| == 0 {
      assert a + b == a;
    } else {
      var front := b[..|b| - 1];
      DataFramesConcat(a, front);
      assert (a + b)[..|a + b| - 1] == a + front;
    }
  }

  // ---- The invariant ----

  /** Number of completed rotations. */
  function TermCount(c: Config, p: Pub): int {
    Wrap32(p.activeTermId - c.initialTermId)
  }

  function WritePosition(c: Config, p: Pub): int {
    TermCount(c, p) * c.termLength + p.termOffset
  }

  ghost predicate Shown(buf: seq<Byte>, h: seq<Rec>, n: nat) {
    forall i :: n <= i < |h| ==> Shows(buf, h[i].pos, h[i].bytes)
  }

  ghost predicate HistoryOk(tl: nat, h: seq<Rec>) {
    Contiguous(h) && forall i :: 0 <= i < |h| ==> RecOk(tl, h[i])
  }

  /** The cursors of `p` agree with history `h`, of which the sender has scanned the first `n` frames. */
  ghost predicate Cursors(c: Config, p: Pub, h: seq<Rec>, n: nat) {
    && ConfigOk(c) && PubOk(c, p)
    && 0 <= TermCount(c, p) < TWO31 - 1 && p.activeTermId == Wrap32(c.initialTermId + TermCount(c, p))
    && Aligned(p.termOffset)
    && HistoryOk(c.termLength, h) && n <= |h|
    && NextPos(h) == WritePosition(c, p)
    && p.pubPosition == DataEnd(h)
    && (p.termOffset > 0 ==> p.pubPosition == WritePosition(c, p))
    && p.senderPosition == Start(h, n) <= p.pubPosition
    && (TermCount(c, p) - 3) * c.termLength <= p.senderPosition
  }

  /** `p` wrote history `h`, its sender has scanned the first `n` frames and the log still shows the others. */
  ghost predicate Tracks(c: Config, p: Pub, h: seq<Rec>, n: nat) {
    Cursors(c, p, h, n) && Shown(p.buf, h, n)
  }

  lemma InitialTracks(c: Config)
    requires ConfigOk(c)
    ensures Tracks(c, InitialPub(c), [], 0)
  {
  }

  /** The log byte where the publisher writes is the ring slot of its absolute position. */
  lemma WriteSlot(c: Config, p: Pub)
    requires ConfigOk(c) && PubOk(c, p) && 0 <= TermCount(c, p)
    requires p.activeTermId == Wrap32(c.initialTermId + TermCount(c, p)) && p.termOffset < c.termLength
    ensures WritePosition(c, p) >= 0
    ensures WritePosition(c, p) % (4 * c.termLength) == ActivePartition(c, p) * c.termLength + p.termOffset
    ensures WritePosition(c, p) % c.termLength == p.termOffset
  {
    var k := TermCount(c, p);
    TermCountRoundTrip(c.initialTermId, k);
    SlotOfBlock(k, p.termOffset, c.termLength, 4);
    DivModUnique(WritePosition(c, p), k, p.termOffset, c.termLength);
  }

  // ---- offer ----

  /** Writing a piece at the write position leaves all unscanned frames in place. */
  lemma WriteKeepsShown(tl: nat, buf: seq<Byte>, h: seq<Rec>, n: nat, at: nat, bytes: seq<Byte>)
    requires HistoryOk(tl, h) && n <= |h| && Shown(buf, h, n)
    requires NextPos(h) <= at && InOnePiece(at, |bytes|, |buf|)
    requires n < |h| ==> at + |bytes| <= h[n].pos + |buf|
    ensures Shown(Splice(buf, at % |buf|, bytes), h, n)
  {
    forall i | n <= i < |h| ensures Shows(Splice(buf, at % |buf|, bytes), h[i].pos, h[i].bytes) {
      PositionsOrdered(h, n, i);
      PositionsOrdered(h, i, |h|);
      SpliceKeeps(buf, h[i].pos, h[i].bytes, at, bytes);
    }
  }

  lemma HistoryAppend(tl: nat, h: seq<Rec>, r: Rec)
    requires HistoryOk(tl, h) && RecOk(tl, r) && r.pos == NextPos(h)
    ensures HistoryOk(tl, h + [r]) && NextPos(h + [r]) == End(r)
    ensures DataEnd(h + [r]) == if r.data then End(r) else DataEnd(h)
    ensures DataFrames(h + [r]) == DataFrames(h) + if r.data then [r.bytes] else []
    ensures forall n :: 0 <= n <= |h| ==> Start(h + [r], n) == Start(h, n)
  {
    assert (h + [r])[..|h|] == h;
  }

  /** The record of an accepted offer. */
  function OfferRec(c: Config, p: Pub, payload: seq<Byte>): Rec
    requires WritePosition(c, p) >= 0
  {
    Rec(WritePosition(c, p), HEADER + |payload|, FrameFor(c, p, payload), true)
  }

  lemma OfferRecOk(c: Config, p: Pub, payload: seq<Byte>)
    requires ConfigOk(c) && PubOk(c, p) && WritePosition(c, p) >= 0
    requires WritePosition(c, p) % c.termLength == p.termOffset
    requires !TooLarge(c, payload) && !Overflows(c, p, payload)
    ensures RecOk(c.termLength, OfferRec(c, p, payload))
  {
    HeaderFields(HEADER + |payload|, FLAGS_UNFRAGMENTED, TYPE_DATA, p.termOffset,
                 c.sessionId, c.streamId, p.activeTermId, payload);
  }

  lemma AppendCursors(c: Config, p: Pub, h: seq<Rec>, n: nat, payload: seq<Byte>)
    requires Cursors(c, p, h, n)
    requires !TooLarge(c, payload) && !Overflows(c, p, payload)
    ensures WritePosition(c, p) >= 0
    ensures Cursors(c, AppendFrame(c, p, payload), h + [OfferRec(c, p, payload)], n)
  {
    hide RecOk, DataFrame, Wrap32, Wrap64, Align32, Aligned, IsPowerOfTwo, Splice;
    WriteSlot(c, p);
    var r, p' := OfferRec(c, p, payload), AppendFrame(c, p, payload);
    OfferRecOk(c, p, payload);
    HistoryAppend(c.termLength, h, r);
    DataEndBound(h);
    AlignedSum(p.termOffset, Align32(r.len));
    assert TermCount(c, p') == TermCount(c, p);
  }

  lemma AppendShown(c: Config, p: Pub, h: seq<Rec>, n: nat, payload: seq<Byte>)
    requires Tracks(c, p, h, n)
    requires !TooLarge(c, payload) && !Overflows(c, p, payload)
    ensures WritePosition(c, p) >= 0
    ensures Shown(AppendFrame(c, p, payload).buf, h + [OfferRec(c, p, payload)], n)
  {
    hide RecOk, DataFrame, Wrap32, Wrap64, Align32, Aligned, IsPowerOfTwo, DataEnd, Contiguous;
    WriteSlot(c, p);
    var tl, r, buf' := c.termLength, OfferRec(c, p, payload), AppendFrame(c, p, payload).buf;
    TermBases(TermCount(c, p), tl);
    PartitionFits(ActivePartition(c, p), tl);
    WriteKeepsShown(tl, p.buf, h, n, r.pos, r.bytes);
    SpliceShows(p.buf, r.pos, r.bytes);
    ShownAppend(buf', h, n, r);
  }

  lemma ShownAppend(buf: seq<Byte>, h: seq<Rec>, n: nat, r: Rec)
    requires Shown(buf, h, n) && n <= |h| && Shows(buf, r.pos, r.bytes)
    ensures Shown(buf, h + [r], n)
  {
    forall i | n <= i < |h| + 1 ensures Shows(buf, (h + [r])[i].pos, (h + [r])[i].bytes) {
      assert (h + [r])[i] == if i < |h| then h[i] else r;
    }
  }

  /** An accepted offer extends the history by one data frame and disturbs nothing unscanned. */
  lemma AppendTracks(c: Config, p: Pub, h: seq<Rec>, n: nat, payload: seq<Byte>)
    requires Tracks(c, p, h, n)
    requires !TooLarge(c, payload) && !Overflows(c, p, payload)
    ensures WritePosition(c, p) >= 0
    ensures Tracks(c, AppendFrame(c, p, payload), h + [OfferRec(c, p, payload)], n)
  {
    AppendCursors(c, p, h, n, payload);
    AppendShown(c, p, h, n, payload);
  }

  /** History after a rotation: a pad frame covers the unused tail, if there is one. */
  function RotatedHistory(c: Config, p: Pub, h: seq<Rec>): seq<Rec>
    requires PubOk(c, p) && WritePosition(c, p) >= 0
  {
    var remaining := c.termLength - p.termOffset;
    if remaining < HEADER then h
    else h + [Rec(WritePosition(c, p), remaining, PadHeader(remaining, p.termOffset), false)]
  }

  lemma PadRecOk(c: Config, p: Pub)
    requires ConfigOk(c) && PubOk(c, p) && Aligned(p.termOffset) && p.termOffset < c.termLength
    requires WritePosition(c, p) >= 0 && WritePosition(c, p) % c.termLength == p.termOffset
    ensures var remaining := c.termLength - p.termOffset;
            RecOk(c.termLength, Rec(WritePosition(c, p), remaining, PadHeader(remaining, p.termOffset), false))
  {
    hide Aligned, Align32, HeaderBytes, DecodeI32, DecodeU16;
    var remaining := c.termLength - p.termOffset;
    HeaderFields(remaining, 0, TYPE_PAD, p.termOffset, 0, 0, 0, []);
    var pad := PadHeader(remaining, p.termOffset);
    assert pad + [] == pad;
    AlignedSum(c.termLength, p.termOffset);
  }

  /** Padding the tail extends the history to the end of the term. */
  lemma PadHistory(c: Config, p: Pub, h: seq<Rec>, n: nat)
    requires Cursors(c, p, h, n)
    ensures WritePosition(c, p) >= 0
    ensures var h' := RotatedHistory(c, p, h);
            && HistoryOk(c.termLength, h') && n <= |h'| && Start(h', n) == Start(h, n)
            && NextPos(h') == (TermCount(c, p) + 1) * c.termLength
            && DataEnd(h') == DataEnd(h) && DataFrames(h') == DataFrames(h)
  {
    hide RecOk, PadHeader, Wrap32, Wrap64, Align32, Aligned, IsPowerOfTwo;
    var tl := c.termLength;
    TermBases(TermCount(c, p), tl);
    AlignedSum(p.termOffset, tl);
    AlignedSum(tl, p.termOffset);
    if p.termOffset < tl {
      WriteSlot(c, p);
      PadRecOk(c, p);
      HistoryAppend(tl, h, RotatedHistory(c, p, h)[|h|]);
    }
  }

  /** In stream terms, the pad is written at the write position. */
  lemma PadIsSplice(c: Config, p: Pub)
    requires ConfigOk(c) && PubOk(c, p) && 0 <= TermCount(c, p) && Aligned(p.termOffset)
    requires p.activeTermId == Wrap32(c.initialTermId + TermCount(c, p)) && p.termOffset < c.termLength
    ensures var w, pad := WritePosition(c, p), PadHeader(c.termLength - p.termOffset, p.termOffset);
            && w >= 0 && InOnePiece(w, |pad|, |p.buf|)
            && WritePad(p.buf, c.termLength, ActivePartition(c, p), p.termOffset) == Splice(p.buf, w % |p.buf|, pad)
  {
    hide PadHeader, Wrap32, Aligned, IsPowerOfTwo, Splice;
    AlignedSum(p.termOffset, c.termLength);
    WriteSlot(c, p);
    PartitionFits(ActivePartition(c, p), c.termLength);
  }

  lemma PadShown(c: Config, p: Pub, h: seq<Rec>, n: nat)
    requires Tracks(c, p, h, n)
    ensures WritePosition(c, p) >= 0
    ensures Shown(WritePad(p.buf, c.termLength, ActivePartition(c, p), p.termOffset), RotatedHistory(c, p, h), n)
  {
    hide RecOk, PadHeader, Wrap32, Wrap64, Align32, Aligned, IsPowerOfTwo, DataEnd, Contiguous, WritePad, InOnePiece,
         Shows;
    var tl := c.termLength;
    TermBases(TermCount(c, p), tl);
    AlignedSum(p.termOffset, tl);
    if p.termOffset < tl {
      PadIsSplice(c, p);
      var r := RotatedHistory(c, p, h)[|h|];
      WriteKeepsShown(tl, p.buf, h, n, r.pos, r.bytes);
      SpliceShows(p.buf, r.pos, r.bytes);
      ShownAppend(WritePad(p.buf, tl, ActivePartition(c, p), p.termOffset), h, n, r);
    } else {
      assert WritePad(p.buf, tl, ActivePartition(c, p), p.termOffset) == p.buf by { PadNothing(c, p); }
    }
  }

  lemma PadNothing(c: Config, p: Pub)
    requires PubOk(c, p) && p.termOffset == c.termLength
    ensures WritePad(p.buf, c.termLength, ActivePartition(c, p), p.termOffset) == p.buf
  {
  }

  lemma NextTermId(c: Config, p: Pub)
    requires p.activeTermId == Wrap32(c.initialTermId + TermCount(c, p)) && 0 <= TermCount(c, p) < TWO31 - 1
    ensures var next := Wrap32(p.activeTermId + 1);
            && next == Wrap32(c.initialTermId + (TermCount(c, p) + 1))
            && Wrap32(next - c.initialTermId) == TermCount(c, p) + 1
            && PartitionIndex(next, c.initialTermId) == (TermCount(c, p) + 1) % 4
  {
    var k := TermCount(c, p);
    var m := Wrap32Congruent(c.initialTermId + k);
    Wrap32Shift(c.initialTermId + k + 1, m);
    TermCountRoundTrip(c.initialTermId, k + 1);
  }

  /** The sender has left the partition the next rotation will clean. */
  predicate RotationSafe(c: Config, p: Pub) {
    (TermCount(c, p) - 2) * c.termLength <= p.senderPosition
  }

  lemma RotateCursors(c: Config, p: Pub, h: seq<Rec>, n: nat)
    requires Cursors(c, p, h, n) && TermCount(c, p) < TWO31 - 2 && RotationSafe(c, p)
    ensures WritePosition(c, p) >= 0
    ensures Cursors(c, RotateTerm(c, p), RotatedHistory(c, p, h), n)
  {
    hide RecOk, PadHeader, Wrap32, Wrap64, Align32, Aligned, IsPowerOfTwo, DataEnd, Contiguous, WritePad,
         CleanPartition;
    AlignedZero();
    PadHistory(c, p, h, n);
    NextTermId(c, p);
    TermBases(TermCount(c, p), c.termLength);
    TermBases(TermCount(c, p) + 1, c.termLength);
    assert TermCount(c, RotateTerm(c, p)) == TermCount(c, p) + 1;
  }

  /** In stream terms, cleaning zeroes the whole next term. */
  lemma CleanIsSplice(c: Config, p: Pub, buf: seq<Byte>)
    requires ConfigOk(c) && |buf| == 4 * c.termLength && 0 <= TermCount(c, p) < TWO31 - 1
    requires p.activeTermId == Wrap32(c.initialTermId + TermCount(c, p))
    ensures var at := (TermCount(c, p) + 1) * c.termLength;
            && at >= 0 && InOnePiece(at, c.termLength, |buf|)
            && CleanPartition(buf, c.termLength, PartitionIndex(Wrap32(p.activeTermId + 1), c.initialTermId))
               == Splice(buf, at % |buf|, Zeros(c.termLength))
  {
    hide Wrap32, IsPowerOfTwo, Splice;
    var k := TermCount(c, p);
    NextTermId(c, p);
    SlotOfBlock(k + 1, 0, c.termLength, 4);
    PartitionFits((k + 1) % 4, c.termLength);
  }

  lemma RotateShown(c: Config, p: Pub, h: seq<Rec>, n: nat)
    requires Tracks(c, p, h, n) && TermCount(c, p) < TWO31 - 2 && RotationSafe(c, p)
    ensures WritePosition(c, p) >= 0
    ensures Shown(RotateTerm(c, p).buf, RotatedHistory(c, p, h), n)
  {
    hide RecOk, PadHeader, Wrap32, Wrap64, Align32, Aligned, IsPowerOfTwo, DataEnd, Contiguous,
         WritePad, CleanPartition, InOnePiece, Shows, Splice;
    var tl, k := c.termLength, TermCount(c, p);
    var padded := WritePad(p.buf, tl, ActivePartition(c, p), p.termOffset);
    PadHistory(c, p, h, n);
    PadShown(c, p, h, n);
    TermBases(k, tl);
    CleanIsSplice(c, p, padded);
    WriteKeepsShown(tl, padded, RotatedHistory(c, p, h), n, (k + 1) * tl, Zeros(tl));
  }

  /** A safe rotation keeps every unscanned frame. */
  lemma RotateTracks(c: Config, p: Pub, h: seq<Rec>, n: nat)
    requires Tracks(c, p, h, n) && TermCount(c, p) < TWO31 - 2 && RotationSafe(c, p)
    ensures WritePosition(c, p) >= 0
    ensures Tracks(c, RotateTerm(c, p), RotatedHistory(c, p, h), n)
  {
    RotateCursors(c, p, h, n);
    RotateShown(c, p, h, n);
  }
}
