/**
 An image fed by one sender, over a network that loses, duplicates and reorders.  The image holds
 a subset of the sender's frames; a poll delivers what it holds, in stream order and unchanged,
 and passes over a frame only while that frame is not committed.
 */
module ImageStream {
  import opened Arith
  import opened Bytes
  import opened TermLog
  import opened PublicationHistory
  import opened PublicationScan
  import opened Image
  import W = ImageWindow

  /** The sender's stream: frames and pads end to end, under 2^31 terms, one datagram per data frame. */
  ghost predicate StreamOk(tl: nat, h: seq<Rec>) {
    && HEADER <= tl <= 0x2000_0000 && Aligned(tl)
    && HistoryOk(tl, h) && NextPos(h) <= TWO31 * tl
    && forall i :: 0 <= i < |h| && h[i].data ==> |h[i].bytes| < HEADER + 0x1_0000
  }

  ghost predicate IsData(h: seq<Rec>, i: nat) { i < |h| && h[i].data }

  /** Frame `r` as the network carries it. */
  function WireOf(x: Image, r: Rec): Wire
    requires x.termLength > 0 && |r.bytes| >= HEADER
  {
    Wire(Wrap32(x.initialTermId + r.pos / x.termLength), r.pos % x.termLength, r.bytes[..HEADER], r.bytes[HEADER..])
  }

  // ---- A frame of the stream as `on_data` sees it ----

  /** The wrapped distance of two terms of the stream is their true distance. */
  lemma TermDistance(x: Image, t: nat)
    requires 0 <= W.TermCount(x) && t < TWO31 && IsI32(x.activeTermId)
    ensures var id := Wrap32(x.initialTermId + t);
            && Wrap32(id - x.activeTermId) == t - W.TermCount(x)
            && Wrap32(x.activeTermId - id) == W.TermCount(x) - t
            && PartitionIndex(id, x.initialTermId) == t % 4
  {
    hide Wrap32;
    var k := W.TermCount(x);
    var m1 := Wrap32Congruent(x.activeTermId - x.initialTermId);
    var m2 := Wrap32Congruent(x.initialTermId + t);
    var id := Wrap32(x.initialTermId + t);
    assert id - x.activeTermId == t - k + (m2 + m1) * TWO32;
    assert x.activeTermId - id == k - t + (-m2 - m1) * TWO32;
    Wrap32Shift(t - k, m2 + m1);
    Wrap32Shift(k - t, -m2 - m1);
    TermCountRoundTrip(x.initialTermId, t);
  }

  /** Term number, offset and ring slot of a frame. */
  lemma FramePlace(tl: nat, h: seq<Rec>, i: nat) returns (t: nat, off: nat, origin: nat)
    requires StreamOk(tl, h) && i < |h|
    ensures t == h[i].pos / tl && off == h[i].pos % tl && origin == t * tl && h[i].pos == origin + off
    ensures t < TWO31 && Aligned(off) && off + Align32(h[i].len) <= tl
    ensures h[i].pos % (4 * tl) == t % 4 * tl + off && InOnePiece(h[i].pos, |h[i].bytes|, 4 * tl)
    ensures RecOk(tl, h[i]) && Aligned(h[i].pos)
  {
    hide Align32, Aligned, Contiguous, DecodeI32, DecodeU16;
    t, off, origin := SplitPosition(h[i].pos, tl);
    PositionsOrdered(h, i, |h|);
    MulStep(TWO31, t, tl);
    SlotOfBlock(t, off, tl, 4);
    PartitionFits(t % 4, tl);
    PositionsAligned(h, i);
    AlignedOffset(t, tl, h[i].pos);
  }

  lemma AlignedOffset(t: nat, tl: nat, pos: nat)
    requires Aligned(tl) && Aligned(pos)
    ensures Aligned(t * tl) && Aligned(pos - t * tl)
  {
    hide Aligned;
    AlignedMultiple(t, tl);
    AlignedSum(pos, t * tl);
  }

  /** The log ends up with exactly the bytes that were sent. */
  lemma CommittedIsSent(x: Image, tl: nat, r: Rec)
    requires RecOk(tl, r) && r.data && x.termLength == tl
    ensures CommittedBytes(WireOf(x, r)) == r.bytes
  {
    hide Align32, Wrap32, DecodeI32, EncodeI32;
    EncodeDecodeI32(r.bytes);
    assert r.bytes == r.bytes[..4] + r.bytes[4..HEADER] + r.bytes[HEADER..];
  }

  lemma WireFacts(x: Image, h: seq<Rec>, i: nat)
    requires W.CursorsAgree(x) && StreamOk(x.termLength, h) && IsData(h, i)
    ensures |h[i].bytes| >= HEADER
    ensures var f, t, k := WireOf(x, h[i]), h[i].pos / x.termLength, W.TermCount(x);
            && WireOk(f)
            && TermAhead(x, f) == t - k && Wrap32(x.activeTermId - f.termId) == k - t
            && WirePartition(x, f) == t % 4
            && WirePartition(x, f) * x.termLength + Offset(f) == h[i].pos % (4 * x.termLength)
            && CommittedBytes(f) == h[i].bytes
            && !TermFull(x, f)
            && ComputePosition(f.termId, NewOffset(f), x.initialTermId, x.termLength) == End(h[i])
            && W.TermsLeft(x, f)
  {
    hide Align32, Aligned, Wrap32, DecodeI32, DecodeU16, CommittedBytes, PartitionIndex, IsPowerOfTwo, HistoryOk;
    var t, off, origin := FramePlace(x.termLength, h, i);
    TermDistance(x, t);
    TermCountRoundTrip(x.initialTermId, t);
    CommittedIsSent(x, x.termLength, h[i]);
  }

  // ---- What the image holds ----

  ghost predicate Covered(h: seq<Rec>, stored: set<nat>, q: nat) {
    exists i :: i in stored && i < |h| && h[i].pos <= q < End(h[i])
  }

  /** Position `q` lies in the window of `k`. */
  ghost predicate InTerms(k: int, tl: nat, q: nat) {
    (k - 3) * tl <= q < (k + 1) * tl
  }

  const BLANK: seq<Byte> := [0, 0, 0, 0]

  /** The partition of `q` holds its term, or on the first lap has never been used. */
  ghost predicate InLog(k: int, tl: nat, q: nat)
    requires tl > 0
  {
    k - 3 <= q / tl && (q / tl <= k || q / tl <= 3)
  }

  /** The log shows the stored frames, and no length word anywhere else in its lap. */
  ghost predicate Holds(buf: seq<Byte>, k: int, tl: nat, h: seq<Rec>, stored: set<nat>) {
    && tl > 0
    && (forall i :: i in stored ==> IsData(h, i) && InTerms(k, tl, h[i].pos) && Shows(buf, h[i].pos, h[i].bytes))
    && (forall q: nat :: InLog(k, tl, q) && Aligned(q) && !Covered(h, stored, q) ==> Shows(buf, q, BLANK))
  }

  lemma HoldsBlankLog(buf: seq<Byte>, k: int, tl: nat, h: seq<Rec>, stored: set<nat>, q: nat)
    requires Holds(buf, k, tl, h, stored) && InLog(k, tl, q) && Aligned(q) && !Covered(h, stored, q)
    ensures Shows(buf, q, BLANK)
  {
  }

  lemma HoldsBlank(buf: seq<Byte>, k: int, tl: nat, h: seq<Rec>, stored: set<nat>, q: nat)
    requires Holds(buf, k, tl, h, stored) && InTerms(k, tl, q) && Aligned(q) && !Covered(h, stored, q)
    ensures Shows(buf, q, BLANK)
  {
    hide Shows, Aligned, InTerms;
    TermRange(q, k, tl);
  }

  // ---- Moving the window ----

  /** A piece of a term whose partition is not cleaned stays. */
  lemma PieceStays(x: Image, steps: nat, pos: nat, bytes: seq<Byte>)
    requires ImageOk(x) && Shows(x.buf, pos, bytes) && pos % x.termLength + |bytes| <= x.termLength
    requires !W.Cleaned(x, steps, pos / x.termLength % 4)
    ensures Shows(CleanAhead(x, steps), pos, bytes)
  {
    hide IsPowerOfTwo, CleanAhead, W.Cleaned;
    var tl := x.termLength;
    var t, off, origin := SplitPosition(pos, tl);
    SlotOfBlock(t, off, tl, 4);
    var at, buf' := pos % (4 * tl), CleanAhead(x, steps);
    forall j | 0 <= j < |bytes| ensures buf'[at + j] == bytes[j] {
      DivModUnique(at + j, t % 4, off + j, tl);
      W.CleanAheadBytes(x, steps, at + j);
      assert x.buf[at..at + |bytes|][j] == x.buf[at + j];
    }
  }

  /** A cleaned partition shows blanks only. */
  lemma PieceBlank(x: Image, steps: nat, q: nat)
    requires ImageOk(x) && q % x.termLength + 4 <= x.termLength
    requires W.Cleaned(x, steps, q / x.termLength % 4)
    ensures Shows(CleanAhead(x, steps), q, BLANK)
  {
    hide IsPowerOfTwo, CleanAhead, W.Cleaned;
    var tl := x.termLength;
    var t, off, origin := SplitPosition(q, tl);
    SlotOfBlock(t, off, tl, 4);
    PartitionFits(t % 4, tl);
    var at, buf' := q % (4 * tl), CleanAhead(x, steps);
    forall j | 0 <= j < 4 ensures buf'[at..at + 4][j] == BLANK[j] {
      DivModUnique(at + j, t % 4, off + j, tl);
      W.CleanAheadBytes(x, steps, at + j);
    }
  }

  /** Terms up to `k` that stay in the window keep their partition; newer ones get a clean one. */
  lemma CleanedTerms(x: Image, d: nat, t: nat)
    requires 0 <= W.TermCount(x) && 0 < d && W.TermCount(x) + d < TWO31
    requires W.TermCount(x) + d - 3 <= t && (t <= W.TermCount(x) + d || t <= 3)
    ensures W.Cleaned(x, if d < 4 then d else 4, t % 4) <==> W.TermCount(x) < t <= W.TermCount(x) + d
  {
    hide W.Cleaned, W.TermCount;
    W.CleanedExactly(x, if d < 4 then d else 4, t % 4);
    var k := W.TermCount(x);
    assert (t % 4 - k - 1) % 4 == (t - k - 1) % 4;
  }

  lemma TermRange(q: nat, k: int, tl: nat)
    requires tl > 0
    ensures InTerms(k, tl, q) <==> k - 3 <= q / tl <= k
  {
    var t := q / tl;
    MulStep(t, k, tl);
    MulStep(k + 1, t, tl);
    MulStep(k - 3, t, tl);
    MulStep(t, k - 4, tl);
    assert (k + 1) * tl == k * tl + tl && (k - 3) * tl == (k - 4) * tl + tl;
  }

  ghost function Kept(h: seq<Rec>, stored: set<nat>, low: int): (r: set<nat>)
    ensures r <= stored
  {
    set i | i in stored && i < |h| && low <= h[i].pos
  }

  lemma AdvanceHolds(x: Image, h: seq<Rec>, stored: set<nat>, d: nat)
    requires W.CursorsAgree(x) && StreamOk(x.termLength, h)
    requires Holds(x.buf, W.TermCount(x), x.termLength, h, stored)
    requires 0 < d && W.TermCount(x) + d < TWO31
    ensures var k, tl := W.TermCount(x) + d, x.termLength;
            Holds(CleanAhead(x, if d < 4 then d else 4), k, tl, h, Kept(h, stored, (k - 3) * tl))
  {
    hide IsPowerOfTwo, CleanAhead, W.Cleaned, W.TermCount, Shows, Align32, InTerms, HistoryOk, Aligned;
    var k, tl := W.TermCount(x), x.termLength;
    var k', steps := k + d, if d < 4 then d else 4;
    var stored', buf' := Kept(h, stored, (k' - 3) * tl), CleanAhead(x, steps);
    forall i | i in stored' ensures IsData(h, i) && InTerms(k', tl, h[i].pos) && Shows(buf', h[i].pos, h[i].bytes) {
      KeptFrame(x, h, stored, d, i);
    }
    forall q: nat | InLog(k', tl, q) && Aligned(q) && !Covered(h, stored', q) ensures Shows(buf', q, BLANK) {
      KeptBlank(x, h, stored, d, q);
    }
  }

  lemma KeptFrame(x: Image, h: seq<Rec>, stored: set<nat>, d: nat, i: nat)
    requires W.CursorsAgree(x) && StreamOk(x.termLength, h)
    requires 0 < d && W.TermCount(x) + d < TWO31
    requires IsData(h, i) && InTerms(W.TermCount(x), x.termLength, h[i].pos) && Shows(x.buf, h[i].pos, h[i].bytes)
    requires (W.TermCount(x) + d - 3) * x.termLength <= h[i].pos
    ensures InTerms(W.TermCount(x) + d, x.termLength, h[i].pos)
    ensures Shows(CleanAhead(x, if d < 4 then d else 4), h[i].pos, h[i].bytes)
  {
    hide IsPowerOfTwo, CleanAhead, W.Cleaned, W.TermCount, Shows, Align32, HistoryOk, Aligned, DecodeI32;
    var k, tl := W.TermCount(x), x.termLength;
    var t, off, origin := FramePlace(tl, h, i);
    MulStep(k + 1, k + d + 1, tl);
    TermRange(h[i].pos, k, tl);
    TermRange(h[i].pos, k + d, tl);
    CleanedTerms(x, d, t);
    PieceStays(x, if d < 4 then d else 4, h[i].pos, h[i].bytes);
  }

  /** A position of term `low` or later loses no covering frame. */
  lemma KeptCovers(tl: nat, h: seq<Rec>, stored: set<nat>, low: int, q: nat)
    requires StreamOk(tl, h) && low <= q / tl && Covered(h, stored, q)
    ensures Covered(h, Kept(h, stored, low * tl), q)
  {
    hide HistoryOk, Align32, Aligned;
    var i :| i in stored && i < |h| && h[i].pos <= q < End(h[i]);
    SameTerm(tl, h, i, q);
    MulStep(low, q / tl, tl);
    assert i in Kept(h, stored, low * tl);
  }

  lemma KeptBlank(x: Image, h: seq<Rec>, stored: set<nat>, d: nat, q: nat)
    requires W.CursorsAgree(x) && StreamOk(x.termLength, h)
    requires Holds(x.buf, W.TermCount(x), x.termLength, h, stored)
    requires 0 < d && W.TermCount(x) + d < TWO31
    requires x.termLength > 0 && InLog(W.TermCount(x) + d, x.termLength, q) && Aligned(q)
    requires !Covered(h, Kept(h, stored, (W.TermCount(x) + d - 3) * x.termLength), q)
    ensures Shows(CleanAhead(x, if d < 4 then d else 4), q, BLANK)
  {
    hide IsPowerOfTwo, CleanAhead, W.Cleaned, W.TermCount, Shows, Aligned, Holds, Covered, Kept, StreamOk,
         W.CursorsAgree;
    W.CursorsParts(x);
    var k, tl := W.TermCount(x), x.termLength;
    var steps := if d < 4 then d else 4;
    CleanedTerms(x, d, q / tl);
    BlankFits(q, tl);
    if q / tl <= k || q / tl > k + d {
      if Covered(h, stored, q) {
        KeptCovers(tl, h, stored, k + d - 3, q);
      }
      HoldsBlankLog(x.buf, k, tl, h, stored, q);
      PieceStays(x, steps, q, BLANK);
    } else {
      PieceBlank(x, steps, q);
    }
  }

  lemma BlankFits(q: nat, tl: nat)
    requires tl > 0 && Aligned(q) && Aligned(tl)
    ensures q % tl + 32 <= tl
  {
    hide Aligned;
    var t, off, origin := SplitPosition(q, tl);
    AlignedOffset(t, tl, q);
    AlignedSum(off, tl);
  }

  /** Everything a frame covers lies in its own term. */
  lemma SameTerm(tl: nat, h: seq<Rec>, i: nat, q: nat)
    requires StreamOk(tl, h) && i < |h| && h[i].pos <= q < End(h[i])
    ensures q / tl == h[i].pos / tl && q / tl * tl <= h[i].pos
  {
    hide Align32, Aligned, HistoryOk;
    var t, off, origin := FramePlace(tl, h, i);
    DivModUnique(q, t, q - origin, tl);
  }

  // ---- Writing a frame of the stream ----

  /** Two positions of one window are less than a lap apart. */
  lemma WindowWidth(k: int, tl: nat)
    ensures (k + 1) * tl == (k - 3) * tl + 4 * tl
  {
  }

  /** The frame after the window test ends inside the window. */
  lemma EndInTerms(tl: nat, h: seq<Rec>, i: nat, k: int)
    requires StreamOk(tl, h) && i < |h| && InTerms(k, tl, h[i].pos)
    ensures End(h[i]) <= (k + 1) * tl && |h[i].bytes| <= Align32(h[i].len)
  {
    hide Align32, Aligned, HistoryOk, DecodeI32, DecodeU16, InTerms;
    var t, off, origin := FramePlace(tl, h, i);
    TermRange(h[i].pos, k, tl);
    MulStep(t, k + 1, tl);
  }

  lemma WriteKeepsFrame(buf: seq<Byte>, k: int, tl: nat, h: seq<Rec>, i: nat, j: nat)
    requires |buf| == 4 * tl && StreamOk(tl, h) && i < |h| && j < |h| && i != j
    requires InTerms(k, tl, h[i].pos) && InTerms(k, tl, h[j].pos) && Shows(buf, h[j].pos, h[j].bytes)
    ensures InOnePiece(h[i].pos, |h[i].bytes|, |buf|)
    ensures Shows(Splice(buf, h[i].pos % |buf|, h[i].bytes), h[j].pos, h[j].bytes)
  {
    hide Align32, Aligned, RecOk, Contiguous, Shows, InOnePiece, Splice;
    var t, off, origin := FramePlace(tl, h, i);
    EndInTerms(tl, h, i, k);
    EndInTerms(tl, h, j, k);
    WindowWidth(k, tl);
    if i < j {
      PositionsOrdered(h, i, j);
      SpliceKeepsLater(buf, h[j].pos, h[j].bytes, h[i].pos, h[i].bytes);
    } else {
      PositionsOrdered(h, j, i);
      SpliceKeeps(buf, h[j].pos, h[j].bytes, h[i].pos, h[i].bytes);
    }
  }

  /** A granule of the log and a frame of the window are less than a lap apart. */
  lemma LogWidth(k: int, tl: nat, pos: nat, q: nat)
    requires tl > 0 && Aligned(tl) && Aligned(q) && InTerms(k, tl, pos) && InLog(k, tl, q)
    ensures (k + 1) * tl <= q + 4 * tl && q + 32 <= pos + 4 * tl
  {
    hide Aligned;
    WindowWidth(k, tl);
    var u, off, origin := SplitPosition(q, tl);
    BlankFits(q, tl);
    MulStep(k - 3, u, tl);
    MulStep(u, k, tl);
    MulStep(u, 3, tl);
    assert (k + 1) * tl == k * tl + tl;
  }

  lemma WriteKeepsBlank(buf: seq<Byte>, k: int, tl: nat, h: seq<Rec>, i: nat, q: nat)
    requires |buf| == 4 * tl && StreamOk(tl, h) && i < |h|
    requires InTerms(k, tl, h[i].pos) && InLog(k, tl, q) && Shows(buf, q, BLANK)
    requires Aligned(q) && !(h[i].pos <= q < End(h[i]))
    ensures InOnePiece(h[i].pos, |h[i].bytes|, |buf|)
    ensures Shows(Splice(buf, h[i].pos % |buf|, h[i].bytes), q, BLANK)
  {
    hide Align32, Aligned, RecOk, HistoryOk, Shows, InOnePiece, Splice;
    var t, off, origin := FramePlace(tl, h, i);
    EndInTerms(tl, h, i, k);
    LogWidth(k, tl, h[i].pos, q);
    if q < h[i].pos {
      AlignedSum(q, h[i].pos);
      SpliceKeeps(buf, q, BLANK, h[i].pos, h[i].bytes);
    } else {
      SpliceKeepsLater(buf, q, BLANK, h[i].pos, h[i].bytes);
    }
  }

  lemma WriteHolds(buf: seq<Byte>, k: int, tl: nat, h: seq<Rec>, stored: set<nat>, i: nat)
    requires |buf| == 4 * tl && StreamOk(tl, h) && Holds(buf, k, tl, h, stored)
    requires IsData(h, i) && InTerms(k, tl, h[i].pos)
    ensures InOnePiece(h[i].pos, |h[i].bytes|, |buf|)
    ensures Holds(Splice(buf, h[i].pos % |buf|, h[i].bytes), k, tl, h, stored + {i})
  {
    hide Align32, Aligned, HistoryOk, Shows, InTerms, Splice;
    var t, off, origin := FramePlace(tl, h, i);
    var buf', stored' := Splice(buf, h[i].pos % |buf|, h[i].bytes), stored + {i};
    SpliceShows(buf, h[i].pos, h[i].bytes);
    forall j | j in stored' ensures IsData(h, j) && InTerms(k, tl, h[j].pos) && Shows(buf', h[j].pos, h[j].bytes) {
      if j != i {
        WriteKeepsFrame(buf, k, tl, h, i, j);
      }
    }
    forall q: nat | InLog(k, tl, q) && Aligned(q) && !Covered(h, stored', q) ensures Shows(buf', q, BLANK) {
      assert i in stored';
      assert !Covered(h, stored, q);
      WriteKeepsBlank(buf, k, tl, h, i, q);
    }
  }
}
