/**
 `sender_scan` over a tracked log: the scan emits exactly the next frames of the history, in
 order, and stops on a frame boundary that does not lie beyond `pub_position`.
 */
module PublicationScan {
  import opened Arith
  import opened Bytes
  import opened TermLog
  import opened Publication
  import opened PublicationHistory

  /** Term number `t` starts at stream position `origin` and lives in the partition at `base`. */
  ghost predicate TermAt(t: nat, origin: nat, base: nat, tl: nat) {
    tl > 0 && origin == t * tl && base == t % 4 * tl
  }

  lemma TermAtFits(t: nat, origin: nat, base: nat, tl: nat)
    requires TermAt(t, origin, base, tl)
    ensures tl > 0 && base + tl <= 4 * tl
  {
    PartitionFits(t % 4, tl);
  }

  lemma TermAtSlot(t: nat, origin: nat, base: nat, tl: nat, pos: nat)
    requires TermAt(t, origin, base, tl) && pos < tl
    ensures (origin + pos) % (4 * tl) == base + pos && (origin + pos) % tl == pos
  {
    SlotOfBlock(t, pos, tl, 4);
    DivModUnique(origin + pos, t, pos, tl);
  }

  /** A reader at the start of a shown frame finds its length, its bytes and its kind. */
  lemma ReadFrame(buf: seq<Byte>, t: nat, base: nat, tl: nat, origin: nat, pos: nat, r: Rec)
    requires |buf| == 4 * tl && TermAt(t, origin, base, tl) && pos < tl
    requires RecOk(tl, r) && r.pos == origin + pos && Shows(buf, r.pos, r.bytes)
    ensures base + tl <= |buf| && FrameLengthAt(buf, base, tl, pos) == r.len >= HEADER
    ensures base + pos + r.len <= |buf|
    ensures var slice := buf[base + pos..base + pos + r.len];
            IsPad(slice) == !r.data && (r.data ==> slice == r.bytes)
  {
    hide TermAt;
    TermAtFits(t, origin, base, tl);
    TermAtSlot(t, origin, base, tl, pos);
    var at := base + pos;
    assert buf[at..at + |r.bytes|] == r.bytes;
    assert forall i :: 0 <= i < |r.bytes| ==> buf[at + i] == r.bytes[i];
    var slice := buf[at..at + r.len];
    assert slice[6] == r.bytes[6] && slice[7] == r.bytes[7];
  }

  /** Frame `m` of the history comes next in the scan. */
  lemma TransmittedStep(e: Emission, rest: seq<Emission>, h: seq<Rec>, m: nat, m': nat)
    requires m < m' <= |h|
    requires IsPad(e.slice) == !h[m].data && (h[m].data ==> e.slice == h[m].bytes)
    requires Transmitted(rest) == DataFrames(h[m + 1..m'])
    ensures Transmitted([e] + rest) == DataFrames(h[m..m'])
  {
    hide IsPad, DataFrames;
    assert h[m..m'] == [h[m]] + h[m + 1..m'];
    DataFramesConcat([h[m]], h[m + 1..m']);
    DataFramesOne(h[m]);
    assert ([e] + rest)[1..] == rest;
  }

  lemma DataFramesOne(r: Rec)
    ensures DataFrames([r]) == if r.data then [r.bytes] else []
  {
    assert [r][..0] == [];
  }

  /** No frame, data or pad, takes more than `a` bytes of the stream. */
  ghost predicate FramesAtMost(h: seq<Rec>, a: nat) {
    forall i :: 0 <= i < |h| ==> Align32(h[i].len) <= a
  }

  /** The frame at the scan cursor, when the cursor is short of the published end. */
  lemma FrameAtCursor(buf: seq<Byte>, tl: nat, t: nat, origin: nat, base: nat, h: seq<Rec>, n: nat, m: nat, pos: nat)
    requires |buf| == 4 * tl && base + tl <= |buf| && TermAt(t, origin, base, tl)
    requires HistoryOk(tl, h) && Shown(buf, h, n)
    requires n <= m <= |h| && pos < tl && Start(h, m) == origin + pos < DataEnd(h)
    ensures m < |h|
    ensures FrameLengthAt(buf, base, tl, pos) == h[m].len > 0
    ensures Start(h, m + 1) == origin + pos + Align32(h[m].len) <= DataEnd(h)
    ensures var slice := buf[base + pos..base + pos + h[m].len];
            IsPad(slice) == !h[m].data && (h[m].data ==> slice == h[m].bytes)
  {
    hide RecOk, Align32, Shows, TermAt, DataEnd, Contiguous, FrameLengthAt, IsPad;
    DataEndBound(h);
    ReadFrame(buf, t, base, tl, origin, pos, h[m]);
    DataEndIsBoundary(h, m);
    NextStart(h, m);
  }

  /**
   The scan loop, started at frame `m` of the history inside the term at `origin`.  Its limit
   does not reach past the last data frame, so every frame it visits is shown by the log.
   */
  lemma {:induction false} ScanWalks(buf: seq<Byte>, tl: nat, t: nat, origin: nat, base: nat, h: seq<Rec>, n: nat,
                                     m: nat,
                                     pos: nat, scanned: nat, limit: nat, a: nat)
    returns (m': nat)
    requires |buf| == 4 * tl && base + tl <= |buf| && TermAt(t, origin, base, tl)
    requires HistoryOk(tl, h) && Shown(buf, h, n) && FramesAtMost(h, a)
    requires n <= m <= |h| && pos <= tl && Start(h, m) == origin + pos <= DataEnd(h)
    requires origin + pos - scanned + limit <= DataEnd(h)
    ensures m <= m' <= |h|
    ensures var r := Scan(buf, base, tl, pos, scanned, limit);
            && Start(h, m') == origin + pos + (r.scanned - scanned) <= DataEnd(h)
            && Transmitted(r.frames) == DataFrames(h[m..m'])
            && (limit <= r.scanned || pos + (r.scanned - scanned) == tl)
            && (r.scanned == scanned || r.scanned < limit + a)
    decreases tl - pos
  {
    hide HistoryOk, Shown, Start, Align32, DataFrames, TermAt, FrameLengthAt, DataEnd, Transmitted, IsPad;
    m' := m;
    if pos >= tl || scanned >= limit {
      assert h[m..m] == [];
      NoDataFrames();
    } else {
      FrameAtCursor(buf, tl, t, origin, base, h, n, m, pos);
      var len := h[m].len;
      var aligned := Align32(len);
      m' := ScanWalks(buf, tl, t, origin, base, h, n, m + 1, pos + aligned, scanned + aligned, limit, a);
      var rest := Scan(buf, base, tl, pos + aligned, scanned + aligned, limit);
      TransmittedStep(Emission(pos, buf[base + pos..base + pos + len]), rest.frames, h, m, m');
    }
  }

  lemma NoDataFrames()
    ensures DataFrames([]) == [] == Transmitted([])
  {
  }

  lemma {:induction false} NextStart(h: seq<Rec>, m: nat)
    requires Contiguous(h) && m < |h|
    ensures Start(h, m + 1) == End(h[m])
  {
    if m + 1 < |h| {
      var front := h[..|h| - 1];
      NextStart(front, m);
      assert Start(front, m + 1) == Start(h, m + 1);
    }
  }

  /**
   A scan clamped to the published data transmits exactly the data frames between the old and
   the new sender position and keeps the invariant.
   */
  lemma ScanTracks(c: Config, p: Pub, h: seq<Rec>, n: nat, limit: nat, a: nat)
    returns (n': nat)
    requires Tracks(c, p, h, n) && FramesAtMost(h, a) && p.senderPosition + limit <= p.pubPosition
    ensures n <= n' <= |h|
    ensures Tracks(c, SenderScan(c, p, limit).0, h, n')
    ensures Transmitted(SenderScan(c, p, limit).1.frames) == DataFrames(h[n..n'])
    ensures var scanned := SenderScan(c, p, limit).1.scanned;
            && (limit <= scanned || TermOffsetOf(p.senderPosition, c.termLength) + scanned == c.termLength)
            && (scanned == 0 || scanned < limit + a)
  {
    hide HistoryOk, Shown, Wrap32, Wrap64, Aligned, IsPowerOfTwo, Scan, DataEnd, DataFrames, Start, FramesAtMost;
    var tl, s := c.termLength, p.senderPosition;
    var t, off, origin := SplitPosition(s, tl);
    SenderWithinTerms(c, p, h, n);
    PositionRoundTrip(s, c.initialTermId, tl);
    PartitionFits(t % 4, tl);
    var remaining := tl - off;
    n' := ScanWalks(p.buf, tl, t, origin, t % 4 * tl, h, n, n, off, 0,
                    if limit < remaining then limit else remaining, a);
    ShownLater(p.buf, h, n, n');
  }

  lemma ShownLater(buf: seq<Byte>, h: seq<Rec>, n: nat, n': nat)
    requires Shown(buf, h, n) && n <= n'
    ensures Shown(buf, h, n')
  {
  }

  lemma SenderWithinTerms(c: Config, p: Pub, h: seq<Rec>, n: nat)
    requires Cursors(c, p, h, n)
    ensures 0 <= p.senderPosition <= p.pubPosition <= WritePosition(c, p) < TWO31 * c.termLength
  {
    hide Wrap32, IsPowerOfTwo, Aligned, RecOk;
    DataEndBound(h);
    TermBases(TermCount(c, p), c.termLength);
    MulStep(TermCount(c, p) + 1, TWO31, c.termLength);
  }
}
