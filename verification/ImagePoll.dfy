/**
 `poll_fragments` over an image that holds frames of one stream: what it delivers, what it passes
 over, and where it stops.
 */
module ImagePoll {
  import opened Arith
  import opened Bytes
  import opened TermLog
  import opened PublicationHistory
  import opened PublicationScan
  import opened Image
  import opened ImageStream
  import W = ImageWindow

  /** No frame of the stream starts before `q` and ends after it. */
  ghost predicate NotInside(h: seq<Rec>, q: nat) {
    forall j :: 0 <= j < |h| ==> q <= h[j].pos || End(h[j]) <= q
  }

  lemma BoundaryNotInside(tl: nat, h: seq<Rec>, i: nat)
    requires HistoryOk(tl, h) && i < |h|
    ensures NotInside(h, h[i].pos) && NotInside(h, End(h[i]))
  {
    hide Align32, DecodeI32, DecodeU16, Contiguous;
    forall j | 0 <= j < |h|
      ensures h[i].pos <= h[j].pos || End(h[j]) <= h[i].pos
      ensures End(h[i]) <= h[j].pos || End(h[j]) <= End(h[i])
    {
      assert RecOk(tl, h[i]) && RecOk(tl, h[j]);
      if j < i {
        PositionsOrdered(h, j, i);
      } else if i < j {
        PositionsOrdered(h, i, j);
      }
    }
  }

  lemma TermEndNotInside(tl: nat, h: seq<Rec>, t: nat, origin: nat, base: nat)
    requires StreamOk(tl, h) && TermAt(t, origin, base, tl)
    ensures NotInside(h, origin + tl)
  {
    hide Align32, HistoryOk, Aligned, RecOk, InOnePiece;
    forall j | 0 <= j < |h| ensures origin + tl <= h[j].pos || End(h[j]) <= origin + tl {
      var u, off, start := FramePlace(tl, h, j);
      TermsApart(tl, t, u);
    }
  }

  lemma TermsApart(tl: nat, t: nat, u: nat)
    requires tl > 0
    ensures t * tl + tl <= u * tl || u * tl <= t * tl
  {
    MulStep(t, u, tl);
    MulStep(u, t, tl);
  }

  // ---- Reading one word ----

  lemma BlankSlice(buf: seq<Byte>, at: nat)
    requires at + 4 <= |buf| && buf[at..at + 4] == BLANK
    ensures LengthWord(buf, at) == 0
  {
    hide DecodeI32;
    var b := buf[at..at + 4];
    assert b[0] == 0 && b[1] == 0 && b[2] == 0 && b[3] == 0;
    assert buf[at] == b[0] && buf[at + 1] == b[1] && buf[at + 2] == b[2] && buf[at + 3] == b[3];
    ZeroWord(buf, at);
  }

  /** A length word of the term at `origin`. */
  lemma BlankWord(buf: seq<Byte>, tl: nat, t: nat, origin: nat, base: nat, pos: nat)
    requires |buf| == 4 * tl && TermAt(t, origin, base, tl) && pos < tl && Shows(buf, origin + pos, BLANK)
    ensures LengthWord(buf, base + pos) == 0
  {
    hide TermAt, LengthWord;
    TermAtSlot(t, origin, base, tl, pos);
    BlankSlice(buf, base + pos);
  }

  /** A committed data frame as the subscriber reads it. */
  lemma FrameWord(buf: seq<Byte>, tl: nat, t: nat, origin: nat, base: nat, pos: nat, r: Rec)
    requires |buf| == 4 * tl && TermAt(t, origin, base, tl) && pos < tl
    requires RecOk(tl, r) && r.data && r.pos == origin + pos && Shows(buf, r.pos, r.bytes)
    ensures base + pos + r.len <= |buf| && LengthWord(buf, base + pos) == r.len >= HEADER
    ensures pos + Align32(r.len) <= tl
    ensures DecodeU16(buf, base + pos + 6) == TYPE_DATA
    ensures buf[base + pos + HEADER..base + pos + r.len] == r.bytes[HEADER..]
  {
    hide Wrap32, Align32, DecodeI32, DecodeU16, TermAt, Shows;
    ReadFrame(buf, t, base, tl, origin, pos, r);
    TermAtSlot(t, origin, base, tl, pos);
    var at := base + pos;
    var slice := buf[at..at + r.len];
    assert slice == r.bytes;
    SliceWords(buf, at, r.bytes);
  }

  lemma SliceWords(buf: seq<Byte>, at: nat, bytes: seq<Byte>)
    requires at + |bytes| <= |buf| && |bytes| >= HEADER && buf[at..at + |bytes|] == bytes
    ensures DecodeI32(buf, at) == DecodeI32(bytes, 0) && DecodeU16(buf, at + 6) == DecodeU16(bytes, 6)
    ensures buf[at + HEADER..at + |bytes|] == bytes[HEADER..]
  {
    hide Wrap32;
    assert forall j :: 0 <= j < |bytes| ==> buf[at + j] == bytes[j];
  }

  // ---- Gaps ----

  /** No stored frame straddles `q`. */
  ghost predicate Clear(h: seq<Rec>, stored: set<nat>, q: nat) {
    forall j :: j in stored && j < |h| ==> q <= h[j].pos || End(h[j]) <= q
  }

  /** A stored frame that covers a clear position starts there. */
  lemma CoveredStart(h: seq<Rec>, stored: set<nat>, q: nat) returns (i: nat)
    requires Covered(h, stored, q) && Clear(h, stored, q)
    ensures i in stored && i < |h| && h[i].pos == q
  {
    i :| i in stored && i < |h| && h[i].pos <= q < End(h[i]);
  }

  /** Behind an uncovered granule the next one is clear. */
  lemma ClearNext(tl: nat, h: seq<Rec>, stored: set<nat>, q: nat)
    requires StreamOk(tl, h) && Aligned(q) && !Covered(h, stored, q)
    ensures Clear(h, stored, q + 32)
    ensures forall j :: j in stored && j < |h| ==> h[j].pos < q || q + 32 <= h[j].pos
  {
    hide Align32, Aligned, HistoryOk, RecOk;
    forall j | j in stored && j < |h|
      ensures h[j].pos < q || q + 32 <= h[j].pos
      ensures q + 32 <= h[j].pos || End(h[j]) <= q + 32
    {
      var t, off, origin := FramePlace(tl, h, j);
      AlignedSum(q, h[j].pos);
      AlignedSum(h[j].pos, q);
      StoredNonempty(tl, h, j);
    }
  }

  lemma StoredNonempty(tl: nat, h: seq<Rec>, j: nat)
    requires HistoryOk(tl, h) && j < |h|
    ensures h[j].pos < End(h[j])
  {
    assert RecOk(tl, h[j]);
  }

  /** The gap scan stops at the next stored frame of the term, or at its end. */
  lemma {:induction false} GapWalks(buf: seq<Byte>, k: int, tl: nat, h: seq<Rec>, stored: set<nat>,
                                    t: nat, origin: nat, base: nat, g: nat)
    requires |buf| == 4 * tl && StreamOk(tl, h) && Holds(buf, k, tl, h, stored)
    requires TermAt(t, origin, base, tl) && k - 3 <= t <= k
    requires g <= tl && Aligned(g) && Clear(h, stored, origin + g)
    ensures var e := GapEnd(buf, base, tl, g);
            && g <= e <= tl && Aligned(e)
            && (e == tl || exists i :: i in stored && i < |h| && h[i].pos == origin + e)
            && (forall j :: j in stored && j < |h| ==> h[j].pos < origin + g || origin + e <= h[j].pos)
    decreases tl - g
  {
    hide Align32, Aligned, HistoryOk, RecOk, Shows, Covered, Clear, LengthWord, InTerms;
    if g < tl {
      TermOrigin(k, tl, t, origin, base, g);
      if Covered(h, stored, origin + g) {
        var i := CoveredStart(h, stored, origin + g);
        FrameHere(buf, k, tl, h, stored, t, origin, base, g, i);
      } else {
        BlankWord(buf, tl, t, origin, base, g) by { HoldsBlank(buf, k, tl, h, stored, origin + g); }
        ClearNext(tl, h, stored, origin + g);
        AlignedSum(g, tl);
        GranuleNext(g);
        GapWalks(buf, k, tl, h, stored, t, origin, base, g + 32);
      }
    }
  }

  lemma GranuleNext(g: nat)
    requires Aligned(g)
    ensures Aligned(g + 32)
  {
  }

  lemma TermOrigin(k: int, tl: nat, t: nat, origin: nat, base: nat, pos: nat)
    requires tl > 0 && Aligned(tl) && Aligned(pos) && TermAt(t, origin, base, tl) && k - 3 <= t <= k && pos < tl
    ensures InTerms(k, tl, origin + pos) && Aligned(origin + pos)
  {
    hide Aligned, InTerms;
    DivModUnique(origin + pos, t, pos, tl);
    TermRange(origin + pos, k, tl);
    AlignedMultiple(t, tl);
    AlignedSum(origin, pos);
  }

  /** The stored frame at the cursor. */
  lemma FrameHere(buf: seq<Byte>, k: int, tl: nat, h: seq<Rec>, stored: set<nat>,
                  t: nat, origin: nat, base: nat, pos: nat, i: nat)
    requires |buf| == 4 * tl && StreamOk(tl, h) && Holds(buf, k, tl, h, stored)
    requires TermAt(t, origin, base, tl) && pos < tl && i in stored && i < |h| && h[i].pos == origin + pos
    ensures |h[i].bytes| >= HEADER && base + pos + h[i].len <= |buf|
    ensures LengthWord(buf, base + pos) == h[i].len >= HEADER && pos + Align32(h[i].len) <= tl
    ensures DecodeU16(buf, base + pos + 6) == TYPE_DATA
    ensures buf[base + pos + HEADER..base + pos + h[i].len] == h[i].bytes[HEADER..]
  {
    hide Align32, Aligned, Shows, LengthWord, DecodeI32, DecodeU16, TermAt, Contiguous, InTerms, Covered;
    assert RecOk(tl, h[i]);
    FrameWord(buf, tl, t, origin, base, pos, h[i]);
  }

  // ---- The polling loop ----

  function Payload(h: seq<Rec>, i: nat): seq<Byte> {
    if i < |h| && |h[i].bytes| >= HEADER then h[i].bytes[HEADER..] else []
  }

  function Payloads(h: seq<Rec>, picked: seq<nat>): (r: seq<seq<Byte>>)
    ensures |r| == |picked|
  {
    seq(|picked|, a requires 0 <= a < |picked| => Payload(h, picked[a]))
  }

  ghost predicate Increasing(s: seq<nat>) {
    forall a, b :: 0 <= a < b < |s| ==> s[a] < s[b]
  }

  /** `picked` are exactly the stored frames that start in `[from, to)`, in order. */
  ghost predicate Picks(h: seq<Rec>, stored: set<nat>, picked: seq<nat>, from: nat, to: nat) {
    && Increasing(picked)
    && (forall a :: 0 <= a < |picked| ==> picked[a] in stored && picked[a] < |h| && from <= h[picked[a]].pos < to)
    && (forall j :: j in stored && j < |h| && from <= h[j].pos < to ==> j in picked)
  }

  lemma PicksNothing(h: seq<Rec>, stored: set<nat>, from: nat)
    ensures Picks(h, stored, [], from, from) && Payloads(h, []) == []
  {
  }

  lemma PicksFrame(tl: nat, h: seq<Rec>, stored: set<nat>, i: nat, rest: seq<nat>, to: nat)
    requires HistoryOk(tl, h) && i in stored && i < |h| && Picks(h, stored, rest, End(h[i]), to) && End(h[i]) <= to
    ensures Picks(h, stored, [i] + rest, h[i].pos, to)
    ensures Payloads(h, [i] + rest) == [Payload(h, i)] + Payloads(h, rest)
  {
    hide Align32, RecOk, Contiguous;
    var picked := [i] + rest;
    StoredNonempty(tl, h, i);
    forall a | 0 <= a < |rest| ensures i < rest[a] {
      if rest[a] <= i {
        PositionsOrdered(h, rest[a], i);
      }
    }
    forall j | j in stored && j < |h| && h[i].pos <= h[j].pos < to ensures j in picked {
      if j < i {
        PositionsOrdered(h, j, i);
        StoredNonempty(tl, h, j);
      } else if i < j {
        PositionsOrdered(h, i, j);
        assert j in rest;
      }
    }
  }

  /** Passing over a stretch in which nothing is stored. */
  lemma PicksGap(h: seq<Rec>, stored: set<nat>, picked: seq<nat>, from: nat, mid: nat, to: nat)
    requires from <= mid <= to && Picks(h, stored, picked, mid, to)
    requires forall j :: j in stored && j < |h| ==> h[j].pos < from || mid <= h[j].pos
    ensures Picks(h, stored, picked, from, to)
  {
  }

  /** `receiver_position` is at `reach`: no stored frame ends beyond it, and data up to it lies ahead of `p`. */
  ghost predicate Reach(h: seq<Rec>, stored: set<nat>, reach: int, p: nat, origin: nat, tl: nat) {
    && p <= reach
    && (forall j :: j in stored && j < |h| ==> End(h[j]) <= reach)
    && (p == reach || origin + tl <= reach
        || exists top :: top in stored && top < |h| && End(h[top]) == reach && origin <= h[top].pos)
  }

  lemma ReachFrame(tl: nat, h: seq<Rec>, stored: set<nat>, reach: int, i: nat, origin: nat)
    requires HistoryOk(tl, h) && i in stored && i < |h| && Reach(h, stored, reach, h[i].pos, origin, tl)
    ensures Reach(h, stored, reach, End(h[i]), origin, tl)
  {
    hide Align32;
    StoredNonempty(tl, h, i);
  }

  lemma ReachGap(h: seq<Rec>, stored: set<nat>, reach: int, p: nat, e: nat, origin: nat, tl: nat)
    requires Reach(h, stored, reach, p, origin, tl) && p < reach && Clear(h, stored, p) && e <= origin + tl
    requires forall j :: j in stored && j < |h| ==> h[j].pos < p || e <= h[j].pos
    ensures Reach(h, stored, reach, e, origin, tl)
  {
    hide Align32;
    if reach < origin + tl {
      var top :| top in stored && top < |h| && End(h[top]) == reach && origin <= h[top].pos;
      assert e <= h[top].pos;
    }
  }

  lemma ClearIfNotInside(h: seq<Rec>, stored: set<nat>, q: nat)
    requires NotInside(h, q)
    ensures Clear(h, stored, q)
  {
  }

  /** The subscriber's position after the gap scan. */
  lemma GapTurn(buf: seq<Byte>, k: int, tl: nat, h: seq<Rec>, stored: set<nat>, t: nat, origin: nat, base: nat,
                pos: nat, reach: int)
    requires |buf| == 4 * tl && StreamOk(tl, h) && Holds(buf, k, tl, h, stored)
    requires TermAt(t, origin, base, tl) && k - 3 <= t <= k
    requires pos < tl && Aligned(pos) && NotInside(h, origin + pos) && !Covered(h, stored, origin + pos)
    requires Reach(h, stored, reach, origin + pos, origin, tl)
    ensures LengthWord(buf, base + pos) == 0
    ensures var e := GapEnd(buf, base, tl, pos + 32);
            origin + pos < reach ==>
              && pos < e <= tl && Aligned(e) && NotInside(h, origin + e)
              && Reach(h, stored, reach, origin + e, origin, tl)
              && (forall j :: j in stored && j < |h| ==> h[j].pos < origin + pos || origin + e <= h[j].pos)
  {
    hide Align32, Aligned, HistoryOk, RecOk, Shows, Covered, LengthWord, InTerms, NotInside, Clear, Holds, TermAt,
         Reach, GapEnd;
    TermOrigin(k, tl, t, origin, base, pos);
    HoldsBlank(buf, k, tl, h, stored, origin + pos);
    BlankWord(buf, tl, t, origin, base, pos);
    ClearNext(tl, h, stored, origin + pos);
    AlignedSum(pos, tl);
    GranuleNext(pos);
    GapWalks(buf, k, tl, h, stored, t, origin, base, pos + 32);
    var e := GapEnd(buf, base, tl, pos + 32);
    if e == tl {
      TermEndNotInside(tl, h, t, origin, base);
    } else {
      var i :| i in stored && i < |h| && h[i].pos == origin + e;
      BoundaryNotInside(tl, h, i);
    }
    if origin + pos < reach {
      ClearIfNotInside(h, stored, origin + pos);
      ReachGap(h, stored, reach, origin + pos, origin + e, origin, tl);
    }
  }

  // ---- Turns of the loop ----

  lemma FrameTurn(buf: seq<Byte>, base: nat, tl: nat, pos: nat, scanned: nat, left: nat, ahead: int, len: nat)
    requires base + tl <= |buf| && pos + 4 <= tl && left > 0
    requires LengthWord(buf, base + pos) == len >= HEADER && pos + Align32(len) <= tl
    requires DecodeU16(buf, base + pos + 6) == TYPE_DATA
    ensures var rest := PollFrom(buf, base, tl, pos + Align32(len), scanned + Align32(len), left - 1, ahead);
            PollFrom(buf, base, tl, pos, scanned, left, ahead)
            == PollResult(rest.scanned, [buf[base + pos + HEADER..base + pos + len]] + rest.delivered)
  {
    hide Align32, LengthWord, DecodeU16, GapEnd;
  }

  lemma BlankTurn(buf: seq<Byte>, base: nat, tl: nat, pos: nat, scanned: nat, left: nat, ahead: int)
    requires base + tl <= |buf| && pos + 32 <= tl && left > 0 && LengthWord(buf, base + pos) == 0
    ensures var e := GapEnd(buf, base, tl, pos + 32);
            PollFrom(buf, base, tl, pos, scanned, left, ahead)
            == if ahead <= scanned then PollResult(scanned, [])
               else PollFrom(buf, base, tl, e, scanned + (e - pos), left, ahead)
  {
    hide Align32, LengthWord, DecodeU16, GapEnd;
  }

  lemma LastTurn(buf: seq<Byte>, base: nat, tl: nat, pos: nat, scanned: nat, left: nat, ahead: int)
    requires base + tl <= |buf| && pos <= tl && (pos == tl || left == 0)
    ensures PollFrom(buf, base, tl, pos, scanned, left, ahead) == PollResult(scanned, [])
  {
  }

  /** What a poll of `r.scanned - scanned` bytes from absolute position `from` does. */
  ghost predicate Walked(tl: nat, h: seq<Rec>, stored: set<nat>, picked: seq<nat>, from: nat, pos: nat, scanned: nat,
                         left: nat, reach: int, r: PollResult)
    requires scanned <= r.scanned
  {
    var len := r.scanned - scanned;
    && Picks(h, stored, picked, from, from + len) && r.delivered == Payloads(h, picked)
    && NotInside(h, from + len) && from + len <= reach && Aligned(pos + len)
    && |picked| <= left && (|picked| == left || pos + len == tl || from + len == reach)
  }

  lemma WalkedNothing(tl: nat, h: seq<Rec>, stored: set<nat>, from: nat, pos: nat, scanned: nat, left: nat, reach: int)
    requires NotInside(h, from) && from <= reach && Aligned(pos) && (left == 0 || pos == tl || from == reach)
    ensures Walked(tl, h, stored, [], from, pos, scanned, left, reach, PollResult(scanned, []))
  {
    PicksNothing(h, stored, from);
  }

  lemma WalkedFrame(tl: nat, h: seq<Rec>, stored: set<nat>, i: nat, rest: seq<nat>, pos: nat, scanned: nat,
                    left: nat, reach: int, r: PollResult)
    requires HistoryOk(tl, h) && i in stored && i < |h| && |h[i].bytes| >= HEADER
    requires scanned + Align32(h[i].len) <= r.scanned && left > 0
    requires Walked(tl, h, stored, rest, End(h[i]), pos + Align32(h[i].len), scanned + Align32(h[i].len), left - 1,
                    reach, r)
    ensures Walked(tl, h, stored, [i] + rest, h[i].pos, pos, scanned, left, reach,
                   PollResult(r.scanned, [h[i].bytes[HEADER..]] + r.delivered))
  {
    hide Picks, NotInside, Payloads, Align32, Aligned, HistoryOk;
    PicksFrame(tl, h, stored, i, rest, h[i].pos + (r.scanned - scanned));
  }

  lemma WalkedGap(tl: nat, h: seq<Rec>, stored: set<nat>, picked: seq<nat>, from: nat, gap: nat, pos: nat, scanned: nat,
                  left: nat, reach: int, r: PollResult)
    requires scanned + gap <= r.scanned
    requires Walked(tl, h, stored, picked, from + gap, pos + gap, scanned + gap, left, reach, r)
    requires forall j :: j in stored && j < |h| ==> h[j].pos < from || from + gap <= h[j].pos
    ensures Walked(tl, h, stored, picked, from, pos, scanned, left, reach, r)
  {
    hide Picks, NotInside, Payloads, Aligned;
    PicksGap(h, stored, picked, from, from + gap, from + (r.scanned - scanned));
  }

  /**
   The loop from a position inside no frame: it delivers exactly the stored frames it walks over and
   stops inside no frame, at or before `receiver_position`.
   */
  lemma {:induction false} PollWalks(buf: seq<Byte>, k: int, tl: nat, h: seq<Rec>, stored: set<nat>,
                                     t: nat, origin: nat, base: nat, pos: nat, scanned: nat, left: nat,
                                     reach: int, ahead: int)
    returns (picked: seq<nat>)
    requires |buf| == 4 * tl && base + tl <= |buf| && StreamOk(tl, h) && Holds(buf, k, tl, h, stored)
    requires TermAt(t, origin, base, tl) && k - 3 <= t <= k
    requires pos <= tl && Aligned(pos) && NotInside(h, origin + pos)
    requires Reach(h, stored, reach, origin + pos, origin, tl) && ahead - scanned == reach - (origin + pos)
    ensures Walked(tl, h, stored, picked, origin + pos, pos, scanned, left, reach,
                   PollFrom(buf, base, tl, pos, scanned, left, ahead))
    decreases tl - pos
  {
    hide Align32, Aligned, HistoryOk, Shows, Covered, LengthWord, InTerms, NotInside, Clear, Reach, Picks, Payloads,
         Holds, TermAt, GapEnd, DecodeU16, StreamOk, PollFrom, Walked;
    picked := [];
    ReachBound(h, stored, reach, origin + pos, origin, tl);
    StreamParts(tl, h);
    AlignedSum(pos, tl);
    if pos == tl || left == 0 {
      LastTurn(buf, base, tl, pos, scanned, left, ahead);
      WalkedNothing(tl, h, stored, origin + pos, pos, scanned, left, reach);
    } else if Covered(h, stored, origin + pos) {
      ClearIfNotInside(h, stored, origin + pos);
      var i := CoveredStart(h, stored, origin + pos);
      FrameHere(buf, k, tl, h, stored, t, origin, base, pos, i);
      var len := h[i].len;
      var aligned := Align32(len);
      BoundaryNotInside(tl, h, i);
      ReachFrame(tl, h, stored, reach, i, origin);
      AlignedSum(pos, aligned);
      var rest := PollWalks(buf, k, tl, h, stored, t, origin, base, pos + aligned, scanned + aligned, left - 1, reach,
                            ahead);
      FrameTurn(buf, base, tl, pos, scanned, left, ahead, len);
      WalkedFrame(tl, h, stored, i, rest, pos, scanned, left, reach,
                  PollFrom(buf, base, tl, pos + aligned, scanned + aligned, left - 1, ahead));
      picked := [i] + rest;
    } else {
      GapTurn(buf, k, tl, h, stored, t, origin, base, pos, reach);
      BlankTurn(buf, base, tl, pos, scanned, left, ahead);
      if origin + pos < reach {
        var e := GapEnd(buf, base, tl, pos + 32);
        picked := PollWalks(buf, k, tl, h, stored, t, origin, base, e, scanned + (e - pos), left, reach, ahead);
        WalkedGap(tl, h, stored, picked, origin + pos, e - pos, pos, scanned, left, reach,
                  PollFrom(buf, base, tl, e, scanned + (e - pos), left, ahead));
      } else {
        WalkedNothing(tl, h, stored, origin + pos, pos, scanned, left, reach);
      }
    }
  }

  lemma ReachBound(h: seq<Rec>, stored: set<nat>, reach: int, p: nat, origin: nat, tl: nat)
    requires Reach(h, stored, reach, p, origin, tl)
    ensures p <= reach
  {
  }

  lemma StreamParts(tl: nat, h: seq<Rec>)
    requires StreamOk(tl, h)
    ensures HEADER <= tl && Aligned(tl) && HistoryOk(tl, h)
  {
  }
}
