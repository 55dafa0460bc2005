/**
 What every sequence of arriving data frames keeps, whatever their term ids and offsets: the
 moving four-term window, the agreement of the cursors, and a log that is zero wherever a NAK asks
 for data.
 */
module ImageWindow {
  import opened Arith
  import opened Bytes
  import opened TermLog
  import opened Image

  /** Number of the active term, counted from the initial term id. */
  function TermCount(x: Image): int {
    Wrap32(x.activeTermId - x.initialTermId)
  }

  /** Position the image advertises in status messages. */
  function ConsumptionPosition(x: Image): int {
    ComputePosition(x.consumptionTermId, x.consumptionTermOffset, x.initialTermId, x.termLength)
  }

  ghost predicate CursorsAgree(x: Image) {
    && ImageOk(x)
    && 0 <= TermCount(x)
    && x.consumptionTermId == x.activeTermId
    && 0 <= x.consumptionTermOffset == x.expectedTermOffset <= x.termLength
    && 0 <= x.receiverPosition <= ConsumptionPosition(x)
  }

  lemma CursorsParts(x: Image)
    requires CursorsAgree(x)
    ensures ImageOk(x) && |x.buf| == 4 * x.termLength && x.termLength > 0
    ensures 0 <= TermCount(x) < TWO31
  {
  }

  /** A frame ahead of the window does not take the run past 2^31 terms. */
  ghost predicate TermsLeft(x: Image, f: Wire) {
    Advances(x, f) ==> TermCount(x) + TermAhead(x, f) < TWO31
  }

  // ---- Term ids in the window ----

  lemma ModFour(x: int)
    requires IsI32(x)
    ensures AsU32(x) % 4 == x % 4
  {
  }

  /** Term id `id` lies `behind` terms behind the active one. */
  lemma BehindTerm(x: Image, id: int, behind: int)
    requires behind == Wrap32(x.activeTermId - id) && IsI32(TermCount(x) - behind)
    ensures Wrap32(id - x.initialTermId) == TermCount(x) - behind
    ensures PartitionIndex(id, x.initialTermId) == (TermCount(x) - behind) % 4
  {
    var k := TermCount(x);
    var m1 := Wrap32Congruent(x.activeTermId - x.initialTermId);
    var m2 := Wrap32Congruent(x.activeTermId - id);
    assert id - x.initialTermId == k - behind + (m2 - m1) * TWO32;
    Wrap32Shift(k - behind, m2 - m1);
    ModFour(k - behind);
  }

  /** Term id `id` lies `ahead` terms ahead of the active one. */
  lemma AheadTerm(x: Image, id: int, ahead: int)
    requires Wrap32(id - x.activeTermId) == Wrap32(ahead) && IsI32(TermCount(x) + ahead)
    ensures Wrap32(id - x.initialTermId) == TermCount(x) + ahead
    ensures PartitionIndex(id, x.initialTermId) == (TermCount(x) + ahead) % 4
  {
    var k := TermCount(x);
    var m1 := Wrap32Congruent(x.activeTermId - x.initialTermId);
    var m2 := Wrap32Congruent(id - x.activeTermId);
    var m3 := Wrap32Congruent(ahead);
    assert id - x.initialTermId == k + ahead + (m3 - m2 - m1) * TWO32;
    Wrap32Shift(k + ahead, m3 - m2 - m1);
    ModFour(k + ahead);
  }

  lemma NextTerm(x: Image, s: int)
    requires IsI32(TermCount(x) + s)
    ensures PartitionIndex(Wrap32(x.activeTermId + s), x.initialTermId) == (TermCount(x) + s) % 4
  {
    var m := Wrap32Congruent(x.activeTermId + s);
    Wrap32Shift(s, m);
    AheadTerm(x, Wrap32(x.activeTermId + s), s);
  }

  lemma NotStale(x: Image, f: Wire)
    requires !Stale(x, f)
    ensures 0 <= Wrap32(x.activeTermId - f.termId) < 4
  {
  }

  // ---- Cleaning ----

  /** Partition `p` is one of those cleaned on the way `steps` terms ahead. */
  predicate Cleaned(x: Image, steps: nat, p: int) {
    steps > 0 && (p == PartitionIndex(Wrap32(x.activeTermId + steps), x.initialTermId) || Cleaned(x, steps - 1, p))
  }

  lemma {:induction false} CleanAheadBytes(x: Image, steps: nat, i: nat)
    requires ImageOk(x) && i < |x.buf|
    ensures CleanAhead(x, steps)[i] == if Cleaned(x, steps, i / x.termLength) then 0 else x.buf[i]
  {
    hide IsPowerOfTwo, Wrap32, PartitionIndex, CleanPartition, Aligned;
    if steps > 0 {
      CleanAheadBytes(x, steps - 1, i);
      var p := PartitionIndex(Wrap32(x.activeTermId + steps), x.initialTermId);
      CleanedByte(CleanAhead(x, steps - 1), x.termLength, p, i);
    }
  }

  lemma CleanedByte(buf: seq<Byte>, tl: nat, p: nat, i: nat)
    requires |buf| == 4 * tl && tl > 0 && p < 4 && i < |buf|
    ensures CleanPartition(buf, tl, p)[i] == if i / tl == p then 0 else buf[i]
  {
    PartitionFits(p, tl);
    if p * tl <= i < p * tl + tl {
      DivModUnique(i, p, i - p * tl, tl);
      assert CleanPartition(buf, tl, p)[p * tl..p * tl + tl][i - p * tl] == CleanPartition(buf, tl, p)[i];
    }
  }

  /** The cleaned partitions are those of terms `k + 1 .. k + steps`. */
  lemma {:induction false} CleanedExactly(x: Image, steps: nat, p: nat)
    requires 0 <= TermCount(x) && TermCount(x) + steps < TWO31 && steps <= 4 && p < 4
    ensures Cleaned(x, steps, p) <==> (p - TermCount(x) - 1) % 4 < steps
  {
    hide Wrap32, PartitionIndex;
    if steps > 0 {
      CleanedExactly(x, steps - 1, p);
      NextTerm(x, steps);
      var k := TermCount(x);
      assert p == (k + steps) % 4 <==> (p - k - 1) % 4 == steps - 1;
    }
  }

  // ---- Who wrote which byte ----

  /** The term id of the frame that last wrote a byte, if any since the byte was cleaned. */
  datatype Owner = Nobody | Term(id: int)

  function Paint(own: seq<Owner>, at: nat, len: nat, o: Owner): (r: seq<Owner>)
    requires at + len <= |own|
    ensures |r| == |own|
    ensures forall i :: 0 <= i < |own| ==> r[i] == if at <= i < at + len then o else own[i]
  {
    own[..at] + seq(len, _ => o) + own[at + len..]
  }

  function AdvanceOwners(own: seq<Owner>, x: Image, f: Wire): (r: seq<Owner>)
    requires x.termLength > 0
    ensures |r| == |own|
  {
    if !Advances(x, f) then own
    else seq(|own|, i requires 0 <= i < |own| =>
                      if Cleaned(x, CleanSteps(x, f), i / x.termLength) then Nobody else own[i])
  }

  /** Ownership after `on_data`. */
  function OwnersAfter(own: seq<Owner>, x: Image, f: Wire): (r: seq<Owner>)
    requires |own| == |x.buf| == 4 * x.termLength && x.termLength > 0
    ensures |r| == |own|
  {
    var own', x' := AdvanceOwners(own, x, f), Advance(x, f);
    PartitionFits(WirePartition(x, f), x.termLength);
    if Stale(x', f) || TermFull(x', f) then own'
    else Paint(own', WirePartition(x, f) * x.termLength + Offset(f), HEADER + |f.payload|, Term(f.termId))
  }

  /** Term id `id` is in the window active-3 .. active and partition `p` is the one it maps to. */
  ghost predicate InWindow(x: Image, id: int, p: int) {
    0 <= Wrap32(x.activeTermId - id) < 4 && PartitionIndex(id, x.initialTermId) == p
  }

  ghost predicate ByteOk(x: Image, own: seq<Owner>, i: nat)
    requires i < |own| == |x.buf| && x.termLength > 0
  {
    match own[i]
    case Nobody => x.buf[i] == 0
    case Term(id) => IsI32(id) && InWindow(x, id, i / x.termLength)
  }

  /** Every byte is zero or was written by a frame of the term its partition stands for. */
  ghost predicate Owned(x: Image, own: seq<Owner>) {
    && |own| == |x.buf| && x.termLength > 0
    && forall i :: 0 <= i < |own| ==> ByteOk(x, own, i)
  }

  /** Nothing has been written to the active term at or after the expected offset. */
  ghost predicate Untouched(x: Image, own: seq<Owner>) {
    forall i :: 0 <= i < |own| && InActiveTail(x, i) ==> own[i] == Nobody
  }

  ghost predicate InActiveTail(x: Image, i: int) {
    var base := PartitionIndex(x.activeTermId, x.initialTermId) * x.termLength;
    base + x.expectedTermOffset <= i < base + x.termLength
  }

  ghost predicate WindowOk(x: Image, own: seq<Owner>) {
    CursorsAgree(x) && Owned(x, own) && Untouched(x, own)
  }

  /** Two terms of the window that share a partition are the same term. */
  lemma WindowTermUnique(x: Image, a: int, b: int, p: int)
    requires IsI32(a) && IsI32(b) && InWindow(x, a, p) && InWindow(x, b, p) && TermCount(x) >= 0
    ensures a == b
  {
    hide Wrap32, PartitionIndex;
    var i, j := Wrap32(x.activeTermId - a), Wrap32(x.activeTermId - b);
    BehindTerm(x, a, i);
    BehindTerm(x, b, j);
    assert i == j;
    Wrap32Injective(x.activeTermId, a, b);
  }

  lemma Wrap32Injective(x: int, a: int, b: int)
    requires IsI32(a) && IsI32(b) && Wrap32(x - a) == Wrap32(x - b)
    ensures a == b
  {
    hide Wrap32;
    var m := Wrap32Congruent(x - a);
    var n := Wrap32Congruent(x - b);
    assert b - a == (n - m) * TWO32;
  }

  /** So no partition ever holds bytes of two terms. */
  lemma OneTermPerPartition(x: Image, own: seq<Owner>, i: nat, j: nat)
    requires WindowOk(x, own) && i < |own| && j < |own| && i / x.termLength == j / x.termLength
    requires own[i].Term? && own[j].Term?
    ensures own[i] == own[j]
  {
    assert ByteOk(x, own, i) && ByteOk(x, own, j);
    WindowTermUnique(x, own[i].id, own[j].id, i / x.termLength);
  }

  // ---- Moving the window ----

  /** A byte that survives cleaning still belongs to the moved window. */
  lemma SurvivorInWindow(x: Image, f: Wire, id: int, p: nat)
    requires TermCount(x) >= 0 && Advances(x, f) && TermsLeft(x, f) && IsI32(id) && p < 4
    requires InWindow(x, id, p) && !Cleaned(x, CleanSteps(x, f), p)
    ensures 0 <= Wrap32(f.termId - id) < 4
  {
    hide PartitionIndex;
    var b, d := Wrap32(x.activeTermId - id), TermAhead(x, f);
    BehindTerm(x, id, b);
    CleanedExactly(x, CleanSteps(x, f), p);
    assert (p - TermCount(x) - 1) % 4 == 3 - b;
    assert b + d < 4;
    var m1 := Wrap32Congruent(x.activeTermId - id);
    var m2 := Wrap32Congruent(f.termId - x.activeTermId);
    Wrap32Shift(b + d, -m1 - m2);
  }

  lemma AdvanceOwned(x: Image, own: seq<Owner>, f: Wire)
    requires WindowOk(x, own) && WireOk(f) && TermsLeft(x, f)
    ensures Owned(Advance(x, f), AdvanceOwners(own, x, f))
  {
    hide IsPowerOfTwo, Wrap32, PartitionIndex, CleanAhead, Cleaned, Untouched, CleanSteps;
    var x', own' := Advance(x, f), AdvanceOwners(own, x, f);
    if Advances(x, f) {
      forall i | 0 <= i < |own'| ensures ByteOk(x', own', i) {
        assert ByteOk(x, own, i);
        CleanAheadBytes(x, CleanSteps(x, f), i);
        DivBelow(i, x.termLength);
        if own'[i].Term? {
          SurvivorInWindow(x, f, own[i].id, i / x.termLength);
        }
      }
    }
  }

  lemma DivBelow(i: nat, tl: nat)
    requires tl > 0 && i < 4 * tl
    ensures 0 <= i / tl < 4
  {
  }

  lemma AdvanceUntouched(x: Image, own: seq<Owner>, f: Wire)
    requires WindowOk(x, own) && WireOk(f) && TermsLeft(x, f)
    ensures Untouched(Advance(x, f), AdvanceOwners(own, x, f))
  {
    hide IsPowerOfTwo, Wrap32, PartitionIndex, CleanAhead, Cleaned, CleanSteps, Owned;
    var x', own' := Advance(x, f), AdvanceOwners(own, x, f);
    if Advances(x, f) {
      var p := PartitionIndex(f.termId, x.initialTermId);
      AdvanceCleansTarget(x, f);
      forall i | 0 <= i < |own'| && InActiveTail(x', i) ensures own'[i] == Nobody {
        DivModUnique(i, p, i - p * x.termLength, x.termLength);
      }
    }
  }

  lemma AdvanceCleansTarget(x: Image, f: Wire)
    requires TermCount(x) >= 0 && Advances(x, f) && TermsLeft(x, f)
    ensures Cleaned(x, CleanSteps(x, f), PartitionIndex(f.termId, x.initialTermId))
  {
    hide Wrap32, PartitionIndex, Cleaned;
    var k, ahead := TermCount(x), TermAhead(x, f);
    AheadTerm(x, f.termId, ahead);
    CleanedExactly(x, CleanSteps(x, f), PartitionIndex(f.termId, x.initialTermId));
    assert ((k + ahead) % 4 - k - 1) % 4 == (ahead - 1) % 4;
  }

  lemma AdvanceCursors(x: Image, f: Wire)
    requires CursorsAgree(x) && WireOk(f) && TermsLeft(x, f)
    ensures CursorsAgree(Advance(x, f))
    ensures ConsumptionPosition(x) <= ConsumptionPosition(Advance(x, f))
    ensures Advances(x, f) ==> TermCount(Advance(x, f)) == TermCount(x) + TermAhead(x, f)
  {
    hide IsPowerOfTwo, Wrap32, PartitionIndex, CleanAhead;
    if Advances(x, f) {
      var d := TermAhead(x, f);
      AheadTerm(x, f.termId, d);
      MulStep(TermCount(x), TermCount(x) + d, x.termLength);
    }
  }

  // ---- Writing a frame ----

  lemma RaiseIsMax(current: int, end: int)
    requires 0 <= current <= 0x2000_0000 && 0 <= end <= 0x2000_0000
    ensures Raise(current, end) == if current < end then end else current
  {
  }

  /** The position of a frame that was not stale, and what it makes of the receiver position. */
  lemma AcceptPosition(x: Image, f: Wire)
    requires CursorsAgree(x) && WireOk(f) && !Stale(x, f) && !TermFull(x, f)
    ensures var k, b := TermCount(x), Wrap32(x.activeTermId - f.termId);
            var position := ComputePosition(f.termId, NewOffset(f), x.initialTermId, x.termLength);
            && 0 <= b < 4
            && (b == 0 <==> f.termId == x.activeTermId)
            && WirePartition(x, f) == (k - b) % 4
            && position == (k - b) * x.termLength + NewOffset(f)
            && (b > 0 ==> position <= k * x.termLength)
            && RaisePosition(x.receiverPosition, position)
               == if x.receiverPosition < position then position else x.receiverPosition
  {
    hide IsPowerOfTwo, Align32, Aligned, Wrap32, PartitionIndex, Wrap64;
    NotStale(x, f);
    var k, b, tl := TermCount(x), Wrap32(x.activeTermId - f.termId), x.termLength;
    BehindTerm(x, f.termId, b);
    if b == 0 {
      Wrap32Injective(x.activeTermId, f.termId, x.activeTermId);
    }
    var position := (k - b) * tl + NewOffset(f);
    WindowPositions(k, b, tl);
    RaisePositionIsMax(x.receiverPosition, position);
  }

  lemma WindowPositions(k: int, b: int, tl: nat)
    requires 0 <= k < TWO31 && 0 <= b < 4 && 0 < tl <= 0x2000_0000
    ensures b > 0 ==> (k - b) * tl + tl <= k * tl
    ensures (k - b) * tl <= k * tl
    ensures -4 * 0x2000_0000 <= (k - b) * tl && k * tl + tl <= TWO31 * 0x2000_0000
  {
    MulStep(k - b, k, tl);
    MulStep(-4, k - b, tl);
    MulStep(k, TWO31, tl);
    MulStep(tl, 0x2000_0000, TWO31);
  }

  lemma RaisePositionIsMax(current: int, position: int)
    requires 0 <= current <= HALF_I64 / 2 && -TWO32 <= position <= HALF_I64 / 2
    ensures RaisePosition(current, position) == if current < position then position else current
  {
  }

  lemma AcceptCursors(x: Image, f: Wire, sendSm: bool)
    requires CursorsAgree(x) && WireOk(f) && !Stale(x, f) && !TermFull(x, f)
    ensures CursorsAgree(Accept(x, f, sendSm))
    ensures ConsumptionPosition(x) <= ConsumptionPosition(Accept(x, f, sendSm))
    ensures x.receiverPosition <= Accept(x, f, sendSm).receiverPosition
    ensures f.termId == x.activeTermId ==> NewOffset(f) <= Accept(x, f, sendSm).expectedTermOffset
    ensures x.expectedTermOffset <= Accept(x, f, sendSm).expectedTermOffset
  {
    hide IsPowerOfTwo, Align32, Aligned, Wrap32, Splice, PartitionIndex, Raise, RaisePosition;
    AcceptPosition(x, f);
    if f.termId == x.activeTermId {
      RaiseIsMax(x.expectedTermOffset, NewOffset(f));
    }
  }

  lemma AcceptOwned(x: Image, own: seq<Owner>, f: Wire, sendSm: bool)
    requires WindowOk(x, own) && WireOk(f) && !Stale(x, f) && !TermFull(x, f)
    ensures var base := WirePartition(x, f) * x.termLength;
            && base + Offset(f) + HEADER + |f.payload| <= |own|
            && Owned(Accept(x, f, sendSm), Paint(own, base + Offset(f), HEADER + |f.payload|, Term(f.termId)))
            && Untouched(Accept(x, f, sendSm), Paint(own, base + Offset(f), HEADER + |f.payload|, Term(f.termId)))
  {
    hide IsPowerOfTwo, Align32, Aligned, Wrap32, PartitionIndex, Raise, RaisePosition, CommittedBytes;
    var p, tl := WirePartition(x, f), x.termLength;
    PartitionFits(p, tl);
    AcceptCursors(x, f, sendSm);
    NotStale(x, f);
    var at := p * tl + Offset(f);
    var len := HEADER + |f.payload|;
    var x', own' := Accept(x, f, sendSm), Paint(own, at, len, Term(f.termId));
    forall i | 0 <= i < |own'| ensures ByteOk(x', own', i) {
      assert ByteOk(x, own, i);
      if at <= i < at + len {
        DivModUnique(i, p, i - p * tl, tl);
      }
    }
    forall i | 0 <= i < |own'| && InActiveTail(x', i) ensures own'[i] == Nobody {
      PartitionFits(PartitionIndex(x.activeTermId, x.initialTermId), tl);
      assert InActiveTail(x, i);
      if at <= i < at + len {
        DivModUnique(i, p, i - p * tl, tl);
        var a := PartitionIndex(x.activeTermId, x.initialTermId);
        DivModUnique(i, a, i - a * tl, tl);
        SamePartitionIsActive(x, f);
      }
    }
  }

  lemma SamePartitionIsActive(x: Image, f: Wire)
    requires CursorsAgree(x) && WireOk(f) && !Stale(x, f)
    requires WirePartition(x, f) == PartitionIndex(x.activeTermId, x.initialTermId)
    ensures f.termId == x.activeTermId
  {
    NotStale(x, f);
    WindowTermUnique(x, f.termId, x.activeTermId, WirePartition(x, f));
  }

  // ---- One data frame ----

  /** Any arriving frame keeps the window, and no advertised position goes back. */
  lemma OnDataKeeps(x: Image, own: seq<Owner>, f: Wire, now: int, nakDelay: int, sendSm: bool)
    requires WindowOk(x, own) && WireOk(f) && TermsLeft(x, f)
    ensures WindowOk(OnData(x, f, now, nakDelay, sendSm), OwnersAfter(own, x, f))
    ensures ConsumptionPosition(x) <= ConsumptionPosition(OnData(x, f, now, nakDelay, sendSm))
    ensures x.receiverPosition <= OnData(x, f, now, nakDelay, sendSm).receiverPosition
  {
    hide IsPowerOfTwo, Align32, Aligned, Wrap32, PartitionIndex, Cleaned, CleanAhead, CursorsAgree, Owned, Untouched,
         Splice, ConsumptionPosition;
    WindowSize(x, own);
    AdvanceCursors(x, f);
    AdvanceOwned(x, own, f);
    AdvanceUntouched(x, own, f);
    var x1, own1 := Advance(x, f), AdvanceOwners(own, x, f);
    var x2 := x1;
    if !Stale(x1, f) && !TermFull(x1, f) {
      AcceptCursors(x1, f, sendSm);
      AcceptOwned(x1, own1, f, sendSm);
      x2 := Accept(x1, f, sendSm);
    }
    StampIrrelevant(x2, OnData(x, f, now, nakDelay, sendSm), OwnersAfter(own, x, f));
  }

  lemma WindowSize(x: Image, own: seq<Owner>)
    requires WindowOk(x, own)
    ensures |own| == |x.buf| == 4 * x.termLength && x.termLength > 0
  {
  }

  // ---- What a data frame does ----

  /**
   The frame's term is at most three behind the active one, or ahead by less than 2^30 - 1, and the
   frame fits into its term.
   */
  ghost predicate Stores(x: Image, f: Wire) {
    var d := TermAhead(x, f);
    (-3 <= d <= 0 || 0 < d < 0x3FFF_FFFF) && 0 <= f.termOffset && NewOffset(f) <= x.termLength
  }

  lemma WrapOpposite(a: int, b: int)
    ensures var d := Wrap32(a - b); Wrap32(b - a) == if d == -TWO31 then d else -d
  {
    hide Wrap32;
    var m := Wrap32Congruent(a - b);
    Wrap32Shift(-Wrap32(a - b), m);
    var n := Wrap32Congruent(b - a);
    assert Wrap32(b - a) + Wrap32(a - b) == (m + n) * TWO32;
  }

  lemma StoresExactly(x: Image, f: Wire)
    requires CursorsAgree(x) && WireOk(f)
    ensures Stores(x, f) <==> !Stale(Advance(x, f), f) && !TermFull(Advance(x, f), f)
  {
    hide IsPowerOfTwo, Aligned, Align32, Wrap32, CleanAhead;
    WrapOpposite(f.termId, x.activeTermId);
    if Advances(x, f) {
      assert Wrap32(f.termId - f.termId) == 0;
    }
  }

  /** Position just after the frame. */
  function FrameEnd(x: Image, f: Wire): int {
    (TermCount(x) + TermAhead(x, f)) * x.termLength + NewOffset(f)
  }

  /**
   The effect of any frame in whole positions: a frame that is stored raises both positions to its end,
   one that is ahead moves the window, and any other changes neither.
   */
  lemma OnDataExactly(x: Image, f: Wire, now: int, nakDelay: int, sendSm: bool)
    requires CursorsAgree(x) && WireOk(f) && TermsLeft(x, f)
    ensures var x' := OnData(x, f, now, nakDelay, sendSm);
            && x'.receiverPosition
               == (if Stores(x, f) && x.receiverPosition < FrameEnd(x, f) then FrameEnd(x, f) else x.receiverPosition)
            && ConsumptionPosition(x')
               == (if Stores(x, f) && ConsumptionPosition(x) < FrameEnd(x, f) then FrameEnd(x, f)
                   else if 0 < TermAhead(x, f) < 0x3FFF_FFFF then (TermCount(x) + TermAhead(x, f)) * x.termLength
                   else ConsumptionPosition(x))
            && x'.activeTermId == (if 0 < TermAhead(x, f) < 0x3FFF_FFFF then f.termId else x.activeTermId)
            && x'.smPending == (x.smPending || (sendSm && Stores(x, f)))
            && x'.subscriberPosition == x.subscriberPosition && x'.timeOfLastSm == x.timeOfLastSm
  {
    hide IsPowerOfTwo, Aligned, Align32, Wrap32, CleanAhead, Stores, RaisePosition, Raise, PartitionIndex, Splice,
         Stale;
    StoresExactly(x, f);
    AdvanceCursors(x, f);
    var x1, k, d := Advance(x, f), TermCount(x), TermAhead(x, f);
    if Stores(x, f) {
      AcceptPosition(x1, f);
      StoredTerm(x, f);
      MulStep(k, k + d, x.termLength);
      if f.termId == x1.activeTermId {
        RaiseIsMax(x1.expectedTermOffset, NewOffset(f));
      }
    }
  }

  /** Seen from the moved window, a stored frame lies as far behind as it was, or in the active term. */
  lemma StoredTerm(x: Image, f: Wire)
    requires Stores(x, f) && CursorsAgree(x)
    ensures Wrap32(Advance(x, f).activeTermId - f.termId) == if TermAhead(x, f) > 0 then 0 else -TermAhead(x, f)
  {
    WrapOpposite(f.termId, x.activeTermId);
  }

  /** The NAK timestamp plays no part in the window. */
  lemma StampIrrelevant(x: Image, x': Image, own: seq<Owner>)
    requires WindowOk(x, own) && x' == x.(timeOfLastNak := x'.timeOfLastNak)
    ensures WindowOk(x', own) && ConsumptionPosition(x') == ConsumptionPosition(x)
  {
    hide IsPowerOfTwo, Wrap32, PartitionIndex;
    forall i | 0 <= i < |own| ensures ByteOk(x', own, i) {
      assert ByteOk(x, own, i);
    }
    forall i | 0 <= i < |own| && InActiveTail(x', i) ensures own[i] == Nobody {
      assert InActiveTail(x, i);
    }
  }

  /**
   The wrapping test sees a gap exactly when a frame of the active term starts less than 2^30 - 1
   beyond the expected offset.
   */
  lemma GapSeenExactly(x: Image, f: Wire)
    requires CursorsAgree(x) && WireOk(f)
    ensures GapSeen(x, f) <==> f.termId == x.activeTermId && 0 < f.termOffset - x.expectedTermOffset < HALF_I32
  {
    hide IsPowerOfTwo, Aligned;
  }

  /** A NAK is due for a frame beyond the expected offset, once the delay since the last one is over. */
  lemma NakDueExactly(x: Image, f: Wire, now: int, nakDelay: int)
    requires CursorsAgree(x) && WireOk(f) && 0 <= now < TWO63 && 0 <= x.timeOfLastNak < TWO63
    ensures NakDue(x, f, now, nakDelay)
       <==> && f.termId == x.activeTermId && 0 < f.termOffset - x.expectedTermOffset < 0x3FFF_FFFF
            && x.timeOfLastNak <= now && x.timeOfLastNak + nakDelay <= now
  {
    hide IsPowerOfTwo, Aligned, Wrap32;
    GapSeenExactly(x, f);
  }

  /** The range a NAK asks for lies in the active term, and the log holds nothing in it. */
  ghost predicate NothingHeld(x: Image, nak: Nak) {
    var base := PartitionIndex(x.activeTermId, x.initialTermId) * x.termLength;
    var asked := nak.termOffset + nak.length;
    var end := if asked < x.termLength then asked else x.termLength;
    && nak.termId == x.activeTermId && 0 <= nak.termOffset <= end && nak.length > 0
    && base + end <= |x.buf|
    && x.buf[base + nak.termOffset..base + end] == Zeros(end - nak.termOffset)
  }

  /** A NAK asks for the bytes up to the frame that revealed the gap, and the log holds none of them. */
  lemma NakRangeEmpty(x: Image, own: seq<Owner>, f: Wire)
    requires WindowOk(x, own) && WireOk(f) && GapSeen(x, f)
    ensures NothingHeld(x, NakFor(x, f)) && NakFor(x, f).termOffset + NakFor(x, f).length == f.termOffset
  {
    hide IsPowerOfTwo, PartitionIndex;
    var base := PartitionIndex(x.activeTermId, x.initialTermId) * x.termLength;
    PartitionFits(PartitionIndex(x.activeTermId, x.initialTermId), x.termLength);
    GapSeenExactly(x, f);
    var end := if f.termOffset < x.termLength then f.termOffset else x.termLength;
    forall i | base + x.expectedTermOffset <= i < base + end ensures x.buf[i] == 0 {
      assert InActiveTail(x, i) && ByteOk(x, own, i);
    }
  }

  // ---- Runs ----

  datatype Op =
    | DataOp(frame: Wire, now: int, room: bool) // `room`: the NAK queue of this cycle is not full
    | SmOp(now: int)                            // the image's turn in `send_control_messages`
    | PollOp(limit: int)

  datatype Settings = Settings(nakDelay: int, smInterval: int, sendSmOnData: bool)

  datatype TimedNak = TimedNak(time: int, nak: Nak)

  datatype World = World(image: Image, own: seq<Owner>, naks: seq<TimedNak>, advertised: seq<int>)

  function Step(c: Settings, w: World, op: Op): World
    requires |w.own| == |w.image.buf| == 4 * w.image.termLength && w.image.termLength > 0
    requires op.DataOp? ==> |op.frame.header| == HEADER
  {
    var x := w.image;
    match op
    case DataOp(f, now, room) =>
      w.(image := OnData(x, f, now, c.nakDelay, c.sendSmOnData), own := OwnersAfter(w.own, x, f),
         naks := if NakDue(x, f, now, c.nakDelay) && room then w.naks + [TimedNak(now, NakFor(x, f))] else w.naks)
    case SmOp(now) =>
      if SmDue(x, now, c.smInterval) then
        w.(image := AfterSm(x, now), advertised := w.advertised + [ConsumptionPosition(x)])
      else w
    case PollOp(limit) => w.(image := Poll(x, limit).0)
  }

  ghost predicate OpOk(w: World, op: Op) {
    op.DataOp? ==> WireOk(op.frame) && TermsLeft(w.image, op.frame) && 0 <= op.now < TWO63
  }

  /** NAKs are at least the delay apart, the last one no later than the time stamp. */
  ghost predicate Spaced(naks: seq<TimedNak>, delay: int, last: int) {
    && 0 <= last < TWO63
    && (forall i :: 0 <= i < |naks| ==> naks[i].time <= last)
    && (forall i, j :: 0 <= i < j < |naks| ==> naks[i].time + delay <= naks[j].time)
  }

  /** Advertised positions never decrease and none lies beyond the present one. */
  ghost predicate Rising(advertised: seq<int>, present: int) {
    && (forall i :: 0 <= i < |advertised| ==> advertised[i] <= present)
    && (forall i, j :: 0 <= i < j < |advertised| ==> advertised[i] <= advertised[j])
  }

  ghost predicate WorldOk(c: Settings, w: World) {
    && WindowOk(w.image, w.own)
    && Spaced(w.naks, c.nakDelay, w.image.timeOfLastNak)
    && Rising(w.advertised, ConsumptionPosition(w.image))
  }

  lemma NakSpaced(x: Image, f: Wire, now: int, delay: int, naks: seq<TimedNak>)
    requires Spaced(naks, delay, x.timeOfLastNak) && NakDue(x, f, now, delay) && 0 <= now < TWO63
    ensures x.timeOfLastNak + delay <= now && x.timeOfLastNak <= now
    ensures Spaced(naks, delay, now) && Spaced(naks + [TimedNak(now, NakFor(x, f))], delay, now)
  {
    hide Wrap32;
    assert Wrap64(now - x.timeOfLastNak) == now - x.timeOfLastNak;
  }

  lemma StampAfter(x: Image, f: Wire, now: int, delay: int, sendSm: bool)
    requires |x.buf| == 4 * x.termLength && |f.header| == HEADER
    ensures OnData(x, f, now, delay, sendSm).timeOfLastNak
         == if NakDue(x, f, now, delay) then now else x.timeOfLastNak
  {
  }

  lemma StepKeeps(c: Settings, w: World, op: Op)
    requires WorldOk(c, w) && OpOk(w, op)
    ensures |w.own| == |w.image.buf| == 4 * w.image.termLength && w.image.termLength > 0
    ensures WorldOk(c, Step(c, w, op))
  {
    hide WindowOk, Spaced, OnData, OwnersAfter, Poll, NakDue, ConsumptionPosition;
    WindowSize(w.image, w.own);
    match op
    case DataOp(f, now, room) =>
      OnDataKeeps(w.image, w.own, f, now, c.nakDelay, c.sendSmOnData);
      StampAfter(w.image, f, now, c.nakDelay, c.sendSmOnData);
      if NakDue(w.image, f, now, c.nakDelay) {
        NakSpaced(w.image, f, now, c.nakDelay, w.naks);
      }
    case SmOp(now) =>
      OtherFieldsIrrelevant(w.image, AfterSm(w.image, now), w.own);
    case PollOp(limit) =>
      PollOnlyMovesSubscriber(w.image, limit);
      OtherFieldsIrrelevant(w.image, Poll(w.image, limit).0, w.own);
  }

  lemma PollOnlyMovesSubscriber(x: Image, limit: int)
    requires |x.buf| == 4 * x.termLength && x.termLength > 0
    ensures var x' := Poll(x, limit).0; x' == x.(subscriberPosition := x'.subscriberPosition)
  {
  }

  lemma OtherFieldsIrrelevant(x: Image, x': Image, own: seq<Owner>)
    requires WindowOk(x, own)
    requires x' == x.(timeOfLastSm := x'.timeOfLastSm, smPending := x'.smPending,
                      subscriberPosition := x'.subscriberPosition)
    ensures WindowOk(x', own) && ConsumptionPosition(x') == ConsumptionPosition(x)
  {
    hide IsPowerOfTwo, Wrap32, PartitionIndex;
    forall i | 0 <= i < |own| ensures ByteOk(x', own, i) {
      assert ByteOk(x, own, i);
    }
    forall i | 0 <= i < |own| && InActiveTail(x', i) ensures own[i] == Nobody {
      assert InActiveTail(x, i);
    }
  }

  /** Worlds of a run: `w[i + 1]` follows `w[i]` by operation `ops[i]`. */
  ghost predicate IsRun(c: Settings, ws: seq<World>, ops: seq<Op>) {
    && |ws| == |ops| + 1
    && forall i :: 0 <= i < |ops| ==> OpOk(ws[i], ops[i]) && Follows(c, ws[i], ops[i], ws[i + 1])
  }

  ghost predicate Follows(c: Settings, w: World, op: Op, w': World) {
    && |w.own| == |w.image.buf| == 4 * w.image.termLength && w.image.termLength > 0
    && (op.DataOp? ==> |op.frame.header| == HEADER)
    && w' == Step(c, w, op)
  }

  /** The world right after a setup frame. */
  ghost predicate Fresh(w: World, initialTermId: int, activeTermId: int, termLength: nat, termOffset: int) {
    && w.image == NewImage(initialTermId, activeTermId, termLength, termOffset)
    && |w.own| == 4 * termLength && (forall i :: 0 <= i < |w.own| ==> w.own[i] == Nobody)
    && w.naks == [] && w.advertised == []
  }

  ghost predicate SetupOk(initialTermId: int, activeTermId: int, termLength: nat, termOffset: int) {
    && IsI32(initialTermId) && IsI32(activeTermId) && 0 <= Wrap32(activeTermId - initialTermId)
    && HEADER <= termLength <= 0x2000_0000 && IsPowerOfTwo(termLength) && Aligned(termLength)
    && 0 <= termOffset <= termLength
  }

  lemma FreshOk(c: Settings, w: World, initialTermId: int, activeTermId: int, termLength: nat, termOffset: int)
    requires SetupOk(initialTermId, activeTermId, termLength, termOffset)
    requires Fresh(w, initialTermId, activeTermId, termLength, termOffset)
    ensures WorldOk(c, w)
  {
    hide IsPowerOfTwo, PartitionIndex, Wrap32;
    assert 0 <= Wrap32(activeTermId - initialTermId) * termLength;
    forall i | 0 <= i < |w.own| ensures ByteOk(w.image, w.own, i) {
    }
  }

  lemma {:induction false} RunKeepsWorld(c: Settings, ws: seq<World>, ops: seq<Op>, i: nat)
    requires IsRun(c, ws, ops) && WorldOk(c, ws[0]) && i < |ws|
    ensures WorldOk(c, ws[i])
  {
    hide WorldOk, Step, OpOk;
    if i > 0 {
      RunKeepsWorld(c, ws, ops, i - 1);
      assert Follows(c, ws[i - 1], ops[i - 1], ws[i - 1 + 1]);
      StepKeeps(c, ws[i - 1], ops[i - 1]);
    }
  }

  /** Operation `op` queues no NAK, or one whose range was empty when it was queued. */
  ghost predicate NakSound(w: World, w': World) {
    w'.naks == w.naks || exists t :: w'.naks == w.naks + [t] && NothingHeld(w.image, t.nak)
  }

  /** A data frame beyond the expected offset asks for what lies between, if the delay is over. */
  ghost predicate AsksNow(c: Settings, x: Image, op: Op) {
    && op.DataOp? && op.frame.termId == x.activeTermId && 0 < op.frame.termOffset - x.expectedTermOffset < 0x3FFF_FFFF
    && x.timeOfLastNak <= op.now && x.timeOfLastNak + c.nakDelay <= op.now
  }

  /** Such a frame, and no other operation, stamps the time and queues one NAK, unless the queue is full. */
  ghost predicate NakExactly(c: Settings, w: World, op: Op, w': World) {
    var x := w.image;
    && w'.image.timeOfLastNak == (if AsksNow(c, x, op) then op.now else x.timeOfLastNak)
    && w'.naks == if AsksNow(c, x, op) && op.room then
                    var nak := Nak(x.activeTermId, x.expectedTermOffset, op.frame.termOffset - x.expectedTermOffset);
                    w.naks + [TimedNak(op.now, nak)]
                  else w.naks
  }

  lemma StepNakExactly(c: Settings, w: World, op: Op)
    requires WorldOk(c, w) && OpOk(w, op)
    ensures |w.own| == |w.image.buf| == 4 * w.image.termLength && w.image.termLength > 0
    ensures NakExactly(c, w, op, Step(c, w, op))
  {
    hide OnData, OwnersAfter, Poll, NakDue, CursorsAgree, Owned, Untouched, Wrap32, ConsumptionPosition;
    WindowSize(w.image, w.own);
    match op
    case DataOp(f, now, room) =>
      NakDueExactly(w.image, f, now, c.nakDelay);
      StampAfter(w.image, f, now, c.nakDelay, c.sendSmOnData);
      if AsksNow(c, w.image, op) {
        NakForExactly(w.image, f);
      }
    case SmOp(now) =>
    case PollOp(limit) => PollOnlyMovesSubscriber(w.image, limit);
  }

  lemma NakForExactly(x: Image, f: Wire)
    requires CursorsAgree(x) && 0 < f.termOffset - x.expectedTermOffset < 0x3FFF_FFFF
    ensures NakFor(x, f) == Nak(x.activeTermId, x.expectedTermOffset, f.termOffset - x.expectedTermOffset)
  {
    hide IsPowerOfTwo, Aligned;
  }

  lemma StepNakSound(c: Settings, w: World, op: Op)
    requires WorldOk(c, w) && OpOk(w, op)
    ensures |w.own| == |w.image.buf| == 4 * w.image.termLength && w.image.termLength > 0
    ensures NakSound(w, Step(c, w, op))
  {
    hide NothingHeld, OnData, OwnersAfter, Poll, WindowOk, GapSeen;
    WindowSize(w.image, w.own);
    if op.DataOp? && NakDue(w.image, op.frame, op.now, c.nakDelay) && op.room {
      NakRangeEmpty(w.image, w.own, op.frame);
      assert Step(c, w, op).naks == w.naks + [TimedNak(op.now, NakFor(w.image, op.frame))];
    }
  }

  /**
   Over every run from a setup frame, of arriving frames, status messages and polls: the window and
   the cursors are as they should be, NAKs are spaced, advertised positions do not go back, every NAK
   asked for a range in which the log held nothing, and a NAK is queued exactly when a frame shows a gap
   after the delay.
   */
  lemma RunKeeps(c: Settings, ws: seq<World>, ops: seq<Op>, i: nat,
                 initialTermId: int, activeTermId: int, termLength: nat, termOffset: int)
    requires SetupOk(initialTermId, activeTermId, termLength, termOffset)
    requires IsRun(c, ws, ops) && Fresh(ws[0], initialTermId, activeTermId, termLength, termOffset) && i < |ws|
    ensures WorldOk(c, ws[i])
    ensures i < |ops| ==> NakSound(ws[i], ws[i + 1]) && NakExactly(c, ws[i], ops[i], ws[i + 1])
  {
    hide WorldOk, Step, OpOk, SetupOk, Fresh, NakSound, NakExactly;
    FreshOk(c, ws[0], initialTermId, activeTermId, termLength, termOffset);
    RunKeepsWorld(c, ws, ops, i);
    if i < |ops| {
      assert Follows(c, ws[i], ops[i], ws[i + 1]);
      StepNakSound(c, ws[i], ops[i]);
      StepNakExactly(c, ws[i], ops[i]);
    }
  }

  // ---- When status messages are sent ----

  /** A status message is due when one is pending or the interval since the last one is over. */
  lemma SmDueExactly(x: Image, now: int, smInterval: int)
    requires 0 <= now < TWO63 && 0 <= x.timeOfLastSm < TWO63
    ensures SmDue(x, now, smInterval) <==> x.smPending || x.timeOfLastSm + smInterval < now
  {
  }

  /** The status messages of a run are asked for at times an `i64` of nanoseconds can hold. */
  ghost predicate SmTimesOk(ops: seq<Op>) {
    forall i :: 0 <= i < |ops| && ops[i].SmOp? ==> 0 <= ops[i].now < TWO63
  }

  /** Operation number `i` of the run sent a status message. */
  ghost predicate SentSm(ws: seq<World>, i: nat)
    requires i + 1 < |ws|
  {
    |ws[i + 1].advertised| > |ws[i].advertised|
  }

  /** When the last status message before operation `i` was sent; 0 if there was none. */
  ghost function LastSm(ws: seq<World>, ops: seq<Op>, i: nat): int
    requires |ws| == |ops| + 1 && i < |ws|
  {
    if i == 0 then 0
    else if ops[i - 1].SmOp? && SentSm(ws, i - 1) then ops[i - 1].now
    else LastSm(ws, ops, i - 1)
  }

  /** A frame was stored since the last status message, and the driver sends them on data. */
  ghost predicate SmOwed(c: Settings, ws: seq<World>, ops: seq<Op>, i: nat)
    requires |ws| == |ops| + 1 && i < |ws|
  {
    && i > 0
    && match ops[i - 1]
       case DataOp(f, _, _) => SmOwed(c, ws, ops, i - 1) || (c.sendSmOnData && Stores(ws[i - 1].image, f))
       case SmOp(_) => SmOwed(c, ws, ops, i - 1) && !SentSm(ws, i - 1)
       case PollOp(_) => SmOwed(c, ws, ops, i - 1)
  }

  /** The image's own record of both. */
  ghost predicate SmRecorded(c: Settings, ws: seq<World>, ops: seq<Op>, i: nat)
    requires |ws| == |ops| + 1 && i < |ws|
  {
    && 0 <= LastSm(ws, ops, i) < TWO63
    && ws[i].image.timeOfLastSm == LastSm(ws, ops, i) && ws[i].image.smPending == SmOwed(c, ws, ops, i)
  }

  lemma {:induction false} SmRecordKept(c: Settings, ws: seq<World>, ops: seq<Op>, i: nat)
    requires IsRun(c, ws, ops) && WorldOk(c, ws[0]) && SmTimesOk(ops) && i < |ws|
    requires ws[0].image.timeOfLastSm == 0 && !ws[0].image.smPending
    ensures SmRecorded(c, ws, ops, i)
  {
    hide WindowOk, Spaced, Rising, OnData, OwnersAfter, Poll, NakDue, ConsumptionPosition, Stores, SmDue;
    if i > 0 {
      SmRecordKept(c, ws, ops, i - 1);
      RunKeepsWorld(c, ws, ops, i - 1);
      var w, op := ws[i - 1], ops[i - 1];
      assert Follows(c, w, op, ws[i - 1 + 1]);
      match op
      case DataOp(f, now, room) =>
        WindowCursors(w.image, w.own);
        OnDataExactly(w.image, f, now, c.nakDelay, c.sendSmOnData);
      case SmOp(now) =>
      case PollOp(limit) => PollOnlyMovesSubscriber(w.image, limit);
    }
  }

  lemma WindowCursors(x: Image, own: seq<Owner>)
    requires WindowOk(x, own)
    ensures CursorsAgree(x)
  {
  }

  /**
   Over every run from a setup frame: the image's turn sends a status message exactly when the interval
   since the last one is over, or a frame was stored since and the driver sends them on data; the
   message advertises the position of that moment, and nothing else sends one.
   */
  lemma SmSentExactly(c: Settings, ws: seq<World>, ops: seq<Op>, i: nat,
                      initialTermId: int, activeTermId: int, termLength: nat, termOffset: int)
    requires SetupOk(initialTermId, activeTermId, termLength, termOffset) && SmTimesOk(ops)
    requires IsRun(c, ws, ops) && Fresh(ws[0], initialTermId, activeTermId, termLength, termOffset) && i < |ops|
    ensures ws[i + 1].advertised
         == if ops[i].SmOp? && (SmOwed(c, ws, ops, i) || LastSm(ws, ops, i) + c.smInterval < ops[i].now)
            then ws[i].advertised + [ConsumptionPosition(ws[i].image)] else ws[i].advertised
  {
    hide WorldOk, OnData, OwnersAfter, Poll, NakDue, ConsumptionPosition, SmOwed, LastSm, SmDue, SetupOk;
    FreshOk(c, ws[0], initialTermId, activeTermId, termLength, termOffset);
    SmRecordKept(c, ws, ops, i);
    assert Follows(c, ws[i], ops[i], ws[i + 1]);
    if ops[i].SmOp? {
      SmDueExactly(ws[i].image, ops[i].now, c.smInterval);
    }
  }
}
