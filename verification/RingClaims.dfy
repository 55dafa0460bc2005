/**
 Claiming space on the command ring: any number of producers load the tail, load the head and try to
 move the tail, interleaved in any way with each other and with a consumer that advances the head.
 The head a producer works with may be stale.
 */
module RingClaims {
  import opened Arith
  import opened Bytes
  import opened RecordRing

  /** What a successful compare-and-exchange hands its producer: perhaps a pad, and a record. */
  datatype Claim = Claim(producer: nat, start: nat, pad: nat, record: nat)

  function RecordStart(c: Claim): nat { c.start + c.pad }

  function ClaimEnd(c: Claim): nat { c.start + c.pad + c.record }

  datatype Pc =
    | Idle
    | Started(aligned: nat)                               // about to load the tail
    | HasTail(aligned: nat, tail: nat)                    // about to load the head
    | HasBoth(aligned: nat, tail: nat, head: nat)         // checked for space, about to exchange

  datatype State = State(head: nat, tail: nat, pcs: map<nat, Pc>, claims: seq<Claim>)

  datatype Action =
    | Begin(producer: nat, payloadLength: nat)
    | LoadTail(producer: nat)
    | LoadHead(producer: nat)
    | Exchange(producer: nat, spurious: bool)
    | Consume(newHead: nat)

  const INITIAL := State(0, 0, map[], [])

  function PcOf(s: State, p: nat): Pc {
    if p in s.pcs then s.pcs[p] else Idle
  }

  /** The producer's test for space, with the head it loaded. */
  predicate NoSpace(cap: nat, aligned: nat, tail: nat, head: nat)
    requires cap > 0
  {
    var available := cap - Wrap64(tail - head);
    aligned > available || Needed(cap, tail, aligned) > available
  }

  function ClaimAt(cap: nat, producer: nat, tail: nat, aligned: nat): Claim
    requires cap > 0
  {
    var contiguous := cap - tail % cap;
    Claim(producer, tail, if aligned > contiguous then contiguous else 0, aligned)
  }

  function Next(cap: nat, s: State, action: Action): State
    requires cap > 0
  {
    match action
    case Begin(p, payloadLength) =>
      if PcOf(s, p).Idle? && RECORD_HEADER + payloadLength <= cap then
        s.(pcs := s.pcs[p := Started(Align32(RECORD_HEADER + payloadLength))])
      else s
    case LoadTail(p) =>
      if PcOf(s, p).Started? then s.(pcs := s.pcs[p := HasTail(s.pcs[p].aligned, s.tail)]) else s
    case LoadHead(p) =>
      if PcOf(s, p).HasTail? then
        var pc := s.pcs[p];
        s.(pcs := s.pcs[p := if NoSpace(cap, pc.aligned, pc.tail, s.head) then Idle
                              else HasBoth(pc.aligned, pc.tail, s.head)])
      else s
    case Exchange(p, spurious) =>
      if PcOf(s, p).HasBoth? then
        var pc := s.pcs[p];
        if spurious || s.tail != pc.tail then s.(pcs := s.pcs[p := Started(pc.aligned)])
        else
          var claim := ClaimAt(cap, p, pc.tail, pc.aligned);
          State(s.head, ClaimEnd(claim), s.pcs[p := Idle], s.claims + [claim])
      else s
    case Consume(newHead) => if s.head <= newHead <= s.tail then s.(head := newHead) else s
  }

  // ---- Invariant ----

  /** A claim covers one piece of the buffer for the pad and one for the record, neither across the end. */
  ghost predicate ClaimOk(cap: nat, c: Claim) {
    && c.record > 0 && InOnePiece(RecordStart(c), c.record, cap) && InOnePiece(c.start, c.pad, cap)
    && (c.pad > 0 ==> RecordStart(c) % cap == 0)
  }

  ghost predicate PcOk(cap: nat, s: State, pc: Pc) {
    match pc
    case Idle => true
    case Started(aligned) => 0 < aligned <= cap && Aligned(aligned)
    case HasTail(aligned, tail) => 0 < aligned <= cap && Aligned(aligned) && tail <= s.tail
    case HasBoth(aligned, tail, head) =>
      && 0 < aligned <= cap && Aligned(aligned) && tail <= s.tail && head <= s.head
      && !NoSpace(cap, aligned, tail, head)
  }

  /** Each claim starts where the one before it ended; the last ends at the tail. */
  ghost predicate Consecutive(claims: seq<Claim>, tail: nat) {
    if |claims| == 0 then tail == 0
    else
      var last := claims[|claims| - 1];
      ClaimEnd(last) == tail && Consecutive(claims[..|claims| - 1], last.start)
  }

  ghost predicate Inv(cap: nat, s: State) {
    && 32 <= cap < TWO31 && Aligned(cap)
    && s.head <= s.tail <= s.head + cap && Aligned(s.tail)
    && Consecutive(s.claims, s.tail)
    && (forall i :: 0 <= i < |s.claims| ==> ClaimOk(cap, s.claims[i]))
    && (forall p :: p in s.pcs ==> PcOk(cap, s, s.pcs[p]))
  }

  /** What a successful exchange claims lies within one lap of the head, even a stale one. */
  lemma ExchangeFits(cap: nat, s: State, p: nat)
    requires Inv(cap, s) && p in s.pcs && s.pcs[p].HasBoth? && s.tail == s.pcs[p].tail && s.tail + 2 * cap < TWO63
    ensures var c := ClaimAt(cap, p, s.tail, s.pcs[p].aligned);
            && ClaimOk(cap, c) && c.start == s.tail && ClaimEnd(c) <= s.head + cap && Aligned(ClaimEnd(c))
  {
    hide Wrap64, Consecutive, Aligned;
    var pc := s.pcs[p];
    assert PcOk(cap, s, pc);
    PadReachesEnd(cap, s.tail);
    var contiguous := cap - s.tail % cap;
    AlignedSum(s.tail, pc.aligned);
    AlignedSum(s.tail, contiguous);
    AlignedSum(s.tail + contiguous, pc.aligned);
  }

  lemma NextKeeps(cap: nat, s: State, action: Action)
    requires Inv(cap, s) && s.tail + 2 * cap < TWO63
    ensures Inv(cap, Next(cap, s, action))
    ensures s.claims <= Next(cap, s, action).claims && s.head <= Next(cap, s, action).head
  {
    hide Wrap64, Consecutive, Aligned, Align32, Needed;
    var s' := Next(cap, s, action);
    forall p | p in s.pcs ensures PcOk(cap, s', s.pcs[p]) {
    }
    match action
    case Begin(p, payloadLength) =>
      AlignedSum(cap, Align32(RECORD_HEADER + payloadLength));
    case LoadTail(p) =>
    case LoadHead(p) =>
    case Exchange(p, spurious) =>
      if PcOf(s, p).HasBoth? && !spurious && s.tail == s.pcs[p].tail {
        ExchangeFits(cap, s, p);
        var c := ClaimAt(cap, p, s.tail, s.pcs[p].aligned);
        ConsecutiveAppend(s.claims, s.tail, c);
      }
    case Consume(newHead) =>
  }

  lemma ConsecutiveAppend(claims: seq<Claim>, tail: nat, c: Claim)
    requires Consecutive(claims, tail) && c.start == tail
    ensures Consecutive(claims + [c], ClaimEnd(c))
  {
    assert (claims + [c])[..|claims|] == claims;
  }

  // ---- Disjointness ----

  lemma {:induction false} ClaimsOrdered(claims: seq<Claim>, tail: nat, i: nat, j: nat)
    requires Consecutive(claims, tail) && i < j < |claims|
    ensures ClaimEnd(claims[i]) <= claims[j].start && ClaimEnd(claims[j]) <= tail
  {
    var n := |claims| - 1;
    var front := claims[..n];
    if j < n {
      ClaimsOrdered(front, claims[n].start, i, j);
    } else {
      ClaimBelow(front, claims[n].start, i);
    }
  }

  lemma {:induction false} ClaimBelow(claims: seq<Claim>, tail: nat, i: nat)
    requires Consecutive(claims, tail) && i < |claims|
    ensures ClaimEnd(claims[i]) <= tail
  {
    var n := |claims| - 1;
    if i < n {
      ClaimBelow(claims[..n], claims[n].start, i);
    }
  }

  /** Bytes `[a, a + m)` and `[b, b + n)` of the buffer do not meet. */
  ghost predicate Apart(a: nat, m: nat, b: nat, n: nat) { a + m <= b || b + n <= a }

  /**
   In every state, two claims of which the earlier is not yet consumed share no byte of the buffer:
   neither their records nor their pads.
   */
  lemma ClaimsDisjoint(cap: nat, s: State, i: nat, j: nat)
    requires Inv(cap, s) && i < j < |s.claims| && s.head <= s.claims[i].start
    ensures var a, b := s.claims[i], s.claims[j];
            && Apart(RecordStart(a) % cap, a.record, RecordStart(b) % cap, b.record)
            && Apart(RecordStart(a) % cap, a.record, b.start % cap, b.pad)
            && Apart(a.start % cap, a.pad, RecordStart(b) % cap, b.record)
            && Apart(a.start % cap, a.pad, b.start % cap, b.pad)
  {
    hide Consecutive, Aligned, InOnePiece, PcOk;
    var a, b := s.claims[i], s.claims[j];
    ClaimsOrdered(s.claims, s.tail, i, j);
    PiecesDisjoint(RecordStart(a), a.record, RecordStart(b), b.record, cap);
    PiecesDisjoint(RecordStart(a), a.record, b.start, b.pad, cap);
    PiecesDisjoint(a.start, a.pad, RecordStart(b), b.record, cap);
    PiecesDisjoint(a.start, a.pad, b.start, b.pad, cap);
  }

  /** A new claim covers no byte of `[head, tail)`, whatever the producer thought the head was. */
  lemma ClaimSparesUnread(cap: nat, s: State, p: nat, pos: nat, len: nat)
    requires Inv(cap, s) && s.tail + 2 * cap < TWO63
    requires p in s.pcs && s.pcs[p].HasBoth? && s.tail == s.pcs[p].tail
    requires s.head <= pos && pos + len <= s.tail && InOnePiece(pos, len, cap)
    ensures var c := ClaimAt(cap, p, s.tail, s.pcs[p].aligned);
            && Apart(pos % cap, len, RecordStart(c) % cap, c.record)
            && Apart(pos % cap, len, c.start % cap, c.pad)
  {
    hide Consecutive, Aligned, InOnePiece, PcOk, Needed, NoSpace;
    ExchangeFits(cap, s, p);
    var c := ClaimAt(cap, p, s.tail, s.pcs[p].aligned);
    PiecesDisjoint(pos, len, RecordStart(c), c.record, cap);
    PiecesDisjoint(pos, len, c.start, c.pad, cap);
  }

  // ---- A claim without interruption ----

  function ClaimCall(cap: nat, s: State, p: nat, payloadLength: nat): State
    requires cap > 0
  {
    Next(cap, Next(cap, Next(cap, Next(cap, s, Begin(p, payloadLength)), LoadTail(p)), LoadHead(p)), Exchange(p, false))
  }

  /**
   A producer that is not interrupted claims exactly when its record has a place: it takes the first
   one, with a pad before it, and otherwise claims nothing.
   */
  lemma ClaimTakesFirstPlace(cap: nat, s: State, p: nat, payloadLength: nat)
    requires Inv(cap, s) && s.tail + 2 * cap < TWO63 && PcOf(s, p).Idle?
    ensures var s', aligned := ClaimCall(cap, s, p, payloadLength), Align32(8 + payloadLength);
            if 8 + payloadLength <= cap && HasPlace(cap, s.head, s.tail, aligned) then
              && s'.tail >= s.tail + aligned
              && s'.claims == s.claims + [Claim(p, s.tail, s'.tail - aligned - s.tail, aligned)]
              && InOnePiece(s'.tail - aligned, aligned, cap)
              && forall start: nat :: s.tail <= start < s'.tail - aligned ==> !InOnePiece(start, aligned, cap)
            else s'.claims == s.claims && s'.tail == s.tail
    ensures PcOf(ClaimCall(cap, s, p, payloadLength), p).Idle?
    ensures ClaimCall(cap, s, p, payloadLength).head == s.head
  {
    hide Wrap64, Align32, InOnePiece, HasPlace, Consecutive, Aligned;
    var aligned := Align32(RECORD_HEADER + payloadLength);
    if RECORD_HEADER + payloadLength <= cap {
      AlignedSum(cap, aligned);
      NeededIsLeast(cap, s.tail, aligned);
      HasPlaceExactly(cap, s.head, s.tail, aligned);
    }
  }

  // ---- Runs ----

  function Run(cap: nat, actions: seq<Action>): State
    requires cap > 0
  {
    if |actions| == 0 then INITIAL else Next(cap, Run(cap, actions[..|actions| - 1]), actions[|actions| - 1])
  }

  /** Positions stay within 63 bits. */
  ghost predicate InRange(cap: nat, actions: seq<Action>)
    requires cap > 0
  {
    || |actions| == 0
    || (InRange(cap, actions[..|actions| - 1]) && Run(cap, actions[..|actions| - 1]).tail + 2 * cap < TWO63)
  }

  /** Every interleaving of producers and consumer keeps the claims in order, whole and within one lap of the head. */
  lemma {:induction false} RunKeeps(cap: nat, actions: seq<Action>)
    requires 32 <= cap < TWO31 && Aligned(cap) && InRange(cap, actions)
    ensures Inv(cap, Run(cap, actions))
  {
    hide Next;
    if |actions| == 0 {
      AlignedZero();
    } else {
      RunKeeps(cap, actions[..|actions| - 1]);
      NextKeeps(cap, Run(cap, actions[..|actions| - 1]), actions[|actions| - 1]);
    }
  }
}
