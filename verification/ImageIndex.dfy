/**
 The receiver's open-addressing image index: linear probing and backward-shift deletion
 over `n` slots holding positions in the dense image array, for any hash function.

 A full table has no empty slot to end a probe or a deletion scan.  The invariant therefore
 names a slot `p` that no entry's probe path passes over.  Cutting the ring just behind `p`
 turns every probe path into an interval of a line, and the deletion argument is made there.
 */
module ImageIndex {
  import Arith

  const EMPTY: nat := 65535 // u16::MAX

  datatype Key = Key(sessionId: int, streamId: int)

  /** `(a + d) & mask` for a ring of `n` slots. */
  function Advance(a: nat, d: nat, n: nat): (r: nat)
    requires a < n && d <= n
    ensures r < n
  {
    if a + d < n then a + d else a + d - n
  }

  /** `(b - a) & mask`: how far `b` lies ahead of `a` on the ring. */
  function Distance(a: nat, b: nat, n: nat): (r: nat)
    requires a < n && b < n
    ensures r < n
  {
    if a <= b then b - a else b - a + n
  }

  /** Both ring operations are the masked machine operations (the mask is `n - 1`). */
  lemma RingIsMask(a: nat, b: nat, n: nat)
    requires a < n && b < n
    ensures Advance(a, b, n) == (a + b) % n
    ensures Distance(a, b, n) == (b - a) % n
    ensures Advance(a, Distance(a, b, n), n) == b
    ensures Distance(a, Advance(a, b, n), n) == b
  {
    Arith.DivModUnique(a + b, if a + b < n then 0 else 1, Advance(a, b, n), n);
    Arith.DivModUnique(b - a, if a <= b then 0 else -1, Distance(a, b, n), n);
  }

  ghost predicate HashFits(h: Key -> nat, n: nat) {
    forall k: Key :: h(k) < n
  }

  /** Everything the index says, except the order of probing. */
  ghost predicate Holds(ix: seq<nat>, live: set<nat>) {
    && |ix| < EMPTY
    && (forall e :: e in live <==> e in ix && e != EMPTY)
    && (forall e :: e in live ==> e < |ix|)
    && (forall s, t :: 0 <= s < t < |ix| && ix[s] != EMPTY ==> ix[s] != ix[t])
  }

  /** The slot where the entry stored in slot `s` would like to be. */
  ghost function Natural(ix: seq<nat>, keys: seq<Key>, h: Key -> nat, s: nat): (r: nat)
    requires HashFits(h, |ix|) && s < |ix| && ix[s] < |keys|
    ensures r < |ix|
  {
    h(keys[ix[s]])
  }

  ghost predicate Wellformed(ix: seq<nat>, keys: seq<Key>, h: Key -> nat) {
    && HashFits(h, |ix|)
    && |keys| == |ix|
    && (forall s :: 0 <= s < |ix| && ix[s] != EMPTY ==> ix[s] < |ix|)
  }

  /** Every slot strictly before an entry on its probe path is occupied and is not `p`. */
  ghost predicate Probed(ix: seq<nat>, keys: seq<Key>, h: Key -> nat, p: nat) {
    && Wellformed(ix, keys, h)
    && p < |ix|
    && forall s, t ::
         0 <= s < |ix| && 0 <= t < |ix| && ix[s] != EMPTY
         && Distance(Natural(ix, keys, h, s), t, |ix|) < Distance(Natural(ix, keys, h, s), s, |ix|)
         ==> ix[t] != EMPTY && t != p
  }

  /** The index represents exactly the entries `live`. */
  ghost predicate Valid(ix: seq<nat>, keys: seq<Key>, h: Key -> nat, live: set<nat>) {
    && Holds(ix, live)
    && (forall i, j :: i in live && j in live && i < |keys| && j < |keys| && keys[i] == keys[j] ==> i == j)
    && exists p :: Probed(ix, keys, h, p)
  }

  // ---- The line obtained by cutting the ring behind p ----

  ghost function Line(p: nat, x: nat, n: nat): (r: nat)
    requires p < n && x < n
    ensures r < n
  {
    if x > p then x - p - 1 else x - p - 1 + n
  }

  /** On the line, an entry sits at or after its natural slot with no hole in between. */
  ghost predicate LineProbed(ix: seq<nat>, keys: seq<Key>, h: Key -> nat, p: nat) {
    && Wellformed(ix, keys, h)
    && p < |ix|
    && (forall s :: 0 <= s < |ix| && ix[s] != EMPTY ==>
          Line(p, Natural(ix, keys, h, s), |ix|) <= Line(p, s, |ix|))
    && (forall s, t :: 0 <= s < |ix| && 0 <= t < |ix| && ix[s] != EMPTY
          && Line(p, Natural(ix, keys, h, s), |ix|) <= Line(p, t, |ix|) < Line(p, s, |ix|)
          ==> ix[t] != EMPTY)
  }

  lemma PathAvoids(ix: seq<nat>, keys: seq<Key>, h: Key -> nat, p: nat, s: nat, t: nat)
    requires Probed(ix, keys, h, p) && s < |ix| && t < |ix| && ix[s] != EMPTY
    requires ix[t] == EMPTY || t == p
    ensures Distance(Natural(ix, keys, h, s), s, |ix|) <= Distance(Natural(ix, keys, h, s), t, |ix|)
  {
    assert ix[s] != EMPTY && (ix[t] == EMPTY || t == p);
  }

  /** Ring distances that do not cross `p` are differences on the line; the others are not shorter than to `p`. */
  lemma LineDistance(p: nat, a: nat, b: nat, n: nat)
    requires p < n && a < n && b < n
    ensures Line(p, a, n) <= Line(p, b, n) ==> Distance(a, b, n) == Line(p, b, n) - Line(p, a, n)
    ensures Line(p, a, n) > Line(p, b, n) ==> Distance(a, p, n) < Distance(a, b, n)
    ensures Distance(a, p, n) == n - 1 - Line(p, a, n)
  {
  }

  lemma ProbedIsLineProbed(ix: seq<nat>, keys: seq<Key>, h: Key -> nat, p: nat)
    requires p < |ix|
    ensures Probed(ix, keys, h, p) <==> LineProbed(ix, keys, h, p)
  {
    if Probed(ix, keys, h, p) {
      ProbedGivesLineProbed(ix, keys, h, p);
    }
    if LineProbed(ix, keys, h, p) {
      forall s, t | 0 <= s < |ix| && 0 <= t < |ix| && ix[s] != EMPTY
        && Distance(Natural(ix, keys, h, s), t, |ix|) < Distance(Natural(ix, keys, h, s), s, |ix|)
        ensures ix[t] != EMPTY && t != p
      {
        LineDistance(p, Natural(ix, keys, h, s), s, |ix|);
        LineDistance(p, Natural(ix, keys, h, s), t, |ix|);
      }
    }
  }

  lemma ProbedGivesLineProbed(ix: seq<nat>, keys: seq<Key>, h: Key -> nat, p: nat)
    requires Probed(ix, keys, h, p)
    ensures LineProbed(ix, keys, h, p)
  {
    forall s | 0 <= s < |ix| && ix[s] != EMPTY
      ensures Line(p, Natural(ix, keys, h, s), |ix|) <= Line(p, s, |ix|)
    {
      LineDistance(p, Natural(ix, keys, h, s), s, |ix|);
      PathAvoids(ix, keys, h, p, s, p);
    }
    forall s, t | 0 <= s < |ix| && 0 <= t < |ix| && ix[s] != EMPTY
      && Line(p, Natural(ix, keys, h, s), |ix|) <= Line(p, t, |ix|) < Line(p, s, |ix|)
      ensures ix[t] != EMPTY
    {
      LineDistance(p, Natural(ix, keys, h, s), s, |ix|);
      LineDistance(p, Natural(ix, keys, h, s), t, |ix|);
    }
  }

  // ---- Lookup ----

  /** No entry lies beyond an empty slot of its probe sequence. */
  lemma EmptySlotEndsPath(ix: seq<nat>, keys: seq<Key>, h: Key -> nat, live: set<nat>, s: nat, hole: nat)
    requires Valid(ix, keys, h, live)
    requires s < |ix| && ix[s] != EMPTY && hole < |ix| && ix[hole] == EMPTY
    ensures Distance(Natural(ix, keys, h, s), s, |ix|) < Distance(Natural(ix, keys, h, s), hole, |ix|)
  {
    var p :| Probed(ix, keys, h, p);
  }

  // ---- Insertion ----

  /** Filling the first free slot of the probe sequence makes that slot the unpassed one. */
  lemma InsertKeepsValid(ix: seq<nat>, keys: seq<Key>, h: Key -> nat, live: set<nat>, id: nat, slot: nat)
    requires Valid(ix, keys, h, live)
    requires id !in live && id < |ix| && slot < |ix| && ix[slot] == EMPTY
    requires forall e :: e in live ==> keys[e] != keys[id]
    requires forall t :: 0 <= t < |ix| && Distance(h(keys[id]), t, |ix|) < Distance(h(keys[id]), slot, |ix|)
                         ==> ix[t] != EMPTY
    ensures Valid(ix[slot := id], keys, h, live + {id})
  {
    var p :| Probed(ix, keys, h, p);
    var ix' := ix[slot := id];
    assert Holds(ix', live + {id}) by {
      assert ix'[slot] == id;
      forall e | e in live ensures e in ix' {
        var s :| 0 <= s < |ix| && ix[s] == e;
        assert ix'[s] == e;
      }
    }
    assert Probed(ix', keys, h, slot);
  }

  ghost function Elements(s: seq<nat>): set<nat> {
    set e | e in s
  }

  lemma {:induction false} DistinctElements(s: seq<nat>)
    requires forall i, j :: 0 <= i < j < |s| ==> s[i] != s[j]
    ensures |Elements(s)| == |s|
  {
    if |s| > 0 {
      var front, last := s[..|s| - 1], s[|s| - 1];
      DistinctElements(front);
      assert s == front + [last];
      assert Elements(s) == Elements(front) + {last};
    }
  }

  lemma NoFreeSlotMeansFull(ix: seq<nat>, live: set<nat>)
    requires Holds(ix, live)
    requires forall s :: 0 <= s < |ix| ==> ix[s] != EMPTY
    ensures |live| == |ix|
  {
    DistinctElements(ix);
    assert Elements(ix) == live;
  }

  /** An index with fewer entries than slots has a free slot. */
  lemma FreeSlotExists(ix: seq<nat>, live: set<nat>)
    requires Holds(ix, live) && |live| < |ix|
    ensures exists s :: 0 <= s < |ix| && ix[s] == EMPTY
  {
    if forall s :: 0 <= s < |ix| ==> ix[s] != EMPTY {
      NoFreeSlotMeansFull(ix, live);
    }
  }

  // ---- Backward-shift deletion ----

  /**
   Deletion in progress: slot `gap` is vacated (its content is stale), everything up to line
   position `frontier` has been repaired, and `live` is what the index holds without the gap.
   */
  ghost predicate Shifting(ix: seq<nat>, keys: seq<Key>, h: Key -> nat, p: nat,
                           gap: nat, frontier: nat, live: set<nat>)
  {
    && Wellformed(ix, keys, h)
    && p < |ix| && gap < |ix| && ix[gap] != EMPTY
    && Line(p, gap, |ix|) <= frontier < |ix|
    && Holds(ix[gap := EMPTY], live)
    && (forall s :: 0 <= s < |ix| && s != gap && ix[s] != EMPTY ==>
          Line(p, Natural(ix, keys, h, s), |ix|) <= Line(p, s, |ix|))
    && (forall s, t :: 0 <= s < |ix| && 0 <= t < |ix| && s != gap && ix[s] != EMPTY
          && Line(p, Natural(ix, keys, h, s), |ix|) <= Line(p, t, |ix|) < Line(p, s, |ix|)
          ==> ix[t] != EMPTY && (Line(p, s, |ix|) <= frontier ==> t != gap))
  }

  lemma ShiftStart(ix: seq<nat>, keys: seq<Key>, h: Key -> nat, p: nat, live: set<nat>, target: nat)
    requires Holds(ix, live) && Probed(ix, keys, h, p)
    requires target < |ix| && ix[target] != EMPTY
    ensures Shifting(ix, keys, h, p, target, Line(p, target, |ix|), live - {ix[target]})
  {
    ProbedIsLineProbed(ix, keys, h, p);
    var ix' := ix[target := EMPTY];
    forall e | e in live && e != ix[target] ensures e in ix' {
      var s :| 0 <= s < |ix| && ix[s] == e;
      assert ix'[s] == e;
    }
  }

  /** The distance test compares line positions, so an entry moves exactly when the gap is on its path. */
  lemma ShiftTest(ix: seq<nat>, keys: seq<Key>, h: Key -> nat, p: nat,
                  gap: nat, frontier: nat, live: set<nat>, j: nat)
    requires Shifting(ix, keys, h, p, gap, frontier, live)
    requires j < |ix| && j != gap && ix[j] != EMPTY
    ensures var m := Natural(ix, keys, h, j);
            Distance(m, j, |ix|) >= Distance(gap, j, |ix|) <==>
            Line(p, m, |ix|) <= Line(p, gap, |ix|) < Line(p, j, |ix|)
  {
  }

  lemma MoveKeepsEntries(ix: seq<nat>, gap: nat, j: nat, live: set<nat>)
    requires gap < |ix| && j < |ix| && gap != j && ix[j] != EMPTY
    requires Holds(ix[gap := EMPTY], live)
    ensures Holds(ix[gap := ix[j]][j := EMPTY], live)
  {
    var before, after := ix[gap := EMPTY], ix[gap := ix[j]][j := EMPTY];
    assert before[j] == after[gap] == ix[j];
    forall e | e in live ensures e in after {
      var s :| 0 <= s < |ix| && before[s] == e;
      assert after[if s == j then gap else s] == e;
    }
    forall e | e in after && e != EMPTY ensures e in live {
      var s :| 0 <= s < |ix| && after[s] == e;
      assert before[if s == gap then j else s] == e;
    }
    forall s, t | 0 <= s < t < |ix| && after[s] != EMPTY ensures after[s] != after[t] {
      assert before[if s == gap then j else s] == after[s];
      assert after[t] == EMPTY || before[if t == gap then j else t] == after[t];
    }
  }

  lemma ShiftMove(ix: seq<nat>, keys: seq<Key>, h: Key -> nat, p: nat,
                  gap: nat, frontier: nat, live: set<nat>, j: nat)
    requires Shifting(ix, keys, h, p, gap, frontier, live)
    requires j < |ix| && ix[j] != EMPTY && Line(p, j, |ix|) == frontier + 1
    requires Line(p, Natural(ix, keys, h, j), |ix|) <= Line(p, gap, |ix|)
    ensures Shifting(ix[gap := ix[j]], keys, h, p, j, frontier + 1, live)
  {
    var ix' := ix[gap := ix[j]];
    assert Holds(ix'[j := EMPTY], live) by { MoveKeepsEntries(ix, gap, j, live); }
    forall s, t | 0 <= s < |ix| && 0 <= t < |ix| && s != j && ix'[s] != EMPTY
      && Line(p, Natural(ix', keys, h, s), |ix|) <= Line(p, t, |ix|) < Line(p, s, |ix|)
      ensures ix'[t] != EMPTY && (Line(p, s, |ix|) <= frontier + 1 ==> t != j)
    {
      // the moved entry's path to the gap is the front part of its path to j
      assert ix[if s == gap then j else s] == ix'[s] && ix[t] != EMPTY;
    }
  }

  lemma ShiftSkip(ix: seq<nat>, keys: seq<Key>, h: Key -> nat, p: nat,
                  gap: nat, frontier: nat, live: set<nat>, j: nat)
    requires Shifting(ix, keys, h, p, gap, frontier, live)
    requires j < |ix| && ix[j] != EMPTY && Line(p, j, |ix|) == frontier + 1
    requires Line(p, Natural(ix, keys, h, j), |ix|) > Line(p, gap, |ix|)
    ensures Shifting(ix, keys, h, p, gap, frontier + 1, live)
  {
    forall s, t | 0 <= s < |ix| && 0 <= t < |ix| && s != gap && ix[s] != EMPTY
      && Line(p, Natural(ix, keys, h, s), |ix|) <= Line(p, t, |ix|) < Line(p, s, |ix|)
      ensures ix[t] != EMPTY && (Line(p, s, |ix|) <= frontier + 1 ==> t != gap)
    {
      LineInjective(p, s, j, |ix|);
    }
  }

  lemma LineInjective(p: nat, x: nat, y: nat, n: nat)
    requires p < n && x < n && y < n
    ensures Line(p, x, n) == Line(p, y, n) ==> x == y
    ensures Line(p, Advance(x, 1, n), n) == if x == p then 0 else Line(p, x, n) + 1
  {
  }

  /** One scan step: the machine's distance test keeps the deletion invariant and advances the frontier. */
  lemma ShiftStep(ix: seq<nat>, keys: seq<Key>, h: Key -> nat, p: nat,
                  gap: nat, frontier: nat, live: set<nat>, j: nat)
    requires Shifting(ix, keys, h, p, gap, frontier, live)
    requires j < |ix| && ix[j] != EMPTY && Line(p, j, |ix|) == frontier + 1
    ensures if Distance(Natural(ix, keys, h, j), j, |ix|) >= Distance(gap, j, |ix|)
            then Shifting(ix[gap := ix[j]], keys, h, p, j, frontier + 1, live)
            else Shifting(ix, keys, h, p, gap, frontier + 1, live)
  {
    ShiftTest(ix, keys, h, p, gap, frontier, live, j);
    if Line(p, Natural(ix, keys, h, j), |ix|) <= Line(p, gap, |ix|) {
      ShiftMove(ix, keys, h, p, gap, frontier, live, j);
    } else {
      ShiftSkip(ix, keys, h, p, gap, frontier, live, j);
    }
  }

  /** Once the scan has passed `p` it moves nothing: no path from there reaches over `p` to the gap. */
  lemma ShiftAfterWrap(ix: seq<nat>, keys: seq<Key>, h: Key -> nat, p: nat,
                       gap: nat, frontier: nat, live: set<nat>, j: nat)
    requires Shifting(ix, keys, h, p, gap, frontier, live)
    requires j < |ix| && ix[j] != EMPTY && Line(p, j, |ix|) <= Line(p, gap, |ix|)
    ensures Distance(Natural(ix, keys, h, j), j, |ix|) >= Distance(gap, j, |ix|) ==> j == gap
  {
    if j != gap {
      ShiftTest(ix, keys, h, p, gap, frontier, live, j);
    }
  }

  /** Clearing the gap restores the invariant once the chain ended or the line is exhausted. */
  lemma ShiftFinish(ix: seq<nat>, keys: seq<Key>, h: Key -> nat, p: nat,
                    gap: nat, frontier: nat, live: set<nat>, j: nat)
    requires Shifting(ix, keys, h, p, gap, frontier, live)
    requires frontier + 1 == |ix| || (j < |ix| && Line(p, j, |ix|) == frontier + 1 && ix[j] == EMPTY)
    ensures Probed(ix[gap := EMPTY], keys, h, p)
  {
    var ix' := ix[gap := EMPTY];
    forall s, t | 0 <= s < |ix| && 0 <= t < |ix| && ix'[s] != EMPTY
      && Line(p, Natural(ix', keys, h, s), |ix|) <= Line(p, t, |ix|) < Line(p, s, |ix|)
      ensures ix'[t] != EMPTY
    {
      assert ix[s] == ix'[s];
      if frontier < Line(p, s, |ix|) {
        LineInjective(p, s, j, |ix|);
        assert ix[j] == EMPTY; // so j is not on the path from the natural slot to s
      }
    }
    ProbedIsLineProbed(ix', keys, h, p);
  }
}
