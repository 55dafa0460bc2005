/**
 The NAK-driven retransmit scheduler: a fixed table of actions, each waiting out a delay, firing, and
 lingering before its slot is free again.  Seen from one (session, stream, term, offset) key, the
 whole table is a three-state machine.
 */
module Retransmit {
  import opened Arith

  datatype Key = Key(sessionId: int, streamId: int, termId: int, termOffset: int)

  datatype Phase = Inactive | Delay(expiry: int) | Linger(expiry: int)

  datatype Action = Action(key: Key, length: int, phase: Phase)

  const NO_ACTION := Action(Key(0, 0, 0, 0), 0, Inactive)

  predicate Active(a: Action) { !a.phase.Inactive? }

  /** Wrapping difference with a half-range test. */
  predicate Expired(expiry: int, now: int) {
    0 <= Wrap64(now - expiry) < HALF_I64
  }

  // ---- on_nak ----

  predicate Matches(a: Action, key: Key) { Active(a) && a.key == key }

  /** First active action for `key`, or the table size. */
  function Find(t: seq<Action>, key: Key): (r: nat)
    ensures r <= |t|
    ensures r < |t| ==> Matches(t[r], key)
    ensures forall i :: 0 <= i < r ==> !Matches(t[i], key)
  {
    if |t| == 0 || Matches(t[0], key) then 0 else 1 + Find(t[1..], key)
  }

  function FirstFree(t: seq<Action>): (r: nat)
    ensures r <= |t|
    ensures r < |t| ==> !Active(t[r])
    ensures forall i :: 0 <= i < r ==> Active(t[i])
  {
    if |t| == 0 || !Active(t[0]) then 0 else 1 + FirstFree(t[1..])
  }

  /** A NAK is taken up unless its key is already active or the table is full. */
  predicate Accepts(t: seq<Action>, key: Key) {
    Find(t, key) == |t| && FirstFree(t) < |t|
  }

  lemma AcceptsExactly(t: seq<Action>, key: Key)
    ensures Accepts(t, key)
       <==> && (forall i :: 0 <= i < |t| && Active(t[i]) ==> t[i].key != key)
            && (exists i :: 0 <= i < |t| && !Active(t[i]))
  {
    hide Find, FirstFree;
    if FirstFree(t) < |t| {
      assert !Active(t[FirstFree(t)]);
    }
    if Find(t, key) < |t| {
      assert Matches(t[Find(t, key)], key);
    }
    assert forall i :: 0 <= i < |t| && Active(t[i]) && t[i].key == key ==> Matches(t[i], key);
  }

  function AfterNak(t: seq<Action>, key: Key, length: int, now: int, delay: int): (t': seq<Action>)
    ensures |t'| == |t|
  {
    if Accepts(t, key) then t[FirstFree(t) := Action(key, length, Delay(Wrap64(now + delay)))] else t
  }

  // ---- process_timeouts ----

  predicate Fires(a: Action, now: int) { a.phase.Delay? && Expired(a.phase.expiry, now) }

  function AfterTick(a: Action, now: int, linger: int): Action {
    if Fires(a, now) then a.(phase := Linger(Wrap64(now + linger)))
    else if a.phase.Linger? && Expired(a.phase.expiry, now) then a.(phase := Inactive)
    else a
  }

  function Tick(t: seq<Action>, now: int, linger: int): (t': seq<Action>)
    ensures |t'| == |t|
    ensures forall i :: 0 <= i < |t| ==> t'[i] == AfterTick(t[i], now, linger)
  {
    seq(|t|, i requires 0 <= i < |t| => AfterTick(t[i], now, linger))
  }

  /** What `on_retransmit` is called with, in table order. */
  function Fired(t: seq<Action>, now: int): seq<Action> {
    if |t| == 0 then []
    else Fired(t[..|t| - 1], now) + if Fires(t[|t| - 1], now) then [t[|t| - 1]] else []
  }

  // ---- One key ----

  /** No two active actions share a key. */
  ghost predicate Distinct(t: seq<Action>) {
    forall i, j :: 0 <= i < |t| && 0 <= j < |t| && Active(t[i]) && Active(t[j]) && t[i].key == t[j].key ==> i == j
  }

  /** The active action for `key`, or an inactive one. */
  function ActionOf(t: seq<Action>, key: Key): Action {
    if Find(t, key) < |t| then t[Find(t, key)] else NO_ACTION
  }

  lemma ActionAt(t: seq<Action>, key: Key, i: nat)
    requires Distinct(t) && i < |t| && Matches(t[i], key)
    ensures ActionOf(t, key) == t[i]
  {
    assert Matches(t[Find(t, key)], key);
  }

  lemma NoActionAt(t: seq<Action>, key: Key)
    requires forall i :: 0 <= i < |t| ==> !Matches(t[i], key)
    ensures ActionOf(t, key) == NO_ACTION
  {
    assert Find(t, key) == |t|;
  }

  lemma NakKeepsDistinct(t: seq<Action>, key: Key, length: int, now: int, delay: int)
    requires Distinct(t)
    ensures Distinct(AfterNak(t, key, length, now, delay))
  {
    if Accepts(t, key) {
      var t', f := AfterNak(t, key, length, now, delay), FirstFree(t);
      forall i | 0 <= i < |t'| && i != f ensures t'[i] == t[i] && !Matches(t'[i], key) {
      }
    }
  }

  /** A NAK touches nothing but its own key. */
  lemma NakSeenByKey(t: seq<Action>, nak: Key, length: int, now: int, delay: int, key: Key)
    requires Distinct(t)
    ensures var t' := AfterNak(t, nak, length, now, delay);
            ActionOf(t', key) == if Accepts(t, nak) && nak == key then Action(key, length, Delay(Wrap64(now + delay)))
                                 else ActionOf(t, key)
  {
    hide Wrap64, Find, FirstFree;
    NakKeepsDistinct(t, nak, length, now, delay);
    if Accepts(t, nak) {
      var t', f := AfterNak(t, nak, length, now, delay), FirstFree(t);
      if nak == key {
        ActionAt(t', key, f);
      } else if Find(t, key) < |t| {
        assert Find(t, key) != f;
        ActionAt(t', key, Find(t, key));
      } else {
        NoActionAt(t', key);
      }
    }
  }

  lemma TickKeepsDistinct(t: seq<Action>, now: int, linger: int)
    requires Distinct(t)
    ensures Distinct(Tick(t, now, linger))
  {
    hide Wrap64;
    var t' := Tick(t, now, linger);
    forall i | 0 <= i < |t'| ensures t'[i].key == t[i].key && (Active(t'[i]) ==> Active(t[i])) {
    }
  }

  /** A tick moves every key's action by one step. */
  lemma TickSeenByKey(t: seq<Action>, now: int, linger: int, key: Key)
    requires Distinct(t)
    ensures var a := AfterTick(ActionOf(t, key), now, linger);
            ActionOf(Tick(t, now, linger), key) == if Active(a) then a else NO_ACTION
  {
    hide Wrap64, Find;
    TickKeepsDistinct(t, now, linger);
    var t', i := Tick(t, now, linger), Find(t, key);
    if i < |t| {
      if Active(t'[i]) {
        ActionAt(t', key, i);
      } else {
        forall j | 0 <= j < |t'| ensures !Matches(t'[j], key) {
          assert Matches(t'[j], key) ==> Matches(t[j], key);
        }
        NoActionAt(t', key);
      }
    } else {
      NoActionAt(t', key);
    }
  }

  /** Firings of `key` among those of one tick. */
  function OfKey(fired: seq<Action>, key: Key): seq<Action> {
    if |fired| == 0 then []
    else OfKey(fired[..|fired| - 1], key) + if fired[|fired| - 1].key == key then [fired[|fired| - 1]] else []
  }

  lemma OfKeyAppend(fired: seq<Action>, a: Action, key: Key)
    ensures OfKey(fired + [a], key) == OfKey(fired, key) + if a.key == key then [a] else []
  {
    assert (fired + [a])[..|fired|] == fired;
  }

  /** One tick calls back for a key at most once: exactly when its action waits and has expired. */
  lemma {:induction false} FiredOnce(t: seq<Action>, now: int, key: Key)
    requires Distinct(t)
    ensures OfKey(Fired(t, now), key) == if Fires(ActionOf(t, key), now) then [ActionOf(t, key)] else []
  {
    hide Wrap64, Find, OfKey;
    if |t| == 0 {
      NoneOfKey(key);
    } else {
      var front, last := t[..|t| - 1], t[|t| - 1];
      FiredOnce(front, now, key);
      SplitLast(t, key);
      if Fires(last, now) {
        OfKeyAppend(Fired(front, now), last, key);
      } else {
        assert Fired(front, now) + [] == Fired(front, now);
      }
    }
  }

  lemma NoneOfKey(key: Key)
    ensures OfKey([], key) == []
  {
  }

  lemma SplitLast(t: seq<Action>, key: Key)
    requires Distinct(t) && |t| > 0
    ensures var front, last := t[..|t| - 1], t[|t| - 1];
            && Distinct(front)
            && (Matches(last, key) ==> ActionOf(front, key) == NO_ACTION && ActionOf(t, key) == last)
            && (!Matches(last, key) ==> ActionOf(t, key) == ActionOf(front, key))
  {
    hide Find;
    var front, n := t[..|t| - 1], |t| - 1;
    assert forall i :: 0 <= i < n ==> front[i] == t[i];
    if Matches(t[n], key) {
      NoActionAt(front, key);
      ActionAt(t, key, n);
    } else if Find(front, key) < n {
      ActionAt(t, key, Find(front, key));
    } else {
      NoActionAt(t, key);
    }
  }

  // ---- Runs, seen from one key ----

  datatype Op = NakOp(key: Key, length: int, now: int) | TickOp(now: int)

  /** A NAK taken up at `time`, after `ticks` ticks; or a firing at `time`, in tick number `ticks`. */
  datatype Event = Event(time: int, ticks: nat, length: int)

  datatype World = World(table: seq<Action>, clock: int, ticks: seq<int>, accepted: seq<Event>, fired: seq<Event>)

  datatype Settings = Settings(delay: int, linger: int)

  function Events(fired: seq<Action>, time: int, tick: nat): (r: seq<Event>)
    ensures |r| == |fired|
  {
    seq(|fired|, i requires 0 <= i < |fired| => Event(time, tick, fired[i].length))
  }

  /** One call on the whole table; the logs keep what concerns `key`. */
  function Step(c: Settings, key: Key, w: World, op: Op): World {
    match op
    case NakOp(nak, length, now) =>
      World(AfterNak(w.table, nak, length, now, c.delay), now, w.ticks,
            if Accepts(w.table, nak) && nak == key then w.accepted + [Event(now, |w.ticks|, length)] else w.accepted,
            w.fired)
    case TickOp(now) =>
      World(Tick(w.table, now, c.linger), now, w.ticks + [now], w.accepted,
            w.fired + Events(OfKey(Fired(w.table, now), key), now, |w.ticks|))
  }

  /** Times fit comfortably into 64 bits and the clock does not go back. */
  ghost predicate ClockOk(c: Settings, w: World, op: Op) {
    w.clock <= op.now < TWO63 / 4
  }

  ghost predicate SettingsOk(c: Settings) {
    0 <= c.delay < TWO63 / 8 && 0 <= c.linger < TWO63 / 8
  }

  /** Firing `f` answers NAK `a`: at the first tick at or after the end of the delay, with the NAK's length. */
  ghost predicate Answers(c: Settings, ticks: seq<int>, a: Event, f: Event) {
    && a.ticks <= f.ticks < |ticks| && ticks[f.ticks] == f.time && a.time + c.delay <= f.time
    && (forall j :: a.ticks <= j < f.ticks ==> ticks[j] < a.time + c.delay)
    && f.length == a.length
  }

  /** Every firing answers one NAK, in order, and a new NAK is taken up only after the linger. */
  ghost predicate Paired(c: Settings, w: World) {
    && |w.fired| <= |w.accepted| <= |w.fired| + 1
    && (forall i :: 0 <= i < |w.fired| ==> Answers(c, w.ticks, w.accepted[i], w.fired[i]))
    && (forall i :: 0 <= i < |w.fired| && i + 1 < |w.accepted| ==> w.fired[i].time + c.linger <= w.accepted[i + 1].time)
  }

  /** A tick after that of firing `f` found its linger over. */
  ghost predicate Released(c: Settings, ticks: seq<int>, f: Event) {
    exists j :: f.ticks < j < |ticks| && f.time + c.linger <= ticks[j]
  }

  lemma ReleasedLater(c: Settings, ticks: seq<int>, now: int, f: Event)
    requires f.ticks < |ticks|
    ensures Released(c, ticks + [now], f) <==> Released(c, ticks, f) || f.time + c.linger <= now
  {
    var more := ticks + [now];
    assert more[|ticks|] == now;
    if j :| f.ticks < j < |ticks| && f.time + c.linger <= ticks[j] {
      assert more[j] == ticks[j];
    }
  }

  /** Every NAK of the key has fired, and the linger of the last firing is over. */
  ghost predicate Idle(c: Settings, w: World) {
    |w.accepted| == |w.fired| && (|w.fired| > 0 ==> Released(c, w.ticks, w.fired[|w.fired| - 1]))
  }

  /** The key's action says how far its last NAK has got. */
  ghost predicate PhaseOk(c: Settings, key: Key, w: World) {
    var a := ActionOf(w.table, key);
    match a.phase
    case Inactive => Idle(c, w) && (|w.fired| > 0 ==> w.fired[|w.fired| - 1].time + c.linger <= w.clock)
    case Delay(expiry) =>
      && |w.accepted| == |w.fired| + 1
      && var last := w.accepted[|w.fired|];
         && expiry == last.time + c.delay && a.length == last.length && last.ticks <= |w.ticks|
         && 0 <= last.time <= w.clock
         && forall j :: last.ticks <= j < |w.ticks| ==> w.ticks[j] < expiry
    case Linger(expiry) =>
      && |w.fired| == |w.accepted| > 0
      && var last := w.fired[|w.fired| - 1];
         && expiry == last.time + c.linger && 0 <= last.time <= w.clock && last.ticks < |w.ticks|
         && !Released(c, w.ticks, last)
  }

  ghost predicate WorldOk(c: Settings, key: Key, w: World) {
    && SettingsOk(c) && 0 <= w.clock < TWO63 / 4
    && Distinct(w.table) && Paired(c, w) && PhaseOk(c, key, w)
  }

  lemma ExpiredMeans(expiry: int, now: int)
    requires 0 <= expiry < TWO63 / 2 && 0 <= now < TWO63 / 4
    ensures Expired(expiry, now) <==> expiry <= now
  {
  }

  /** A delay that starts before the 64-bit clock wraps and ends after it is still seen to be over. */
  lemma DelayAcrossWrap(t: seq<Action>, key: Key, length: int, start: int, delay: int, now: int)
    requires Distinct(t) && Accepts(t, key) && IsI64(now - (start + delay))
    ensures var t' := AfterNak(t, key, length, Wrap64(start), delay);
            Fires(ActionOf(t', key), Wrap64(now)) <==> 0 <= now - (start + delay) < HALF_I64
  {
    hide Wrap64, Find, FirstFree, AfterNak, Accepts, ActionOf;
    NakSeenByKey(t, key, length, Wrap64(start), delay, key);
    var m := Wrap64Congruent(start);
    Wrap64Shift(start + delay, m);
    assert Wrap64(start) + delay == start + delay + m * TWO64;
    WrapDifference64(now, start + delay);
  }

  lemma NakStep(c: Settings, key: Key, w: World, nak: Key, length: int, now: int)
    requires WorldOk(c, key, w) && ClockOk(c, w, NakOp(nak, length, now))
    ensures WorldOk(c, key, Step(c, key, w, NakOp(nak, length, now)))
  {
    hide Wrap64, Find, FirstFree, Answers, ActionOf, Distinct, Accepts, Released;
    var w' := Step(c, key, w, NakOp(nak, length, now));
    NakKeepsDistinct(w.table, nak, length, now, c.delay);
    NakSeenByKey(w.table, nak, length, now, c.delay, key);
    if Accepts(w.table, nak) && nak == key {
      FreeKey(w.table, key);
    }
  }

  lemma FreeKey(t: seq<Action>, key: Key)
    requires Accepts(t, key)
    ensures ActionOf(t, key) == NO_ACTION
  {
  }

  lemma TickStep(c: Settings, key: Key, w: World, now: int)
    requires WorldOk(c, key, w) && ClockOk(c, w, TickOp(now))
    ensures WorldOk(c, key, Step(c, key, w, TickOp(now)))
  {
    hide Wrap64, Find, Distinct, Expired, ActionOf, OfKey, Fired, Answers, Released;
    TickKeepsDistinct(w.table, now, c.linger);
    TickSeenByKey(w.table, now, c.linger, key);
    FiredOnce(w.table, now, key);
    var w', a := Step(c, key, w, TickOp(now)), ActionOf(w.table, key);
    if a.phase.Delay? || a.phase.Linger? {
      ExpiredMeans(a.phase.expiry, now);
    }
    forall i | 0 <= i < |w.fired| ensures Answers(c, w'.ticks, w'.accepted[i], w'.fired[i]) {
      assert w'.fired[i] == w.fired[i];
      AnswersLater(c, w.ticks, now, w.accepted[i], w.fired[i]);
    }
    if Fires(a, now) {
      AnswersNow(c, key, w, now);
      NotYetReleased(c, w'.ticks, w'.fired[|w.fired|]);
    } else if |w.fired| > 0 {
      assert Answers(c, w.ticks, w.accepted[|w.fired| - 1], w.fired[|w.fired| - 1]);
      LastTick(c, w.ticks, w.accepted[|w.fired| - 1], w.fired[|w.fired| - 1]);
      ReleasedLater(c, w.ticks, now, w.fired[|w.fired| - 1]);
    }
  }

  lemma NotYetReleased(c: Settings, ticks: seq<int>, f: Event)
    requires f.ticks + 1 == |ticks|
    ensures !Released(c, ticks, f)
  {
  }

  lemma LastTick(c: Settings, ticks: seq<int>, a: Event, f: Event)
    requires Answers(c, ticks, a, f)
    ensures f.ticks < |ticks|
  {
  }

  lemma AnswersLater(c: Settings, ticks: seq<int>, now: int, a: Event, f: Event)
    requires Answers(c, ticks, a, f)
    ensures Answers(c, ticks + [now], a, f)
  {
  }

  lemma AnswersNow(c: Settings, key: Key, w: World, now: int)
    requires PhaseOk(c, key, w) && ActionOf(w.table, key).phase.Delay? && ActionOf(w.table, key).phase.expiry <= now
    ensures |w.accepted| == |w.fired| + 1
    ensures Answers(c, w.ticks + [now], w.accepted[|w.fired|], Event(now, |w.ticks|, ActionOf(w.table, key).length))
  {
    hide ActionOf;
  }

  function Run(c: Settings, key: Key, size: nat, ops: seq<Op>): World {
    if |ops| == 0 then World(seq(size, _ => NO_ACTION), 0, [], [], [])
    else Step(c, key, Run(c, key, size, ops[..|ops| - 1]), ops[|ops| - 1])
  }

  ghost predicate ClockRuns(c: Settings, key: Key, size: nat, ops: seq<Op>) {
    |ops| == 0 ||
    (ClockRuns(c, key, size, ops[..|ops| - 1]) && ClockOk(c, Run(c, key, size, ops[..|ops| - 1]), ops[|ops| - 1]))
  }

  lemma {:induction false} RunKeeps(c: Settings, key: Key, size: nat, ops: seq<Op>)
    requires SettingsOk(c) && ClockRuns(c, key, size, ops)
    ensures WorldOk(c, key, Run(c, key, size, ops))
  {
    hide WorldOk, Step;
    if |ops| == 0 {
      FreshTable(c, key, size);
    } else {
      var w, op := Run(c, key, size, ops[..|ops| - 1]), ops[|ops| - 1];
      RunKeeps(c, key, size, ops[..|ops| - 1]);
      match op
      case NakOp(nak, length, now) => NakStep(c, key, w, nak, length, now);
      case TickOp(now) => TickStep(c, key, w, now);
    }
  }

  lemma FreshTable(c: Settings, key: Key, size: nat)
    requires SettingsOk(c)
    ensures WorldOk(c, key, World(seq(size, _ => NO_ACTION), 0, [], [], []))
  {
    NoActionAt(seq(size, _ => NO_ACTION), key);
  }

  /**
   Over every run with a clock that does not go back: no two active actions share a key; every NAK
   taken up fires exactly once, at the first tick at or after its delay, unless no such tick has come;
   and two firings of one key are at least delay plus linger apart.
   */
  lemma FiresOncePerNak(c: Settings, key: Key, size: nat, ops: seq<Op>)
    requires SettingsOk(c) && ClockRuns(c, key, size, ops)
    ensures var w := Run(c, key, size, ops);
            && Distinct(w.table) && Paired(c, w)
            && (|w.accepted| > |w.fired| ==>
                  forall j :: w.accepted[|w.fired|].ticks <= j < |w.ticks| ==>
                    w.ticks[j] < w.accepted[|w.fired|].time + c.delay)
            && (forall i, j :: 0 <= i < j < |w.fired| ==> w.fired[i].time + c.delay + c.linger <= w.fired[j].time)
  {
    hide Run, ClockRuns, ActionOf;
    RunKeeps(c, key, size, ops);
    var w := Run(c, key, size, ops);
    forall i, j | 0 <= i < j < |w.fired| ensures w.fired[i].time + c.delay + c.linger <= w.fired[j].time {
      FiringsApart(c, w, i, j);
    }
  }

  lemma {:induction false} FiringsApart(c: Settings, w: World, i: nat, j: nat)
    requires SettingsOk(c) && Paired(c, w) && i < j < |w.fired|
    ensures w.fired[i].time + c.delay + c.linger <= w.fired[j].time
  {
    assert Answers(c, w.ticks, w.accepted[j], w.fired[j]);
    assert w.fired[j - 1].time + c.linger <= w.accepted[j - 1 + 1].time;
    if i < j - 1 {
      FiringsApart(c, w, i, j - 1);
    }
  }

  // ---- Which NAKs are taken up ----

  /** Every key sees the same table. */
  lemma {:induction false} SameTable(c: Settings, key: Key, other: Key, size: nat, ops: seq<Op>)
    ensures Run(c, key, size, ops).table == Run(c, other, size, ops).table
    ensures |Run(c, key, size, ops).table| == size
    ensures Run(c, key, size, ops).clock == Run(c, other, size, ops).clock
  {
    hide AfterNak, Accepts, Tick, Fired, OfKey;
    if |ops| > 0 {
      SameTable(c, key, other, size, ops[..|ops| - 1]);
    }
  }

  lemma {:induction false} SameClock(c: Settings, key: Key, other: Key, size: nat, ops: seq<Op>)
    requires ClockRuns(c, key, size, ops)
    ensures ClockRuns(c, other, size, ops)
  {
    hide Run;
    if |ops| > 0 {
      SameClock(c, key, other, size, ops[..|ops| - 1]);
      SameTable(c, key, other, size, ops[..|ops| - 1]);
    }
  }

  /** Keys with an active action. */
  ghost function BusyKeys(t: seq<Action>): (r: set<Key>)
    ensures forall key :: key in r <==> exists i :: 0 <= i < |t| && Matches(t[i], key)
  {
    set i | 0 <= i < |t| && Active(t[i]) :: t[i].key
  }

  /** No two active actions share a key, so a slot is free exactly when fewer keys are busy than there are slots. */
  lemma {:induction false} FreeSlotExactly(t: seq<Action>)
    requires Distinct(t)
    ensures |BusyKeys(t)| <= |t|
    ensures |BusyKeys(t)| < |t| <==> exists i :: 0 <= i < |t| && !Active(t[i])
  {
    if |t| > 0 {
      var front, last := t[..|t| - 1], t[|t| - 1];
      assert forall i :: 0 <= i < |front| ==> front[i] == t[i];
      FreeSlotExactly(front);
      BusyGrows(t);
      if Active(last) {
        if i :| 0 <= i < |t| && !Active(t[i]) {
          assert !Active(front[i]);
        }
      }
    }
  }

  lemma BusyGrows(t: seq<Action>)
    requires Distinct(t) && |t| > 0
    ensures var front, last := t[..|t| - 1], t[|t| - 1];
            |BusyKeys(t)| == |BusyKeys(front)| + if Active(last) then 1 else 0
  {
    var front, last := t[..|t| - 1], t[|t| - 1];
    assert forall i :: 0 <= i < |front| ==> front[i] == t[i];
    if Active(last) {
      assert BusyKeys(t) == BusyKeys(front) + {last.key};
    } else {
      assert BusyKeys(t) == BusyKeys(front);
    }
  }

  lemma BusyIsNotIdle(c: Settings, key: Key, w: World)
    requires WorldOk(c, key, w)
    ensures key in BusyKeys(w.table) <==> !Idle(c, w)
  {
    hide Find;
    if key in BusyKeys(w.table) {
      var i :| 0 <= i < |w.table| && Matches(w.table[i], key);
      ActionAt(w.table, key, i);
    } else {
      NoActionAt(w.table, key);
    }
  }

  /**
   Over every run: a NAK is taken up exactly when its key is idle and fewer keys are busy than the
   table has slots, where a key is busy from the NAK taken up until the tick that ends its linger.
   */
  lemma NakTakenUp(c: Settings, key: Key, size: nat, ops: seq<Op>, length: int, now: int) returns (busy: set<Key>)
    requires SettingsOk(c) && ClockRuns(c, key, size, ops + [NakOp(key, length, now)])
    ensures forall k :: k in busy <==> !Idle(c, Run(c, k, size, ops))
    ensures var w, w' := Run(c, key, size, ops), Run(c, key, size, ops + [NakOp(key, length, now)]);
            w'.accepted == if key !in busy && |busy| < size then w.accepted + [Event(now, |w.ticks|, length)]
                           else w.accepted
  {
    hide WorldOk, Idle, BusyKeys, Accepts, AfterNak, Distinct;
    var more := ops + [NakOp(key, length, now)];
    assert more[..|ops|] == ops;
    var t := Run(c, key, size, ops).table;
    busy := BusyKeys(t);
    forall k ensures k in busy <==> !Idle(c, Run(c, k, size, ops)) {
      SameTable(c, key, k, size, ops);
      SameClock(c, key, k, size, ops);
      RunKeeps(c, k, size, ops);
      BusyIsNotIdle(c, k, Run(c, k, size, ops));
    }
    FiresOncePerNak(c, key, size, ops);
    SameTable(c, key, key, size, ops);
    FreeSlotExactly(t);
    AcceptsExactly(t, key);
    assert Accepts(t, key) <==> key !in busy && |busy| < size by {
      assert key in busy <==> exists i :: 0 <= i < |t| && Matches(t[i], key);
      assert forall i :: 0 <= i < |t| ==> (Matches(t[i], key) <==> Active(t[i]) && t[i].key == key);
    }
  }

  // ---- The handler ----

  class RetransmitHandler {
    const actions: array<Action>
    const delay: int
    const linger: int

    constructor (size: nat, delay: int, linger: int)
      ensures fresh(actions) && actions[..] == seq(size, _ => NO_ACTION)
      ensures this.delay == delay && this.linger == linger
    {
      actions := new Action[size](_ => NO_ACTION);
      this.delay, this.linger := delay, linger;
      new;
      assert actions[..] == seq(size, _ => NO_ACTION);
    }

    /** One pass: look for the key and remember the first free slot. */
    method OnNak(key: Key, length: int, now: int) returns (accepted: bool)
      modifies actions
      ensures var t := old(actions[..]);
              accepted <==> && (forall i :: 0 <= i < |t| && Active(t[i]) ==> t[i].key != key)
                            && (exists i :: 0 <= i < |t| && !Active(t[i]))
      ensures actions[..] == AfterNak(old(actions[..]), key, length, now, delay)
    {
      hide Wrap64, Find, FirstFree;
      ghost var t := actions[..];
      AcceptsExactly(t, key);
      var free := actions.Length;
      var i := 0;
      while i < actions.Length
        invariant 0 <= i <= actions.Length && 0 <= free <= actions.Length && actions[..] == t
        invariant forall j :: 0 <= j < i ==> !Matches(t[j], key)
        invariant free < actions.Length ==> free < i && !Active(t[free])
        invariant forall j :: 0 <= j < i && j < free ==> Active(t[j])
      {
        assert actions[i] == t[i];
        if actions[i].phase.Inactive? {
          if free == actions.Length {
            free := i;
          }
        } else if actions[i].key == key {
          assert Matches(t[i], key);
          return false;
        }
        i := i + 1;
      }
      assert free == FirstFree(t);
      if free < actions.Length {
        actions[free] := Action(key, length, Delay(Wrap64(now + delay)));
        assert actions[..] == t[free := Action(key, length, Delay(Wrap64(now + delay)))];
        return true;
      }
      return false;
    }

    method ProcessTimeouts(now: int) returns (fired: seq<Action>)
      modifies actions
      ensures actions[..] == Tick(old(actions[..]), now, linger)
      ensures fired == Fired(old(actions[..]), now)
    {
      hide Expired, Wrap64;
      ghost var t := actions[..];
      fired := [];
      var i := 0;
      while i < actions.Length
        invariant 0 <= i <= actions.Length
        invariant forall j :: 0 <= j < i ==> actions[j] == AfterTick(t[j], now, linger)
        invariant forall j :: i <= j < actions.Length ==> actions[j] == t[j]
        invariant fired == Fired(t[..i], now)
      {
        assert t[..i + 1][..i] == t[..i];
        var a := actions[i];
        match a.phase {
          case Delay(expiry) =>
            if Expired(expiry, now) {
              fired := fired + [a];
              actions[i] := a.(phase := Linger(Wrap64(now + linger)));
            }
          case Linger(expiry) =>
            if Expired(expiry, now) {
              actions[i] := a.(phase := Inactive);
            }
          case Inactive =>
        }
        i := i + 1;
      }
      assert t[..i] == t;
      assert actions[..] == Tick(t, now, linger);
    }

    method ActiveCount() returns (count: nat)
      ensures count == |set i | 0 <= i < actions.Length && Active(actions[i])|
    {
      count := 0;
      ghost var seen: set<int> := {};
      var i := 0;
      while i < actions.Length
        invariant 0 <= i <= actions.Length
        invariant seen == set j | 0 <= j < i && Active(actions[j])
        invariant count == |seen|
      {
        if !actions[i].phase.Inactive? {
          count := count + 1;
          seen := seen + {i};
        }
        i := i + 1;
      }
    }
  }
}
