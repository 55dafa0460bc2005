/**
 Whole runs of the broadcast buffer against a reference that knows nothing of bytes: a tail position,
 the messages transmitted, and for every receiver its cursor and what it has been handed.
 */
module BroadcastRuns {
  import opened Arith
  import opened Bytes
  import opened RecordRing
  import opened Broadcast

  datatype Op = TransmitOp(msgType: int, payload: seq<Byte>) | JoinOp | ReceiveOp(receiver: nat)

  /** A receiver: its cursor, how many messages had been transmitted when it joined, and what it got. */
  datatype Reader = Reader(cursor: nat, joined: nat, lapped: bool, delivered: seq<Msg>)

  datatype Model = Model(tail: nat, transmitted: seq<Msg>, readers: seq<Reader>)

  const EMPTY_MODEL := Model(0, [], [])

  /** A receiver at most the capacity behind gets everything since it joined; otherwise it is lapped. */
  function Receive(cap: nat, m: Model, r: Reader): Reader {
    if m.tail > r.cursor + cap then r.(lapped := true)
    else r.(cursor := m.tail,
            delivered := if r.joined <= |m.transmitted| then Handed(m.transmitted[r.joined..]) else [])
  }

  function Step(cap: nat, m: Model, op: Op): Model
    requires cap > 0
  {
    match op
    case TransmitOp(msgType, payload) =>
      if RECORD_HEADER + |payload| > cap then m
      else m.(tail := m.tail + Needed(cap, m.tail, Align32(RECORD_HEADER + |payload|)),
              transmitted := m.transmitted + [Msg(msgType, payload)])
    case JoinOp => m.(readers := m.readers + [Reader(m.tail, |m.transmitted|, false, [])])
    case ReceiveOp(r) =>
      if r < |m.readers| then m.(readers := m.readers[r := Receive(cap, m, m.readers[r])]) else m
  }

  function Fold(cap: nat, ops: seq<Op>): Model
    requires cap > 0
  {
    if |ops| == 0 then EMPTY_MODEL else Step(cap, Fold(cap, ops[..|ops| - 1]), ops[|ops| - 1])
  }

  // ---- One receiver ----

  /** Records behind the cursor have been handed over, the rest are still to come. */
  ghost predicate Accounted(items: seq<Item>, index: nat, transmitted: seq<Msg>, joined: nat, delivered: seq<Msg>) {
    && index <= |items| && joined <= |transmitted|
    && delivered + Visible(items[index..]) == Handed(transmitted[joined..])
  }

  lemma AccountedTransmit(items: seq<Item>, more: seq<Item>, index: nat, transmitted: seq<Msg>, joined: nat,
                          delivered: seq<Msg>, m: Msg)
    requires Accounted(items, index, transmitted, joined, delivered) && Visible(more) == Handed([m])
    ensures Accounted(items + more, index, transmitted + [m], joined, delivered)
  {
    hide Visible, Handed;
    VisibleConcat(items[index..], more);
    HandedConcat(transmitted[joined..], [m]);
    assert (items + more)[index..] == items[index..] + more;
    assert (transmitted + [m])[joined..] == transmitted[joined..] + [m];
    assert delivered + (Visible(items[index..]) + Handed([m])) == delivered + Visible(items[index..]) + Handed([m]);
  }

  lemma AccountedReceive(items: seq<Item>, index: nat, transmitted: seq<Msg>, joined: nat, delivered: seq<Msg>,
                         more: seq<Msg>)
    requires Accounted(items, index, transmitted, joined, delivered) && more == Visible(items[index..])
    ensures Accounted(items, |items|, transmitted, joined, delivered + more)
    ensures delivered + more == Handed(transmitted[joined..])
  {
    hide Handed;
    assert items[|items|..] == [];
  }

  lemma AccountedJoin(items: seq<Item>, transmitted: seq<Msg>)
    ensures Accounted(items, |items|, transmitted, |transmitted|, [])
  {
    assert items[|items|..] == [];
    assert transmitted[|transmitted|..] == [];
  }

  /** A transmission leaves a receiver's cursor on its record boundary. */
  lemma CursorStays(items: seq<Item>, items': seq<Item>, index: nat, tail: nat, tail': nat)
    requires items <= items' && index <= |items| < |items'| && items'[|items|].pos == tail
    ensures PositionOf(items', index, tail') == PositionOf(items, index, tail)
  {
  }

  // ---- Whole runs ----

  /** Receiver `r` stands where reader `q` of the reference says. */
  ghost predicate Follows(tx: BroadcastTransmitter, r: BroadcastReceiver, m: Model, q: Reader)
    reads tx, r
  {
    && r.source == tx && r.Valid() && r.cursor == q.cursor
    && if q.lapped then tx.tail > r.cursor + tx.capacity
       else Accounted(tx.items, r.index, m.transmitted, q.joined, q.delivered)
  }

  /** Transmitter and receivers stand where the reference says. */
  ghost predicate Linked(tx: BroadcastTransmitter, receivers: seq<BroadcastReceiver>, m: Model)
    reads tx, tx.buffer, receivers
  {
    && tx.Valid() && tx.capacity > 0 && tx.tail == m.tail && |receivers| == |m.readers|
    && (forall r, q :: 0 <= r < q < |receivers| ==> receivers[r] != receivers[q])
    && (forall r :: 0 <= r < |receivers| ==> Follows(tx, receivers[r], m, m.readers[r]))
  }

  method Transmit(tx: BroadcastTransmitter, receivers: seq<BroadcastReceiver>, ghost m: Model,
                  msgType: int, payload: seq<Byte>) returns (accepted: bool)
    requires Linked(tx, receivers, m) && IsI32(msgType)
    modifies tx, tx.buffer
    ensures tx.capacity > 0 && Linked(tx, receivers, Step(tx.capacity, m, TransmitOp(msgType, payload)))
    ensures accepted == (RECORD_HEADER + |payload| <= tx.capacity)
  {
    hide BufferHolds, Messages, Visible, Accounted, PositionOf, Align32, Aligned, Handed, Needed;
    ghost var items, tail, msg := tx.items, tx.tail, Msg(msgType, payload);
    var result := tx.Transmit(msgType, payload);
    accepted := result.Ok?;
    if accepted {
      ghost var m' := Step(tx.capacity, m, TransmitOp(msgType, payload));
      ghost var more := tx.items[|items|..];
      assert tx.items == items + more;
      forall r | 0 <= r < |receivers| ensures Follows(tx, receivers[r], m', m'.readers[r]) {
        var q := m.readers[r];
        CursorStays(items, tx.items, receivers[r].index, tail, tx.tail);
        if !q.lapped {
          AccountedTransmit(items, more, receivers[r].index, m.transmitted, q.joined, q.delivered, msg);
        }
      }
    }
  }

  method Join(tx: BroadcastTransmitter, receivers: seq<BroadcastReceiver>, ghost m: Model)
    returns (receiver: BroadcastReceiver)
    requires Linked(tx, receivers, m)
    ensures fresh(receiver) && tx.capacity > 0 && Linked(tx, receivers + [receiver], Step(tx.capacity, m, JoinOp))
  {
    hide BufferHolds, Visible, Accounted, PositionOf, Handed;
    receiver := new BroadcastReceiver(tx);
    AccountedJoin(tx.items, m.transmitted);
    JoinsAtTail(tx.items, tx.tail);
    ghost var all, m' := receivers + [receiver], Step(tx.capacity, m, JoinOp);
    forall r | 0 <= r < |all| ensures Follows(tx, all[r], m', m'.readers[r]) {
      if r < |receivers| {
        assert Follows(tx, receivers[r], m, m.readers[r]);
      }
    }
  }

  method ReceiveOne(tx: BroadcastTransmitter, receivers: seq<BroadcastReceiver>, ghost m: Model, r: nat)
    returns (lapped: bool, more: seq<Msg>)
    requires Linked(tx, receivers, m) && r < |receivers|
    modifies receivers[r]
    ensures tx.capacity > 0 && Linked(tx, receivers, Step(tx.capacity, m, ReceiveOp(r)))
    ensures var q := Step(tx.capacity, m, ReceiveOp(r)).readers[r];
            q == if lapped then m.readers[r].(lapped := true)
                 else m.readers[r].(cursor := tx.tail, delivered := m.readers[r].delivered + more)
  {
    hide BufferHolds, Visible, Accounted, PositionOf, Handed;
    ghost var m', q := Step(tx.capacity, m, ReceiveOp(r)), m.readers[r];
    assert Follows(tx, receivers[r], m, q);
    more := [];
    lapped := tx.tail > receivers[r].cursor + tx.capacity;
    if !lapped {
      ghost var index := receivers[r].index;
      more := receivers[r].Receive();
      AccountedReceive(tx.items, index, m.transmitted, q.joined, q.delivered, more);
      JoinedBefore(tx.items, index, m.transmitted, q.joined, q.delivered);
    }
    forall i | 0 <= i < |receivers| ensures Follows(tx, receivers[i], m', m'.readers[i]) {
      if i != r {
        assert old(Follows(tx, receivers[i], m, m.readers[i]));
      }
    }
  }

  /**
   Any run of transmissions and of receivers that join and receive in any order transmits the messages
   and hands them to the receivers as the reference does: padding and wraps never show.
   */
  method Run(capacity: nat, ops: seq<Op>) returns (transmitted: seq<Msg>, readers: seq<Reader>)
    requires 32 <= capacity <= 0x4000_0000 && IsPowerOfTwo(capacity)
    requires forall i :: 0 <= i < |ops| && ops[i].TransmitOp? ==> IsI32(ops[i].msgType)
    ensures transmitted == Fold(capacity, ops).transmitted && readers == Fold(capacity, ops).readers
  {
    hide Linked, Align32, Aligned, IsPowerOfTwo, Handed, Needed, Receive;
    var tx := new BroadcastTransmitter(capacity);
    var receivers: seq<BroadcastReceiver> := [];
    transmitted, readers := [], [];
    assert ops[..0] == [];
    NobodyYet(tx);
    for i := 0 to |ops|
      invariant fresh(tx) && fresh(tx.buffer) && tx.capacity == capacity && (forall r :: r in receivers ==> fresh(r))
      invariant |receivers| == |readers| && Linked(tx, receivers, Fold(capacity, ops[..i]))
      invariant var m := Fold(capacity, ops[..i]); transmitted == m.transmitted && readers == m.readers
    {
      assert ops[..i + 1][..i] == ops[..i];
      ghost var m := Fold(capacity, ops[..i]);
      LinkedTail(tx, receivers, m);
      match ops[i]
      case TransmitOp(msgType, payload) =>
        var accepted := Transmit(tx, receivers, m, msgType, payload);
        if accepted {
          transmitted := transmitted + [Msg(msgType, payload)];
        }
      case JoinOp =>
        var receiver := Join(tx, receivers, m);
        receivers := receivers + [receiver];
        readers := readers + [Reader(tx.tail, |transmitted|, false, [])];
      case ReceiveOp(r) =>
        if r < |receivers| {
          assert receivers[r] in receivers;
          var lapped, more := ReceiveOne(tx, receivers, m, r);
          var q := readers[r];
          readers := readers[r := if lapped then q.(lapped := true)
                                  else q.(cursor := tx.tail, delivered := q.delivered + more)];
        }
    }
    assert ops[..|ops|] == ops;
  }

  lemma NobodyYet(tx: BroadcastTransmitter)
    requires tx.Valid() && tx.tail == 0
    ensures Linked(tx, [], EMPTY_MODEL)
  {
  }

  lemma LinkedTail(tx: BroadcastTransmitter, receivers: seq<BroadcastReceiver>, m: Model)
    requires Linked(tx, receivers, m)
    ensures tx.tail == m.tail
  {
  }

  lemma JoinsAtTail(items: seq<Item>, tail: nat)
    ensures PositionOf(items, |items|, tail) == tail
  {
  }

  lemma JoinedBefore(items: seq<Item>, index: nat, transmitted: seq<Msg>, joined: nat, delivered: seq<Msg>)
    requires Accounted(items, index, transmitted, joined, delivered)
    ensures joined <= |transmitted|
  {
  }

  // ---- What the reference promises ----

  /** What reader `r` has got is what was transmitted between its joining and some later moment. */
  ghost predicate GotPrefix(m: Model, r: Reader) {
    exists n :: r.joined <= n <= |m.transmitted| && r.delivered == Handed(m.transmitted[r.joined..n])
  }

  /** A reader that stands at the tail has got everything since it joined. */
  ghost predicate CaughtUp(m: Model, r: Reader) {
    && r.cursor <= m.tail && r.joined <= |m.transmitted|
    && (r.cursor == m.tail ==> r.delivered == Handed(m.transmitted[r.joined..]))
  }

  /**
   Over every run, whatever the others do: a reader has got an initial stretch of what was transmitted since
   it joined, without gap or repetition, and all of it whenever its cursor has reached the tail.
   */
  lemma {:induction false} NothingMissed(cap: nat, ops: seq<Op>, r: nat)
    requires cap > 0 && r < |Fold(cap, ops).readers|
    ensures GotPrefix(Fold(cap, ops), Fold(cap, ops).readers[r]) && CaughtUp(Fold(cap, ops), Fold(cap, ops).readers[r])
  {
    hide Handed, Align32, Needed;
    var m', front, op := Fold(cap, ops), ops[..|ops| - 1], ops[|ops| - 1];
    var m := Fold(cap, front);
    if r < |m.readers| {
      NothingMissed(cap, front, r);
      var was := m.readers[r];
      var n :| was.joined <= n <= |m.transmitted| && was.delivered == Handed(m.transmitted[was.joined..n]);
      assert m'.transmitted[was.joined..n] == m.transmitted[was.joined..n];
      if op == ReceiveOp(r) && m.tail <= was.cursor + cap {
        assert m'.transmitted[was.joined..|m'.transmitted|] == m.transmitted[was.joined..];
        assert m'.readers[r].delivered == Handed(m'.transmitted[was.joined..|m'.transmitted|]);
      } else if op.TransmitOp? {
        NeedsRoom(cap, m.tail, op.payload);
      }
    } else {
      NothingHanded(m'.transmitted, |m'.transmitted|);
      assert m'.transmitted[|m'.transmitted|..] == m'.transmitted[|m'.transmitted|..|m'.transmitted|];
    }
  }

  /** A receiver that has kept up stands at the tail after a receive, exactly if it was at most the capacity behind. */
  lemma ReceiveCatchesUp(cap: nat, ops: seq<Op>, r: nat)
    requires cap > 0 && r < |Fold(cap, ops).readers|
    ensures var m, m' := Fold(cap, ops), Fold(cap, ops + [ReceiveOp(r)]);
            && |m'.readers| == |m.readers| && m'.transmitted == m.transmitted && m'.tail == m.tail
            && (m'.readers[r].cursor == m.tail <==> m.tail - m.readers[r].cursor <= cap)
            && (m.tail - m.readers[r].cursor <= cap ==>
                  m.readers[r].joined <= |m.transmitted|
                  && m'.readers[r].delivered == Handed(m.transmitted[m.readers[r].joined..]))
  {
    hide Handed, Align32, Needed;
    var more := ops + [ReceiveOp(r)];
    assert more[..|ops|] == ops;
    NothingMissed(cap, more, r);
  }

  /** A message moves the tail. */
  lemma NeedsRoom(cap: nat, tail: nat, payload: seq<Byte>)
    requires cap > 0
    ensures Needed(cap, tail, Align32(RECORD_HEADER + |payload|)) > 0
  {
  }

  lemma NothingHanded(msgs: seq<Msg>, n: nat)
    requires n <= |msgs|
    ensures Handed(msgs[n..n]) == []
  {
  }
}
