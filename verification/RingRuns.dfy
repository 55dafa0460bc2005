/**
 Whole runs of the command ring against a reference queue that knows nothing of bytes: two positions,
 the records between them, and what has been accepted and delivered.
 */
module RingRuns {
  import opened Arith
  import opened Bytes
  import opened RecordRing
  import opened RingBuffer

  datatype Call = WriteCall(msgType: int, payload: seq<Byte>) | ReadCall

  /** A queued message and the position of its record. */
  datatype Entry = Entry(pos: nat, msg: Msg)

  datatype Model = Model(head: nat, tail: nat, queue: seq<Entry>,
                         results: seq<WriteResult>, accepted: seq<Msg>, delivered: seq<Msg>)

  const EMPTY_MODEL := Model(0, 0, [], [], [], [])

  function Outcome(cap: nat, m: Model, payload: seq<Byte>): WriteResult
    requires cap > 0
  {
    if RECORD_HEADER + |payload| > cap then MessageTooLarge
    else if Needed(cap, m.tail, Align32(RECORD_HEADER + |payload|)) > cap - (m.tail - m.head) then Full
    else Ok
  }

  /** A write takes its aligned length, plus the padding before a wrap, or nothing. */
  function WriteStep(cap: nat, m: Model, msgType: int, payload: seq<Byte>): Model
    requires cap > 0
  {
    var r := Outcome(cap, m, payload);
    var m' := m.(results := m.results + [r]);
    if !r.Ok? then m'
    else
      var contiguous := cap - m.tail % cap;
      var aligned := Align32(RECORD_HEADER + |payload|);
      var pos := if aligned > contiguous then m.tail + contiguous else m.tail;
      m'.(tail := pos + aligned, queue := m.queue + [Entry(pos, Msg(msgType, payload))],
          accepted := m.accepted + [Msg(msgType, payload)])
  }

  /** Index of the first message of type 0, or the length of the queue. */
  function FirstZero(queue: seq<Entry>): (n: nat)
    ensures n <= |queue|
    ensures forall i :: 0 <= i < n ==> queue[i].msg.msgType != 0
    ensures n < |queue| ==> queue[n].msg.msgType == 0
  {
    if |queue| == 0 || queue[0].msg.msgType == 0 then 0 else 1 + FirstZero(queue[1..])
  }

  function Msgs(queue: seq<Entry>): (r: seq<Msg>)
    ensures |r| == |queue|
  {
    seq(|queue|, i requires 0 <= i < |queue| => queue[i].msg)
  }

  /** A read takes everything before the first message of type 0. */
  function ReadStep(m: Model): Model {
    var n := FirstZero(m.queue);
    m.(head := if n < |m.queue| then m.queue[n].pos else m.tail,
       queue := m.queue[n..], delivered := m.delivered + Handed(Msgs(m.queue[..n])))
  }

  function Step(cap: nat, m: Model, call: Call): Model
    requires cap > 0
  {
    match call
    case WriteCall(msgType, payload) => WriteStep(cap, m, msgType, payload)
    case ReadCall => ReadStep(m)
  }

  function Fold(cap: nat, calls: seq<Call>): Model
    requires cap > 0
  {
    if |calls| == 0 then EMPTY_MODEL else Step(cap, Fold(cap, calls[..|calls| - 1]), calls[|calls| - 1])
  }

  // ---- The ring follows the model ----

  /** The queued messages among the records of the ring. */
  function Entries(items: seq<Item>): seq<Entry> {
    if |items| == 0 then []
    else (if items[0].pad then [] else [Entry(items[0].pos, MsgOf(items[0]))]) + Entries(items[1..])
  }

  lemma {:induction false} EntriesConcat(a: seq<Item>, b: seq<Item>)
    ensures Entries(a + b) == Entries(a) + Entries(b)
  {
    hide MsgOf;
    if |a| == 0 {
      assert a + b == b;
    } else {
      assert (a + b)[1..] == a[1..] + b;
      EntriesConcat(a[1..], b);
      var first := if a[0].pad then [] else [Entry(a[0].pos, MsgOf(a[0]))];
      assert Entries(a + b) == first + Entries(a[1..] + b) && Entries(a) == first + Entries(a[1..]);
    }
  }

  lemma EntriesAdded(cap: nat, tail: nat, msgType: int, payload: seq<Byte>)
    requires cap > 0
    ensures var contiguous := cap - tail % cap;
            var aligned := Align32(RECORD_HEADER + |payload|);
            Entries(Added(cap, tail, msgType, payload))
            == [Entry(if aligned > contiguous then tail + contiguous else tail, Msg(msgType, payload))]
  {
    hide Align32, RecordBytes, HeaderOf, MsgOf;
    var contiguous := cap - tail % cap;
    var aligned := Align32(RECORD_HEADER + |payload|);
    var pos := if aligned > contiguous then tail + contiguous else tail;
    var it := RecordItem(LENGTH_AT, pos, msgType, payload);
    RecordPayload(pos, msgType, payload);
    EntriesOne(it);
    if aligned > contiguous {
      var pad := PadItem(LENGTH_AT, tail, contiguous);
      EntriesConcat([pad], [it]);
      EntriesOne(pad);
      assert [pad] + [it] == [pad, it];
    }
  }

  lemma EntriesOne(it: Item)
    ensures Entries([it]) == if it.pad then [] else [Entry(it.pos, MsgOf(it))]
  {
    hide MsgOf;
    assert [it][1..] == [];
  }

  lemma MsgType(it: Item)
    ensures MsgOf(it).msgType == it.msgType
  {
  }

  lemma RecordPayload(pos: nat, msgType: int, payload: seq<Byte>)
    ensures MsgOf(RecordItem(LENGTH_AT, pos, msgType, payload)) == Msg(msgType, payload)
  {
    hide Align32, HeaderOf;
  }

  /** A record whose type word is not 0 is read first. */
  lemma {:induction false} ReadFirst(items: seq<Item>)
    requires |items| > 0 && items[0].msgType != 0
    ensures var first, rest := items[0], items[1..];
            var n := Leading(rest);
            && Leading(items) == n + 1 && items[n + 1..] == rest[n..]
            && Entries(items) == (if first.pad then [] else [Entry(first.pos, MsgOf(first))]) + Entries(rest)
            && Visible(items[..n + 1]) == (if first.msgType == PADDING then [] else [MsgOf(first)]) + Visible(rest[..n])
  {
    hide MsgOf;
    var n := Leading(items[1..]);
    assert items[..n + 1][1..] == items[1..][..n];
  }

  /** Reading the records before the first type word 0 is reading the queue. */
  lemma {:induction false} EntriesRead(items: seq<Item>)
    requires PadsMarked(items)
    ensures var n, k := Leading(items), FirstZero(Entries(items));
            && Entries(items[n..]) == Entries(items)[k..]
            && Visible(items[..n]) == Handed(Msgs(Entries(items)[..k]))
  {
    hide MsgOf;
    if |items| > 0 {
      var first, rest := items[0], items[1..];
      MsgType(first);
      if first.msgType == 0 {
        assert items[..0] == [] && items[0..] == items;
        assert Entries(items)[..0] == [] && Entries(items)[0..] == Entries(items);
      } else {
        hide Entries, Visible, Handed, Msgs, Leading, FirstZero;
        assert PadsMarked(rest);
        EntriesRead(rest);
        ReadFirst(items);
        if first.pad {
          assert Entries(items) == Entries(rest);
        } else {
          ReadOne(Entry(first.pos, MsgOf(first)), Entries(rest));
        }
      }
    }
  }

  lemma ReadOne(e: Entry, queue: seq<Entry>)
    requires e.msg.msgType != 0
    ensures var k := FirstZero(queue);
            && FirstZero([e] + queue) == k + 1 && ([e] + queue)[k + 1..] == queue[k..]
            && Handed(Msgs(([e] + queue)[..k + 1]))
               == (if e.msg.msgType == PADDING then [] else [e.msg]) + Handed(Msgs(queue[..k]))
  {
    var k := FirstZero(queue);
    assert ([e] + queue)[1..] == queue;
    var all := Msgs(([e] + queue)[..k + 1]);
    assert all[1..] == Msgs(queue[..k]);
  }

  /** The head of the ring is where the reference queue says it is. */
  lemma HeadAfterRead(cap: nat, buf: seq<Byte>, head: nat, tail: nat, items: seq<Item>)
    requires RingHolds(cap, buf, head, tail, items)
    requires |items| > 0 ==> items[0].msgType == 0
    ensures head == if |Entries(items)| > 0 then Entries(items)[0].pos else tail
  {
    hide Align32, Shows, DecodeI32;
    HoldsMarked(cap, buf, head, tail, items);
  }

  /** Ring and model agree. */
  ghost predicate Agree(head: nat, tail: nat, items: seq<Item>, m: Model) {
    m.head == head && m.tail == tail && m.queue == Entries(items)
  }

  lemma AgreeWrite(cap: nat, head: nat, tail: nat, items: seq<Item>, m: Model, msgType: int, payload: seq<Byte>)
    requires cap > 0 && Agree(head, tail, items, m) && Outcome(cap, m, payload).Ok?
    ensures Agree(head, tail + Needed(cap, tail, Align32(RECORD_HEADER + |payload|)),
                  items + Added(cap, tail, msgType, payload), WriteStep(cap, m, msgType, payload))
  {
    hide Align32, Entries, Added;
    EntriesConcat(items, Added(cap, tail, msgType, payload));
    EntriesAdded(cap, tail, msgType, payload);
  }

  lemma AgreeRead(cap: nat, buf: seq<Byte>, head: nat, tail: nat, was: seq<Item>, m: Model)
    requires PadsMarked(was) && m.tail == tail && m.queue == Entries(was)
    requires RingHolds(cap, buf, head, tail, was[Leading(was)..])
    ensures Agree(head, tail, was[Leading(was)..], ReadStep(m))
    ensures ReadStep(m).delivered == m.delivered + Visible(was[..Leading(was)])
  {
    hide Entries, RingHolds;
    EntriesRead(was);
    HeadAfterRead(cap, buf, head, tail, was[Leading(was)..]);
  }

  /**
   Any run of whole calls gives the results, the accepted and the delivered messages of the reference
   queue, through any number of wraps and padding records.
   */
  method Run(capacity: nat, calls: seq<Call>)
    returns (results: seq<WriteResult>, accepted: seq<Msg>, delivered: seq<Msg>)
    requires 32 <= capacity <= 0x4000_0000 && IsPowerOfTwo(capacity)
    requires forall i :: 0 <= i < |calls| && calls[i].WriteCall? ==> IsI32(calls[i].msgType)
    requires |calls| < 0x8000_0000
    ensures var m := Fold(capacity, calls);
            results == m.results && accepted == m.accepted && delivered == m.delivered
  {
    hide RingHolds, Aligned, Align32, IsPowerOfTwo, Visible, WriteStep, ReadStep, Agree, Outcome, Needed;
    PowerOfTwoAligned(capacity);
    var ring := new MpscRingBuffer(capacity);
    results, accepted, delivered := [], [], [];
    assert calls[..0] == [];
    NothingYet();
    for i := 0 to |calls|
      invariant fresh(ring) && fresh(ring.buffer) && ring.capacity == capacity && ring.Valid()
      invariant ring.tail <= 2 * i * capacity
      invariant var m := Fold(capacity, calls[..i]);
                && results == m.results && accepted == m.accepted && delivered == m.delivered
                && Agree(ring.head, ring.tail, ring.items, m)
    {
      TailBound(i, capacity);
      assert calls[..i + 1][..i] == calls[..i];
      ghost var m := Fold(capacity, calls[..i]);
      ghost var head, tail, items := ring.head, ring.tail, ring.items;
      match calls[i]
      case WriteCall(msgType, payload) =>
        var r := ring.Write(msgType, payload);
        OutcomeOf(capacity, head, tail, items, m, msgType, payload);
        results := results + [r];
        if r.Ok? {
          NeededBound(capacity, tail, payload);
          AgreeWrite(capacity, head, tail, items, m, msgType, payload);
          accepted := accepted + [Msg(msgType, payload)];
        }
      case ReadCall =>
        HoldsMarked(capacity, ring.buffer[..], head, tail, items);
        AgreeMeans(head, tail, items, m);
        var more := ring.Read();
        AgreeRead(capacity, ring.buffer[..], ring.head, tail, items, m);
        ReadKeepsResults(m);
        delivered := delivered + more;
    }
    assert calls[..|calls|] == calls;
  }

  lemma NothingYet()
    ensures Agree(0, 0, [], EMPTY_MODEL)
  {
  }

  lemma AgreeMeans(head: nat, tail: nat, items: seq<Item>, m: Model)
    requires Agree(head, tail, items, m)
    ensures m.tail == tail && m.queue == Entries(items)
  {
  }

  lemma ReadKeepsResults(m: Model)
    ensures ReadStep(m).results == m.results && ReadStep(m).accepted == m.accepted
  {
  }

  /** What a write does to the model, by its result. */
  lemma OutcomeOf(cap: nat, head: nat, tail: nat, items: seq<Item>, m: Model, msgType: int, payload: seq<Byte>)
    requires cap > 0 && Agree(head, tail, items, m)
    ensures var r, m' := Outcome(cap, m, payload), WriteStep(cap, m, msgType, payload);
            && (r.MessageTooLarge? <==> RECORD_HEADER + |payload| > cap)
            && (r.Full? <==> RECORD_HEADER + |payload| <= cap
                             && Needed(cap, tail, Align32(RECORD_HEADER + |payload|)) > cap - (tail - head))
            && m'.results == m.results + [r] && m'.delivered == m.delivered
            && m'.accepted == m.accepted + (if r.Ok? then [Msg(msgType, payload)] else [])
            && (!r.Ok? ==> Agree(head, tail, items, m'))
  {
    hide Align32, Entries, Needed;
  }

  /**
   A write fails for want of space exactly when no place in the free space, in one piece, holds its
   record; otherwise it takes the first such place.
   */
  lemma WriteTakesFirstPlace(cap: nat, m: Model, msgType: int, payload: seq<Byte>)
    requires cap > 0 && Aligned(cap) && RECORD_HEADER + |payload| <= cap
    ensures var m', aligned := WriteStep(cap, m, msgType, payload), Align32(8 + |payload|);
            && Outcome(cap, m, payload).Ok? == HasPlace(cap, m.head, m.tail, aligned)
            && (Outcome(cap, m, payload).Ok? ==>
                  && m'.tail >= m.tail + aligned && InOnePiece(m'.tail - aligned, aligned, cap)
                  && m'.queue == m.queue + [Entry(m'.tail - aligned, Msg(msgType, payload))]
                  && forall start: nat :: m.tail <= start < m'.tail - aligned ==> !InOnePiece(start, aligned, cap))
  {
    hide Align32, InOnePiece, HasPlace, Aligned;
    var aligned := Align32(RECORD_HEADER + |payload|);
    AlignedSum(cap, aligned);
    NeededIsLeast(cap, m.tail, aligned);
    HasPlaceExactly(cap, m.head, m.tail, aligned);
  }

  lemma TailBound(i: nat, cap: nat)
    requires i < 0x8000_0000 && cap <= 0x4000_0000
    ensures 2 * i * cap + 2 * cap == 2 * (i + 1) * cap && 2 * i * cap + 2 * cap < TWO63
  {
    if i > 0 {
      MulStep(cap, 0x4000_0000, i);
    }
  }

  lemma NeededBound(cap: nat, tail: nat, payload: seq<Byte>)
    requires cap > 0 && Aligned(cap) && RECORD_HEADER + |payload| <= cap
    ensures Needed(cap, tail, Align32(RECORD_HEADER + |payload|)) <= 2 * cap
  {
    hide Aligned, Align32;
    AlignedSum(cap, Align32(RECORD_HEADER + |payload|));
  }

  // ---- When the ring is a queue ----

  ghost predicate NoZero(msgs: seq<Msg>) {
    forall i :: 0 <= i < |msgs| ==> msgs[i].msgType != 0
  }

  /** No message has one of the types the ring keeps for itself. */
  ghost predicate Ordinary(msgs: seq<Msg>) {
    forall i :: 0 <= i < |msgs| ==> msgs[i].msgType != 0 && msgs[i].msgType != PADDING
  }

  /** The accepted messages are those consumed, then those queued; of the consumed, padding types got lost. */
  ghost predicate Accounted(m: Model, consumed: seq<Msg>) {
    && m.accepted == consumed + Msgs(m.queue)
    && m.delivered == Handed(consumed) && NoZero(consumed)
  }

  lemma {:induction false} HandedAll(msgs: seq<Msg>)
    ensures |Handed(msgs)| <= |msgs|
    ensures |Handed(msgs)| == |msgs| <==> forall i :: 0 <= i < |msgs| ==> msgs[i].msgType != PADDING
    ensures |Handed(msgs)| == |msgs| ==> Handed(msgs) == msgs
  {
    if |msgs| > 0 {
      HandedAll(msgs[1..]);
      assert msgs == [msgs[0]] + msgs[1..];
      assert (forall i :: 0 <= i < |msgs| ==> msgs[i].msgType != PADDING)
        <==> msgs[0].msgType != PADDING && forall i :: 0 <= i < |msgs[1..]| ==> msgs[1..][i].msgType != PADDING by {
        assert forall i :: 0 < i < |msgs| ==> msgs[i] == msgs[1..][i - 1];
      }
    }
  }

  lemma ReadAccounted(m: Model, consumed: seq<Msg>) returns (consumed': seq<Msg>)
    requires Accounted(m, consumed)
    ensures Accounted(ReadStep(m), consumed')
  {
    hide Handed;
    var n := FirstZero(m.queue);
    var taken := Msgs(m.queue[..n]);
    consumed' := consumed + taken;
    HandedConcat(consumed, taken);
    assert Msgs(m.queue) == taken + Msgs(m.queue[n..]);
  }

  lemma WriteAccounted(cap: nat, m: Model, consumed: seq<Msg>, msgType: int, payload: seq<Byte>)
    requires cap > 0 && Accounted(m, consumed)
    ensures Accounted(WriteStep(cap, m, msgType, payload), consumed)
  {
    hide Handed, Align32, Outcome;
    var m' := WriteStep(cap, m, msgType, payload);
    if |m'.queue| > |m.queue| {
      assert Msgs(m'.queue) == Msgs(m.queue) + [Msg(msgType, payload)];
    }
  }

  lemma {:induction false} FoldAccounted(cap: nat, calls: seq<Call>) returns (consumed: seq<Msg>)
    requires cap > 0
    ensures Accounted(Fold(cap, calls), consumed)
  {
    hide Accounted, WriteStep, ReadStep;
    if |calls| == 0 {
      consumed := [];
      NothingAccounted();
    } else {
      consumed := FoldAccounted(cap, calls[..|calls| - 1]);
      var m := Fold(cap, calls[..|calls| - 1]);
      match calls[|calls| - 1]
      case WriteCall(msgType, payload) => WriteAccounted(cap, m, consumed, msgType, payload);
      case ReadCall => consumed := ReadAccounted(m, consumed);
    }
  }

  lemma NothingAccounted()
    ensures Accounted(EMPTY_MODEL, [])
  {
  }

  /**
   After a run that ends with a read, the messages delivered are the messages accepted if and only if
   no accepted message has type 0 or the padding type.
   */
  lemma FifoExactly(cap: nat, calls: seq<Call>)
    requires cap > 0 && |calls| > 0 && calls[|calls| - 1].ReadCall?
    ensures Fold(cap, calls).delivered == Fold(cap, calls).accepted <==> Ordinary(Fold(cap, calls).accepted)
  {
    hide Handed, WriteStep;
    var m := Fold(cap, calls);
    var consumed := FoldAccounted(cap, calls);
    HandedAll(consumed);
    HandedAll(m.accepted);
    assert |m.queue| > 0 ==> m.accepted[|consumed|] == m.queue[0].msg;
    if |m.queue| == 0 {
      assert m.accepted == consumed;
    }
  }

  /** In between, what has been delivered is in order what was accepted first, without the padding types. */
  lemma DeliveredFirst(cap: nat, calls: seq<Call>) returns (n: nat)
    requires cap > 0
    ensures var m := Fold(cap, calls);
            && n == |m.accepted| - |m.queue| && 0 <= n && m.delivered == Handed(m.accepted[..n])
            && NoZero(m.accepted[..n])
  {
    hide Handed, Fold;
    var consumed := FoldAccounted(cap, calls);
    n := |consumed|;
    assert Fold(cap, calls).accepted[..n] == consumed;
  }

  // ---- A message of type 0 ----

  /** Once a message of type 0 is at the front, nothing is ever delivered again. */
  lemma {:induction false} ZeroBlocks(cap: nat, before: seq<Call>, after: seq<Call>)
    requires cap > 0 && |Fold(cap, before).queue| > 0 && Fold(cap, before).queue[0].msg.msgType == 0
    ensures var m, m' := Fold(cap, before), Fold(cap, before + after);
            m'.delivered == m.delivered && |m'.queue| > 0 && m'.queue[0] == m.queue[0]
  {
    hide Handed, Align32, Outcome;
    if |after| == 0 {
      assert before + after == before;
    } else {
      var front, all := after[..|after| - 1], before + after;
      ZeroBlocks(cap, before, front);
      assert all[..|all| - 1] == before + front;
      var m := Fold(cap, before + front);
      NoneHanded(m.queue[..0]);
    }
  }

  lemma NoneHanded(queue: seq<Entry>)
    requires |queue| == 0
    ensures Handed(Msgs(queue)) == []
  {
  }

  /** Both messages are accepted, and no later call ever delivers either of them. */
  lemma ZeroTypeExample(after: seq<Call>)
    ensures var calls := [WriteCall(0, []), WriteCall(1, [])];
            && Fold(64, calls).accepted == [Msg(0, []), Msg(1, [])]
            && Fold(64, calls + after).delivered == []
  {
    hide Handed;
    var calls := [WriteCall(0, []), WriteCall(1, [])];
    assert calls[..1] == [WriteCall(0, [])] && calls[..1][..0] == [];
    assert Fold(64, calls[..1]) == Step(64, EMPTY_MODEL, WriteCall(0, []));
    assert Fold(64, calls) == Step(64, Fold(64, calls[..1]), WriteCall(1, []));
    ZeroBlocks(64, calls, after);
  }
}
