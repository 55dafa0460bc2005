/**
 The many-producer command ring, as whole calls: a byte array with a head and a tail position.
 It refines a queue of messages.
 */
module RingBuffer {
  import opened Arith
  import opened Bytes
  import opened RecordRing

  const LENGTH_AT: nat := 4 // type first, then length

  datatype WriteResult = Ok | MessageTooLarge | Full

  /** The bytes between head and tail hold the records `items`, end to end. */
  ghost predicate RingHolds(cap: nat, buf: seq<Byte>, head: nat, tail: nat, items: seq<Item>) {
    && RECORD_HEADER < cap <= 0x4000_0000 && Aligned(cap) && |buf| == cap
    && Chain(items, head, tail) && ItemsOk(cap, LENGTH_AT, items) && Shown(buf, items)
    && head <= tail <= head + cap && Aligned(tail)
  }

  // ---- Writing ----

  /** The log after a record that fits without wrapping. */
  function Place(buf: seq<Byte>, at: nat, msgType: int, payload: seq<Byte>): seq<Byte>
    requires at + Align32(RECORD_HEADER + |payload|) <= |buf|
  {
    Splice(buf, at, RecordBytes(LENGTH_AT, msgType, payload))
  }

  function PlacePad(buf: seq<Byte>, at: nat, len: nat): seq<Byte>
    requires at + RECORD_HEADER <= |buf|
  {
    Splice(buf, at, HeaderOf(LENGTH_AT, PADDING, len))
  }

  lemma AppendRecord(cap: nat, buf: seq<Byte>, head: nat, tail: nat, items: seq<Item>, msgType: int, payload: seq<Byte>)
    requires RingHolds(cap, buf, head, tail, items) && IsI32(msgType)
    requires var aligned := Align32(RECORD_HEADER + |payload|);
             InOnePiece(tail, aligned, cap) && tail + aligned <= head + cap
    ensures var it := RecordItem(LENGTH_AT, tail, msgType, payload);
            && RingHolds(cap, Place(buf, tail % cap, msgType, payload), head, ItemEnd(it), items + [it])
            && Messages(items + [it]) == Messages(items) + [Msg(msgType, payload)]
  {
    hide Align32, Aligned, Splice, Chain, Shows, ItemOk, RecordBytes, MsgOf;
    var it := RecordItem(LENGTH_AT, tail, msgType, payload);
    RecordItemOk(cap, LENGTH_AT, tail, msgType, payload);
    WriteKeepsItems(cap, LENGTH_AT, buf, items, head, tail, tail, it.bytes);
    SpliceShows(buf, tail, it.bytes);
    ChainAppend(items, head, tail, it);
    MessagesAppend(items, it);
    AlignedSum(tail, Align32(it.len));
  }

  lemma AppendPad(cap: nat, buf: seq<Byte>, head: nat, tail: nat, items: seq<Item>)
    requires RingHolds(cap, buf, head, tail, items) && tail + (cap - tail % cap) <= head + cap
    ensures var it := PadItem(LENGTH_AT, tail, cap - tail % cap);
            && tail % cap + RECORD_HEADER <= cap
            && RingHolds(cap, PlacePad(buf, tail % cap, cap - tail % cap), head, tail + (cap - tail % cap),
                         items + [it])
            && Messages(items + [it]) == Messages(items)
  {
    hide Align32, Aligned, Splice, Chain, Shows, ItemOk, HeaderOf, MsgOf;
    var len := cap - tail % cap;
    var it := PadItem(LENGTH_AT, tail, len);
    PadReachesEnd(cap, tail);
    AlignedZero();
    AlignedSum(0, len);
    PadItemOk(cap, LENGTH_AT, tail, len);
    WriteKeepsItems(cap, LENGTH_AT, buf, items, head, tail, tail, it.bytes);
    SpliceShows(buf, tail, it.bytes);
    ChainAppend(items, head, tail, it);
    MessagesAppend(items, it);
    AlignedSum(tail, len);
  }

  // ---- Reading ----

  /** Records before the first one whose type word is zero. */
  function Leading(items: seq<Item>): (n: nat)
    ensures n <= |items|
    ensures forall i :: 0 <= i < n ==> items[i].msgType != 0
    ensures n < |items| ==> items[n].msgType == 0
  {
    if |items| == 0 || items[0].msgType == 0 then 0 else 1 + Leading(items[1..])
  }

  /** The type word of the record at the head is cleared and the head moves past it. */
  lemma ConsumeFirst(cap: nat, buf: seq<Byte>, head: nat, tail: nat, items: seq<Item>)
    requires RingHolds(cap, buf, head, tail, items) && |items| > 0
    ensures head % cap + 4 <= cap && ItemEnd(items[0]) > head
    ensures RingHolds(cap, Splice(buf, head % cap, EncodeI32(0)), ItemEnd(items[0]), tail, items[1..])
  {
    hide Align32, Splice, Aligned, DecodeI32, Shows, EncodeI32;
    var first, rest, buf' := items[0], items[1..], Splice(buf, head % cap, EncodeI32(0));
    assert ItemOk(cap, LENGTH_AT, first);
    forall i | 0 <= i < |rest| ensures Shows(buf', rest[i].pos, rest[i].bytes) {
      ChainBounds(cap, LENGTH_AT, items, head, tail, i + 1);
      SpliceKeepsLater(buf, rest[i].pos, rest[i].bytes, head, EncodeI32(0));
    }
    ChainBounds(cap, LENGTH_AT, items, head, tail, 0);
  }

  /** Padding records carry the padding type. */
  ghost predicate PadsMarked(items: seq<Item>) {
    forall i :: 0 <= i < |items| ==> items[i].pad ==> items[i].msgType == PADDING
  }

  lemma HoldsMarked(cap: nat, buf: seq<Byte>, head: nat, tail: nat, items: seq<Item>)
    requires RingHolds(cap, buf, head, tail, items)
    ensures PadsMarked(items)
  {
    hide DecodeI32, Align32, Chain, Shows;
  }

  /** What a write adds at `tail`: the record, behind a pad if it would straddle the end. */
  function Added(cap: nat, tail: nat, msgType: int, payload: seq<Byte>): seq<Item>
    requires cap > 0
  {
    var contiguous := cap - tail % cap;
    if Align32(RECORD_HEADER + |payload|) > contiguous then
      [PadItem(LENGTH_AT, tail, contiguous), RecordItem(LENGTH_AT, tail + contiguous, msgType, payload)]
    else [RecordItem(LENGTH_AT, tail, msgType, payload)]
  }

  // ---- The ring ----

  class MpscRingBuffer {
    const capacity: nat
    const buffer: array<Byte>
    var head: nat
    var tail: nat
    ghost var items: seq<Item>

    ghost predicate Valid()
      reads this, buffer
    {
      RingHolds(capacity, buffer[..], head, tail, items)
    }

    ghost function Queue(): seq<Msg>
      reads this
    {
      Messages(items)
    }

    constructor (capacity: nat)
      requires 32 <= capacity <= 0x4000_0000 && IsPowerOfTwo(capacity)
      ensures Valid() && this.capacity == capacity && fresh(buffer)
      ensures items == [] && head == tail == 0
    {
      this.capacity := capacity;
      buffer := new Byte[capacity](_ => 0);
      head, tail, items := 0, 0, [];
      new;
      AlignedZero();
      PowerOfTwoAligned(capacity);
    }

    /** Space left between tail and head. */
    ghost function Free(): int
      reads this
    {
      capacity - (tail - head)
    }

    method Write(msgType: int, payload: seq<Byte>) returns (r: WriteResult)
      requires Valid() && IsI32(msgType) && tail + 2 * capacity < TWO63
      modifies this`tail, this`items, buffer
      ensures Valid()
      ensures r.MessageTooLarge? <==> RECORD_HEADER + |payload| > capacity
      ensures r.Full? <==> RECORD_HEADER + |payload| <= capacity
                           && Needed(capacity, old(tail), Align32(RECORD_HEADER + |payload|)) > old(Free())
      ensures !r.Ok? ==> buffer[..] == old(buffer[..]) && tail == old(tail) && items == old(items)
      ensures r.Ok? ==> Queue() == old(Queue()) + [Msg(msgType, payload)]
                        && items == old(items) + Added(capacity, old(tail), msgType, payload)
                        && tail == old(tail) + Needed(capacity, old(tail), Align32(RECORD_HEADER + |payload|))
    {
      hide Align32, Aligned, Splice, Chain, ItemsOk, Shown, Messages, Wrap64, HeaderOf, RecordBytes;
      var recordLength := |payload| + RECORD_HEADER;
      if recordLength > capacity {
        return MessageTooLarge;
      }
      var aligned := Align32(recordLength);
      var available := capacity - Wrap64(tail - head);
      if aligned > available {
        return Full;
      }
      PadReachesEnd(capacity, tail);
      var tailIndex := tail % capacity;
      var contiguous := capacity - tailIndex;
      if aligned > contiguous {
        var total := contiguous + aligned;
        if total > available {
          return Full;
        }
        AppendPad(capacity, buffer[..], head, tail, items);
        WritePad(tailIndex, contiguous);
        items := items + [PadItem(LENGTH_AT, tail, contiguous)];
        AppendRecord(capacity, buffer[..], head, tail + contiguous, items, msgType, payload);
        WriteRecord(0, msgType, payload);
        items := items + [RecordItem(LENGTH_AT, tail + contiguous, msgType, payload)];
        tail := tail + total;
        return Ok;
      }
      AppendRecord(capacity, buffer[..], head, tail, items, msgType, payload);
      WriteRecord(tailIndex, msgType, payload);
      items := items + [RecordItem(LENGTH_AT, tail, msgType, payload)];
      tail := tail + aligned;
      return Ok;
    }

    /** Zeros, payload and length first, the type last. */
    method WriteRecord(at: nat, msgType: int, payload: seq<Byte>)
      requires at + Align32(RECORD_HEADER + |payload|) <= buffer.Length
      modifies buffer
      ensures buffer[..] == Place(old(buffer[..]), at, msgType, payload)
    {
      hide Align32, Splice, EncodeI32;
      var length, kind := EncodeI32(RECORD_HEADER + |payload|), EncodeI32(msgType);
      var zeros := Zeros(Align32(RECORD_HEADER + |payload|) - RECORD_HEADER - |payload|);
      ghost var buf := buffer[..];
      SpliceAdjacent(buf, at + RECORD_HEADER, payload, zeros);
      SpliceAdjacent(buf, at + 4, length, payload + zeros);
      SpliceAdjacent(buf, at, kind, length + (payload + zeros));
      assert kind + (length + (payload + zeros)) == RecordBytes(LENGTH_AT, msgType, payload);
      CopyInto(buffer, at + RECORD_HEADER + |payload|, zeros);
      CopyInto(buffer, at + RECORD_HEADER, payload);
      CopyInto(buffer, at + 4, length);
      CopyInto(buffer, at, kind);
    }

    method WritePad(at: nat, length: nat)
      requires at + RECORD_HEADER <= buffer.Length
      modifies buffer
      ensures buffer[..] == PlacePad(old(buffer[..]), at, length)
    {
      hide Splice, EncodeI32;
      SpliceAdjacent(buffer[..], at, EncodeI32(PADDING), EncodeI32(length));
      CopyInto(buffer, at, EncodeI32(PADDING));
      CopyInto(buffer, at + 4, EncodeI32(length));
    }

    /** Delivers, and removes, every record before the first one of type zero; padding types are not delivered. */
    method Read() returns (delivered: seq<Msg>)
      requires Valid() && tail < TWO63
      modifies this`head, this`items, buffer
      ensures Valid()
      ensures var was := old(items);
              && delivered == Visible(was[..Leading(was)])
              && items == was[Leading(was)..]
      ensures Leading(old(items)) == |old(items)| ==> head == tail
    {
      hide Align32, Aligned, Splice, ItemsOk, Shown, Visible, DecodeI32, EncodeI32, MsgOf;
      delivered := [];
      var current: nat := head;
      ghost var was, n := items, 0;
      ghost var rest := items;
      assert was[0..] == was && was[..0] == [];
      VisibleNothing();
      while current != tail
        invariant n <= Leading(was) && rest == was[n..]
        invariant RingHolds(capacity, buffer[..], current, tail, rest)
        invariant delivered == Visible(was[..n])
        decreases |rest|
      {
        var index := current % capacity;
        FirstShown(capacity, buffer[..], current, tail, rest);
        ReadItem(capacity, LENGTH_AT, buffer[..], rest[0]);
        ghost var buf := buffer[..];
        var header := buffer[index..index + RECORD_HEADER];
        HeaderSlice(buf, index);
        var msgType := DecodeI32(header, 0);
        var recordLength := DecodeI32(header, 4);
        if msgType == 0 {
          break;
        }
        assert was[n] == rest[0];
        LeadingAt(was, n);
        ConsumeFirst(capacity, buf, current, tail, rest);
        assert was[..n + 1] == was[..n] + [was[n]];
        VisibleAppend(was[..n], was[n]);
        if msgType != PADDING {
          var payload := buffer[index + RECORD_HEADER..index + recordLength];
          assert payload == buf[index + RECORD_HEADER..index + recordLength];
          delivered := delivered + [Msg(msgType, payload)];
        }
        CopyInto(buffer, index, EncodeI32(0));
        current := current + Align32(recordLength);
        rest := rest[1..];
        n := n + 1;
      }
      EndOfRead(capacity, buffer[..], current, tail, was, n);
      head := current;
      items := rest;
    }
  }

  datatype Created = InvalidCapacity | Created(ring: MpscRingBuffer)

  /** `new`: the capacity must be a power of two of at least one record granule. */
  method New(capacity: nat) returns (r: Created)
    requires capacity <= 0x4000_0000
    ensures r.Created? <==> capacity >= 32 && IsPowerOfTwo(capacity)
    ensures r.Created? ==> fresh(r.ring) && r.ring.Valid() && r.ring.capacity == capacity && r.ring.Queue() == []
  {
    if capacity < 32 || !IsPowerOfTwo(capacity) {
      return InvalidCapacity;
    }
    PowerOfTwoAligned(capacity);
    var ring := new MpscRingBuffer(capacity);
    return Created(ring);
  }

  lemma FirstShown(cap: nat, buf: seq<Byte>, head: nat, tail: nat, items: seq<Item>)
    requires RingHolds(cap, buf, head, tail, items) && head != tail
    ensures |items| > 0 && items[0].pos == head && ItemOk(cap, LENGTH_AT, items[0])
    ensures Shows(buf, items[0].pos, items[0].bytes)
  {
  }

  lemma {:induction false} LeadingAt(items: seq<Item>, n: nat)
    requires n < |items| && n <= Leading(items) && items[n].msgType != 0
    ensures n < Leading(items)
  {
  }

  lemma EndOfRead(cap: nat, buf: seq<Byte>, current: nat, tail: nat, was: seq<Item>, n: nat)
    requires n <= Leading(was) && RingHolds(cap, buf, current, tail, was[n..])
    requires current == tail || (n < |was| && was[n].msgType == 0)
    ensures n == Leading(was) && (n == |was| ==> current == tail)
  {
    hide Align32, ItemsOk, Shown, Aligned;
    if n < |was| {
      ChainGrows(cap, was[n..], current, tail, buf);
    }
  }

  lemma ChainGrows(cap: nat, items: seq<Item>, head: nat, tail: nat, buf: seq<Byte>)
    requires RingHolds(cap, buf, head, tail, items) && |items| > 0
    ensures head < tail
  {
    hide Align32;
    ChainBounds(cap, LENGTH_AT, items, head, tail, 0);
    assert ItemOk(cap, LENGTH_AT, items[0]);
  }
}
