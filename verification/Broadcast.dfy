/**
 The broadcast buffer: one transmitter overwrites the oldest records, and every receiver follows with
 a cursor of its own.  A receiver that is never more than the capacity behind misses nothing.
 */
module Broadcast {
  import opened Arith
  import opened Bytes
  import opened RecordRing

  const LENGTH_AT: nat := 0 // length first, then type

  datatype TransmitResult = Ok | MessageTooLarge

  /** Of everything transmitted, the buffer shows the records within one capacity of the tail. */
  ghost predicate BufferHolds(cap: nat, buf: seq<Byte>, tail: nat, items: seq<Item>) {
    && RECORD_HEADER < cap <= 0x4000_0000 && Aligned(cap) && |buf| == cap && Aligned(tail)
    && Chain(items, 0, tail) && ItemsOk(cap, LENGTH_AT, items)
    && forall i :: 0 <= i < |items| && tail <= items[i].pos + cap ==> Shows(buf, items[i].pos, items[i].bytes)
  }

  /** Appending a record that lies in one piece keeps everything still within reach. */
  lemma AppendItem(cap: nat, buf: seq<Byte>, tail: nat, items: seq<Item>, it: Item)
    requires BufferHolds(cap, buf, tail, items)
    requires ItemOk(cap, LENGTH_AT, it) && it.pos == tail
    ensures tail % cap + |it.bytes| <= cap
    ensures BufferHolds(cap, Splice(buf, tail % cap, it.bytes), ItemEnd(it), items + [it])
  {
    hide Align32, Aligned, Splice, Chain, Shows, DecodeI32;
    var buf', items', tail' := Splice(buf, tail % cap, it.bytes), items + [it], ItemEnd(it);
    SpliceShows(buf, tail, it.bytes);
    ChainAppend(items, 0, tail, it);
    AlignedSum(tail, Align32(it.len));
    forall i | 0 <= i < |items'| && tail' <= items'[i].pos + cap ensures Shows(buf', items'[i].pos, items'[i].bytes) {
      if i < |items| {
        ChainBounds(cap, LENGTH_AT, items, 0, tail, i);
        SpliceKeeps(buf, items[i].pos, items[i].bytes, tail, it.bytes);
      }
    }
  }

  lemma HoldsParts(cap: nat, buf: seq<Byte>, tail: nat, items: seq<Item>)
    requires BufferHolds(cap, buf, tail, items)
    ensures RECORD_HEADER < cap <= 0x4000_0000 && Aligned(cap) && |buf| == cap && Aligned(tail)
  {
  }

  /** A record fits at the tail, or at the start of the buffer. */
  lemma FitsOnce(cap: nat, tail: nat, aligned: nat)
    requires cap > 0 && Aligned(cap) && Aligned(aligned) && aligned < cap + 32
    ensures aligned <= cap - tail % cap ==> InOnePiece(tail, aligned, cap)
    ensures forall p: nat :: p % cap == 0 ==> InOnePiece(p, aligned, cap)
  {
    hide Aligned;
    AlignedSum(cap, aligned);
  }

  class BroadcastTransmitter {
    const capacity: nat
    const buffer: array<Byte>
    var tail: nat
    var latest: nat
    ghost var items: seq<Item>

    ghost predicate Valid()
      reads this, buffer
    {
      BufferHolds(capacity, buffer[..], tail, items)
    }

    constructor (capacity: nat)
      requires 32 <= capacity <= 0x4000_0000 && IsPowerOfTwo(capacity)
      ensures Valid() && this.capacity == capacity && fresh(buffer) && items == [] && tail == 0
    {
      this.capacity := capacity;
      buffer := new Byte[capacity](_ => 0);
      tail, latest, items := 0, 0, [];
      new;
      AlignedZero();
      PowerOfTwoAligned(capacity);
    }

    method Transmit(msgType: int, payload: seq<Byte>) returns (r: TransmitResult)
      requires Valid() && IsI32(msgType)
      modifies this, buffer
      ensures Valid()
      ensures r.MessageTooLarge? <==> RECORD_HEADER + |payload| > capacity
      ensures r.MessageTooLarge? ==> buffer[..] == old(buffer[..]) && tail == old(tail) && items == old(items)
      ensures r.Ok? ==> old(items) <= items && Messages(items) == old(Messages(items)) + [Msg(msgType, payload)]
      ensures r.Ok? ==> tail == old(tail) + Needed(capacity, old(tail), Align32(RECORD_HEADER + |payload|))
      ensures r.Ok? ==> |items| > |old(items)| && latest == items[|items| - 1].pos
      ensures r.Ok? ==> items[|old(items)|].pos == old(tail)
      ensures r.Ok? ==> Visible(items[|old(items)|..]) == Handed([Msg(msgType, payload)])
    {
      hide Align32, Aligned, BufferHolds, Messages, MsgOf, InOnePiece, Visible, Handed;
      ghost var before := items;
      var recordLength := |payload| + RECORD_HEADER;
      if recordLength > capacity {
        return MessageTooLarge;
      }
      var aligned := Align32(recordLength);
      HoldsParts(capacity, buffer[..], tail, items);
      PadReachesEnd(capacity, tail);
      FitsOnce(capacity, tail, aligned);
      var contiguous := capacity - tail % capacity;
      if aligned > contiguous {
        PadToEnd();
      }
      AppendRecord(msgType, payload);
      assert items[|before|..]
          == if |items| == |before| + 1 then [items[|before|]] else [items[|before|], items[|before| + 1]];
      VisibleNew(items[|before|..]);
      return Ok;
    }

    /** A padding record up to the end of the buffer. */
    method PadToEnd()
      requires Valid()
      modifies this, buffer
      ensures Valid() && tail == old(tail) + (capacity - old(tail) % capacity) && tail % capacity == 0
      ensures items == old(items) + [PadItem(LENGTH_AT, old(tail), capacity - old(tail) % capacity)]
      ensures Messages(items) == old(Messages(items))
    {
      hide Align32, Aligned, Splice, BufferHolds, Messages, HeaderOf, MsgOf, ItemOk;
      HoldsParts(capacity, buffer[..], tail, items);
      PadReachesEnd(capacity, tail);
      var contiguous := capacity - tail % capacity;
      ghost var pad := PadItem(LENGTH_AT, tail, contiguous);
      PadItemOk(capacity, LENGTH_AT, tail, contiguous);
      AppendItem(capacity, buffer[..], tail, items, pad);
      MessagesAppend(items, pad);
      WriteHeader(tail % capacity, contiguous, PADDING);
      tail, items := tail + contiguous, items + [pad];
    }

    method AppendRecord(msgType: int, payload: seq<Byte>)
      requires Valid() && IsI32(msgType) && InOnePiece(tail, Align32(RECORD_HEADER + |payload|), capacity)
      modifies this, buffer
      ensures Valid() && tail == old(tail) + Align32(RECORD_HEADER + |payload|) && latest == old(tail)
      ensures items == old(items) + [RecordItem(LENGTH_AT, old(tail), msgType, payload)]
      ensures Messages(items) == old(Messages(items)) + [Msg(msgType, payload)]
      ensures MsgOf(items[|items| - 1]) == Msg(msgType, payload)
    {
      hide Align32, Aligned, Splice, BufferHolds, Messages, RecordBytes, MsgOf, ItemOk;
      HoldsParts(capacity, buffer[..], tail, items);
      ghost var it := RecordItem(LENGTH_AT, tail, msgType, payload);
      RecordItemOk(capacity, LENGTH_AT, tail, msgType, payload);
      AppendItem(capacity, buffer[..], tail, items, it);
      MessagesAppend(items, it);
      WriteRecord(tail % capacity, msgType, payload);
      latest := tail;
      tail, items := tail + Align32(RECORD_HEADER + |payload|), items + [it];
    }

    method WriteHeader(at: nat, length: nat, msgType: int)
      requires at + RECORD_HEADER <= buffer.Length
      modifies buffer
      ensures buffer[..] == Splice(old(buffer[..]), at, HeaderOf(LENGTH_AT, msgType, length))
    {
      hide Splice, EncodeI32;
      SpliceAdjacent(buffer[..], at, EncodeI32(length), EncodeI32(msgType));
      CopyInto(buffer, at, EncodeI32(length));
      CopyInto(buffer, at + 4, EncodeI32(msgType));
    }

    method WriteRecord(at: nat, msgType: int, payload: seq<Byte>)
      requires at + Align32(RECORD_HEADER + |payload|) <= buffer.Length
      modifies buffer
      ensures buffer[..] == Splice(old(buffer[..]), at, RecordBytes(LENGTH_AT, msgType, payload))
    {
      hide Align32, Splice, EncodeI32;
      var length, kind := EncodeI32(RECORD_HEADER + |payload|), EncodeI32(msgType);
      var zeros := Zeros(Align32(RECORD_HEADER + |payload|) - RECORD_HEADER - |payload|);
      ghost var buf := buffer[..];
      SpliceAdjacent(buf, at + RECORD_HEADER, payload, zeros);
      SpliceAdjacent(Splice(buf, at + RECORD_HEADER, payload + zeros), at, length, kind);
      SpliceAdjacent(buf, at, length + kind, payload + zeros);
      assert length + kind + (payload + zeros) == RecordBytes(LENGTH_AT, msgType, payload);
      CopyInto(buffer, at + RECORD_HEADER + |payload|, zeros);
      CopyInto(buffer, at + RECORD_HEADER, payload);
      CopyInto(buffer, at, length);
      CopyInto(buffer, at + 4, kind);
    }
  }

  /** A record, perhaps behind a pad. */
  lemma VisibleNew(items: seq<Item>)
    ensures |items| == 1 ==> Visible(items) == Handed([MsgOf(items[0])])
    ensures |items| == 2 && items[0].msgType == PADDING ==> Visible(items) == Handed([MsgOf(items[1])])
  {
    if 1 <= |items| <= 2 {
      var last := items[|items| - 1];
      assert [MsgOf(last)][1..] == [];
      assert |items| == 1 ==> items[1..] == [];
      assert |items| == 2 ==> items[1..] == [items[1]] && items[1..][1..] == [];
    }
  }

  datatype Created = InvalidCapacity | Created(transmitter: BroadcastTransmitter)

  /** `new`: the capacity must be a power of two of at least one record granule. */
  method New(capacity: nat) returns (r: Created)
    requires capacity <= 0x4000_0000
    ensures r.Created? <==> capacity >= 32 && IsPowerOfTwo(capacity)
    ensures r.Created? ==> fresh(r.transmitter) && r.transmitter.Valid() && r.transmitter.items == []
  {
    if capacity < 32 || !IsPowerOfTwo(capacity) {
      return InvalidCapacity;
    }
    var transmitter := new BroadcastTransmitter(capacity);
    return Created(transmitter);
  }

  // ---- Receivers ----

  /** Position of record `index`, or the tail. */
  function PositionOf(items: seq<Item>, index: nat, tail: nat): nat
    requires index <= |items|
  {
    if index < |items| then items[index].pos else tail
  }

  class BroadcastReceiver {
    const source: BroadcastTransmitter
    var cursor: nat
    var lappedCount: nat
    ghost var index: nat // number of records behind the cursor

    ghost predicate Valid()
      reads this, source
    {
      index <= |source.items| && cursor == PositionOf(source.items, index, source.tail)
    }

    constructor (source: BroadcastTransmitter)
      ensures Valid() && this.source == source && index == |source.items| && lappedCount == 0
    {
      this.source := source;
      cursor, lappedCount, index := source.tail, 0, |source.items|;
    }

    /** Delivers everything since the cursor whose type is not the padding type. */
    method Receive() returns (delivered: seq<Msg>)
      requires Valid() && source.Valid() && source.tail <= cursor + source.capacity
      modifies this
      ensures Valid() && delivered == Visible(source.items[old(index)..])
      ensures index == |source.items| && cursor == source.tail && lappedCount == old(lappedCount)
    {
      hide Align32, Aligned, ItemsOk, Visible, DecodeI32, MsgOf, Shows, Chain;
      delivered := [];
      var tail := source.tail;
      ghost var items, cap, buf, start := source.items, source.capacity, source.buffer[..], index;
      assert items[start..start] == [];
      VisibleNothing();
      CursorBound(cap, buf, tail, items, index);
      if cursor == tail {
        AtTail(cap, buf, tail, items, index);
        return;
      }
      var current: nat := cursor;
      ghost var n := index;
      while current != tail
        invariant start <= n <= |items| && current == PositionOf(items, n, tail)
        invariant cursor <= current
        invariant delivered == Visible(items[start..n])
        modifies {}
        decreases |items| - n
      {
        NextRecord(cap, buf, tail, items, n);
        ReadItem(cap, LENGTH_AT, buf, items[n]);
        var at := current % source.capacity;
        var header := source.buffer[at..at + RECORD_HEADER];
        HeaderSlice(buf, at);
        assert header == buf[at..at + RECORD_HEADER];
        var recordLength := DecodeI32(header, 0);
        var msgType := DecodeI32(header, 4);
        if recordLength == 0 {
          break;
        }
        assert items[start..n + 1] == items[start..n] + [items[n]];
        VisibleAppend(items[start..n], items[n]);
        if msgType != PADDING {
          var payload := source.buffer[at + RECORD_HEADER..at + recordLength];
          assert payload == buf[at + RECORD_HEADER..at + recordLength];
          delivered := delivered + [Msg(msgType, payload)];
        }
        current := current + Align32(recordLength);
        n := n + 1;
      }
      AtTail(cap, buf, tail, items, n);
      assert items[start..n] == items[start..];
      cursor, index := current, n;
    }
  }

  lemma CursorBound(cap: nat, buf: seq<Byte>, tail: nat, items: seq<Item>, n: nat)
    requires BufferHolds(cap, buf, tail, items) && n <= |items|
    ensures PositionOf(items, n, tail) <= tail
  {
    hide Align32, Shows;
    if n < |items| {
      ChainBounds(cap, LENGTH_AT, items, 0, tail, n);
    }
  }

  /** A cursor at the tail has passed every record. */
  lemma AtTail(cap: nat, buf: seq<Byte>, tail: nat, items: seq<Item>, n: nat)
    requires BufferHolds(cap, buf, tail, items) && n <= |items| && PositionOf(items, n, tail) == tail
    ensures n == |items| && items[n..] == []
  {
    hide BufferHolds;
    if n < |items| {
      BeforeTail(cap, buf, tail, items, n);
    }
  }

  lemma BeforeTail(cap: nat, buf: seq<Byte>, tail: nat, items: seq<Item>, n: nat)
    requires BufferHolds(cap, buf, tail, items) && n < |items|
    ensures items[n].pos < tail
  {
    hide Align32, Shows, DecodeI32, Chain;
    assert ItemOk(cap, LENGTH_AT, items[n]);
    ChainBounds(cap, LENGTH_AT, items, 0, tail, n);
  }

  /** The record at a cursor within reach is shown, and the next one starts where it ends. */
  lemma NextRecord(cap: nat, buf: seq<Byte>, tail: nat, items: seq<Item>, n: nat)
    requires BufferHolds(cap, buf, tail, items) && n <= |items|
    requires PositionOf(items, n, tail) != tail && tail <= PositionOf(items, n, tail) + cap
    ensures n < |items| && ItemOk(cap, LENGTH_AT, items[n]) && Shows(buf, items[n].pos, items[n].bytes)
    ensures PositionOf(items, n + 1, tail) == ItemEnd(items[n]) && items[n].len > 0
  {
    hide Align32, Shows, DecodeI32;
    ChainSuffix(items, 0, tail, n);
    ChainSuffix(items[n..], items[n].pos, tail, 1);
    assert items[n..][0] == items[n] && items[n..][1..] == items[n + 1..];
  }
}
