/**
 Records on a ring of bytes, as the command ring and the broadcast buffer lay them out: an
 eight-byte header of length and type, the payload, and zeros up to the next multiple of 32.
 A record never straddles the end of the buffer; padding records fill the gap before a wrap.
 */
module RecordRing {
  import opened Arith
  import opened Bytes

  const RECORD_HEADER: nat := 8
  const PADDING: int := -1

  datatype Msg = Msg(msgType: int, payload: seq<Byte>)

  /** A record at absolute position `pos`; `bytes` are those its writer put there. */
  datatype Item = Item(pos: nat, len: nat, bytes: seq<Byte>, msgType: int, pad: bool)

  function ItemEnd(it: Item): nat {
    it.pos + Align32(it.len)
  }

  /** The length word sits at `lengthAt` of the header, the type word in the other half. */
  ghost predicate ItemOk(cap: nat, lengthAt: nat, it: Item)
    requires lengthAt == 0 || lengthAt == 4
  {
    && cap > 0
    && RECORD_HEADER <= |it.bytes| <= Align32(it.len) && RECORD_HEADER <= it.len < TWO31
    && DecodeI32(it.bytes, lengthAt) == it.len
    && DecodeI32(it.bytes, 4 - lengthAt) == it.msgType
    && (it.pad ==> it.msgType == PADDING) && (!it.pad ==> it.len <= |it.bytes|)
    && InOnePiece(it.pos, Align32(it.len), cap)
  }

  ghost predicate ItemsOk(cap: nat, lengthAt: nat, items: seq<Item>)
    requires lengthAt == 0 || lengthAt == 4
  {
    forall i :: 0 <= i < |items| ==> ItemOk(cap, lengthAt, items[i])
  }

  /** The records follow one another without gaps from `from` to `to`. */
  ghost predicate Chain(items: seq<Item>, from: nat, to: nat) {
    if |items| == 0 then from == to
    else items[0].pos == from && Chain(items[1..], ItemEnd(items[0]), to)
  }

  ghost predicate Shown(buf: seq<Byte>, items: seq<Item>) {
    forall i :: 0 <= i < |items| ==> Shows(buf, items[i].pos, items[i].bytes)
  }

  function MsgOf(it: Item): Msg {
    Msg(it.msgType, if RECORD_HEADER <= it.len <= |it.bytes| then it.bytes[RECORD_HEADER..it.len] else [])
  }

  /** What was written: everything but the padding. */
  function Messages(items: seq<Item>): seq<Msg> {
    if |items| == 0 then [] else (if items[0].pad then [] else [MsgOf(items[0])]) + Messages(items[1..])
  }

  /** What a reader hands on: everything whose type is not the padding type. */
  function Visible(items: seq<Item>): seq<Msg> {
    if |items| == 0 then [] else (if items[0].msgType == PADDING then [] else [MsgOf(items[0])]) + Visible(items[1..])
  }

  // ---- Chains ----

  lemma {:induction false} ChainAppend(items: seq<Item>, from: nat, to: nat, it: Item)
    requires Chain(items, from, to) && it.pos == to
    ensures Chain(items + [it], from, ItemEnd(it))
  {
    hide Align32;
    var all := items + [it];
    if |items| == 0 {
      assert all[1..] == [];
    } else {
      assert all[1..] == items[1..] + [it];
      ChainAppend(items[1..], ItemEnd(items[0]), to, it);
    }
  }

  lemma {:induction false} ChainBounds(cap: nat, lengthAt: nat, items: seq<Item>, from: nat, to: nat, i: nat)
    requires lengthAt == 0 || lengthAt == 4
    requires Chain(items, from, to) && ItemsOk(cap, lengthAt, items) && i < |items|
    ensures from <= items[i].pos && items[i].pos + |items[i].bytes| <= ItemEnd(items[i]) <= to
    ensures i > 0 ==> ItemEnd(items[0]) <= items[i].pos
  {
    hide Align32, DecodeI32;
    assert ItemOk(cap, lengthAt, items[0]);
    if i > 0 {
      ChainBounds(cap, lengthAt, items[1..], ItemEnd(items[0]), to, i - 1);
    } else if |items| > 1 {
      ChainBounds(cap, lengthAt, items[1..], ItemEnd(items[0]), to, 0);
    }
  }

  lemma {:induction false} MessagesAppend(items: seq<Item>, it: Item)
    ensures Messages(items + [it]) == Messages(items) + if it.pad then [] else [MsgOf(it)]
  {
    hide MsgOf;
    if |items| == 0 {
      assert items + [it] == [it];
    } else {
      assert (items + [it])[1..] == items[1..] + [it];
      MessagesAppend(items[1..], it);
      var first := if items[0].pad then [] else [MsgOf(items[0])];
      assert Messages(items + [it]) == first + Messages(items[1..] + [it]);
      assert Messages(items) == first + Messages(items[1..]);
    }
  }

  lemma {:induction false} ChainSuffix(items: seq<Item>, from: nat, to: nat, n: nat)
    requires Chain(items, from, to) && n <= |items|
    ensures Chain(items[n..], if n < |items| then items[n].pos else to, to)
  {
    if n > 0 {
      ChainSuffix(items[1..], ItemEnd(items[0]), to, n - 1);
      assert items[1..][n - 1..] == items[n..];
    } else {
      assert items[0..] == items;
    }
  }

  lemma {:induction false} VisibleConcat(a: seq<Item>, b: seq<Item>)
    ensures Visible(a + b) == Visible(a) + Visible(b)
  {
    hide MsgOf;
    if |a| == 0 {
      assert a + b == b;
    } else {
      assert (a + b)[1..] == a[1..] + b;
      VisibleConcat(a[1..], b);
      var first := if a[0].msgType == PADDING then [] else [MsgOf(a[0])];
      assert Visible(a + b) == first + Visible(a[1..] + b) && Visible(a) == first + Visible(a[1..]);
    }
  }

  lemma VisibleAppend(items: seq<Item>, it: Item)
    ensures Visible(items + [it]) == Visible(items) + if it.msgType == PADDING then [] else [MsgOf(it)]
  {
    hide MsgOf;
    VisibleConcat(items, [it]);
  }

  lemma VisibleNothing()
    ensures Visible([]) == []
  {
  }

  /** The messages that are not of the padding type. */
  function Handed(msgs: seq<Msg>): seq<Msg> {
    if |msgs| == 0 then [] else (if msgs[0].msgType == PADDING then [] else [msgs[0]]) + Handed(msgs[1..])
  }

  lemma {:induction false} HandedConcat(a: seq<Msg>, b: seq<Msg>)
    ensures Handed(a + b) == Handed(a) + Handed(b)
  {
    if |a| == 0 {
      assert a + b == b;
    } else {
      assert (a + b)[1..] == a[1..] + b;
      HandedConcat(a[1..], b);
      var first := if a[0].msgType == PADDING then [] else [a[0]];
      assert Handed(a + b) == first + Handed(a[1..] + b) && Handed(a) == first + Handed(a[1..]);
    }
  }

  // ---- Writing ----

  function HeaderOf(lengthAt: nat, msgType: int, len: int): (r: seq<Byte>)
    ensures |r| == RECORD_HEADER
  {
    if lengthAt == 0 then EncodeI32(len) + EncodeI32(msgType) else EncodeI32(msgType) + EncodeI32(len)
  }

  /** Header, payload, and zeros up to the aligned length. */
  function RecordBytes(lengthAt: nat, msgType: int, payload: seq<Byte>): (r: seq<Byte>)
    ensures |r| == Align32(RECORD_HEADER + |payload|)
  {
    HeaderOf(lengthAt, msgType, RECORD_HEADER + |payload|) + payload
    + Zeros(Align32(RECORD_HEADER + |payload|) - RECORD_HEADER - |payload|)
  }

  function RecordItem(lengthAt: nat, pos: nat, msgType: int, payload: seq<Byte>): Item {
    Item(pos, RECORD_HEADER + |payload|, RecordBytes(lengthAt, msgType, payload), msgType, false)
  }

  function PadItem(lengthAt: nat, pos: nat, len: nat): Item {
    Item(pos, len, HeaderOf(lengthAt, PADDING, len), PADDING, true)
  }

  lemma HeaderWords(lengthAt: nat, msgType: int, len: int, rest: seq<Byte>)
    requires (lengthAt == 0 || lengthAt == 4) && IsI32(msgType) && IsI32(len)
    ensures var b := HeaderOf(lengthAt, msgType, len) + rest;
            DecodeI32(b, lengthAt) == len && DecodeI32(b, 4 - lengthAt) == msgType
  {
    hide Wrap32, Word32, EncodeI32;
    DecodeEncodeI32(len);
    DecodeEncodeI32(msgType);
    var b, l, t := HeaderOf(lengthAt, msgType, len) + rest, EncodeI32(len), EncodeI32(msgType);
    assert b[lengthAt] == l[0] && b[lengthAt + 1] == l[1] && b[lengthAt + 2] == l[2] && b[lengthAt + 3] == l[3];
    var u := 4 - lengthAt;
    assert b[u] == t[0] && b[u + 1] == t[1] && b[u + 2] == t[2] && b[u + 3] == t[3];
  }

  lemma RecordItemOk(cap: nat, lengthAt: nat, pos: nat, msgType: int, payload: seq<Byte>)
    requires (lengthAt == 0 || lengthAt == 4) && IsI32(msgType) && RECORD_HEADER + |payload| < TWO31
    requires InOnePiece(pos, Align32(RECORD_HEADER + |payload|), cap)
    ensures ItemOk(cap, lengthAt, RecordItem(lengthAt, pos, msgType, payload))
    ensures MsgOf(RecordItem(lengthAt, pos, msgType, payload)) == Msg(msgType, payload)
  {
    hide Align32, DecodeI32, HeaderOf;
    var len := RECORD_HEADER + |payload|;
    var zeros := Zeros(Align32(len) - len);
    HeaderWords(lengthAt, msgType, len, payload + zeros);
    assert HeaderOf(lengthAt, msgType, len) + (payload + zeros) == RecordBytes(lengthAt, msgType, payload);
  }

  lemma PadItemOk(cap: nat, lengthAt: nat, pos: nat, len: nat)
    requires (lengthAt == 0 || lengthAt == 4) && Aligned(len) && 0 < len < TWO31 && InOnePiece(pos, len, cap)
    ensures Align32(len) == len && ItemOk(cap, lengthAt, PadItem(lengthAt, pos, len))
  {
    hide Align32, DecodeI32, HeaderOf, Aligned;
    AlignedZero();
    AlignedSum(0, len);
    HeaderWords(lengthAt, PADDING, len, []);
    assert HeaderOf(lengthAt, PADDING, len) + [] == HeaderOf(lengthAt, PADDING, len);
  }

  /** Writing behind the chain, less than a lap beyond its start, disturbs none of its records. */
  lemma WriteKeepsItems(cap: nat, lengthAt: nat, buf: seq<Byte>, items: seq<Item>, from: nat, to: nat, pos: nat,
                        bytes: seq<Byte>)
    requires (lengthAt == 0 || lengthAt == 4) && |buf| == cap
    requires Chain(items, from, to) && ItemsOk(cap, lengthAt, items) && Shown(buf, items)
    requires to <= pos && pos + |bytes| <= from + cap && InOnePiece(pos, |bytes|, cap)
    ensures Shown(Splice(buf, pos % cap, bytes), items)
  {
    hide Align32, DecodeI32, Shows, Chain, Splice;
    forall i | 0 <= i < |items| ensures Shows(Splice(buf, pos % cap, bytes), items[i].pos, items[i].bytes) {
      ChainBounds(cap, lengthAt, items, from, to, i);
      SpliceKeeps(buf, items[i].pos, items[i].bytes, pos, bytes);
    }
  }

  /** Space a record takes at `tail`: its aligned length, plus the padding if it would straddle the end. */
  function Needed(cap: nat, tail: nat, aligned: nat): nat
    requires cap > 0
  {
    var contiguous := cap - tail % cap;
    if aligned > contiguous then contiguous + aligned else aligned
  }

  /** The next record goes to the first place at or behind the tail where it is not cut by the end of the buffer. */
  lemma NeededIsLeast(cap: nat, tail: nat, aligned: nat)
    requires 0 < aligned <= cap
    ensures Needed(cap, tail, aligned) >= aligned
    ensures InOnePiece(tail + Needed(cap, tail, aligned) - aligned, aligned, cap)
    ensures forall start: nat :: tail <= start && start + aligned < tail + Needed(cap, tail, aligned) ==>
              !InOnePiece(start, aligned, cap)
  {
    var q, r := tail / cap, tail % cap;
    DivModUnique(tail + (cap - r), q + 1, 0, cap) by { assert (q + 1) * cap == q * cap + cap; }
    forall start: nat | tail <= start && start + aligned < tail + Needed(cap, tail, aligned)
      ensures !InOnePiece(start, aligned, cap)
    {
      DivModUnique(start, q, start - q * cap, cap);
    }
  }

  /** Some place behind the tail, within one capacity of the head, holds the record in one piece. */
  ghost predicate HasPlace(cap: nat, head: nat, tail: nat, aligned: nat)
    requires cap > 0
  {
    exists start: nat :: tail <= start && start + aligned <= head + cap && InOnePiece(start, aligned, cap)
  }

  lemma HasPlaceExactly(cap: nat, head: nat, tail: nat, aligned: nat)
    requires 0 < aligned <= cap
    ensures HasPlace(cap, head, tail, aligned) <==> Needed(cap, tail, aligned) <= head + cap - tail
  {
    hide Needed;
    NeededIsLeast(cap, tail, aligned);
    var first := tail + Needed(cap, tail, aligned) - aligned;
    if Needed(cap, tail, aligned) <= head + cap - tail {
      assert InOnePiece(first, aligned, cap);
    }
  }

  // ---- Reading ----

  /** The header and payload a reader finds at a shown record. */
  lemma ReadItem(cap: nat, lengthAt: nat, buf: seq<Byte>, it: Item)
    requires (lengthAt == 0 || lengthAt == 4) && |buf| == cap && ItemOk(cap, lengthAt, it)
    requires Shows(buf, it.pos, it.bytes)
    ensures var index := it.pos % cap;
            && index + RECORD_HEADER <= cap && index + it.len <= cap
            && DecodeI32(buf, index + lengthAt) == it.len
            && DecodeI32(buf, index + 4 - lengthAt) == it.msgType
            && (!it.pad ==> Msg(it.msgType, buf[index + RECORD_HEADER..index + it.len]) == MsgOf(it))
  {
    hide Align32, Wrap32;
    var index := it.pos % cap;
    forall j | 0 <= j < |it.bytes| ensures buf[index + j] == it.bytes[j] {
      assert buf[index..index + |it.bytes|][j] == buf[index + j];
    }
    if !it.pad {
      assert buf[index + RECORD_HEADER..index + it.len] == it.bytes[RECORD_HEADER..it.len];
    }
  }

  /** A reader that copies the header out finds the same words. */
  lemma HeaderSlice(buf: seq<Byte>, index: nat)
    requires index + RECORD_HEADER <= |buf|
    ensures var header := buf[index..index + RECORD_HEADER];
            DecodeI32(header, 0) == DecodeI32(buf, index) && DecodeI32(header, 4) == DecodeI32(buf, index + 4)
  {
    hide Wrap32, Word32;
  }

  /** Position arithmetic of the wrap: the record after a pad starts at slot 0. */
  lemma PadReachesEnd(cap: nat, tail: nat)
    requires cap > 0 && Aligned(cap) && Aligned(tail)
    ensures var contiguous := cap - tail % cap;
            && 0 < contiguous <= cap && Aligned(contiguous)
            && (tail + contiguous) % cap == 0 && InOnePiece(tail, contiguous, cap)
  {
    hide Aligned;
    var q, r := tail / cap, tail % cap;
    DivModUnique(tail + (cap - r), q + 1, 0, cap) by { assert (q + 1) * cap == q * cap + cap; }
    AlignedMultiple(q, cap);
    AlignedSum(tail, q * cap);
    AlignedSum(cap, r);
  }

}
