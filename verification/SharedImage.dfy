/**
 The image as the driver keeps it: a receiver handle that writes frames in place and a subscriber
 handle that polls, over a shared log.  Both are proved against the functions of module Image.
 */
module SharedImage {
  import opened Wrappers
  import opened Arith
  import opened Bytes
  import opened TermLog
  import I = Image
  import W = ImageWindow

  /** What both handles share: the log and the two atomic positions. */
  class ImageInner {
    const initialTermId: int
    const termLength: nat
    const buffer: array<Byte>
    var receiverPosition: int
    var subscriberPosition: int

    constructor (initialTermId: int, activeTermId: int, termLength: nat, termOffset: int)
      ensures this.initialTermId == initialTermId && this.termLength == termLength
      ensures fresh(buffer) && buffer[..] == Zeros(4 * termLength)
      ensures receiverPosition == subscriberPosition
           == ComputePosition(activeTermId, termOffset, initialTermId, termLength)
    {
      this.initialTermId, this.termLength := initialTermId, termLength;
      buffer := new Byte[4 * termLength](_ => 0);
      var position := ComputePosition(activeTermId, termOffset, initialTermId, termLength);
      receiverPosition, subscriberPosition := position, position;
      new;
      assert buffer[..] == Zeros(4 * termLength);
    }
  }

  datatype AppendResult = InvalidPartition | TermFull | Appended(newOffset: nat)

  /** The receiver's image entry together with its handle to the log. */
  class ReceiverImage {
    const inner: ImageInner
    var receiverPositionLocal: int
    var activeTermId: int
    var consumptionTermId: int
    var consumptionTermOffset: int
    var expectedTermOffset: int
    var timeOfLastNak: int
    var timeOfLastSm: int
    var smPending: bool

    ghost function State(): I.Image
      reads this, inner, inner.buffer
    {
      I.Image(inner.initialTermId, inner.termLength, inner.buffer[..], receiverPositionLocal, inner.subscriberPosition,
              activeTermId, consumptionTermId, consumptionTermOffset, expectedTermOffset,
              timeOfLastNak, timeOfLastSm, smPending)
    }

    ghost predicate Valid()
      reads this, inner
    {
      inner.buffer.Length == 4 * inner.termLength && receiverPositionLocal == inner.receiverPosition
    }

    constructor (inner: ImageInner, activeTermId: int, termOffset: int)
      requires inner.buffer[..] == Zeros(4 * inner.termLength)
      requires inner.receiverPosition == inner.subscriberPosition
            == ComputePosition(activeTermId, termOffset, inner.initialTermId, inner.termLength)
      ensures Valid() && this.inner == inner
      ensures State() == I.NewImage(inner.initialTermId, activeTermId, inner.termLength, termOffset)
    {
      this.inner := inner;
      receiverPositionLocal := inner.receiverPosition;
      this.activeTermId, consumptionTermId := activeTermId, activeTermId;
      consumptionTermOffset, expectedTermOffset := termOffset, termOffset;
      timeOfLastNak, timeOfLastSm, smPending := 0, 0, false;
    }

    method CleanPartition(partition: nat)
      requires Valid() && partition < 4
      modifies inner.buffer
      ensures inner.buffer[..] == TermLog.CleanPartition(old(inner.buffer[..]), inner.termLength, partition)
    {
      PartitionFits(partition, inner.termLength);
      CopyInto(inner.buffer, partition * inner.termLength, Zeros(inner.termLength));
    }

    /** Header with length 0, payload, then the committed length; an error leaves the log alone. */
    method AppendFrame(partition: nat, f: I.Wire) returns (r: AppendResult)
      requires Valid() && I.WireOk(f)
      modifies inner.buffer
      ensures r.InvalidPartition? <==> partition >= PARTITION_COUNT
      ensures r.TermFull? <==> partition < PARTITION_COUNT && I.NewOffset(f) > inner.termLength
      ensures !r.Appended? ==> inner.buffer[..] == old(inner.buffer[..])
      ensures r.Appended? ==>
                && r.newOffset == I.NewOffset(f) && partition * inner.termLength >= 0
                && partition * inner.termLength + I.Offset(f) + HEADER + |f.payload| <= inner.buffer.Length
                && inner.buffer[..]
                   == Splice(old(inner.buffer[..]), partition * inner.termLength + I.Offset(f), I.CommittedBytes(f))
    {
      hide Splice, EncodeI32, AsU32;
      if partition >= PARTITION_COUNT {
        return InvalidPartition;
      }
      var newOffset := AsU32(f.termOffset) + Align32(HEADER + |f.payload|);
      if newOffset > inner.termLength {
        return TermFull;
      }
      PartitionFits(partition, inner.termLength);
      var base := partition * inner.termLength + AsU32(f.termOffset);
      var open, length := EncodeI32(0) + f.header[4..], EncodeI32(HEADER + |f.payload|);
      assert open[4..] == f.header[4..];
      CommitLastIsWholeFrame(inner.buffer[..], base, open, length, f.payload);
      CopyInto(inner.buffer, base, open);
      CopyInto(inner.buffer, base + HEADER, f.payload);
      CopyInto(inner.buffer, base, length);
      return Appended(newOffset);
    }

    /** Clean the partitions of the terms between the active one and the frame's, at most four. */
    method RotateTo(f: I.Wire)
      requires Valid() && I.Advances(State(), f)
      modifies this, inner.buffer
      ensures Valid() && State() == I.Advance(old(State()), f)
    {
      hide Wrap32, TermLog.CleanPartition, PartitionIndex;
      ghost var x := State();
      var ahead := Wrap32(f.termId - activeTermId);
      var steps := if ahead < PARTITION_COUNT then ahead else PARTITION_COUNT;
      var s := 0;
      while s < steps
        invariant 0 <= s <= steps
        invariant inner.buffer[..] == I.CleanAhead(x, s)
        invariant State() == x.(buf := inner.buffer[..])
      {
        s := s + 1;
        CleanPartition(PartitionIndex(Wrap32(activeTermId + s), inner.initialTermId));
      }
      activeTermId, consumptionTermId := f.termId, f.termId;
      consumptionTermOffset, expectedTermOffset := 0, 0;
    }

    /** Gap detection: at most one NAK per `nakDelay`. */
    method CheckGap(f: I.Wire, now: int, nakDelay: int) returns (r: Option<I.Nak>)
      requires Valid()
      modifies this
      ensures Valid()
      ensures var x, due := old(State()), I.NakDue(old(State()), f, now, nakDelay);
              && State() == (if due then x.(timeOfLastNak := now) else x)
              && r == if due then Some(I.NakFor(x, f)) else None
      ensures var x := old(State());
              W.CursorsAgree(x) && I.WireOk(f) && 0 <= now < TWO63 && 0 <= x.timeOfLastNak < TWO63 ==>
                r == if && f.termId == x.activeTermId && 0 < f.termOffset - x.expectedTermOffset < 0x3FFF_FFFF
                        && x.timeOfLastNak <= now && x.timeOfLastNak + nakDelay <= now
                     then Some(I.Nak(x.activeTermId, x.expectedTermOffset, f.termOffset - x.expectedTermOffset))
                     else None
    {
      hide Wrap32, Wrap64, W.CursorsAgree, I.WireOk, IsPowerOfTwo, Aligned;
      ghost var x := State();
      if W.CursorsAgree(x) && I.WireOk(f) && 0 <= now < TWO63 && 0 <= x.timeOfLastNak < TWO63 {
        W.NakDueExactly(x, f, now, nakDelay);
        if 0 < f.termOffset - x.expectedTermOffset < 0x3FFF_FFFF {
          W.NakForExactly(x, f);
        }
      }
      r := None;
      var gap := Wrap32(f.termOffset - expectedTermOffset);
      if gap > 0 && gap < HALF_I32 && f.termId == activeTermId {
        var sinceLast := Wrap64(now - timeOfLastNak);
        if sinceLast >= 0 && sinceLast >= nakDelay {
          r := Some(I.Nak(activeTermId, expectedTermOffset, gap));
          timeOfLastNak := now;
        }
      }
    }

    /** The cursors follow a frame that ends at offset `end`. */
    method FollowFrame(termId: int, end: int, sendSmOnData: bool)
      requires Valid()
      modifies this, inner`receiverPosition
      ensures Valid()
      ensures var x := old(State());
              State() == x.(
                consumptionTermOffset :=
                  if termId == x.consumptionTermId then I.Raise(x.consumptionTermOffset, end)
                  else x.consumptionTermOffset,
                expectedTermOffset :=
                  if termId == x.activeTermId then I.Raise(x.expectedTermOffset, end) else x.expectedTermOffset,
                smPending := x.smPending || sendSmOnData,
                receiverPosition :=
                  I.RaisePosition(x.receiverPosition, ComputePosition(termId, end, x.initialTermId, x.termLength)))
    {
      hide Wrap32, Wrap64;
      if termId == consumptionTermId {
        var advance := Wrap32(end - consumptionTermOffset);
        if advance > 0 && advance < HALF_I32 {
          consumptionTermOffset := end;
        }
      }
      if termId == activeTermId {
        var advance := Wrap32(end - expectedTermOffset);
        if advance > 0 && advance < HALF_I32 {
          expectedTermOffset := end;
        }
      }
      if sendSmOnData {
        smPending := true;
      }
      var position := ComputePosition(termId, end, inner.initialTermId, inner.termLength);
      var advance := Wrap64(position - receiverPositionLocal);
      if advance > 0 && advance < HALF_I64 {
        receiverPositionLocal := position;
        inner.receiverPosition := position;
      }
    }

    /** Write the frame, if it fits its term, and let the cursors follow it. */
    method Accept(f: I.Wire, sendSmOnData: bool)
      requires Valid() && I.WireOk(f)
      modifies this, inner`receiverPosition, inner.buffer
      ensures Valid()
      ensures State() == if I.TermFull(old(State()), f) then old(State()) else I.Accept(old(State()), f, sendSmOnData)
    {
      hide Wrap32, Wrap64, PartitionIndex, Align32, Splice, I.CommittedBytes, I.Raise, I.RaisePosition,
           ComputePosition, AsU32;
      var r := AppendFrame(PartitionIndex(f.termId, inner.initialTermId), f);
      if r.Appended? {
        FollowFrame(f.termId, r.newOffset, sendSmOnData);
      }
    }

    method OnData(f: I.Wire, now: int, nakDelay: int, sendSmOnData: bool) returns (r: Option<I.Nak>)
      requires Valid() && I.WireOk(f)
      modifies this, inner`receiverPosition, inner.buffer
      ensures Valid()
      ensures State() == I.OnData(old(State()), f, now, nakDelay, sendSmOnData)
      ensures r == if I.NakDue(old(State()), f, now, nakDelay) then Some(I.NakFor(old(State()), f)) else None
    {
      hide Wrap32, Wrap64, PartitionIndex, Align32, I.CleanAhead, I.Accept, I.NakDue, I.NakFor;
      ghost var x := State();
      r := CheckGap(f, now, nakDelay);
      ghost var stamp := timeOfLastNak;
      var ahead := Wrap32(f.termId - activeTermId);
      if ahead > 0 && ahead < HALF_I32 {
        RotateTo(f);
      }
      RotateStamp(x, f, stamp);
      if AsU32(Wrap32(activeTermId - f.termId)) >= PARTITION_COUNT {
        return;
      }
      ghost var x1 := I.Advance(x, f);
      if !I.TermFull(x1, f) {
        AcceptStamp(x1, f, stamp, sendSmOnData);
      }
      Accept(f, sendSmOnData);
    }

    /** The image's turn in `send_control_messages`. */
    method SendSm(now: int, smInterval: int) returns (due: bool, sm: I.Sm)
      requires Valid()
      modifies this
      ensures Valid()
      ensures due == I.SmDue(old(State()), now, smInterval)
      ensures 0 <= now < TWO63 && 0 <= old(timeOfLastSm) < TWO63 ==>
                (due <==> old(smPending) || old(timeOfLastSm) + smInterval < now)
      ensures State() == if due then I.AfterSm(old(State()), now) else old(State())
      ensures sm == I.Sm(consumptionTermId, consumptionTermOffset)
    {
      sm := I.Sm(consumptionTermId, consumptionTermOffset);
      due := Wrap64(now - timeOfLastSm) > smInterval || smPending;
      if due {
        timeOfLastSm := now;
        smPending := false;
      }
    }
  }

  /** Moving the window does not depend on the NAK time stamp. */
  lemma RotateStamp(x: I.Image, f: I.Wire, stamp: int)
    requires |x.buf| == 4 * x.termLength
    ensures I.Advance(x.(timeOfLastNak := stamp), f) == I.Advance(x, f).(timeOfLastNak := stamp)
  {
    CleanStamp(x, stamp, I.CleanSteps(x, f));
  }

  lemma AcceptStamp(x: I.Image, f: I.Wire, stamp: int, sendSm: bool)
    requires |x.buf| == 4 * x.termLength && |f.header| == HEADER && !I.TermFull(x, f)
    ensures I.Accept(x.(timeOfLastNak := stamp), f, sendSm) == I.Accept(x, f, sendSm).(timeOfLastNak := stamp)
  {
  }

  lemma {:induction false} CleanStamp(x: I.Image, stamp: int, steps: nat)
    requires |x.buf| == 4 * x.termLength
    ensures I.CleanAhead(x.(timeOfLastNak := stamp), steps) == I.CleanAhead(x, steps)
  {
    hide PartitionIndex, Wrap32, TermLog.CleanPartition;
    if steps > 0 {
      CleanStamp(x, stamp, steps - 1);
    }
  }

  /** One turn of the polling loop. */
  lemma PollUnfold(buf: seq<Byte>, base: nat, tl: nat, pos: nat, scanned: nat, left: nat, ahead: int)
    requires base + tl <= |buf| && pos <= tl
    ensures var r := I.PollFrom(buf, base, tl, pos, scanned, left, ahead);
            if pos >= tl || left == 0 || tl - pos < 4 then r == I.PollResult(scanned, [])
            else
              var frameLength := I.LengthWord(buf, base + pos);
              var aligned := if frameLength > 0 then Align32(frameLength) else 0;
              var next := I.GapEnd(buf, base, tl, pos + FRAME_ALIGNMENT);
              if frameLength <= 0 then
                r == if ahead <= scanned then I.PollResult(scanned, [])
                     else I.PollFrom(buf, base, tl, next, scanned + (next - pos), left, ahead)
              else if frameLength < HEADER || pos + aligned > tl then r == I.PollResult(scanned, [])
              else if DecodeU16(buf, base + pos + 6) == TYPE_PAD then
                r == I.PollFrom(buf, base, tl, pos + aligned, scanned + aligned, left, ahead)
              else
                var rest := I.PollFrom(buf, base, tl, pos + aligned, scanned + aligned, left - 1, ahead);
                r == I.PollResult(rest.scanned, [buf[base + pos + HEADER..base + pos + frameLength]] + rest.delivered)
  {
    hide I.LengthWord, I.GapEnd, Align32, DecodeU16;
  }

  /** `atomic_frame_length_load` */
  method LoadLength(buffer: array<Byte>, at: nat) returns (r: int)
    ensures r == I.LengthWord(buffer[..], at)
  {
    hide Wrap32;
    if at + 4 > buffer.Length {
      return 0;
    }
    var word := buffer[at..at + 4];
    ghost var buf := buffer[..];
    assert word[0] == buf[at] && word[1] == buf[at + 1] && word[2] == buf[at + 2] && word[3] == buf[at + 3];
    r := DecodeI32(word, 0);
  }

  /** The gap scan of `poll_fragments`. */
  method SkipGap(buffer: array<Byte>, base: nat, termLength: nat, pos: nat) returns (skip: nat)
    requires base + termLength <= buffer.Length && pos < termLength
    ensures pos + skip == I.GapEnd(buffer[..], base, termLength, pos + FRAME_ALIGNMENT)
  {
    hide I.LengthWord;
    skip := FRAME_ALIGNMENT;
    while pos + skip < termLength
      invariant I.GapEnd(buffer[..], base, termLength, pos + FRAME_ALIGNMENT)
             == I.GapEnd(buffer[..], base, termLength, pos + skip)
      decreases termLength - pos - skip
    {
      var length := LoadLength(buffer, base + pos + skip);
      if length > 0 {
        break;
      }
      skip := skip + FRAME_ALIGNMENT;
    }
    if pos + skip > termLength {
      skip := termLength - pos;
    }
  }

  class SubscriberImage {
    const inner: ImageInner
    var subscriberPositionLocal: int

    ghost predicate Valid()
      reads this, inner
    {
      && inner.buffer.Length == 4 * inner.termLength && inner.termLength > 0
      && subscriberPositionLocal == inner.subscriberPosition
    }

    constructor (inner: ImageInner)
      requires inner.buffer.Length == 4 * inner.termLength && inner.termLength > 0
      ensures Valid() && this.inner == inner
    {
      this.inner := inner;
      subscriberPositionLocal := inner.subscriberPosition;
    }

    /** `x` is the image both handles belong to. */
    method PollFragments(limit: int, ghost x: I.Image) returns (delivered: seq<seq<Byte>>)
      requires Valid()
      requires x.buf == inner.buffer[..] && x.termLength == inner.termLength && x.initialTermId == inner.initialTermId
      requires x.receiverPosition == inner.receiverPosition && x.subscriberPosition == subscriberPositionLocal
      modifies this, inner`subscriberPosition
      ensures Valid()
      ensures (x.(subscriberPosition := subscriberPositionLocal), delivered) == I.Poll(x, limit)
    {
      hide I.PollFrom, Wrap32, PartitionIndex, TermIdOf;
      delivered := [];
      if limit <= 0 {
        return;
      }
      var tl := inner.termLength;
      var termId := TermIdOf(subscriberPositionLocal, inner.initialTermId, tl);
      var offset := TermOffsetOf(subscriberPositionLocal, tl);
      var partition := PartitionIndex(termId, inner.initialTermId);
      PartitionFits(partition, tl);
      var scanned;
      scanned, delivered := PollTerm(partition * tl, offset, limit);
      if scanned > 0 {
        subscriberPositionLocal := subscriberPositionLocal + scanned;
        inner.subscriberPosition := subscriberPositionLocal;
      }
    }

    /** The loop of `poll_fragments`. */
    method PollTerm(base: nat, offset: nat, limit: nat) returns (scanned: nat, delivered: seq<seq<Byte>>)
      requires Valid() && base + inner.termLength <= inner.buffer.Length && offset <= inner.termLength
      ensures I.PollResult(scanned, delivered)
           == I.PollFrom(inner.buffer[..], base, inner.termLength, offset, 0, limit,
                         inner.receiverPosition - subscriberPositionLocal)
    {
      hide I.PollFrom, I.LengthWord, I.GapEnd, Align32, DecodeU16;
      var tl := inner.termLength;
      ghost var buf, reach := inner.buffer[..], inner.receiverPosition - subscriberPositionLocal;
      var pos, fragments := offset, 0;
      scanned, delivered := 0, [];
      ghost var whole := I.PollFrom(buf, base, tl, offset, 0, limit, reach);
      while pos < tl && fragments < limit
        invariant offset <= pos <= tl && pos == offset + scanned && 0 <= fragments <= limit
        invariant var rest := I.PollFrom(buf, base, tl, pos, scanned, limit - fragments, reach);
                  whole == I.PollResult(rest.scanned, delivered + rest.delivered)
        decreases tl - pos
      {
        ghost var rest := I.PollFrom(buf, base, tl, pos, scanned, limit - fragments, reach);
        PollUnfold(buf, base, tl, pos, scanned, limit - fragments, reach);
        if tl - pos < 4 {
          break;
        }
        var frameLength := LoadLength(inner.buffer, base + pos);
        if frameLength <= 0 {
          if inner.receiverPosition <= subscriberPositionLocal + scanned {
            break;
          }
          var skip := SkipGap(inner.buffer, base, tl, pos);
          pos := pos + skip;
          scanned := scanned + skip;
          continue;
        }
        if frameLength < HEADER {
          break;
        }
        var aligned := Align32(frameLength);
        if pos + aligned > tl {
          break;
        }
        var at := base + pos;
        var frameType := Word32(inner.buffer[at + 6], inner.buffer[at + 7], 0, 0);
        assert frameType == DecodeU16(buf, at + 6) by { TypeWord(buf, at); }
        if frameType == TYPE_PAD {
          pos := pos + aligned;
          scanned := scanned + aligned;
          continue;
        }
        var payload := inner.buffer[at + HEADER..at + frameLength];
        ghost var next := I.PollFrom(buf, base, tl, pos + aligned, scanned + aligned, limit - fragments - 1, reach);
        assert payload == buf[at + HEADER..at + frameLength];
        assert delivered + ([payload] + next.delivered) == delivered + [payload] + next.delivered;
        delivered := delivered + [payload];
        pos := pos + aligned;
        scanned := scanned + aligned;
        fragments := fragments + 1;
      }
      PollUnfold(buf, base, tl, pos, scanned, limit - fragments, reach);
      assert delivered + [] == delivered;
    }
  }

  lemma TypeWord(buf: seq<Byte>, at: nat)
    requires at + 8 <= |buf|
    ensures DecodeU16(buf, at + 6) == Word32(buf[at + 6], buf[at + 7], 0, 0)
  {
  }
}
