/**
 The single-threaded publication: a byte array updated in place, with its cursors as fields.
 Every method is proved against the functions of module Publication.
 */
module NetworkPublication {
  import opened Arith
  import opened Bytes
  import opened TermLog
  import opened Publication

  /** `scan_frames`: walk the committed frames of a partition and collect what `emit` is called with. */
  method ScanFrames(buffer: array<Byte>, termLength: nat, partition: nat, offset: nat, limit: nat)
    returns (scanned: nat, frames: seq<Emission>)
    requires buffer.Length == 4 * termLength && partition < 4 && offset <= termLength
    ensures partition * termLength + termLength <= buffer.Length
    ensures ScanResult(scanned, frames) == Scan(buffer[..], partition * termLength, termLength, offset, 0, limit)
  {
    hide Wrap32, Align32, Word32, Scan;
    PartitionFits(partition, termLength);
    var base := partition * termLength;
    ghost var buf := buffer[..];
    var pos := offset;
    scanned, frames := 0, [];
    ghost var rest := Scan(buf, base, termLength, offset, 0, limit);
    while pos < termLength && scanned < limit
      invariant offset <= pos <= termLength && pos == offset + scanned
      invariant rest == Scan(buf, base, termLength, pos, scanned, limit)
      invariant Scan(buf, base, termLength, offset, 0, limit) == ScanResult(rest.scanned, frames + rest.frames)
      decreases termLength - pos
    {
      ScanUnfold(buf, base, termLength, pos, scanned, limit);
      if termLength - pos < 4 {
        break;
      }
      var word := buffer[base + pos..base + pos + 4];
      var frameLength := DecodeI32(word, 0);
      assert word[0] == buf[base + pos] && word[1] == buf[base + pos + 1]
          && word[2] == buf[base + pos + 2] && word[3] == buf[base + pos + 3];
      if frameLength <= 0 {
        break;
      }
      if frameLength < HEADER {
        break;
      }
      var aligned := Align32(frameLength);
      if pos + aligned > termLength {
        break;
      }
      assert FrameLengthAt(buf, base, termLength, pos) == frameLength;
      var frame := Emission(pos, buffer[base + pos..base + pos + frameLength]);
      assert frame.slice == buf[base + pos..base + pos + frameLength];
      ghost var next := Scan(buf, base, termLength, pos + aligned, scanned + aligned, limit);
      assert rest == ScanResult(next.scanned, [frame] + next.frames);
      assert frames + ([frame] + next.frames) == frames + [frame] + next.frames;
      frames := frames + [frame];
      pos := pos + aligned;
      scanned := scanned + aligned;
      rest := next;
    }
    ScanUnfold(buf, base, termLength, pos, scanned, limit);
    assert frames + [] == frames;
  }

  class NetworkPublication {
    const c: Config
    const buffer: array<Byte>
    var activeTermId: int
    var termOffset: nat
    var pubPosition: int
    var senderPosition: int

    ghost function State(): Pub
      reads this, buffer
    {
      Pub(buffer[..], activeTermId, termOffset, pubPosition, senderPosition)
    }

    ghost predicate Valid()
      reads this, buffer
    {
      ConfigOk(c) && PubOk(c, State())
    }

    constructor (c: Config)
      requires ConfigOk(c)
      ensures Valid() && this.c == c && fresh(buffer)
      ensures State() == InitialPub(c)
    {
      this.c := c;
      buffer := new Byte[4 * c.termLength](_ => 0);
      activeTermId, termOffset, pubPosition, senderPosition := c.initialTermId, 0, 0, 0;
      new;
      assert buffer[..] == Zeros(4 * c.termLength);
    }

    method Offer(payload: seq<Byte>) returns (r: OfferResult)
      requires Valid()
      modifies this, buffer
      ensures Valid()
      ensures (State(), r) == Publication.Offer(c, old(State()), payload)
    {
      hide DataFrame, Splice, WritePad, CleanPartition, IsPowerOfTwo, Wrap32, Wrap64;
      if |payload| + HEADER > c.mtu {
        return PayloadTooLarge;
      }
      var maxAhead := c.termLength * 3;
      if Wrap64(pubPosition - senderPosition) >= maxAhead {
        return BackPressured;
      }
      var partition := PartitionIndex(activeTermId, c.initialTermId);
      var frame := DataFrame(termOffset, c.sessionId, c.streamId, activeTermId, payload);
      var newOffset := termOffset + Align32(HEADER + |payload|);
      if newOffset > c.termLength {
        WritePadFrame(partition);
        RotateTerm();
        return AdminAction;
      }
      PartitionFits(partition, c.termLength);
      CopyInto(buffer, partition * c.termLength + termOffset, frame);
      termOffset := newOffset;
      pubPosition := ComputePosition(activeTermId, newOffset, c.initialTermId, c.termLength);
      return Ok(pubPosition);
    }

    method WritePadFrame(partition: nat)
      requires Valid() && partition < 4
      modifies buffer
      ensures State() == old(State()).(buf := WritePad(old(State()).buf, c.termLength, partition, termOffset))
    {
      hide PadHeader, Splice, ConfigOk;
      var remaining := c.termLength - termOffset;
      if remaining < HEADER {
        return;
      }
      PartitionFits(partition, c.termLength);
      CopyInto(buffer, partition * c.termLength + termOffset, PadHeader(remaining, termOffset));
    }

    method RotateTerm()
      requires Valid()
      modifies this, buffer
      ensures Valid()
      ensures var next := Wrap32(old(activeTermId) + 1);
              State() == old(State()).(
                buf := CleanPartition(old(State()).buf, c.termLength, PartitionIndex(next, c.initialTermId)),
                activeTermId := next, termOffset := 0)
    {
      activeTermId := Wrap32(activeTermId + 1);
      termOffset := 0;
      var partition := PartitionIndex(activeTermId, c.initialTermId);
      PartitionFits(partition, c.termLength);
      CopyInto(buffer, partition * c.termLength, Zeros(c.termLength));
    }

    method SenderScan(limit: nat) returns (r: ScanResult)
      requires Valid()
      modifies this
      ensures Valid()
      ensures (State(), r) == Publication.SenderScan(c, old(State()), limit)
    {
      hide Scan, Wrap32, IsPowerOfTwo;
      var termId := TermIdOf(senderPosition, c.initialTermId, c.termLength);
      var offset := TermOffsetOf(senderPosition, c.termLength);
      var partition := PartitionIndex(termId, c.initialTermId);
      var remaining := c.termLength - offset;
      var effectiveLimit := if limit < remaining then limit else remaining;
      var scanned, frames := ScanFrames(buffer, c.termLength, partition, offset, effectiveLimit);
      senderPosition := senderPosition + scanned;
      return ScanResult(scanned, frames);
    }
  }

  datatype Created = Rejected | Created(publication: NetworkPublication)

  /** `new`: refuses an MTU below the header length and a term length that is no power of two from 32 up. */
  method New(sessionId: int, streamId: int, initialTermId: int, termLength: nat, mtu: nat) returns (r: Created)
    requires IsI32(sessionId) && IsI32(streamId) && IsI32(initialTermId)
    requires termLength <= 0x2000_0000 && mtu <= 0x2000_0000
    ensures r.Created? <==> mtu >= HEADER && termLength >= 32 && IsPowerOfTwo(termLength)
    ensures r.Created? ==> fresh(r.publication) && r.publication.Valid()
                           && r.publication.c == Config(sessionId, streamId, initialTermId, termLength, mtu)
                           && r.publication.State() == InitialPub(r.publication.c)
  {
    if mtu < HEADER || termLength < 32 || !IsPowerOfTwo(termLength) {
      return Rejected;
    }
    PowerOfTwoAligned(termLength);
    var publication := new NetworkPublication(Config(sessionId, streamId, initialTermId, termLength, mtu));
    return Created(publication);
  }
}
