/**
 The publication split into a publisher handle and a sender handle over shared state, as whole
 calls.  Both handles are proved against the same functions as the single-threaded publication,
 so the two kinds of publication answer every sequence of calls alike.
 */
module ConcurrentPublication {
  import opened Arith
  import opened Bytes
  import opened TermLog
  import opened Publication
  import NP = NetworkPublication

  /** What both handles share: the log and the two atomic positions. */
  class PublicationInner {
    const c: Config
    const buffer: array<Byte>
    var pubPosition: int
    var senderPosition: int

    constructor (c: Config)
      requires ConfigOk(c)
      ensures this.c == c && fresh(buffer) && buffer[..] == Zeros(4 * c.termLength)
      ensures pubPosition == senderPosition == 0
    {
      this.c := c;
      buffer := new Byte[4 * c.termLength](_ => 0);
      pubPosition, senderPosition := 0, 0;
      new;
      assert buffer[..] == Zeros(4 * c.termLength);
    }
  }

  /** `ConcurrentPublication` */
  class Publisher {
    const inner: PublicationInner
    var activeTermId: int
    var termOffset: nat
    var pubPositionLocal: int

    ghost function State(): Pub
      reads this, inner, inner.buffer
    {
      Pub(inner.buffer[..], activeTermId, termOffset, pubPositionLocal, inner.senderPosition)
    }

    ghost predicate Valid()
      reads this, inner, inner.buffer
    {
      ConfigOk(inner.c) && PubOk(inner.c, State()) && pubPositionLocal == inner.pubPosition
    }

    constructor (inner: PublicationInner)
      requires ConfigOk(inner.c) && inner.buffer[..] == Zeros(4 * inner.c.termLength)
      requires inner.pubPosition == inner.senderPosition == 0
      ensures Valid() && this.inner == inner && State() == InitialPub(inner.c)
    {
      this.inner := inner;
      activeTermId, termOffset, pubPositionLocal := inner.c.initialTermId, 0, 0;
    }

    method Offer(payload: seq<Byte>) returns (r: OfferResult)
      requires Valid()
      modifies this, inner`pubPosition, inner.buffer
      ensures Valid()
      ensures (State(), r) == Publication.Offer(inner.c, old(State()), payload)
    {
      hide DataFrame, Splice, WritePad, CleanPartition, IsPowerOfTwo, Wrap32, Wrap64;
      var c := inner.c;
      if |payload| + HEADER > c.mtu {
        return PayloadTooLarge;
      }
      var maxAhead := c.termLength * 3;
      var senderPos := inner.senderPosition;
      if Wrap64(pubPositionLocal - senderPos) >= maxAhead {
        return BackPressured;
      }
      var partition := PartitionIndex(activeTermId, c.initialTermId);
      var newOffset := termOffset + Align32(HEADER + |payload|);
      if newOffset > c.termLength {
        WritePadFrame(partition);
        RotateTerm();
        return AdminAction;
      }
      WriteFrame(partition, payload);
      termOffset := newOffset;
      pubPositionLocal := ComputePosition(activeTermId, newOffset, c.initialTermId, c.termLength);
      inner.pubPosition := pubPositionLocal;
      return Ok(pubPositionLocal);
    }

    /** Steps 1 to 3 of `offer`: header with length 0, payload, commit. */
    method WriteFrame(partition: nat, payload: seq<Byte>)
      requires Valid() && partition < 4 && termOffset + HEADER + |payload| <= inner.c.termLength
      modifies inner.buffer
      ensures partition * inner.c.termLength >= 0
      ensures partition * inner.c.termLength + termOffset + HEADER + |payload| <= inner.buffer.Length
      ensures State() == old(State()).(
                buf := Splice(old(State()).buf, partition * inner.c.termLength + termOffset,
                              FrameFor(inner.c, old(State()), payload)))
    {
      hide Splice, HeaderBytes, IsPowerOfTwo, Wrap32, EncodeI32;
      var c := inner.c;
      PartitionFits(partition, c.termLength);
      var base := partition * c.termLength + termOffset;
      var length := EncodeI32(HEADER + |payload|);
      var header := HeaderBytes(0, FLAGS_UNFRAGMENTED, TYPE_DATA, termOffset, c.sessionId, c.streamId, activeTermId);
      CommitLastIsWholeFrame(inner.buffer[..], base, header, length, payload);
      HeaderSplits(HEADER + |payload|, FLAGS_UNFRAGMENTED, TYPE_DATA, termOffset, c.sessionId, c.streamId,
                   activeTermId);
      CopyInto(inner.buffer, base, header);
      CopyInto(inner.buffer, base + HEADER, payload);
      CopyInto(inner.buffer, base, length);
    }

    method WritePadFrame(partition: nat)
      requires Valid() && partition < 4
      modifies inner.buffer
      ensures State() == old(State()).(buf := WritePad(old(State()).buf, inner.c.termLength, partition, termOffset))
    {
      hide Splice, HeaderBytes, IsPowerOfTwo, Wrap32, EncodeI32;
      var remaining := inner.c.termLength - termOffset;
      if remaining < HEADER {
        return;
      }
      PartitionFits(partition, inner.c.termLength);
      var base := partition * inner.c.termLength + termOffset;
      var length, tail := EncodeI32(remaining), PadHeader(0, termOffset)[4..];
      CommitLastIsWholePad(inner.buffer[..], base, tail, length);
      HeaderSplits(remaining, 0, TYPE_PAD, termOffset, 0, 0, 0);
      CopyInto(inner.buffer, base + 4, tail);
      CopyInto(inner.buffer, base, length);
    }

    method RotateTerm()
      requires Valid()
      modifies this, inner.buffer
      ensures Valid()
      ensures var next := Wrap32(old(activeTermId) + 1);
              State() == old(State()).(
                buf := CleanPartition(old(State()).buf, inner.c.termLength,
                                      PartitionIndex(next, inner.c.initialTermId)),
                activeTermId := next, termOffset := 0)
    {
      activeTermId := Wrap32(activeTermId + 1);
      termOffset := 0;
      var partition := PartitionIndex(activeTermId, inner.c.initialTermId);
      PartitionFits(partition, inner.c.termLength);
      CopyInto(inner.buffer, partition * inner.c.termLength, Zeros(inner.c.termLength));
    }
  }

  /** `SenderPublication` */
  class Sender {
    const inner: PublicationInner
    var senderPositionLocal: int

    ghost predicate Valid()
      reads this, inner
    {
      && ConfigOk(inner.c) && inner.buffer.Length == 4 * inner.c.termLength
      && 0 <= senderPositionLocal == inner.senderPosition
    }

    constructor (inner: PublicationInner)
      requires ConfigOk(inner.c) && inner.buffer.Length == 4 * inner.c.termLength && inner.senderPosition == 0
      ensures Valid() && this.inner == inner
    {
      this.inner := inner;
      senderPositionLocal := 0;
    }

    /** `p` is the publication both handles belong to. */
    method SenderScan(limit: nat, ghost p: Pub) returns (r: ScanResult)
      requires Valid()
      requires PubOk(inner.c, p) && p.buf == inner.buffer[..] && p.senderPosition == senderPositionLocal
      modifies this, inner`senderPosition
      ensures Valid()
      ensures (p.(senderPosition := senderPositionLocal), r) == Publication.SenderScan(inner.c, p, limit)
    {
      hide Scan, Wrap32, IsPowerOfTwo;
      var c := inner.c;
      var termId := TermIdOf(senderPositionLocal, c.initialTermId, c.termLength);
      var offset := TermOffsetOf(senderPositionLocal, c.termLength);
      var partition := PartitionIndex(termId, c.initialTermId);
      var remaining := c.termLength - offset;
      var effectiveLimit := if limit < remaining then limit else remaining;
      var scanned, frames := NP.ScanFrames(inner.buffer, c.termLength, partition, offset, effectiveLimit);
      if scanned > 0 {
        senderPositionLocal := senderPositionLocal + scanned;
        inner.senderPosition := senderPositionLocal;
      }
      return ScanResult(scanned, frames);
    }
  }

  // ---- Both kinds of publication side by side ----

  datatype Call = OfferCall(payload: seq<Byte>) | ScanCall(limit: nat)

  datatype Reply = Offered(result: OfferResult) | Scanned(scan: ScanResult)

  /** A publication after some calls, and what they answered. */
  datatype Outcome = Outcome(pub: Pub, replies: seq<Reply>)

  function Serve(c: Config, o: Outcome, call: Call): (o': Outcome)
    requires PubOk(c, o.pub) && c.termLength > 0
    ensures PubOk(c, o'.pub)
  {
    match call
    case OfferCall(payload) =>
      var (p, result) := Publication.Offer(c, o.pub, payload);
      Outcome(p, o.replies + [Offered(result)])
    case ScanCall(limit) =>
      var (p, result) := Publication.SenderScan(c, o.pub, limit);
      Outcome(p, o.replies + [Scanned(result)])
  }

  function ServeAll(c: Config, calls: seq<Call>): (o: Outcome)
    requires ConfigOk(c)
    ensures PubOk(c, o.pub)
  {
    if |calls| == 0 then Outcome(InitialPub(c), [])
    else Serve(c, ServeAll(c, calls[..|calls| - 1]), calls[|calls| - 1])
  }

  /**
   Started alike and given the same calls, both publications give the replies of the functional
   publication and leave its bytes and positions.
   */
  method Lockstep(c: Config, calls: seq<Call>)
    returns (single: seq<Reply>, shared: seq<Reply>, ghost p: Pub, ghost q: Pub)
    requires ConfigOk(c)
    ensures single == shared == ServeAll(c, calls).replies
    ensures p == q == ServeAll(c, calls).pub
  {
    hide Publication.Offer, Publication.SenderScan, ConfigOk, PubOk;
    var net := new NP.NetworkPublication(c);
    var inner := new PublicationInner(c);
    var publisher := new Publisher(inner);
    var sender := new Sender(inner);
    single, shared := [], [];
    assert calls[..0] == [];
    for i := 0 to |calls|
      invariant net.Valid() && publisher.Valid() && sender.Valid()
      invariant net.c == c == inner.c && publisher.inner == inner == sender.inner
      invariant fresh(net) && fresh(net.buffer) && fresh(inner) && fresh(inner.buffer)
      invariant fresh(publisher) && fresh(sender)
      invariant net.buffer != inner.buffer
      invariant net.State() == publisher.State() == ServeAll(c, calls[..i]).pub
      invariant single == shared == ServeAll(c, calls[..i]).replies
    {
      assert calls[..i + 1][..i] == calls[..i];
      match calls[i]
      case OfferCall(payload) =>
        var a := net.Offer(payload);
        var b := publisher.Offer(payload);
        single, shared := single + [Offered(a)], shared + [Offered(b)];
      case ScanCall(limit) =>
        var a := net.SenderScan(limit);
        ghost var before := publisher.State();
        var b := sender.SenderScan(limit, before);
        assert publisher.State() == before.(senderPosition := sender.senderPositionLocal);
        single, shared := single + [Scanned(a)], shared + [Scanned(b)];
    }
    assert calls[..|calls|] == calls;
    p, q := net.State(), publisher.State();
  }
}
