/**
 A publication as a value: the log bytes, the publisher's write cursor and the two positions,
 with `offer` and `sender_scan` as functions.  Both the single-threaded and the concurrent
 publication are proved against these functions.
 */
module Publication {
  import opened Arith
  import opened Bytes
  import opened TermLog

  datatype Config = Config(sessionId: int, streamId: int, initialTermId: int, termLength: nat, mtu: nat)

  /** What construction checks, plus the widths within which the 32-bit sums stay exact. */
  ghost predicate ConfigOk(c: Config) {
    && HEADER <= c.mtu <= 0x2000_0000
    && HEADER <= c.termLength <= 0x2000_0000 && IsPowerOfTwo(c.termLength)
    && Aligned(c.termLength)
    && IsI32(c.sessionId) && IsI32(c.streamId) && IsI32(c.initialTermId)
  }

  datatype Pub = Pub(buf: seq<Byte>, activeTermId: int, termOffset: nat, pubPosition: int, senderPosition: int)

  ghost predicate PubOk(c: Config, p: Pub) {
    && |p.buf| == 4 * c.termLength
    && p.termOffset <= c.termLength
    && IsI32(p.activeTermId)
    && 0 <= p.senderPosition
  }

  function InitialPub(c: Config): Pub {
    Pub(Zeros(4 * c.termLength), c.initialTermId, 0, 0, 0)
  }

  datatype OfferResult = Ok(position: int) | BackPressured | AdminAction | PayloadTooLarge

  /** `offer` returns before touching the log. */
  predicate TooLarge(c: Config, payload: seq<Byte>) {
    |payload| + HEADER > c.mtu
  }

  predicate Backed(c: Config, p: Pub) {
    Wrap64(p.pubPosition - p.senderPosition) >= 3 * c.termLength
  }

  /** The frame does not fit the rest of the active term. */
  predicate Overflows(c: Config, p: Pub, payload: seq<Byte>) {
    p.termOffset + Align32(HEADER + |payload|) > c.termLength
  }

  predicate Rotates(c: Config, p: Pub, payload: seq<Byte>) {
    !TooLarge(c, payload) && !Backed(c, p) && Overflows(c, p, payload)
  }

  function ActivePartition(c: Config, p: Pub): nat {
    PartitionIndex(p.activeTermId, c.initialTermId)
  }

  function FrameFor(c: Config, p: Pub, payload: seq<Byte>): seq<Byte> {
    DataFrame(p.termOffset, c.sessionId, c.streamId, p.activeTermId, payload)
  }

  /** Pad the tail of the active term, move to the next one and clean its partition. */
  function RotateTerm(c: Config, p: Pub): (p': Pub)
    requires PubOk(c, p)
    ensures PubOk(c, p')
  {
    var padded := WritePad(p.buf, c.termLength, ActivePartition(c, p), p.termOffset);
    var next := Wrap32(p.activeTermId + 1);
    p.(buf := CleanPartition(padded, c.termLength, PartitionIndex(next, c.initialTermId)),
       activeTermId := next, termOffset := 0)
  }

  function AppendFrame(c: Config, p: Pub, payload: seq<Byte>): (p': Pub)
    requires PubOk(c, p) && !Overflows(c, p, payload)
    ensures PubOk(c, p')
  {
    PartitionFits(ActivePartition(c, p), c.termLength);
    var newOffset := p.termOffset + Align32(HEADER + |payload|);
    p.(buf := Splice(p.buf, ActivePartition(c, p) * c.termLength + p.termOffset, FrameFor(c, p, payload)),
       termOffset := newOffset,
       pubPosition := ComputePosition(p.activeTermId, newOffset, c.initialTermId, c.termLength))
  }

  function Offer(c: Config, p: Pub, payload: seq<Byte>): (r: (Pub, OfferResult))
    requires PubOk(c, p)
    ensures PubOk(c, r.0)
  {
    if TooLarge(c, payload) then (p, PayloadTooLarge)
    else if Backed(c, p) then (p, BackPressured)
    else if Overflows(c, p, payload) then (RotateTerm(c, p), AdminAction)
    else
      var p' := AppendFrame(c, p, payload);
      (p', Ok(p'.pubPosition))
  }

  /** `sender_scan` */
  function SenderScan(c: Config, p: Pub, limit: nat): (r: (Pub, ScanResult))
    requires PubOk(c, p) && c.termLength > 0
    ensures PubOk(c, r.0)
  {
    var termId := TermIdOf(p.senderPosition, c.initialTermId, c.termLength);
    var termOffset := TermOffsetOf(p.senderPosition, c.termLength);
    var partition := PartitionIndex(termId, c.initialTermId);
    var remaining := c.termLength - termOffset;
    PartitionFits(partition, c.termLength);
    var result := Scan(p.buf, partition * c.termLength, c.termLength, termOffset, 0,
                       if limit < remaining then limit else remaining);
    (p.(senderPosition := p.senderPosition + result.scanned), result)
  }
}
