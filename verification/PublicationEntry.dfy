/**
 The sender agent's entry for one publication: the flow-control limit and the round-trip estimate,
 updated in place, and the send cycle that clamps the scan.
 */
module PublicationEntry {
  import opened Arith
  import opened Bytes
  import opened TermLog
  import opened Publication
  import opened SenderControl
  import opened NetworkPublication
  import Runs = PublicationRuns

  class PublicationEntry {
    const publication: NetworkPublication
    var senderLimit: int
    var lastRttNs: int

    ghost predicate Valid()
      reads this, publication, publication.buffer
    {
      publication.Valid()
    }

    ghost function World(accepted: seq<seq<Byte>>, sent: seq<seq<Byte>>): Runs.World
      reads this, publication, publication.buffer
    {
      Runs.World(publication.State(), senderLimit, accepted, sent)
    }

    constructor (c: Config)
      requires ConfigOk(c)
      ensures Valid() && fresh(publication) && fresh(publication.buffer) && publication.c == c
      ensures World([], []) == Runs.InitialWorld(c) && lastRttNs == 0
    {
      publication := new NetworkPublication(c);
      senderLimit, lastRttNs := c.termLength, 0;
    }

    method UpdateSenderLimitFromSm(termId: int, termOffset: int, receiverWindow: int)
      requires Valid()
      modifies this`senderLimit
      ensures Valid() && senderLimit == UpdateLimit(publication.c, old(senderLimit), termId, termOffset, receiverWindow)
    {
      var c := publication.c;
      var position := ComputePosition(termId, AsU32(termOffset), c.initialTermId, c.termLength);
      var proposed := Wrap64(position + receiverWindow);
      var diff := Wrap64(proposed - senderLimit);
      if diff > 0 && diff < HALF_I64 {
        senderLimit := proposed;
      }
    }

    method UpdateRtt(sampleNs: int)
      modifies this`lastRttNs
      ensures lastRttNs == SenderControl.UpdateRtt(old(lastRttNs), sampleNs)
      ensures 0 < sampleNs < 0x3FFF_FFFF_FFFF_FFFF && old(lastRttNs) > 0 ==>
                -8 < 8 * lastRttNs - (7 * old(lastRttNs) + sampleNs) < 8
    {
      if sampleNs <= 0 || sampleNs >= HALF_I64 {
        return;
      }
      if lastRttNs == 0 {
        lastRttNs := sampleNs;
      } else {
        lastRttNs := (lastRttNs - lastRttNs / 8) + sampleNs / 8;
      }
    }

    /** The scan of one `do_send` cycle; returns what goes out on the wire. */
    method SendCycle(sendSlots: nat, ghost accepted: seq<seq<Byte>>, ghost sent: seq<seq<Byte>>)
      returns (frames: seq<seq<Byte>>)
      requires Valid()
      modifies publication
      ensures Valid() && senderLimit == old(senderLimit)
      ensures World(accepted, sent + frames)
           == Runs.Step(publication.c, old(World(accepted, sent)), Runs.SendOp(sendSlots))
    {
      hide Scan, Wrap64, Wrap32, IsPowerOfTwo, Transmitted, SenderScan;
      var windowAvail := Wrap64(senderLimit - publication.senderPosition);
      var dataAvail := Wrap64(publication.pubPosition - publication.senderPosition);
      var available := 0;
      if windowAvail > 0 && dataAvail > 0 {
        available := if windowAvail < dataAvail then windowAvail else dataAvail;
      }
      var limit := if available > TWO32 - 1 then TWO32 - 1 else available;
      var slotLimit := if sendSlots * publication.c.mtu < TWO64 - 1 then sendSlots * publication.c.mtu else TWO64 - 1;
      if slotLimit < limit {
        limit := slotLimit;
      }
      frames := [];
      if limit > 0 {
        var result := publication.SenderScan(limit);
        frames := Transmitted(result.frames);
      } else {
        assert sent + [] == sent;
      }
    }
  }
}
