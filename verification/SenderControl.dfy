/**
 The sender's control arithmetic: the flow-control limit fed by status messages, the scan
 limit of one duty cycle, and the smoothed round-trip time.
 */
module SenderControl {
  import opened Arith
  import opened Publication

  function Max(a: int, b: int): int { if a < b then b else a }

  function Min(a: int, b: int): int { if a < b then a else b }

  // ---- Flow-control limit ----

  /** The position a status message allows the sender to reach. */
  function Proposal(c: Config, termId: int, termOffset: int, receiverWindow: int): int {
    Wrap64(ComputePosition(termId, AsU32(termOffset), c.initialTermId, c.termLength) + receiverWindow)
  }

  /** `update_sender_limit_from_sm` */
  function UpdateLimit(c: Config, limit: int, termId: int, termOffset: int, receiverWindow: int): int {
    var proposed := Proposal(c, termId, termOffset, receiverWindow);
    var diff := Wrap64(proposed - limit);
    if 0 < diff < HALF_I64 then proposed else limit
  }

  const LIMIT_RANGE: int := 0x2000_0000_0000_0000 // 2^61

  lemma ProposalInRange(c: Config, termId: int, termOffset: int, receiverWindow: int)
    requires ConfigOk(c) && IsI32(receiverWindow)
    ensures -LIMIT_RANGE < Proposal(c, termId, termOffset, receiverWindow) < LIMIT_RANGE
    ensures Proposal(c, termId, termOffset, receiverWindow)
         == ComputePosition(termId, AsU32(termOffset), c.initialTermId, c.termLength) + receiverWindow
  {
    var count := Wrap32(termId - c.initialTermId);
    var product := count * c.termLength;
    assert -TWO31 * 0x2000_0000 <= product <= TWO31 * 0x2000_0000 by {
      MulStep(count, TWO31, c.termLength);
      MulStep(-TWO31, count, c.termLength);
      MulStep(c.termLength, 0x2000_0000, TWO31);
      assert TWO31 * c.termLength == c.termLength * TWO31;
      assert -TWO31 * c.termLength == -(c.termLength * TWO31);
    }
  }

  /** The half-range comparison never misjudges: the limit becomes the larger of the two positions. */
  lemma UpdateLimitIsMax(c: Config, limit: int, termId: int, termOffset: int, receiverWindow: int)
    requires ConfigOk(c) && IsI32(receiverWindow)
    requires -LIMIT_RANGE < limit < LIMIT_RANGE
    ensures UpdateLimit(c, limit, termId, termOffset, receiverWindow)
         == Max(limit, Proposal(c, termId, termOffset, receiverWindow))
  {
    ProposalInRange(c, termId, termOffset, receiverWindow);
  }

  // ---- Scan limit of one duty cycle ----

  /** The byte limit `do_send` passes to `sender_scan`; the scan is skipped when it is 0. */
  function ScanLimit(senderLimit: int, senderPosition: int, pubPosition: int, sendSlots: nat, mtu: nat): (limit: nat)
    ensures limit < TWO32
  {
    var window := Wrap64(senderLimit - senderPosition);
    var data := Wrap64(pubPosition - senderPosition);
    var available := if window <= 0 || data <= 0 then 0 else Min(window, data);
    var limit := Min(available, TWO32 - 1);
    var slotLimit := Min(sendSlots * mtu, TWO64 - 1);
    if slotLimit < limit then slotLimit else limit
  }

  /** The scan limit reaches neither past the published data nor past the flow-control limit. */
  lemma ScanLimitClamps(senderLimit: int, senderPosition: int, pubPosition: int, sendSlots: nat, mtu: nat)
    requires -LIMIT_RANGE < senderLimit < LIMIT_RANGE
    requires 0 <= senderPosition <= pubPosition < LIMIT_RANGE
    ensures var limit := ScanLimit(senderLimit, senderPosition, pubPosition, sendSlots, mtu);
            && limit <= pubPosition - senderPosition
            && (limit > 0 ==> limit <= senderLimit - senderPosition)
  {
  }

  /** In range the scan limit is the least of window, published data and send slots, and never negative. */
  lemma ScanLimitExactly(senderLimit: int, senderPosition: int, pubPosition: int, sendSlots: nat, mtu: nat)
    requires -LIMIT_RANGE < senderLimit < LIMIT_RANGE
    requires 0 <= senderPosition <= pubPosition < LIMIT_RANGE
    ensures ScanLimit(senderLimit, senderPosition, pubPosition, sendSlots, mtu)
         == Max(0, Min(Min(senderLimit - senderPosition, pubPosition - senderPosition),
                       Min(sendSlots * mtu, 0xFFFF_FFFF)))
  {
    var slots := sendSlots * mtu;
    assert slots >= 0;
  }

  // ---- Smoothed round-trip time ----

  predicate SampleAccepted(sampleNs: int) {
    0 < sampleNs < HALF_I64
  }

  /** `update_rtt`: gain 1/8 as in section 2 of RFC 6298, with both shifts rounding down. */
  function UpdateRtt(srtt: int, sampleNs: int): int {
    if !SampleAccepted(sampleNs) then srtt
    else if srtt == 0 then sampleNs
    else (srtt - srtt / 8) + sampleNs / 8
  }

  function Srtt(samples: seq<int>): int {
    if |samples| == 0 then 0 else UpdateRtt(Srtt(samples[..|samples| - 1]), samples[|samples| - 1])
  }

  /**
   The estimate is 0 exactly while no sample was accepted, and from then on lies between any
   bounds on the accepted samples: it never returns to 0 and never leaves the 64-bit range.
   */
  lemma {:induction false} SrttBetweenSamples(samples: seq<int>, lo: int, hi: int)
    requires 0 < lo <= hi < HALF_I64
    requires forall i :: 0 <= i < |samples| && SampleAccepted(samples[i]) ==> lo <= samples[i] <= hi
    ensures if exists i :: 0 <= i < |samples| && SampleAccepted(samples[i])
            then lo <= Srtt(samples) <= hi
            else Srtt(samples) == 0
  {
    if |samples| > 0 {
      var front, last := samples[..|samples| - 1], samples[|samples| - 1];
      SrttBetweenSamples(front, lo, hi);
      assert forall i :: 0 <= i < |front| ==> front[i] == samples[i];
      if exists i :: 0 <= i < |front| && SampleAccepted(front[i]) {
        var i :| 0 <= i < |front| && SampleAccepted(front[i]);
        assert SampleAccepted(samples[i]);
        SmoothingStays(Srtt(front), last, lo, hi);
      }
    }
  }

  lemma SmoothingStays(srtt: int, sampleNs: int, lo: int, hi: int)
    requires 0 < lo <= srtt <= hi && (SampleAccepted(sampleNs) ==> lo <= sampleNs <= hi)
    ensures lo <= UpdateRtt(srtt, sampleNs) <= hi
  {
  }

  /**
   What a sample does: outside 1 .. 2^62 - 2 nothing; the first is taken as it is; any other moves the
   estimate by an eighth of the way, to within one unit of rounding.
   */
  lemma RttGain(srtt: int, sampleNs: int)
    requires srtt >= 0
    ensures !(0 < sampleNs < 0x3FFF_FFFF_FFFF_FFFF) ==> UpdateRtt(srtt, sampleNs) == srtt
    ensures 0 < sampleNs < 0x3FFF_FFFF_FFFF_FFFF && srtt == 0 ==> UpdateRtt(srtt, sampleNs) == sampleNs
    ensures 0 < sampleNs < 0x3FFF_FFFF_FFFF_FFFF && srtt > 0 ==>
              -8 < 8 * UpdateRtt(srtt, sampleNs) - (7 * srtt + sampleNs) < 8
  {
  }

  function Distance(a: int, b: int): nat { if a < b then b - a else a - b }

  /** One more equal sample: the estimate comes closer, unless it is within rounding already. */
  lemma Closer(srtt: int, sampleNs: int)
    requires srtt > 0 && SampleAccepted(sampleNs)
    ensures UpdateRtt(srtt, sampleNs) > 0
    ensures Distance(srtt, sampleNs) < 8 ==> Distance(UpdateRtt(srtt, sampleNs), sampleNs) < 8
    ensures Distance(srtt, sampleNs) >= 8 ==> Distance(UpdateRtt(srtt, sampleNs), sampleNs) < Distance(srtt, sampleNs)
  {
  }

  /** Equal samples bring the estimate, whatever it was, to within 7 of them, and it stays there. */
  lemma {:induction false} SrttConverges(samples: seq<int>, sampleNs: int, n: nat)
    requires SampleAccepted(sampleNs) && n > Distance(Srtt(samples), sampleNs)
    ensures Distance(Srtt(samples + seq(n, _ => sampleNs)), sampleNs) < 8
  {
    hide UpdateRtt;
    SrttBetweenSamples(samples, 1, HALF_I64 - 1);
    var first := samples + [sampleNs];
    assert first[..|samples|] == samples;
    FirstSample(Srtt(samples), sampleNs);
    SrttRepeats(first, sampleNs, n - 1);
    assert first + seq(n - 1, _ => sampleNs) == samples + seq(n, _ => sampleNs);
  }

  lemma FirstSample(srtt: int, sampleNs: int)
    requires srtt >= 0 && SampleAccepted(sampleNs)
    ensures UpdateRtt(srtt, sampleNs) > 0
    ensures Distance(UpdateRtt(srtt, sampleNs), sampleNs) < 8
            || Distance(UpdateRtt(srtt, sampleNs), sampleNs) < Distance(srtt, sampleNs)
  {
    if srtt > 0 {
      Closer(srtt, sampleNs);
    }
  }

  lemma {:induction false} SrttRepeats(samples: seq<int>, sampleNs: int, n: nat)
    requires SampleAccepted(sampleNs) && Srtt(samples) > 0
    requires n >= Distance(Srtt(samples), sampleNs) || Distance(Srtt(samples), sampleNs) < 8
    ensures Distance(Srtt(samples + seq(n, _ => sampleNs)), sampleNs) < 8
    decreases n
  {
    hide UpdateRtt;
    if n == 0 {
      assert samples + seq(n, _ => sampleNs) == samples;
    } else {
      var more := samples + [sampleNs];
      assert more[..|samples|] == samples;
      Closer(Srtt(samples), sampleNs);
      SrttRepeats(more, sampleNs, n - 1);
      assert more + seq(n - 1, _ => sampleNs) == samples + seq(n, _ => sampleNs);
    }
  }
}
