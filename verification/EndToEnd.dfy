/**
 From `offer` to the subscriber: a publication run on one side, an image run on the other, and a
 network in between that loses, duplicates, delays and reorders whole datagrams.
 */
module EndToEnd {
  import opened Arith
  import opened Bytes
  import opened TermLog
  import opened Publication
  import opened PublicationHistory
  import Runs = PublicationRuns
  import I = Image
  import S = ImageStream
  import P = ImagePoll
  import D = ImageDelivery
  import W = ImageWindow
  import K = ImageIndex
  import Control = SenderControl

  /** What the receiver makes of a datagram that starts with a data header. */
  function Parse(data: seq<Byte>): I.Wire
    requires |data| >= HEADER
  {
    var frameLength := DecodeI32(data, 0);
    I.Wire(DecodeI32(data, 20), DecodeI32(data, 8), data[..HEADER],
           if HEADER < frameLength <= |data| then data[HEADER..frameLength] else [])
  }

  /** The stream a datagram belongs to, by which the receiver looks up the image. */
  function KeyOf(data: seq<Byte>): K.Key
    requires |data| >= HEADER
  {
    K.Key(DecodeI32(data, 12), DecodeI32(data, 16))
  }

  // ---- Frames carry their own place ----

  /** The header of a data frame names the term and the offset where the frame stands. */
  ghost predicate Labelled(c: Config, r: Rec) {
    r.data ==>
      && c.termLength > 0 && |r.bytes| >= HEADER
      && DecodeI32(r.bytes, 8) == r.pos % c.termLength
      && DecodeI32(r.bytes, 20) == Wrap32(c.initialTermId + r.pos / c.termLength)
  }

  lemma OfferLabelled(c: Config, p: Pub, h: seq<Rec>, n: nat, payload: seq<Byte>)
    requires Cursors(c, p, h, n) && !Overflows(c, p, payload)
    ensures WritePosition(c, p) >= 0 && Labelled(c, OfferRec(c, p, payload))
  {
    hide Wrap32, Align32, Aligned, IsPowerOfTwo, DecodeI32, DataFrame, HistoryOk;
    WriteSlot(c, p);
    DivModUnique(WritePosition(c, p), TermCount(c, p), p.termOffset, c.termLength);
    DataFrameRoundTrip(p.termOffset, c.sessionId, c.streamId, p.activeTermId, payload);
  }

  ghost predicate AllLabelled(c: Config, h: seq<Rec>) {
    forall i :: 0 <= i < |h| ==> Labelled(c, h[i])
  }

  /** Where the publication stood after its first `m` operations. */
  function WriteCursor(c: Config, ops: seq<Runs.Op>, m: nat): int
    requires ConfigOk(c) && m <= |ops|
  {
    WritePosition(c, Runs.Run(c, Runs.InitialWorld(c), ops[..m]).pub)
  }

  /** Position `q` has been reached, and no frame lies across it. */
  ghost predicate Reached(h: seq<Rec>, q: int) {
    0 <= q <= NextPos(h) && P.NotInside(h, q)
  }

  /**
   The history behind a publication run: every frame is labelled with its place, and where the write
   cursor stood earlier is a frame boundary.
   */
  lemma {:induction false} RunLabelled(c: Config, ops: seq<Runs.Op>, a: nat, m: nat) returns (h: seq<Rec>, n: nat)
    requires ConfigOk(c) && Runs.RunOk(c, ops, a) && a > 0 && m <= |ops|
    ensures Runs.Explained(c, Runs.Run(c, Runs.InitialWorld(c), ops), h, n, a) && AllLabelled(c, h)
    ensures Reached(h, WriteCursor(c, ops, m))
  {
    hide Runs.Explained, Runs.Step, Labelled, Runs.Safe, Runs.TermsLeft, Runs.OpOk, Reached, WritePosition;
    var w := Runs.Run(c, Runs.InitialWorld(c), ops);
    if |ops| == 0 {
      h, n := [], 0;
      Runs.InitialExplained(c, a);
    } else {
      var front, op := ops[..|ops| - 1], ops[|ops| - 1];
      var m1 := if m < |ops| then m else m - 1;
      h, n := RunLabelled(c, front, a, m1);
      var w1 := Runs.Run(c, Runs.InitialWorld(c), front);
      assert m < |ops| ==> front[..m] == ops[..m];
      var q := WriteCursor(c, front, m1);
      if op.OfferOp? {
        h := OfferStepLabelled(c, w1, op.payload, h, n, a, q);
      } else {
        h, n := Runs.StepExplained(c, w1, op, h, n, a);
      }
    }
    if m == |ops| {
      assert ops[..m] == ops;
      CursorReached(c, w, h, n, a);
    }
  }

  /** The write cursor is a frame boundary. */
  lemma CursorReached(c: Config, w: Runs.World, h: seq<Rec>, n: nat, a: nat)
    requires Runs.Explained(c, w, h, n, a)
    ensures Reached(h, WritePosition(c, w.pub))
  {
    hide Shown, DataFrames, Wrap32, RecOk, DataEnd, End, IsPowerOfTwo, Aligned;
    forall j | 0 <= j < |h| ensures End(h[j]) <= NextPos(h) {
      PositionsOrdered(h, j, |h|);
    }
  }

  lemma OfferStepLabelled(c: Config, w: Runs.World, payload: seq<Byte>, h: seq<Rec>, n: nat, a: nat, q: int)
    returns (h': seq<Rec>)
    requires Runs.Explained(c, w, h, n, a) && Runs.OpOk(Runs.OfferOp(payload), a) && AllLabelled(c, h)
    requires Runs.Safe(c, w, Runs.OfferOp(payload)) && Runs.TermsLeft(c, w) && Reached(h, q)
    ensures PubOk(c, w.pub) && c.termLength > 0
    ensures Runs.Explained(c, Runs.Step(c, w, Runs.OfferOp(payload)), h', n, a) && AllLabelled(c, h')
    ensures Reached(h', q)
  {
    hide Runs.Explained, Runs.Step, Labelled, Runs.Safe, Runs.TermsLeft, Wrap32, Align32, Backed, Reached,
         WritePosition, Overflows, FrameFor, PadHeader;
    Runs.ExplainedCursors(c, w, h, n, a);
    Runs.TracksBounds(c, w.pub, h, n);
    h' := Runs.OfferExplained(c, w, payload, h, n, a);
    if !Overflows(c, w.pub, payload) {
      OfferLabelled(c, w.pub, h, n, payload);
    }
    PadLabelled(c, w.pub);
    if |h'| > |h| {
      AppendReached(c, w.pub, h, n, h'[|h|], q);
    }
  }

  lemma AppendReached(c: Config, p: Pub, h: seq<Rec>, n: nat, r: Rec, q: int)
    requires Cursors(c, p, h, n) && Reached(h, q) && r.pos == WritePosition(c, p)
    ensures Reached(h + [r], q)
  {
    hide Wrap32, Align32, Aligned, IsPowerOfTwo, HistoryOk, DataEnd, Start;
    var h' := h + [r];
    forall j | 0 <= j < |h'| ensures q <= h'[j].pos || End(h'[j]) <= q {
      assert j < |h| ==> h'[j] == h[j];
    }
  }

  lemma PadLabelled(c: Config, p: Pub)
    ensures forall pos, len, bytes :: Labelled(c, Rec(pos, len, bytes, false))
  {
  }

  // ---- The stream the network carries ----

  /** A run whose frames fit a datagram is a stream an image can be fed with. */
  lemma RunIsStream(c: Config, w: Runs.World, h: seq<Rec>, n: nat, a: nat)
    requires Runs.Explained(c, w, h, n, a) && a < HEADER + 0x1_0000
    ensures S.StreamOk(c.termLength, h)
  {
    hide Wrap32, Align32, Aligned, IsPowerOfTwo, Shown, DecodeI32, DecodeU16, Contiguous, DataFrames, DataEnd;
    PublicationScanBound(c, w.pub, h, n);
    forall i | 0 <= i < |h| && h[i].data ensures |h[i].bytes| < HEADER + 0x1_0000 {
      assert RecOk(c.termLength, h[i]) && Align32(h[i].len) <= a;
    }
  }

  lemma PublicationScanBound(c: Config, p: Pub, h: seq<Rec>, n: nat)
    requires Cursors(c, p, h, n)
    ensures NextPos(h) <= TWO31 * c.termLength
  {
    hide Wrap32, IsPowerOfTwo, Aligned, RecOk, Contiguous;
    TermBases(TermCount(c, p), c.termLength);
    MulStep(TermCount(c, p) + 1, TWO31, c.termLength);
  }

  /** Number of data frames before record `i`: its place among the accepted frames. */
  function Rank(h: seq<Rec>, i: nat): nat
    requires i <= |h|
  {
    |DataFrames(h[..i])|
  }

  lemma {:induction false} AcceptedAt(h: seq<Rec>, i: nat)
    requires i < |h| && h[i].data
    ensures Rank(h, i) < |DataFrames(h)| && DataFrames(h)[Rank(h, i)] == h[i].bytes
  {
    var front := h[..|h| - 1];
    if i < |front| {
      AcceptedAt(front, i);
      assert front[..i] == h[..i];
    }
  }

  lemma RankOrdered(h: seq<Rec>, i: nat, j: nat)
    requires i < j < |h| && h[i].data
    ensures Rank(h, i) < Rank(h, j)
  {
    assert h[..j][..i] == h[..i];
    AcceptedAt(h[..j], i);
  }

  /** The receiver parses a frame of the stream back into its place and payload. */
  lemma ParseIsWire(c: Config, x: I.Image, h: seq<Rec>, i: nat)
    requires S.StreamOk(c.termLength, h) && AllLabelled(c, h) && S.IsData(h, i)
    requires x.initialTermId == c.initialTermId && x.termLength == c.termLength
    ensures |h[i].bytes| >= HEADER && Parse(h[i].bytes) == S.WireOf(x, h[i])
  {
    hide Align32, Wrap32, Aligned, Contiguous, DecodeI32, DecodeU16;
    assert Labelled(c, h[i]) && RecOk(c.termLength, h[i]);
    var bytes := h[i].bytes;
    if |bytes| == HEADER {
      assert bytes[HEADER..] == [];
    } else {
      assert bytes[HEADER..|bytes|] == bytes[HEADER..];
    }
  }

  // ---- The whole way ----

  /** `delivered` are the elements `place[0] < place[1] < ...` of `payloads`. */
  ghost predicate Subsequence(delivered: seq<seq<Byte>>, payloads: seq<seq<Byte>>, place: seq<nat>) {
    && |place| == |delivered| && P.Increasing(place)
    && forall k :: 0 <= k < |place| ==> place[k] < |payloads| && delivered[k] == payloads[place[k]]
  }

  /** `delivered` are the payloads of frames `place[0] < place[1] < ...`. */
  ghost predicate SubsequenceOfPayloads(delivered: seq<seq<Byte>>, accepted: seq<seq<Byte>>, place: seq<nat>) {
    && |place| == |delivered| && P.Increasing(place)
    && forall k :: 0 <= k < |place| ==>
         place[k] < |accepted| && |accepted[place[k]]| >= HEADER && delivered[k] == accepted[place[k]][HEADER..]
  }

  /** The payloads of the accepted frames are the payloads that were offered. */
  lemma FramesToPayloads(c: Config, ops: seq<Runs.Op>, delivered: seq<seq<Byte>>, place: seq<nat>)
    requires ConfigOk(c)
    requires SubsequenceOfPayloads(delivered, Runs.Run(c, Runs.InitialWorld(c), ops).accepted, place)
    ensures Subsequence(delivered, Runs.Offered(c, ops), place)
  {
    hide Runs.Run, Runs.Offered, HeaderIs;
    Runs.AcceptedCarry(c, ops);
    var accepted := Runs.Run(c, Runs.InitialWorld(c), ops).accepted;
    forall k | 0 <= k < |place|
      ensures place[k] < |Runs.Offered(c, ops)| && delivered[k] == Runs.Offered(c, ops)[place[k]]
    {
      assert Runs.Carries(c, accepted[place[k]], Runs.Offered(c, ops)[place[k]]);
    }
  }

  /** Every datagram sent belongs to the publication's own stream, so the receiver finds the image for it. */
  lemma SentKey(c: Config, ops: seq<Runs.Op>, a: nat, d: seq<Byte>)
    requires ConfigOk(c) && Runs.RunOk(c, ops, a) && a > 0 && d in Runs.Run(c, Runs.InitialWorld(c), ops).sent
    ensures |d| >= HEADER && KeyOf(d) == K.Key(c.sessionId, c.streamId)
  {
    hide Runs.Run, Runs.Offered, Runs.RunOk;
    Runs.SentInOrder(c, ops, a);
    Runs.AcceptedCarry(c, ops);
    var w := Runs.Run(c, Runs.InitialWorld(c), ops);
    var i :| 0 <= i < |w.sent| && w.sent[i] == d;
    assert w.sent[i] == w.accepted[i];
    assert Runs.Carries(c, w.accepted[i], Runs.Offered(c, ops)[i]);
  }

  lemma PicksAreSubsequence(tl: nat, h: seq<Rec>, picked: seq<nat>) returns (place: seq<nat>)
    requires HistoryOk(tl, h) && P.Increasing(picked)
    requires forall k :: 0 <= k < |picked| ==> S.IsData(h, picked[k])
    ensures SubsequenceOfPayloads(P.Payloads(h, picked), DataFrames(h), place)
  {
    hide DataFrames, Contiguous, Align32;
    place := seq(|picked|, k requires 0 <= k < |picked| => Rank(h, picked[k]));
    forall k | 0 <= k < |place|
      ensures place[k] < |DataFrames(h)| && DataFrames(h)[place[k]] == h[picked[k]].bytes
      ensures |h[picked[k]].bytes| >= HEADER
    {
      assert RecOk(tl, h[picked[k]]);
      AcceptedAt(h, picked[k]);
    }
    forall j, k | 0 <= j < k < |place| ensures place[j] < place[k] {
      RankOrdered(h, picked[j], picked[k]);
    }
  }

  // ---- Datagrams in, fragments out ----

  datatype Op =
    | Arrive(datagram: seq<Byte>, now: int) // a datagram reaches the receiver, perhaps late or again
    | PollOp(limit: int)
    | SmOp(now: int)

  /** The image for `key` gets the datagrams whose header names it; others pass it by. */
  function Step(c: W.Settings, key: K.Key, w: D.World, op: Op): D.World
    requires w.image.termLength > 0 && |w.image.buf| == 4 * w.image.termLength
    requires op.Arrive? ==> |op.datagram| >= HEADER
  {
    var x := w.image;
    match op
    case Arrive(datagram, now) =>
      if KeyOf(datagram) == key then w.(image := I.OnData(x, Parse(datagram), now, c.nakDelay, c.sendSmOnData)) else w
    case PollOp(limit) => D.World(I.Poll(x, limit).0, w.delivered + I.Poll(x, limit).1)
    case SmOp(now) => if I.SmDue(x, now, c.smInterval) then w.(image := I.AfterSm(x, now)) else w
  }

  /** `w'` follows `w`; what arrives was sent, and a poll finds the subscriber's term in the window. */
  ghost predicate Follows(c: W.Settings, key: K.Key, sent: seq<seq<Byte>>, w: D.World, op: Op, w': D.World) {
    && w.image.termLength > 0 && |w.image.buf| == 4 * w.image.termLength
    && (op.Arrive? ==> op.datagram in sent && |op.datagram| >= HEADER)
    && (op.PollOp? ==> D.PollOk(w.image))
    && w' == Step(c, key, w, op)
  }

  /** The image is created by a setup frame sent after the publication's first `m` operations. */
  ghost predicate IsRun(c: Config, ops: seq<Runs.Op>, m: nat, settings: W.Settings, worlds: seq<D.World>,
                        steps: seq<Op>)
    requires ConfigOk(c) && m <= |ops|
  {
    var p := Runs.Run(c, Runs.InitialWorld(c), ops[..m]).pub;
    && |worlds| == |steps| + 1
    && worlds[0] == D.World(I.NewImage(c.initialTermId, p.activeTermId, c.termLength, p.termOffset), [])
    && forall k :: 0 <= k < |steps| ==>
         Follows(settings, K.Key(c.sessionId, c.streamId), Runs.Run(c, Runs.InitialWorld(c), ops).sent,
                 worlds[k], steps[k], worlds[k + 1])
  }

  /** A datagram that was sent is a data frame of the history. */
  lemma {:induction false} SentFrame(h: seq<Rec>, d: seq<Byte>) returns (i: nat)
    requires d in DataFrames(h)
    ensures S.IsData(h, i) && h[i].bytes == d
  {
    var last := |h| - 1;
    if h[last].data && h[last].bytes == d {
      i := last;
    } else {
      i := SentFrame(h[..last], d);
    }
  }

  lemma SentInHistory(c: Config, w: Runs.World, h: seq<Rec>, n: nat, a: nat, d: seq<Byte>) returns (i: nat)
    requires Runs.Explained(c, w, h, n, a) && d in w.sent
    ensures S.IsData(h, i) && h[i].bytes == d
  {
    hide Tracks, DataFrames;
    Runs.ExplainedCursors(c, w, h, n, a);
    Runs.TracksBounds(c, w.pub, h, n);
    i := SentFrame(h[..n], d);
  }

  /** The setup frame names where the write cursor stood, so the new image starts on a frame boundary. */
  lemma SetupFed(c: Config, w: Runs.World, h0: seq<Rec>, n0: nat, a: nat, h: seq<Rec>)
    requires Runs.Explained(c, w, h0, n0, a) && S.StreamOk(c.termLength, h) && Reached(h, WritePosition(c, w.pub))
    ensures D.Fed(I.NewImage(c.initialTermId, w.pub.activeTermId, c.termLength, w.pub.termOffset), h, {})
  {
    hide Wrap32, IsPowerOfTwo, Aligned, S.StreamOk, P.NotInside, HistoryOk, Shown, DataFrames, D.Fed, DataEnd, Start;
    D.FreshFed(h, c.initialTermId, w.pub.activeTermId, c.termLength, w.pub.termOffset);
  }

  /** The image keeps the publication's term ids and term length. */
  ghost predicate SameStream(c: Config, x: I.Image) {
    x.initialTermId == c.initialTermId && x.termLength == c.termLength
  }

  lemma StepSameStream(c: Config, settings: W.Settings, key: K.Key, w: D.World, op: Op)
    requires w.image.termLength > 0 && |w.image.buf| == 4 * w.image.termLength
    requires (op.Arrive? ==> |op.datagram| >= HEADER) && SameStream(c, w.image)
    ensures SameStream(c, Step(settings, key, w, op).image)
  {
    hide I.PollFrom, I.CleanAhead, Wrap32, Wrap64, Splice, Align32;
  }

  /** One step on datagrams is one step on frames of the history. */
  lemma StepIsFrameStep(c: Config, settings: W.Settings, key: K.Key, h: seq<Rec>, w: D.World, op: Op, i: nat)
    requires w.image.termLength > 0 && |w.image.buf| == 4 * w.image.termLength && SameStream(c, w.image)
    requires S.StreamOk(c.termLength, h) && AllLabelled(c, h)
    requires op.Arrive? ==> S.IsData(h, i) && h[i].bytes == op.datagram && |op.datagram| >= HEADER
    requires op.Arrive? ==> KeyOf(op.datagram) == key
    ensures op.Arrive? ==> |op.datagram| >= HEADER && i < |h|
    ensures Step(settings, key, w, op) == D.Step(settings, h, w, FrameOp(op, i))
  {
    hide I.OnData, I.Poll, S.StreamOk, AllLabelled, Parse, KeyOf;
    if op.Arrive? {
      ParseIsWire(c, w.image, h, i);
    }
  }

  function FrameOp(op: Op, i: nat): D.Op {
    match op
    case Arrive(_, now) => D.Arrive(i, now)
    case PollOp(limit) => D.PollOp(limit)
    case SmOp(now) => D.SmOp(now)
  }

  lemma {:induction false} RunFed(c: Config, ops: seq<Runs.Op>, a: nat, m: nat, settings: W.Settings, h: seq<Rec>,
                                  n: nat, worlds: seq<D.World>, steps: seq<Op>, k: nat)
    returns (stored: set<nat>, picked: seq<nat>)
    requires ConfigOk(c) && m <= |ops| && IsRun(c, ops, m, settings, worlds, steps) && k < |worlds|
    requires Runs.Explained(c, Runs.Run(c, Runs.InitialWorld(c), ops), h, n, a) && Runs.RunOk(c, ops, a) && a > 0
    requires S.StreamOk(c.termLength, h) && AllLabelled(c, h) && D.Fed(worlds[0].image, h, {})
    ensures SameStream(c, worlds[k].image) && D.Fed(worlds[k].image, h, stored) && D.Delivered(h, worlds[k], picked)
    decreases k
  {
    hide Runs.Run, Runs.Explained, D.Fed, D.Delivered, S.StreamOk, AllLabelled, Step, D.PollOk, D.PollAccounts,
         SameStream, Runs.RunOk, KeyOf;
    if k == 0 {
      stored, picked := {}, [];
      D.NothingDelivered(h, worlds[0]);
      assert SameStream(c, worlds[0].image) by { NewSameStream(c, worlds[0].image.activeTermId, worlds[0].image); }
    } else {
      var w, op := worlds[k - 1], steps[k - 1];
      stored, picked := RunFed(c, ops, a, m, settings, h, n, worlds, steps, k - 1);
      var key := K.Key(c.sessionId, c.streamId);
      assert Follows(settings, key, Runs.Run(c, Runs.InitialWorld(c), ops).sent, w, op, worlds[k - 1 + 1]);
      var i := 0;
      if op.Arrive? {
        i := SentInHistory(c, Runs.Run(c, Runs.InitialWorld(c), ops), h, n, a, op.datagram);
        SentKey(c, ops, a, op.datagram);
      }
      StepIsFrameStep(c, settings, key, h, w, op, i);
      StepSameStream(c, settings, key, w, op);
      var more;
      stored, more := D.StepKeeps(settings, h, w, FrameOp(op, i), stored, picked);
      picked := picked + more;
    }
  }

  lemma NewSameStream(c: Config, activeTermId: int, x: I.Image)
    requires x.initialTermId == c.initialTermId && x.termLength == c.termLength
    ensures SameStream(c, x)
  {
  }

  /**
   From `offer` to the subscriber: for every publication run, every setup frame it sends, and every
   sequence of arrivals of the datagrams it sent - lost, repeated, late, in any order - interleaved with
   polls, what the subscriber has been handed are payloads whose offers were accepted, unchanged, in the
   order offered, none of them twice.
   */
  lemma SubscriberSeesSubsequence(c: Config, ops: seq<Runs.Op>, a: nat, m: nat, settings: W.Settings,
                                  worlds: seq<D.World>, steps: seq<Op>, k: nat)
    returns (place: seq<nat>)
    requires ConfigOk(c) && Runs.RunOk(c, ops, a) && 0 < a < HEADER + 0x1_0000 && m <= |ops|
    requires IsRun(c, ops, m, settings, worlds, steps) && k < |worlds|
    ensures Subsequence(worlds[k].delivered, Runs.Offered(c, ops), place)
  {
    hide Runs.Run, D.Fed, P.Payloads, SubsequenceOfPayloads, DataFrames, S.StreamOk, AllLabelled, Reached,
         Runs.RunOk, Follows, WritePosition, Tracks, Subsequence, Runs.Offered;
    var h, n := RunLabelled(c, ops, a, m);
    var w := Runs.Run(c, Runs.InitialWorld(c), ops);
    RunIsStream(c, w, h, n, a);
    PrefixOk(c, ops, a, m);
    var h0, n0 := Runs.RunExplained(c, ops[..m], a);
    SetupFed(c, Runs.Run(c, Runs.InitialWorld(c), ops[..m]), h0, n0, a, h);
    var stored, picked := RunFed(c, ops, a, m, settings, h, n, worlds, steps, k);
    P.StreamParts(c.termLength, h);
    place := PicksAreSubsequence(c.termLength, h, picked);
    FramesToPayloads(c, ops, worlds[k].delivered, place);
  }

  /**
   The way back: whenever the receiver of such a run sends a status message, its term id and offset
   raise the sender's limit to the advertised position plus the window, and never lower it.
   */
  lemma SmRaisesLimit(c: Config, ops: seq<Runs.Op>, a: nat, m: nat, settings: W.Settings,
                      worlds: seq<D.World>, steps: seq<Op>, k: nat, limit: int, window: int)
    requires ConfigOk(c) && Runs.RunOk(c, ops, a) && 0 < a < HEADER + 0x1_0000 && m <= |ops|
    requires IsRun(c, ops, m, settings, worlds, steps) && k < |worlds|
    requires IsI32(window) && -Control.LIMIT_RANGE < limit < Control.LIMIT_RANGE
    ensures var x := worlds[k].image;
            Control.UpdateLimit(c, limit, x.consumptionTermId, x.consumptionTermOffset, window)
            == Control.Max(limit, W.ConsumptionPosition(x) + window)
  {
    hide Runs.Run, S.StreamOk, AllLabelled, Reached, Runs.RunOk, Follows, WritePosition, Tracks, D.Frontier,
         D.Delivered, S.Holds, IsPowerOfTwo, Wrap32, D.ReaderOk, Control.UpdateLimit, Control.Proposal;
    var h, n := RunLabelled(c, ops, a, m);
    RunIsStream(c, Runs.Run(c, Runs.InitialWorld(c), ops), h, n, a);
    PrefixOk(c, ops, a, m);
    var h0, n0 := Runs.RunExplained(c, ops[..m], a);
    SetupFed(c, Runs.Run(c, Runs.InitialWorld(c), ops[..m]), h0, n0, a, h);
    var stored, picked := RunFed(c, ops, a, m, settings, h, n, worlds, steps, k);
    var x := worlds[k].image;
    Control.UpdateLimitIsMax(c, limit, x.consumptionTermId, x.consumptionTermOffset, window);
    Control.ProposalInRange(c, x.consumptionTermId, x.consumptionTermOffset, window);
  }

  /** A prefix of a run within the assumptions is one, too. */
  lemma {:induction false} PrefixOk(c: Config, ops: seq<Runs.Op>, a: nat, m: nat)
    requires ConfigOk(c) && Runs.RunOk(c, ops, a) && m <= |ops|
    ensures Runs.RunOk(c, ops[..m], a)
  {
    hide Runs.Run, Runs.OpOk, Runs.Safe, Runs.TermsLeft;
    if m < |ops| {
      PrefixOk(c, ops[..|ops| - 1], a, m);
      assert ops[..|ops| - 1][..m] == ops[..m];
    } else {
      assert ops[..m] == ops;
    }
  }
}
