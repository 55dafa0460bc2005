/**
 Whole runs of the receiver and the subscriber on one image, interleaved access by access: under
 which interleavings a poll delivers what it should, and what goes wrong under the others.
 */
module ImageInterleaved {
  import opened Wrappers
  import opened Arith
  import opened Bytes
  import opened TermLog
  import opened PublicationHistory
  import opened PublicationScan
  import opened Image
  import opened ImageStream
  import opened ImagePoll
  import opened ImageSteps
  import opened ImageStepsKept
  import opened ImageStepsWrite
  import W = ImageWindow
  import D = ImageDelivery

  // ---- Runs ----

  /** Both threads at rest on an image that holds nothing yet. */
  ghost predicate Initial(h: seq<Rec>, s: State) {
    && D.Fed(s.x, h, {})
    && s.receiver.Resting? && s.subscriber.Idle? && s.delivered == []
  }

  lemma InitialOk(h: seq<Rec>, s: State)
    requires Initial(h, s)
    ensures Invariant(h, s, {}, [])
  {
    hide W.TermCount, Holds, W.CursorsAgree, StreamOk, NotInside, Aligned;
    W.CursorsParts(s.x);
    MulStep(W.TermCount(s.x) - 3, W.TermCount(s.x), s.x.termLength);
  }

  ghost predicate Follows(h: seq<Rec>, s: State, action: Action, s': State) {
    s.x.termLength > 0 && s' == Next(h, s, action)
  }

  ghost predicate IsRun(h: seq<Rec>, states: seq<State>, actions: seq<Action>) {
    && |states| == |actions| + 1
    && forall n :: 0 <= n < |actions| ==>
         StepOk(h, states[n], actions[n]) && Follows(h, states[n], actions[n], states[n + 1])
  }

  lemma StartPollKeeps(h: seq<Rec>, s: State, stored: set<nat>, picked: seq<nat>, limit: nat)
    requires Invariant(h, s, stored, picked) && s.subscriber.Idle?
    ensures Invariant(h, s.(subscriber := Loading(0, limit)), stored, picked)
  {
    hide W.TermCount, W.CursorsAgree, StreamOk, NotInside, Aligned, Newest, Align32;
    var s' := s.(subscriber := Loading(0, limit));
    LogStays(h, s, s', stored);
  }

  /** Any step of either thread that the interleaving allows. */
  lemma StepKeeps(h: seq<Rec>, s: State, action: Action, stored: set<nat>, picked: seq<nat>)
    returns (stored': set<nat>, picked': seq<nat>)
    requires Invariant(h, s, stored, picked) && StepOk(h, s, action)
    ensures s.x.termLength > 0
    ensures Invariant(h, Next(h, s, action), stored', picked') && Accounts(h, s, Next(h, s, action))
  {
    hide Invariant, ArriveOk, PublishesUnderCheck, CommitsUnderScan, LoadsUnderWrite, LoadsStale, BeginArrive,
         ReceiverNext, SubscriberNext, Shows, Payload;
    InvariantParts(h, s, stored, picked);
    stored', picked' := stored, picked;
    match action
    case StartArrive(i) =>
      if s.receiver.Resting? {
        ArriveKeeps(h, s, stored, picked, i);
        ArriveKeepsCursor(h, s, i);
      }
    case ReceiverStep => stored' := ReceiverKeeps(h, s, stored, picked);
    case StartPoll(limit) =>
      if s.subscriber.Idle? && limit > 0 {
        StartPollKeeps(h, s, stored, picked, limit);
      }
    case SubscriberStep => picked' := SubscriberKeeps(h, s, stored, picked);
  }

  lemma ArriveKeepsCursor(h: seq<Rec>, s: State, i: nat)
    requires s.x.termLength > 0
    ensures Cursor(BeginArrive(h, s, i)) == Cursor(s)
  {
    hide Stale, TermFull, Advances, WireOf, FrameBase, LengthWord;
  }

  lemma {:induction false} RunKeeps(h: seq<Rec>, states: seq<State>, actions: seq<Action>, n: nat)
    returns (stored: set<nat>, picked: seq<nat>)
    requires IsRun(h, states, actions) && n < |states| && Initial(h, states[0])
    ensures Invariant(h, states[n], stored, picked)
  {
    hide Invariant, Next, StepOk, Initial;
    if n == 0 {
      stored, picked := {}, [];
      InitialOk(h, states[0]);
    } else {
      stored, picked := RunKeeps(h, states, actions, n - 1);
      assert Follows(h, states[n - 1], actions[n - 1], states[n - 1 + 1]);
      stored, picked := StepKeeps(h, states[n - 1], actions[n - 1], stored, picked);
    }
  }

  /**
   Every allowed interleaving: at every point the fragments delivered are frames of the stream, whole,
   unchanged and in increasing order, and a data frame the cursor passes is delivered by that step or
   has no committed length when it is passed.
   */
  lemma InterleavedDelivery(h: seq<Rec>, states: seq<State>, actions: seq<Action>, n: nat) returns (picked: seq<nat>)
    requires IsRun(h, states, actions) && n < |states| && Initial(h, states[0])
    ensures Increasing(picked) && forall a :: 0 <= a < |picked| ==> IsData(h, picked[a])
    ensures states[n].delivered == Payloads(h, picked)
    ensures n < |actions| ==> Accounts(h, states[n], states[n + 1])
  {
    hide Next, StepOk, Initial, Accounts, Payloads, ReaderOk, LogOk;
    var stored;
    stored, picked := RunKeeps(h, states, actions, n);
    InvariantDelivered(h, states[n], stored, picked);
    if n < |actions| {
      assert Follows(h, states[n], actions[n], states[n + 1]);
      var stored', picked' := StepKeeps(h, states[n], actions[n], stored, picked);
    }
  }

  // ---- The interleavings that are not allowed ----

  /** The subscriber alone takes `m` steps. */
  function SubscriberRuns(s: State, m: nat): (s': State)
    requires s.x.termLength > 0
    ensures s'.x == s.x.(subscriberPosition := s'.x.subscriberPosition)
    decreases m
  {
    if m == 0 then s else SubscriberRuns(SubscriberNext(s), m - 1)
  }

  /** A poll that has begun to skip ends up beyond what it has searched, having delivered nothing. */
  lemma {:induction false} SkippingMovesOn(s: State) returns (m: nat)
    requires s.subscriber.Skipping? && s.x.termLength > 0 && s.subscriber.skip > 0
    requires ReadOffset(s.x) + s.subscriber.scanned < s.x.termLength
    ensures var s' := SubscriberRuns(s, m);
            && s'.subscriber.Loading? && Cursor(s) < Cursor(s') && s'.delivered == s.delivered
            && (Cursor(s) + s.subscriber.skip <= Cursor(s') || ReadEnd(s.x) <= Cursor(s'))
    decreases s.x.termLength - s.subscriber.skip
  {
    hide LengthWord, ReadBase;
    var s1 := SubscriberNext(s);
    m := 1;
    assert SubscriberRuns(s, 1) == SubscriberRuns(s1, 0) == s1;
    if s1.subscriber.Skipping? {
      var more := SkippingMovesOn(s1);
      m := more + 1;
    }
  }

  /**
   The frame at the cursor is committed and published between the two loads: the poll takes it for a
   gap and passes over it, although its length is committed.
   */
  lemma PublishedUnderCheckIsSkipped(h: seq<Rec>, s: State, stored: set<nat>, picked: seq<nat>) returns (m: nat)
    requires Invariant(h, s, stored, picked) && PublishesUnderCheck(h, s)
    ensures s.x.termLength > 0 && ReceiverNext(h, s).x.termLength > 0
    ensures var s' := SubscriberRuns(ReceiverNext(h, s), m);
            && s'.subscriber.Loading? && h[s.receiver.i].pos < Cursor(s') && s'.delivered == s.delivered
            && Shows(s'.x.buf, h[s.receiver.i].pos, h[s.receiver.i].bytes)
  {
    hide W.TermCount, W.CursorsAgree, StreamOk, Delivered, HistoryOk, Shows, Followed, WireOf, ReadOffset, InTerms,
         Aligned, NotInside, Newest, Align32, SubscriberRuns, ReadBase;
    InvariantParts(h, s, stored, picked);
    BelowWindowEnd(s.x, h[s.receiver.i].pos);
    var t, origin, pos := ReadPlace(h, s);
    FollowCursors(h, s, stored, picked);
    var s1 := ReceiverNext(h, s);
    StoredNonempty(s.x.termLength, h, s.receiver.i);
    var s2 := SubscriberNext(s1);
    SameOffset(s.x, s2.x);
    var more := SkippingMovesOn(s2);
    m := more + 1;
    RunsFirst(s1, more);
  }

  lemma SameOffset(x: Image, y: Image)
    requires x.termLength > 0 && y.termLength == x.termLength && y.subscriberPosition == x.subscriberPosition
    ensures ReadOffset(y) == ReadOffset(x)
  {
  }

  lemma RunsFirst(s: State, m: nat)
    requires s.x.termLength > 0
    ensures SubscriberRuns(s, m + 1) == SubscriberRuns(SubscriberNext(s), m)
  {
  }

  /** `actions`, all allowed, lead from `s` to `s'`. */
  ghost predicate Leads(h: seq<Rec>, s: State, actions: seq<Action>, s': State)
    decreases |actions|
  {
    if |actions| == 0 then s' == s
    else
      && s.x.termLength > 0 && StepOk(h, s, actions[0])
      && Leads(h, Next(h, s, actions[0]), actions[1..], s')
  }

  lemma {:induction false} LeadsOn(h: seq<Rec>, s: State, actions: seq<Action>, s': State, action: Action)
    requires Leads(h, s, actions, s') && s'.x.termLength > 0 && StepOk(h, s', action)
    ensures Leads(h, s, actions + [action], Next(h, s', action))
    decreases |actions|
  {
    hide Next, StepOk;
    var more := actions + [action];
    if |actions| == 0 {
      assert more[1..] == [];
      assert Leads(h, Next(h, s', action), [], Next(h, s', action));
    } else {
      assert more[1..] == actions[1..] + [action];
      LeadsOn(h, Next(h, s, actions[0]), actions[1..], s', action);
    }
  }

  /** Nothing is stored at the cursor: the load finds no length. */
  lemma EmptyLoad(h: seq<Rec>, s: State, stored: set<nat>, picked: seq<nat>)
    requires Invariant(h, s, stored, picked) && s.subscriber == Loading(0, 1) && s.x.termLength > 0
    requires ReadOffset(s.x) < s.x.termLength && !LoadsUnderWrite(h, s) && !Covered(h, stored, Cursor(s))
    requires s.x.subscriberPosition / s.x.termLength <= W.TermCount(s.x)
    ensures SubscriberNext(s) == s.(subscriber := Checking(0, 1))
  {
    hide Align32, Aligned, HistoryOk, LengthWord, TermAt, W.TermCount, ReadBase, ReadOffset, Invariant, Covered,
         LoadsUnderWrite, ReadEnd;
    InvariantParts(h, s, stored, picked);
    var t, origin, pos := ReadPlace(h, s) by {
      hide StreamOk, LogOk, ReaderOk, Delivered;
      InvariantReader(h, s, stored, picked);
    }
    AlignedSum(pos, s.x.termLength);
    var j := CursorWord(h, s, stored, picked, t, origin, pos);
  }

  /** A run from the start that has reached state `s`, with frames `stored`, by `actions`. */
  ghost predicate Reached(h: seq<Rec>, s0: State, actions: seq<Action>, s: State, stored: set<nat>) {
    Leads(h, s0, actions, s) && Invariant(h, s, stored, []) && s.x.termLength > 0
  }

  /** One byte of a copy. */
  lemma CopyOne(h: seq<Rec>, s: State, stored: set<nat>, i: nat, done: nat)
    requires Invariant(h, s, stored, []) && s.x.termLength > 0 && s.receiver == Copying(i, done, i in stored)
    requires i < |h| && done < |h[i].bytes|
    ensures StepOk(h, s, ReceiverStep)
    ensures var s' := Next(h, s, ReceiverStep);
            && Invariant(h, s', stored, []) && s'.receiver == Copying(i, done + 1, i in stored)
            && s' == s.(x := s.x.(buf := s'.x.buf), receiver := s'.receiver)
  {
    hide OpenBytes, WireOf, FrameBase, Store, Invariant;
    CopyKeeps(h, s, stored, []);
    InvariantParts(h, s, stored, []);
    OpenParts(s.x.termLength, h, i);
  }

  /** The receiver copies bytes `done` to `goal` of a frame. */
  lemma {:induction false} CopyLeads(h: seq<Rec>, s0: State, actions0: seq<Action>, s: State, stored: set<nat>,
                                     i: nat, done: nat, goal: nat)
    returns (actions: seq<Action>, s': State)
    requires Reached(h, s0, actions0, s, stored) && s.receiver == Copying(i, done, i in stored)
    requires i < |h| && done <= goal <= |h[i].bytes|
    ensures Reached(h, s0, actions, s', stored) && s'.receiver == Copying(i, goal, i in stored)
    ensures s' == s.(x := s.x.(buf := s'.x.buf), receiver := s'.receiver)
    decreases goal - done
  {
    hide Leads, Invariant, Next, StepOk;
    actions, s' := actions0, s;
    if done < goal {
      CopyOne(h, s, stored, i, done);
      LeadsOn(h, s0, actions0, s, ReceiverStep);
      actions, s' := actions0 + [ReceiverStep], Next(h, s, ReceiverStep);
      actions, s' := CopyLeads(h, s0, actions, s', stored, i, done + 1, goal);
    }
  }

  /** The receiver copies a whole frame. */
  lemma CopyAllLeads(h: seq<Rec>, s0: State, actions0: seq<Action>, s: State, stored: set<nat>, i: nat)
    returns (actions: seq<Action>, s': State)
    requires Reached(h, s0, actions0, s, stored) && s.receiver == Copying(i, 0, i in stored) && i < |h|
    ensures Reached(h, s0, actions, s', stored) && s'.receiver == Committing(i, i in stored)
    ensures s' == s.(x := s.x.(buf := s'.x.buf), receiver := s'.receiver)
  {
    hide OpenBytes, Leads, WireOf, FrameBase, Store, Invariant;
    actions, s' := CopyLeads(h, s0, actions0, s, stored, i, 0, |h[i].bytes|);
    CopyKeeps(h, s', stored, []);
    LeadsOn(h, s0, actions, s', ReceiverStep);
    OpenParts(s.x.termLength, h, i) by { InvariantParts(h, s, stored, []); }
    actions, s' := actions + [ReceiverStep], Next(h, s', ReceiverStep);
  }

  /** A frame of the window begins to be written. */
  lemma ArriveLeads(h: seq<Rec>, s0: State, actions0: seq<Action>, s: State, stored: set<nat>, i: nat)
    returns (actions: seq<Action>, s': State)
    requires Reached(h, s0, actions0, s, stored) && s.receiver.Resting? && IsData(h, i)
    requires 0 <= W.TermCount(s.x) - h[i].pos / s.x.termLength <= 3
    ensures Reached(h, s0, actions, s', stored) && s' == s.(receiver := Copying(i, 0, i in stored))
  {
    hide Leads, WireOf, FrameBase, LengthWord, Invariant, W.TermCount, Stale, TermFull, W.CursorsAgree, StreamOk,
         Advances;
    InvariantReader(h, s, stored, []);
    AppendBegins(h, s, stored, [], i);
    Accepted(h, s.x, i);
    LeadsOn(h, s0, actions0, s, StartArrive(i));
    actions, s' := actions0 + [StartArrive(i)], Next(h, s, StartArrive(i));
  }

  lemma Accepted(h: seq<Rec>, x: Image, i: nat)
    requires W.CursorsAgree(x) && StreamOk(x.termLength, h) && IsData(h, i) && x.termLength > 0
    requires 0 <= W.TermCount(x) - h[i].pos / x.termLength <= 3
    ensures |h[i].bytes| >= HEADER && !Advances(x, WireOf(x, h[i]))
    ensures !Stale(x, WireOf(x, h[i])) && !TermFull(x, WireOf(x, h[i]))
  {
    hide W.TermCount, W.CursorsAgree, StreamOk, Wrap32, Align32, ComputePosition, CommittedBytes, W.TermsLeft,
         PartitionIndex, Stale, TermFull;
    WireFacts(x, h, i);
    D.InWindowNotStale(x, WireOf(x, h[i]));
  }

  /** A frame of the window arrives whole while no poll is under way. */
  lemma WholeLeads(h: seq<Rec>, s0: State, actions0: seq<Action>, s: State, stored: set<nat>, i: nat)
    returns (actions: seq<Action>, s': State)
    requires Reached(h, s0, actions0, s, stored) && s.receiver.Resting? && s.subscriber.Idle? && IsData(h, i)
    requires 0 <= W.TermCount(s.x) - h[i].pos / s.x.termLength <= 3
    ensures Reached(h, s0, actions, s', stored + {i})
    ensures s'.receiver.Resting? && s'.subscriber.Idle? && s'.delivered == s.delivered
    ensures W.TermCount(s'.x) == W.TermCount(s.x) && s'.x.termLength == s.x.termLength
    ensures s'.x.subscriberPosition == s.x.subscriberPosition && End(h[i]) <= s'.x.receiverPosition
  {
    hide Leads, WireOf, FrameBase, OpenBytes, Invariant, W.TermCount, Followed, Store;
    actions, s' := ArriveLeads(h, s0, actions0, s, stored, i);
    actions, s' := CopyAllLeads(h, s0, actions, s', stored, i);
    assert W.TermCount(s'.x) == W.TermCount(s.x) by { D.SameTermCount(s.x, s'.x); }
    CommitKeeps(h, s', stored, []);
    LeadsOn(h, s0, actions, s', ReceiverStep);
    var s1 := s';
    DataBytes(h, s', stored, i);
    actions, s' := actions + [ReceiverStep], Next(h, s', ReceiverStep);
    assert W.TermCount(s'.x) == W.TermCount(s1.x) by { D.SameTermCount(s1.x, s'.x); }
    FollowCursors(h, s', stored + {i}, []);
    FollowKeeps(h, s', stored + {i}, []);
    LeadsOn(h, s0, actions, s', ReceiverStep);
    actions, s' := actions + [ReceiverStep], Next(h, s', ReceiverStep);
  }

  lemma DataBytes(h: seq<Rec>, s: State, stored: set<nat>, i: nat)
    requires Invariant(h, s, stored, []) && IsData(h, i)
    ensures |h[i].bytes| >= HEADER
  {
    hide Invariant;
    InvariantParts(h, s, stored, []);
    DataLength(s.x.termLength, h, i);
  }

  /** A new image whose next frame, of the active term, is frame `i`. */
  ghost predicate Expects(h: seq<Rec>, s: State, i: nat) {
    && Initial(h, s) && IsData(h, i) && h[i].pos == s.x.subscriberPosition
    && s.x.termLength > 0 && h[i].pos / s.x.termLength == W.TermCount(s.x)
  }

  lemma ExpectsReached(h: seq<Rec>, s: State, i: nat)
    requires Expects(h, s, i)
    ensures Reached(h, s, [], s, {}) && s.receiver.Resting? && s.subscriber.Idle? && s.delivered == []
    ensures s.x.receiverPosition == h[i].pos && ReadOffset(s.x) < s.x.termLength && h[i].pos < ReadEnd(s.x)
  {
    hide Invariant, W.TermCount, Holds, W.CursorsAgree, StreamOk, NotInside, Aligned;
    InitialOk(h, s);
  }

  /** A poll starts. */
  lemma PollLeads(h: seq<Rec>, s0: State, actions0: seq<Action>, s: State, stored: set<nat>)
    returns (actions: seq<Action>, s': State)
    requires Reached(h, s0, actions0, s, stored) && s.subscriber.Idle?
    ensures Reached(h, s0, actions, s', stored) && s' == s.(subscriber := Loading(0, 1))
  {
    hide Leads, Invariant, W.TermCount;
    StartPollKeeps(h, s, stored, [], 1);
    LeadsOn(h, s0, actions0, s, StartPoll(1));
    actions, s' := actions0 + [StartPoll(1)], Next(h, s, StartPoll(1));
  }

  /** The poll loads a missing length. */
  lemma LoadLeads(h: seq<Rec>, s0: State, actions0: seq<Action>, s: State, stored: set<nat>)
    returns (actions: seq<Action>, s': State)
    requires Reached(h, s0, actions0, s, stored) && s.subscriber == Loading(0, 1)
    requires ReadOffset(s.x) < s.x.termLength && !LoadsUnderWrite(h, s) && !Covered(h, stored, Cursor(s))
    requires s.x.subscriberPosition / s.x.termLength <= W.TermCount(s.x)
    ensures Reached(h, s0, actions, s', stored) && s' == s.(subscriber := Checking(0, 1))
  {
    hide Leads, Invariant, ReadOffset, LoadsUnderWrite, Covered, SubscriberNext;
    EmptyLoad(h, s, stored, []);
    LoadKeeps(h, s, stored, []);
    LeadsOn(h, s0, actions0, s, SubscriberStep);
    actions, s' := actions0 + [SubscriberStep], Next(h, s, SubscriberStep);
  }

  /**
   Allowed steps lead to that point on every new image, for whatever data frame comes next: so the publication
   between the two loads has to be excluded.
   */
  lemma PublishedUnderCheckIsReached(h: seq<Rec>, s: State, i: nat) returns (actions: seq<Action>, s': State)
    requires Expects(h, s, i)
    ensures Leads(h, s, actions, s') && PublishesUnderCheck(h, s')
  {
    hide W.TermCount, Leads, HistoryOk, WireOf, OpenBytes, FrameBase, Store, Invariant, ReadOffset, Initial, ReadEnd;
    ExpectsReached(h, s, i);
    actions, s' := PollLeads(h, s, [], s, {});
    assert ReadOffset(s'.x) < s'.x.termLength;
    actions, s' := LoadLeads(h, s, actions, s', {});
    actions, s' := ArriveLeads(h, s, actions, s', {}, i);
    actions, s' := CopyAllLeads(h, s, actions, s', {}, i);
    DataBytes(h, s', {}, i);
    LeadsOn(h, s, actions, s', ReceiverStep);
    actions, s' := actions + [ReceiverStep], Next(h, s', ReceiverStep);
  }

  // ---- Frames that arrive late ----

  /**
   Frame `j` of the active term has overtaken frame `i`, which is written, all but its length, while a poll
   searches the gap at its place.
   */
  lemma LateFrameIsReached(h: seq<Rec>, s: State, i: nat, j: nat) returns (actions: seq<Action>, s': State)
    requires Expects(h, s, i) && i < j && IsData(h, j) && h[j].pos / s.x.termLength == W.TermCount(s.x)
    ensures Reached(h, s, actions, s', {j}) && s'.receiver == Committing(i, false)
    ensures s'.subscriber == Skipping(0, 1, FRAME_ALIGNMENT) && Cursor(s') == h[i].pos && s'.delivered == []
    ensures CommitsUnderScan(h, s')
    ensures FRAME_ALIGNMENT < Align32(h[i].len) ==> LoadsUnderWrite(h, s')
  {
    hide W.TermCount, Leads, HistoryOk, WireOf, OpenBytes, FrameBase, Store, Invariant, ReadOffset, Initial, ReadEnd,
         Covered, Align32, LoadsUnderWrite;
    ExpectsReached(h, s, i);
    actions, s' := WholeLeads(h, s, [], s, {}, j);
    assert {} + {j} == {j};
    InvariantParts(h, s', {j}, []);
    OvertakenApart(s.x.termLength, h, i, j);
    actions, s' := ArriveLeads(h, s, actions, s', {j}, i);
    var s1 := s';
    actions, s' := CopyAllLeads(h, s, actions, s', {j}, i);
    assert W.TermCount(s'.x) == W.TermCount(s.x) by { D.SameTermCount(s1.x, s'.x); }
    actions, s' := PollLeads(h, s, actions, s', {j});
    SameOffset(s.x, s'.x);
    SameEnd(s.x, s'.x);
    NewHead(h, s', i);
    actions, s' := LoadLeads(h, s, actions, s', {j});
    CheckKeeps(h, s', {j}, []);
    NoLoad(h, s');
    LeadsOn(h, s, actions, s', SubscriberStep);
    actions, s' := actions + [SubscriberStep], Next(h, s', SubscriberStep);
    if FRAME_ALIGNMENT < Align32(h[i].len) {
      LoadsSecondGranule(h, s', {j}, i);
    }
  }

  lemma NewHead(h: seq<Rec>, s: State, i: nat)
    requires s.receiver == Committing(i, false) && s.subscriber.Loading? && i < |h| && Cursor(s) == h[i].pos
    ensures !LoadsUnderWrite(h, s)
  {
    hide ReadEnd, Align32;
  }

  lemma NoLoad(h: seq<Rec>, s: State)
    requires s.subscriber.Checking?
    ensures !LoadsUnderWrite(h, s)
  {
  }

  lemma LoadsSecondGranule(h: seq<Rec>, s: State, stored: set<nat>, i: nat)
    requires Invariant(h, s, stored, []) && s.receiver == Committing(i, false) && i < |h| && Cursor(s) == h[i].pos
    requires s.subscriber.Skipping? && s.subscriber.skip == FRAME_ALIGNMENT && FRAME_ALIGNMENT < Align32(h[i].len)
    requires s.x.termLength > 0 && h[i].pos < ReadEnd(s.x)
    ensures LoadsUnderWrite(h, s)
  {
    hide Align32, Invariant, TermAt, HistoryOk, ReadOffset, ReadBase, W.TermCount;
    InvariantParts(h, s, stored, []);
    InvariantReader(h, s, stored, []);
    FrameEndsInTerm(h, s, stored, i);
  }

  /** A frame that starts before the end of the subscriber's term ends by it. */
  lemma FrameEndsInTerm(h: seq<Rec>, s: State, stored: set<nat>, i: nat)
    requires Invariant(h, s, stored, []) && i < |h| && s.x.termLength > 0 && h[i].pos < ReadEnd(s.x)
    ensures End(h[i]) <= ReadEnd(s.x)
  {
    hide Align32, Aligned, HistoryOk, W.CursorsAgree, LogOk, PcOk, W.TermCount, Newest, Ends, NotInside, Delivered;
    var t, off, origin := SplitPosition(s.x.subscriberPosition, s.x.termLength);
    D.MakeTermAt(t, origin, s.x.termLength);
    TermEndNotInside(s.x.termLength, h, t, origin, t % 4 * s.x.termLength);
    AtTermEnd(h, origin + s.x.termLength, i);
  }

  lemma AtTermEnd(h: seq<Rec>, q: nat, i: nat)
    requires NotInside(h, q) && i < |h| && h[i].pos < q
    ensures End(h[i]) <= q
  {
  }

  lemma OvertakenApart(tl: nat, h: seq<Rec>, i: nat, j: nat)
    requires HistoryOk(tl, h) && i < j < |h|
    ensures h[i].pos < End(h[i]) <= h[j].pos < End(h[j]) && !Covered(h, {j}, h[i].pos)
  {
    hide Align32, RecOk, Contiguous;
    StoredNonempty(tl, h, i);
    StoredNonempty(tl, h, j);
    PositionsOrdered(h, i, j);
  }

  /**
   A new frame before receiver_position is committed where a poll has just looked in vain: the poll passes
   over it, although its length is committed.
   */
  lemma CommittedUnderScanIsSkipped(h: seq<Rec>, s: State, stored: set<nat>, picked: seq<nat>) returns (m: nat)
    requires Invariant(h, s, stored, picked) && CommitsUnderScan(h, s)
    ensures s.x.termLength > 0 && ReceiverNext(h, s).x.termLength > 0
    ensures var s' := SubscriberRuns(ReceiverNext(h, s), m);
            && s'.subscriber.Loading? && h[s.receiver.i].pos < Cursor(s') && s'.delivered == s.delivered
            && Shows(s'.x.buf, h[s.receiver.i].pos, h[s.receiver.i].bytes)
  {
    hide W.TermCount, W.CursorsAgree, StreamOk, Delivered, HistoryOk, Shows, ReadOffset, Aligned, NotInside, Newest,
         Align32, SubscriberRuns, ReadBase, Clear, NoneIn, LiesAhead, Covered, Ends, LogOk, ReceiverNext;
    InvariantParts(h, s, stored, picked);
    WritingInTerms(h, s, stored);
    BelowWindowEnd(s.x, h[s.receiver.i].pos);
    var t, origin, pos := ReadPlace(h, s);
    AlignedSum(pos, s.x.termLength);
    CommitShows(h, s, stored, picked);
    var s1 := ReceiverNext(h, s);
    SameOffset(s.x, s1.x);
    SameEnd(s.x, s1.x);
    if s.subscriber.Checking? {
      var s2 := SubscriberNext(s1);
      var more := SkippingMovesOn(s2);
      RunsFirst(s1, more);
      m := more + 1;
    } else {
      m := SkippingMovesOn(s1);
    }
  }

  /** The step that commits a frame, and what the log then shows. */
  lemma CommitShows(h: seq<Rec>, s: State, stored: set<nat>, picked: seq<nat>)
    requires Invariant(h, s, stored, picked) && s.receiver.Committing?
    ensures s.receiver.i < |h| && s.x.termLength > 0
    ensures var s' := ReceiverNext(h, s);
            && s' == s.(x := s.x.(buf := s'.x.buf), receiver := Following(s.receiver.i))
            && Shows(s'.x.buf, h[s.receiver.i].pos, h[s.receiver.i].bytes)
  {
    hide W.TermCount, W.CursorsAgree, StreamOk, ReaderOk, Delivered, HistoryOk, Writing, OpenBytes, Shows, WireOf,
         FrameBase, Splice, EncodeI32, InTerms, Covered;
    InvariantParts(h, s, stored, picked);
    var i := s.receiver.i;
    WritingData(h, s.x, stored, i);
    OpenParts(s.x.termLength, h, i);
    WriteBase(h, s, stored, picked, i);
    CommitLog(h, s.x, stored, i);
    assert i in stored + {i};
  }

  /** A gap scan that loads inside a frame being written takes a word of its payload for a length. */
  lemma HalfWrittenIsMisread(h: seq<Rec>, s: State, stored: set<nat>, picked: seq<nat>, d: nat)
    requires Invariant(h, s, stored, picked) && s.receiver.Committing? && s.subscriber.Skipping?
    requires LoadsUnderWrite(h, s)
    requires NextLoad(s) == Some(h[s.receiver.i].pos + d) && HEADER <= d && d + 4 <= |h[s.receiver.i].bytes|
    requires DecodeI32(h[s.receiver.i].bytes, d) > 0
    ensures s.x.termLength > 0 && SubscriberNext(s).subscriber.Loading?
    ensures h[s.receiver.i].pos < Cursor(SubscriberNext(s)) < End(h[s.receiver.i])
  {
    hide W.TermCount, W.CursorsAgree, HistoryOk, Holds, HoldsExcept, Aligned, Align32, InTerms, DecodeI32, ReadBase,
         ReadOffset, Clear, NoneIn, LiesAhead, Newest, Ends, NotInside, Delivered, StreamOk, OpenBytes, ReadEnd;
    InvariantParts(h, s, stored, picked);
    var r := h[s.receiver.i];
    var t, origin, pos := ReadPlace(h, s);
    var g := pos + s.subscriber.skip - d;
    OpenParts(s.x.termLength, h, s.receiver.i);
    FrameInTerm(h, s.x.termLength, s.receiver.i, t, origin, ReadBase(s.x), r.pos + d);
    TermAtSlot(t, origin, ReadBase(s.x), s.x.termLength, g);
    OpenWord(s.x.buf, ReadBase(s.x) + g, r.bytes, OpenBytes(r), d);
  }

  /** A frame lies in the term of any position inside it. */
  lemma FrameInTerm(h: seq<Rec>, tl: nat, i: nat, t: nat, origin: nat, base: nat, q: nat)
    requires StreamOk(tl, h) && InFrame(h, i, q) && TermAt(t, origin, base, tl) && origin <= q < origin + tl
    ensures origin <= h[i].pos
  {
    hide HistoryOk, Align32, Aligned;
    SameTerm(tl, h, i, q);
    DivModUnique(q, t, q - origin, tl);
  }

  /** A word of the frame as it stands in the log. */
  lemma OpenWord(buf: seq<Byte>, at: nat, bytes: seq<Byte>, open: seq<Byte>, d: nat)
    requires 4 <= d && d + 4 <= |bytes| && open == BLANK + bytes[4..]
    requires at + |open| <= |buf| && buf[at..at + |open|] == open
    ensures DecodeI32(buf, at + d) == DecodeI32(bytes, d)
  {
    hide Wrap32;
    forall j | 4 <= j < |bytes| ensures buf[at + j] == bytes[j] {
      assert buf[at..at + |open|][j] == open[j];
    }
  }

  /** Allowed steps lead to such a load, on every new image, when a frame has overtaken the next one. */
  lemma HalfWrittenIsReached(h: seq<Rec>, s: State, i: nat, j: nat) returns (actions: seq<Action>, s': State)
    requires Expects(h, s, i) && i < j && IsData(h, j) && h[j].pos / s.x.termLength == W.TermCount(s.x)
    requires |h[i].bytes| >= HEADER + 4 && DecodeI32(h[i].bytes, HEADER) > 0
    ensures Leads(h, s, actions, s') && LoadsUnderWrite(h, s') && s'.x.termLength > 0
    ensures SubscriberNext(s').subscriber.Loading? && h[i].pos < Cursor(SubscriberNext(s')) < End(h[i])
  {
    hide W.TermCount, Leads, WireOf, OpenBytes, Invariant, Initial, DecodeI32, LoadsUnderWrite, SubscriberNext;
    actions, s' := LateFrameIsReached(h, s, i, j);
    LongFrame(h, s', {j}, i);
    HalfWrittenIsMisread(h, s', {j}, [], HEADER);
  }

  lemma LongFrame(h: seq<Rec>, s: State, stored: set<nat>, i: nat)
    requires Invariant(h, s, stored, []) && IsData(h, i) && |h[i].bytes| > FRAME_ALIGNMENT
    ensures FRAME_ALIGNMENT < Align32(h[i].len)
  {
    hide Invariant;
    InvariantParts(h, s, stored, []);
    DataLength(s.x.termLength, h, i);
  }

  // ---- Frames that arrive again ----

  /**
   While a frame is written again its length is 0 again, and a poll that loads it then passes over a frame
   that had been committed all along.
   */
  lemma RepeatedIsSkipped(h: seq<Rec>, s: State, stored: set<nat>, picked: seq<nat>) returns (m: nat)
    requires Invariant(h, s, stored, picked) && s.subscriber.Loading? && LoadsUnderWrite(h, s)
    requires s.receiver.Copying? ==> s.receiver.done >= 4
    ensures s.x.termLength > 0 && s.receiver.i in stored && h[s.receiver.i].pos == Cursor(s)
    ensures var s' := SubscriberRuns(s, m);
            s'.subscriber.Loading? && h[s.receiver.i].pos < Cursor(s') && s'.delivered == s.delivered
  {
    hide W.TermCount, W.CursorsAgree, HistoryOk, Aligned, Align32, InTerms, ReadBase, LogOk, ReadOffset, SubscriberRuns,
         LengthWord, Newest, StreamOk, ReadEnd, Delivered, PcOk;
    InvariantParts(h, s, stored, picked);
    var i := s.receiver.i;
    StoredNonempty(s.x.termLength, h, i);
    WritingInTerms(h, s, stored);
    AgainStored(h, s, stored);
    BelowWindowEnd(s.x, h[i].pos);
    var t, origin, pos := ReadPlace(h, s);
    AlignedSum(pos, s.x.termLength);
    NoLengthAgain(h, s, stored, picked, t, origin, pos);
    var s1 := SubscriberNext(s);
    var s2 := SubscriberNext(s1);
    var more := SkippingMovesOn(s2);
    RunsFirst(s1, more);
    RunsFirst(s, more + 1);
    m := more + 2;
  }

  lemma WritingInTerms(h: seq<Rec>, s: State, stored: set<nat>)
    requires LogOk(h, s, stored) && Appending(s)
    ensures s.receiver.i < |h| && InTerms(W.TermCount(s.x), s.x.termLength, h[s.receiver.i].pos)
  {
    hide HoldsExcept, Shows, ShowsRest, OpenBytes;
  }

  lemma NoLengthAgain(h: seq<Rec>, s: State, stored: set<nat>, picked: seq<nat>, t: nat, origin: nat, pos: nat)
    requires Invariant(h, s, stored, picked) && Appending(s) && (s.receiver.Copying? ==> s.receiver.done >= 4)
    requires s.x.termLength > 0 && TermAt(t, origin, ReadBase(s.x), s.x.termLength) && pos < s.x.termLength
    requires s.receiver.i < |h| && h[s.receiver.i].pos == origin + pos
    ensures LengthWord(s.x.buf, ReadBase(s.x) + pos) == 0
  {
    hide W.TermCount, W.CursorsAgree, HistoryOk, Holds, HoldsExcept, InTerms, ReadBase, LengthWord, StreamOk, OpenBytes,
         Delivered, Writing, ReaderOk, TermAt;
    InvariantParts(h, s, stored, picked);
    var i := s.receiver.i;
    OpenParts(s.x.termLength, h, i);
    TermAtSlot(t, origin, ReadBase(s.x), s.x.termLength, pos);
    OpenLength(s.x.buf, ReadBase(s.x) + pos,
               if s.receiver.Copying? then OpenBytes(h[i])[..s.receiver.done] else OpenBytes(h[i]));
  }

  lemma OpenLength(buf: seq<Byte>, at: nat, open: seq<Byte>)
    requires |open| >= 4 && open[..4] == BLANK && at + |open| <= |buf| && buf[at..at + |open|] == open
    ensures LengthWord(buf, at) == 0
  {
    hide LengthWord;
    assert buf[at..at + 4] == buf[at..at + |open|][..4];
    BlankSlice(buf, at);
  }

  /** Allowed steps lead there too, on every new image, when its first frame arrives twice. */
  lemma RepeatedIsReached(h: seq<Rec>, s: State, i: nat) returns (actions: seq<Action>, s': State, m: nat)
    requires Expects(h, s, i)
    ensures Reached(h, s, actions, s', {i}) && LoadsUnderWrite(h, s') && s'.receiver == Copying(i, 4, true)
    ensures var s2 := SubscriberRuns(s', m);
            s2.subscriber.Loading? && h[i].pos < Cursor(s2) && s2.delivered == []
  {
    hide W.TermCount, Leads, HistoryOk, WireOf, OpenBytes, Invariant, ReadOffset, Initial, SubscriberRuns, ReadEnd;
    ExpectsReached(h, s, i);
    actions, s' := WholeLeads(h, s, [], s, {}, i);
    assert {} + {i} == {i};
    actions, s' := ArriveLeads(h, s, actions, s', {i}, i);
    DataBytes(h, s', {i}, i);
    var s1 := s';
    actions, s' := CopyLeads(h, s, actions, s', {i}, i, 0, 4);
    assert W.TermCount(s'.x) == W.TermCount(s.x) by { D.SameTermCount(s1.x, s'.x); }
    actions, s' := PollLeads(h, s, actions, s', {i});
    StoredNonempty(s'.x.termLength, h, i) by { InvariantParts(h, s', {i}, []); }
    SameEnd(s.x, s'.x);
    m := RepeatedIsSkipped(h, s', {i}, []);
  }

  lemma SameEnd(x: Image, y: Image)
    requires x.termLength > 0 && y.termLength == x.termLength && y.subscriberPosition == x.subscriberPosition
    ensures ReadEnd(y) == ReadEnd(x)
  {
  }
}
