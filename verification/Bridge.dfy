/**
 The slot bridges that hand endpoints, publications and images from one thread to another: one
 producer and one consumer, each slot guarded by an atomic EMPTY/FILLED word.  The three bridges of
 the driver differ only in what they carry and in their number of slots.
 */
module Bridge {
  import opened Wrappers

  datatype Slot<T> = Slot(filled: bool, data: Option<T>)

  // ---- The two threads, one memory access at a time ----

  /** A token for the value that is moved through the bridge. */
  type Item = nat

  datatype ProducerPc =
    | Resting
    | Searching(item: Item, at: nat)  // about to load the state of slot `at`
    | Writing(item: Item, at: nat)    // about to write the data of slot `at`
    | Publishing(at: nat)          // about to store FILLED

  datatype ConsumerPc =
    | Waiting
    | Looking(at: nat, peek: bool) // about to load the state of slot `at`
    | Taking(at: nat)              // about to take the data of slot `at`
    | Peeking(at: nat)             // about to read the data of slot `at`
    | Releasing(at: nat, hand: Option<Item>) // about to store EMPTY

  /** `offered` are the items `deposit` was called with, `refused` those it gave back. */
  datatype State = State(slots: seq<Slot<Item>>, producer: ProducerPc, consumer: ConsumerPc,
                         offered: seq<Item>, refused: seq<Item>, taken: seq<Item>, peeked: seq<Item>)

  datatype Action =
    | Deposit(item: Item)
    | ProducerStep
    | TryTake(index: nat)
    | Peek(index: nat)
    | ConsumerStep

  function Initial(n: nat): State {
    State(seq(n, _ => Slot(false, None)), Resting, Waiting, [], [], [], [])
  }

  function ProducerNext(s: State): State {
    match s.producer
    case Resting => s
    case Searching(item, at) =>
      if at >= |s.slots| then s.(producer := Resting, refused := s.refused + [item])
      else if s.slots[at].filled then s.(producer := Searching(item, at + 1))
      else s.(producer := Writing(item, at))
    case Writing(item, at) =>
      if at >= |s.slots| then s
      else s.(slots := s.slots[at := s.slots[at].(data := Some(item))], producer := Publishing(at))
    case Publishing(at) =>
      if at >= |s.slots| then s
      else s.(slots := s.slots[at := s.slots[at].(filled := true)], producer := Resting)
  }

  function ConsumerNext(s: State): State {
    match s.consumer
    case Waiting => s
    case Looking(at, peek) =>
      if at >= |s.slots| || !s.slots[at].filled then s.(consumer := Waiting)
      else s.(consumer := if peek then Peeking(at) else Taking(at))
    case Peeking(at) =>
      if at >= |s.slots| then s
      else
        s.(consumer := Waiting,
           peeked := if s.slots[at].data.Some? then s.peeked + [s.slots[at].data.value] else s.peeked)
    case Taking(at) =>
      if at >= |s.slots| then s
      else
        s.(slots := s.slots[at := s.slots[at].(data := None)], consumer := Releasing(at, s.slots[at].data))
    case Releasing(at, hand) =>
      if at >= |s.slots| then s
      else
        s.(slots := s.slots[at := s.slots[at].(filled := false)], consumer := Waiting,
           taken := if hand.Some? then s.taken + [hand.value] else s.taken)
  }

  function Next(s: State, action: Action): State {
    match action
    case Deposit(item) =>
      if s.producer.Resting? then s.(producer := Searching(item, 0), offered := s.offered + [item]) else s
    case ProducerStep => ProducerNext(s)
    case TryTake(index) => if s.consumer.Waiting? then s.(consumer := Looking(index, false)) else s
    case Peek(index) => if s.consumer.Waiting? then s.(consumer := Looking(index, true)) else s
    case ConsumerStep => ConsumerNext(s)
  }

  // ---- Invariant ----

  ghost predicate PublishingAt(s: State, i: nat) { s.producer.Publishing? && s.producer.at == i }

  ghost predicate ReleasingAt(s: State, i: nat) { s.consumer.Releasing? && s.consumer.at == i }

  /** A slot holds data exactly while it is filled and not being released, or while it is being published. */
  ghost predicate SlotOk(s: State, i: nat)
    requires i < |s.slots|
  {
    s.slots[i].data.Some? <==> (s.slots[i].filled && !ReleasingAt(s, i)) || PublishingAt(s, i)
  }

  ghost predicate Sides(s: State) {
    && (s.producer.Writing? || s.producer.Publishing? ==> s.producer.at < |s.slots| && !s.slots[s.producer.at].filled)
    && (s.consumer.Taking? || s.consumer.Peeking? || s.consumer.Releasing? ==>
          s.consumer.at < |s.slots| && s.slots[s.consumer.at].filled)
    && (s.consumer.Releasing? ==> s.consumer.hand.Some?)
  }

  // ---- Conservation ----

  function Count(s: seq<Item>, x: Item): nat {
    if |s| == 0 then 0 else Count(s[..|s| - 1], x) + if s[|s| - 1] == x then 1 else 0
  }

  function In(m: Option<Item>, x: Item): nat {
    if m == Some(x) then 1 else 0
  }

  /** How often the slots hold `x`. */
  function Inside(slots: seq<Slot<Item>>, x: Item): nat {
    if |slots| == 0 then 0 else Inside(slots[..|slots| - 1], x) + In(slots[|slots| - 1].data, x)
  }

  function ProducerHand(s: State): Option<Item> {
    if s.producer.Searching? || s.producer.Writing? then Some(s.producer.item) else None
  }

  function ConsumerHand(s: State): Option<Item> {
    if s.consumer.Releasing? then s.consumer.hand else None
  }

  /** How often `x` is in a hand, in a slot, taken or refused. */
  function Places(s: State, x: Item): nat {
    In(ProducerHand(s), x) + Inside(s.slots, x) + In(ConsumerHand(s), x) + Count(s.taken, x) + Count(s.refused, x)
  }

  /** Every item is in as many places as it was offered times. */
  ghost predicate Conserved(s: State) {
    forall x: Item :: Places(s, x) == Count(s.offered, x)
  }

  ghost predicate SlotsOk(s: State) {
    forall i :: 0 <= i < |s.slots| ==> SlotOk(s, i)
  }

  ghost predicate Inv(s: State) {
    Sides(s) && SlotsOk(s) && Conserved(s)
  }

  lemma CountAppend(s: seq<Item>, y: Item, x: Item)
    ensures Count(s + [y], x) == Count(s, x) + if y == x then 1 else 0
  {
    assert (s + [y])[..|s|] == s;
  }

  lemma {:induction false} InsideUpdate(slots: seq<Slot<Item>>, i: nat, slot: Slot<Item>, x: Item)
    requires i < |slots|
    ensures Inside(slots[i := slot], x) + In(slots[i].data, x) == Inside(slots, x) + In(slot.data, x)
  {
    var n := |slots| - 1;
    var slots' := slots[i := slot];
    if i == n {
      assert slots'[..n] == slots[..n];
    } else {
      assert slots'[..n] == slots[..n][i := slot];
      InsideUpdate(slots[..n], i, slot, x);
    }
  }

  lemma {:induction false} NothingInside(n: nat, x: Item)
    ensures Inside(Initial(n).slots, x) == 0
  {
    if n > 0 {
      assert Initial(n).slots[..n - 1] == Initial(n - 1).slots;
      NothingInside(n - 1, x);
    }
  }

  lemma InitialInv(n: nat)
    ensures Inv(Initial(n))
  {
    var s := Initial(n);
    forall x: Item ensures Places(s, x) == Count(s.offered, x) {
      NothingInside(n, x);
    }
  }

  /** An item moves between the producer's hand, a slot and the refused. */
  lemma ProducerMoves(s: State, x: Item)
    requires Sides(s) && SlotsOk(s)
    ensures Places(ProducerNext(s), x) == Places(s, x)
  {
    hide Inside, Count;
    match s.producer
    case Resting =>
    case Searching(item, at) => CountAppend(s.refused, item, x);
    case Writing(item, at) =>
      assert SlotOk(s, at);
      InsideUpdate(s.slots, at, s.slots[at].(data := Some(item)), x);
    case Publishing(at) =>
      InsideUpdate(s.slots, at, s.slots[at].(filled := true), x);
  }

  /** An item moves between a slot, the consumer's hand and the taken. */
  lemma ConsumerMoves(s: State, x: Item)
    requires Sides(s) && SlotsOk(s)
    ensures Places(ConsumerNext(s), x) == Places(s, x)
  {
    hide Inside, Count;
    match s.consumer
    case Waiting =>
    case Looking(_, _) =>
    case Peeking(_) =>
    case Taking(at) =>
      InsideUpdate(s.slots, at, s.slots[at].(data := None), x);
    case Releasing(at, hand) =>
      InsideUpdate(s.slots, at, s.slots[at].(filled := false), x);
      CountAppend(s.taken, hand.value, x);
  }

  lemma ProducerKeeps(s: State)
    requires Inv(s)
    ensures Inv(ProducerNext(s))
  {
    hide Inside, Count, Places;
    var s' := ProducerNext(s);
    forall i | 0 <= i < |s'.slots| ensures SlotOk(s', i) {
      assert SlotOk(s, i);
    }
    forall x: Item ensures Places(s', x) == Count(s'.offered, x) {
      ProducerMoves(s, x);
    }
  }

  lemma ConsumerKeeps(s: State)
    requires Inv(s)
    ensures Inv(ConsumerNext(s))
  {
    hide Inside, Count, Places;
    var s' := ConsumerNext(s);
    forall i | 0 <= i < |s'.slots| ensures SlotOk(s', i) {
      assert SlotOk(s, i);
    }
    if s.consumer.Taking? {
      assert SlotOk(s, s.consumer.at);
    }
    forall x: Item ensures Places(s', x) == Count(s'.offered, x) {
      ConsumerMoves(s, x);
    }
  }

  lemma DepositKeeps(s: State, item: Item)
    requires Inv(s) && s.producer.Resting?
    ensures Inv(Next(s, Deposit(item)))
  {
    hide Inside, Count;
    var s' := Next(s, Deposit(item));
    forall i | 0 <= i < |s'.slots| ensures SlotOk(s', i) {
      assert SlotOk(s, i);
    }
    forall x: Item ensures Places(s', x) == Count(s'.offered, x) {
      CountAppend(s.offered, item, x);
      assert Places(s, x) == Count(s.offered, x);
    }
  }

  lemma LookKeeps(s: State, index: nat, peek: bool)
    requires Inv(s) && s.consumer.Waiting?
    ensures Inv(s.(consumer := Looking(index, peek)))
  {
    hide Inside, Count;
    var s' := s.(consumer := Looking(index, peek));
    forall i | 0 <= i < |s'.slots| ensures SlotOk(s', i) {
      assert SlotOk(s, i);
    }
    forall x: Item ensures Places(s', x) == Count(s'.offered, x) {
      assert Places(s, x) == Count(s.offered, x);
    }
  }

  /** Every atomic step of either thread keeps the hand-off in order. */
  lemma NextKeeps(s: State, action: Action)
    requires Inv(s)
    ensures Inv(Next(s, action))
  {
    hide Inv;
    match action
    case Deposit(item) =>
      if s.producer.Resting? {
        DepositKeeps(s, item);
      }
    case ProducerStep => ProducerKeeps(s);
    case TryTake(index) =>
      if s.consumer.Waiting? {
        LookKeeps(s, index, false);
      }
    case Peek(index) =>
      if s.consumer.Waiting? {
        LookKeeps(s, index, true);
      }
    case ConsumerStep => ConsumerKeeps(s);
  }

  function Run(n: nat, actions: seq<Action>): State {
    if |actions| == 0 then Initial(n)
    else Next(Run(n, actions[..|actions| - 1]), actions[|actions| - 1])
  }

  lemma {:induction false} RunKeeps(n: nat, actions: seq<Action>)
    ensures Inv(Run(n, actions))
  {
    hide Next, Inv;
    if |actions| == 0 {
      InitialInv(n);
    } else {
      RunKeeps(n, actions[..|actions| - 1]);
      NextKeeps(Run(n, actions[..|actions| - 1]), actions[|actions| - 1]);
    }
  }

  /** A thread is about to touch the data cell of slot `i`. */
  ghost predicate ProducerTouches(s: State, i: nat) { s.producer.Writing? && s.producer.at == i }

  ghost predicate ConsumerTouches(s: State, i: nat) {
    (s.consumer.Taking? || s.consumer.Peeking?) && s.consumer.at == i
  }

  /**
   In every interleaving no data cell is about to be accessed by both sides, what the consumer is
   about to take or read is there, and what the producer is about to overwrite is not.
   */
  lemma NoSharedAccess(n: nat, actions: seq<Action>, i: nat)
    ensures var s := Run(n, actions);
            && !(ProducerTouches(s, i) && ConsumerTouches(s, i))
            && (ConsumerTouches(s, i) ==> i < |s.slots| && s.slots[i].data.Some?)
            && (ProducerTouches(s, i) ==> i < |s.slots| && s.slots[i].data.None?)
  {
    hide Run, Conserved;
    RunKeeps(n, actions);
    var s := Run(n, actions);
    if i < |s.slots| {
      assert SlotOk(s, i);
    }
  }

  /** In every interleaving an item offered once is in exactly one place, and one never offered in none. */
  lemma ExactlyOnePlace(n: nat, actions: seq<Action>, x: Item)
    ensures Places(Run(n, actions), x) == Count(Run(n, actions).offered, x)
  {
    hide Run, Places, Count;
    RunKeeps(n, actions);
  }

  // ---- Whole calls ----

  /** First empty slot at or after `i`, or the number of slots. */
  function FirstEmpty<T>(slots: seq<Slot<T>>, i: nat): (r: nat)
    requires i <= |slots|
    ensures i <= r <= |slots|
    ensures r < |slots| ==> !slots[r].filled
    ensures forall j :: i <= j < r ==> slots[j].filled
    decreases |slots| - i
  {
    if i == |slots| || !slots[i].filled then i else FirstEmpty(slots, i + 1)
  }

  // ---- Steps without interruption ----

  function ProducerSteps(s: State, n: nat): State
    decreases n
  {
    if n == 0 then s else ProducerSteps(ProducerNext(s), n - 1)
  }

  function ConsumerSteps(s: State, n: nat): State
    decreases n
  {
    if n == 0 then s else ConsumerSteps(ConsumerNext(s), n - 1)
  }

  /** The state after the whole of `deposit`. */
  function Deposited(s: State, item: Item): State {
    var i, s' := FirstEmpty(s.slots, 0), s.(producer := Resting, offered := s.offered + [item]);
    if i < |s.slots| then s'.(slots := s.slots[i := Slot(true, Some(item))])
    else s'.(refused := s.refused + [item])
  }

  lemma {:induction false} SearchAlone(s: State) returns (n: nat)
    requires s.producer.Searching? && s.producer.at <= |s.slots|
    ensures var i, item, s' := FirstEmpty(s.slots, s.producer.at), s.producer.item, ProducerSteps(s, n);
            s' == if i < |s.slots| then s.(producer := Resting, slots := s.slots[i := Slot(true, Some(item))])
                  else s.(producer := Resting, refused := s.refused + [item])
    decreases |s.slots| - s.producer.at
  {
    var at := s.producer.at;
    if at == |s.slots| {
      n := 1;
      assert ProducerSteps(s, 1) == ProducerSteps(ProducerNext(s), 0);
    } else if s.slots[at].filled {
      var more := SearchAlone(ProducerNext(s));
      n := more + 1;
    } else {
      n := 3;
      var s1 := ProducerNext(s);
      var s2 := ProducerNext(s1);
      assert ProducerSteps(s, 3) == ProducerSteps(s1, 2) == ProducerSteps(s2, 1) == ProducerNext(s2);
    }
  }

  /** The producer's steps, run without interruption whatever the consumer is at, are the whole deposit. */
  lemma DepositAlone(s: State, item: Item) returns (n: nat)
    requires s.producer.Resting?
    ensures ProducerSteps(Next(s, Deposit(item)), n) == Deposited(s, item)
  {
    n := SearchAlone(Next(s, Deposit(item)));
  }

  /** The consumer's steps, run without interruption, take exactly what the slot holds and free it. */
  lemma TakeAlone(s: State, index: nat)
    requires Inv(s) && s.consumer.Waiting?
    ensures index < |s.slots| && s.slots[index].filled ==> s.slots[index].data.Some?
    ensures var s' := ConsumerSteps(Next(s, TryTake(index)), 3);
            s' == if index < |s.slots| && s.slots[index].filled
                  then s.(slots := s.slots[index := Slot(false, None)], taken := s.taken + [s.slots[index].data.value])
                  else s
  {
    hide Conserved;
    var s1 := Next(s, TryTake(index));
    var s2 := ConsumerNext(s1);
    var s3 := ConsumerNext(s2);
    assert ConsumerSteps(s1, 3) == ConsumerSteps(s2, 2) == ConsumerSteps(s3, 1) == ConsumerNext(s3);
    if index < |s.slots| && s.slots[index].filled {
      assert SlotOk(s, index);
    }
  }

  /** A peek reads exactly what the slot holds and leaves it there. */
  lemma PeekAlone(s: State, index: nat)
    requires Inv(s) && s.consumer.Waiting?
    ensures index < |s.slots| && s.slots[index].filled ==> s.slots[index].data.Some?
    ensures var s' := ConsumerSteps(Next(s, Peek(index)), 2);
            s' == if index < |s.slots| && s.slots[index].filled
                  then s.(peeked := s.peeked + [s.slots[index].data.value]) else s
  {
    hide Conserved;
    var s1 := Next(s, Peek(index));
    var s2 := ConsumerNext(s1);
    assert ConsumerSteps(s1, 2) == ConsumerSteps(s2, 1) == ConsumerNext(s2);
    if index < |s.slots| && s.slots[index].filled {
      assert SlotOk(s, index);
    }
  }

  // ---- The bridge between calls ----

  class TransferBridge<T> {
    const slots: array<Slot<T>>

    /** Between calls a slot holds data exactly when it is filled. */
    ghost predicate Valid()
      reads slots
    {
      forall i :: 0 <= i < slots.Length ==> (slots[i].filled <==> slots[i].data.Some?)
    }

    constructor (capacity: nat)
      ensures Valid() && fresh(slots) && slots.Length == capacity
      ensures forall i :: 0 <= i < capacity ==> !slots[i].filled
    {
      slots := new Slot<T>[capacity](_ => Slot(false, None));
    }

    /** Puts the item into the first empty slot; refuses it exactly when there is none. */
    method Deposit(item: T) returns (accepted: bool)
      requires Valid()
      modifies slots
      ensures Valid()
      ensures var i := FirstEmpty(old(slots[..]), 0);
              && accepted == (i < slots.Length)
              && slots[..] == if accepted then old(slots[..])[i := Slot(true, Some(item))] else old(slots[..])
    {
      ghost var before := slots[..];
      var i := 0;
      while i < slots.Length
        invariant 0 <= i <= slots.Length && FirstEmpty(before, 0) == FirstEmpty(before, i)
        invariant slots[..] == before
      {
        assert slots[i] == before[i];
        if !slots[i].filled {
          slots[i] := slots[i].(data := Some(item));
          slots[i] := slots[i].(filled := true);
          assert slots[..] == before[i := Slot(true, Some(item))];
          return true;
        }
        i := i + 1;
      }
      return false;
    }

    /** Takes what slot `index` holds; an index out of range holds nothing. */
    method TryTake(index: nat) returns (item: Option<T>)
      requires Valid()
      modifies slots
      ensures Valid()
      ensures item == if index < slots.Length then old(slots[..])[index].data else None
      ensures slots[..] == if item.Some? then old(slots[..])[index := Slot(false, None)] else old(slots[..])
    {
      ghost var before := slots[..];
      if index >= slots.Length || !slots[index].filled {
        return None;
      }
      item := slots[index].data;
      slots[index] := slots[index].(data := None);
      slots[index] := slots[index].(filled := false);
      assert slots[..] == before[index := Slot(false, None)];
    }

    /** Reads what slot `index` holds and leaves it there. */
    method PeekItem(index: nat) returns (item: Option<T>)
      requires Valid()
      ensures item == if index < slots.Length then slots[index].data else None
    {
      if index >= slots.Length || !slots[index].filled {
        return None;
      }
      return slots[index].data;
    }
  }
}
