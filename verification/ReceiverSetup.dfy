/**
 A setup frame at the receiver: the image enters the table, and its subscriber handle is handed to
 the client through the bridge.
 */
module ReceiverSetup {
  import opened Wrappers
  import opened ImageIndex
  import T = ImageTable
  import B = Bridge
  import I = Image
  import Arith

  /** Table and bridge do not share memory. */
  ghost predicate Apart(table: T.Table, bridge: B.TransferBridge<nat>) {
    && table.images as object != bridge.slots && table.index as object != bridge.slots
    && table.handles as object != bridge.slots
  }

  /** The bridge carries handles the table has given out, none of them twice. */
  ghost predicate HandedOut(slots: seq<B.Slot<nat>>, nextHandle: nat) {
    && (forall i :: 0 <= i < |slots| && slots[i].data.Some? ==> slots[i].data.value < nextHandle)
    && (forall i, j :: 0 <= i < j < |slots| && slots[i].data.Some? ==> slots[i].data != slots[j].data)
  }

  /** The entry holds the receiver's side of image `x`. */
  ghost predicate Describes(e: T.ImageEntry, x: I.Image) {
    && e.initialTermId == x.initialTermId && e.termLength == x.termLength && e.activeTermId == x.activeTermId
    && e.consumptionTermId == x.consumptionTermId && e.consumptionTermOffset == x.consumptionTermOffset
    && e.expectedTermOffset == x.expectedTermOffset && e.smPending == x.smPending
    && e.timeOfLastNakNs == x.timeOfLastNak && e.timeOfLastSmNs == x.timeOfLastSm
  }

  /** The window a receiver offers: what the driver is configured to, or half a term. */
  ghost predicate WindowFor(e: T.ImageEntry, override: Option<int>) {
    match override
    case Some(window) => e.receiverWindow == window
    case None => 2 * e.receiverWindow <= e.termLength < 2 * e.receiverWindow + 2
  }

  /**
   A setup frame that names a stream position by term id and offset, even after the term id has
   wrapped, starts the image and both cursors of its entry at that position.
   */
  lemma SetupStartsAt(setup: T.SetupHeader, source: int, override: Option<int>, position: int)
    requires T.TermLengthOk(setup.termLength) && 0 <= position < Arith.TWO31 * setup.termLength
    requires setup.activeTermId == Arith.TermIdOf(position, setup.initialTermId, setup.termLength)
    requires setup.termOffset == position % setup.termLength
    ensures var e := T.NewEntry(setup, source, override);
            && Arith.ComputePosition(e.activeTermId, e.expectedTermOffset, e.initialTermId, e.termLength) == position
            && Arith.ComputePosition(e.consumptionTermId, e.consumptionTermOffset, e.initialTermId, e.termLength)
               == position
    ensures var x := I.NewImage(setup.initialTermId, setup.activeTermId, setup.termLength, setup.termOffset);
            x.receiverPosition == x.subscriberPosition == position
  {
    Arith.PositionRoundTrip(position, setup.initialTermId, setup.termLength);
  }

  /**
   `on_setup`: a new image, and only a new image, puts its handle into the first empty slot of the
   bridge; if there is none the image exists but is not visible to the client.
   */
  method OnSetup(table: T.Table, bridge: B.TransferBridge<nat>, setup: T.SetupHeader, source: int)
    returns (created: bool, visible: bool)
    requires table.Valid() && bridge.Valid() && Apart(table, bridge) && HandedOut(bridge.slots[..], table.nextHandle)
    modifies table, table.images, table.index, table.handles, bridge.slots
    ensures table.Valid() && bridge.Valid() && HandedOut(bridge.slots[..], table.nextHandle)
    ensures created <==> Key(setup.sessionId, setup.streamId) !in old(table.Contents())
                         && old(table.imageCount) < table.maxImages && T.TermLengthOk(setup.termLength)
    ensures table.Contents()
         == if created then old(table.Contents())[Key(setup.sessionId, setup.streamId) :=
                              T.Image(T.NewEntry(setup, source, table.windowOverride), Some(old(table.nextHandle)))]
            else old(table.Contents())
    ensures created ==>
              && setup.termLength >= 0
              && var e := table.Contents()[Key(setup.sessionId, setup.streamId)].entry;
                 && Describes(e, I.NewImage(setup.initialTermId, setup.activeTermId, setup.termLength,
                                            setup.termOffset))
                 && e.active && e.sourceAddr == source && WindowFor(e, table.windowOverride)
                 && T.KeyOf(e) == Key(setup.sessionId, setup.streamId)
    ensures var before, i := old(bridge.slots[..]), B.FirstEmpty(old(bridge.slots[..]), 0);
            && visible == (created && i < |before|)
            && bridge.slots[..] == if visible then before[i := B.Slot(true, Some(old(table.nextHandle)))] else before
  {
    hide T.ContentsOf, T.Indexed;
    var handle := table.OnSetup(setup, source);
    created, visible := handle.Some?, false;
    if created {
      visible := bridge.Deposit(handle.value);
    }
  }
}
