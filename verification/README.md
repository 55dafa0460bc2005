# A verified model of the media driver

This project models the stateful core of the Aeron-style media driver written in Rust in this
repository, and proves what its parts keep over whole runs. `dafny verify dfyconfig.toml` checks
everything.

## What is modelled

**Bytes and positions** (`Arith`, `Bytes`). Wrapping 32- and 64-bit arithmetic is written out.
Buffers are sequences or arrays of bytes, and everything the driver lays out on a ring - frames in
the four term partitions, records in the command ring and the broadcast buffer - is a piece of bytes
at an absolute position, shown at that position modulo the buffer size.

**The receiver's image table** (`ImageIndex`, `ImageTable`, `ReceiverSetup`). The probing index with backward-shift
deletion, for any hash function and any number of slots, next to the dense array with swap-removal.
`ReceiverSetup` adds the hand-over of a new image to the client through the bridge.
The index invariant is that some slot is passed over by no probe path; it holds of an empty slot and,
in a completely full table, of the slot filled last.

**The publication log** (`TermLog`, `Publication`, `NetworkPublication`, `ConcurrentPublication`,
`PublicationHistory`, `PublicationScan`, `PublicationRuns`, `PublicationSteps`, `PublicationCalls`,
`PublicationStall`).
`offer`, term rotation with pad frames, and `sender_scan`, once as the single-threaded class, once as
two handles over shared state, and once as a step system in which publisher and sender are interleaved
byte by byte, with the length word and the two positions as atomic accesses. All are related to a
history: every frame ever written, at its stream position.

**The receive path** (`Image`, `ImageWindow`, `ImageStream`, `ImagePoll`, `ImageDelivery`,
`ImageBoundary`, `SharedImage`). `on_data` with its moving four-term window, gap detection and NAKs,
and `poll_fragments` with gap-skip and pad-skip; first for arbitrary arriving frames, then for the
frames of one sender over a network that loses, duplicates and reorders. `EndToEnd` joins both sides:
datagrams of a publication run are parsed and fed to an image created by the publication's own setup.

**Receiver and subscriber interleaved** (`ImageSteps`, `ImageStepsKept`, `ImageStepsWrite`,
`ImageInterleaved`, `ImageCalls`). The same image as a step system of two threads, one memory access at
a time: bytes cleaned, copied and read singly, the length word and `receiver_position` atomic.

**Sender control** (`SenderControl`, `PublicationEntry`, `Retransmit`). Flow-control limit, scan
limit, smoothed round-trip time, and the NAK delay/linger scheduler.

**Command ring, broadcast buffer and bridges** (`RecordRing`, `RingBuffer`, `RingClaims`, `Broadcast`,
`Bridge`, `RingRuns`, `BroadcastRuns`). The rings refine reference queues that know nothing of bytes, over
whole runs; claiming and the slot hand-off are step systems.

Code that changes things in place is modelled by classes and loops; each method is proved against a
function, and the properties are proved of that function or of its runs.

## Where the code does not keep its documentation

- The comment on `rotate_term` says that cleaning the entered partition is always safe because of
  back-pressure (`src/media/network_publication.rs:238-242`). It is not: `pub_position` does not count
  the pad of a rotated term. `PublicationRuns.RotationKeepsUnscannedExactly` gives the exact condition,
  `PublicationStall.MixedSizesStall` a run in which data is lost and the stream stops for good, and
  `UniformIsSafe` and `ShortPadIsSafe` two conditions on frame sizes under which it is safe.
- Polling at the end of an exactly filled active term reads the partition of the next term, which
  still holds an old one. `ImageBoundary.BoundaryPollExactly` gives the condition, one length word of the
  log, and `RedeliversAtBoundary` reaches the failure without any loss.
- `poll_fragments` tells a gap from the end of the data by loading a length word and then
  `receiver_position`, and searches a gap by loading length words at every multiple of 32
  (`src/media/shared_image.rs:350-384`); `append_frame` writes while this goes on. Three overlaps go wrong:
  - the frame at the cursor is committed and published between the two loads: the poll skips it, although
    nothing was lost (`ImageInterleaved.PublishedUnderCheckIsSkipped`, reached on every new image by
    `PublishedUnderCheckIsReached`); likewise a late frame committed where the search has just been
    (`CommittedUnderScanIsSkipped`, reached by `LateFrameIsReached`);
  - the search loads inside a late frame while it is written, and takes payload for a length
    (`HalfWrittenIsMisread`, `HalfWrittenIsReached`);
  - the poll loads the length of a frame while it is written again, and skips it (`RepeatedIsSkipped`,
    `RepeatedIsReached`).

  `InterleavedDelivery` shows that every interleaving without these, without a load of a stale length at the end
  of a term, and without the cleaning of a term still being read, delivers as it should: late and repeated
  frames may be written ahead of, behind and under a running poll.
- `write` admits message type 0 (`src/cnc/ring_buffer.rs:192`), which `read` takes for an uncommitted
  record. `RingRuns.FifoExactly` says for which types a run is first in, first out, and `ZeroTypeExample`
  shows two writes after which nothing is ever read.

## Assumptions

- Loads and stores of the interleaved models are sequentially consistent.
- Term length and MTU are at most 2^29, ring capacities at most 2^30, and a publication or image stays
  under 2^31 terms.
- A data frame is one datagram, and the 32-bit sum of its term offset and aligned length does not wrap.
- `sender_scan` runs with the limit `do_send` computes, so not past `pub_position`.
- The subscriber is at most three terms behind the newest frame: `on_data` does not apply back-pressure.
- Clocks are parameters, counts of nanoseconds from 0 up that fit an i64. The retransmit scheduler is given one that
  does not go back.

## Model

| member | source | states |
|---|---|---|
| `Arith.PositionRoundTrip` | src/media/network_publication.rs:203-265 | Below 2^31 terms a stream position and its (term id, term offset) pair determine each other, also when the i32 term id wraps, and the partition is the term count modulo four. |
| `Arith.PositionRoundTripExactly` | src/media/network_publication.rs:203-265 | The bound is sharp: a non-negative position is recovered if and only if it lies below 2^31 terms. |
| `Arith.TermCountRoundTrip` | src/media/term_buffer.rs:328-330 | Wrapping subtraction of the initial term id undoes wrapping addition for every count below 2^31, and the partition index is the count modulo four. |
| `Arith.Align32` | src/media/term_buffer.rs:492-494 | The aligned length is the least multiple of 32 that is not smaller. |
| `Arith.PowerOfTwoExactly` | src/agent/receiver.rs:387-388 | The power-of-two test holds exactly of the numbers 2^k. |
| `Arith.WrapDifference64` | src/media/retransmit_handler.rs:150-151 | The wrapping difference of two truncated 64-bit counters is their true difference whenever that fits. |
| `Bytes.EncodeDecodeI32` | src/cnc/ring_buffer.rs:81-99 | Four bytes read as a little-endian i32 and written back are the same bytes. |
| `Bytes.DecodeEncodeI32` | src/cnc/ring_buffer.rs:81-99 | Every i32 written little-endian is read back unchanged. |
| `ImageIndex.RingIsMask` | src/agent/receiver.rs:45-64 | Stepping and measuring distance round the index by masking is addition and subtraction modulo the table size. |
| `ImageIndex.EmptySlotEndsPath` | src/agent/receiver.rs:45-64 | No entry's probe path runs over an empty slot, so a probe may stop there. |
| `ImageIndex.FreeSlotExists` | src/agent/receiver.rs:66-82 | As long as fewer entries than slots are indexed there is an empty slot. |
| `ImageIndex.InsertKeepsValid` | src/agent/receiver.rs:68-82 | Filling the first empty slot of a probe path, even the last one of the table, leaves a slot that no probe path passes over. |
| `ImageIndex.ShiftTest` | src/agent/receiver.rs:133-139 | The wrapping distance test holds exactly when the gap lies on the entry's probe path. |
| `ImageIndex.ShiftStep` | src/agent/receiver.rs:124-142 | One step of the shift loop, whether it moves the entry or not, keeps all entries findable except through the gap and repairs one more slot. |
| `ImageIndex.ShiftAfterWrap` | src/agent/receiver.rs:144-147 | Once the scan of a full table has passed the slot no path crosses, it moves nothing any more, so the wrap guard ends a finished job. |
| `ImageIndex.ShiftFinish` | src/agent/receiver.rs:127-151 | When the chain ended or the table is exhausted, clearing the gap restores the probing invariant. |
| `ImageTable.FindImage` | src/agent/receiver.rs:45-64 | For any hash and table size, probing returns the live entry with the key, and None only if no live entry has it. |
| `ImageTable.InsertIndex` | src/agent/receiver.rs:68-82 | Inserting adds exactly the given entry to what the index holds and keeps every entry findable. |
| `ImageTable.RemoveIndex` | src/agent/receiver.rs:92-151 | Backward-shift deletion terminates, removes exactly the entry with the key, leaves all others findable and changes nothing for an absent key; also for a full table and chains across the wrap. |
| `ImageTable.ShiftChain` | src/agent/receiver.rs:117-151 | The shift loop ends, frees one slot, and restores the probing invariant for the remaining entries. |
| `ImageTable.CompactImages` | src/agent/receiver.rs:576-609 | Unindexing the removed and the moved entry and reindexing the moved one keeps index and dense array in step. |
| `ImageTable.SwapRemoveContents` | src/agent/receiver.rs:586-611 | Swapping the last entry and handle into the hole deletes exactly one key from the map the arrays represent. |
| `ImageTable.IndexAgreesWithScan` | src/agent/receiver.rs:45-64 | Any answer that meets the lookup's contract is the answer of a linear scan over the active images. |
| `ImageTable.Table.constructor` | src/agent/receiver.rs:466-495 | A new table represents the empty map and holds at most the configured number of images. |
| `ImageTable.Table.Find` | src/agent/receiver.rs:45-64 | Lookup through the index equals a linear scan of images[0..image_count] and succeeds exactly for the keys of the represented map. |
| `ImageTable.Table.OnSetup` | src/agent/receiver.rs:376-461 | Exactly when the key is new, the table has room and the term length is valid, the map gains the entry of the setup frame with a new handle, which is returned; otherwise nothing changes. `ReceiverSetup.OnSetup` says what the entry holds. |
| `ImageTable.Table.RemoveImage` | src/agent/receiver.rs:572-614 | Returns whether the key was present, removes exactly that key, and closes exactly its handle. |
| `ImageTable.RefinesMap` | src/agent/receiver.rs:376-614 | Every run of setups, removals and lookups on 256 slots with the driver's hash answers like a plain map, up to a completely full table. |
| `ReceiverSetup.OnSetup` | src/agent/receiver.rs:376-461 | An accepted setup gives the entry of a new image: the term ids, term length, cursors, time stamps and pending flag of the image the setup describes, the source address, and the configured window or half a term. It also deposits the subscriber's handle in the first empty slot of the bridge; the image is visible to the client exactly when there was one, and is kept in the table either way; a refused setup changes neither. |
| `ReceiverSetup.SetupStartsAt` | src/agent/receiver.rs:397-440 | A setup that names a stream position by term id and offset, also after the term id has wrapped, starts both cursors of the entry and both positions of the image at that position. |
| `TermLog.HeaderRoundTrip` | src/media/network_publication.rs:157-173 | A reader of a written header finds frame length, flags, type, term offset, session id, stream id and term id as written. |
| `TermLog.DataFrameRoundTrip` | src/media/network_publication.rs:157-173 | A reader of a data frame finds its whole length, both fragment flags, the data type, its place, its stream, and the payload unchanged. |
| `TermLog.PadRoundTrip` | src/media/term_buffer.rs:275-312 | A reader of a pad header finds the length of the tail, the pad type, its place and its stream. |
| `TermLog.ScanInPlace` | src/media/term_buffer.rs:204-251 | Every frame a scan emits, in any log, is the bytes at its own offset, of the length written there, and follows the one before it. |
| `PublicationHistory.WriteSlot` | src/media/network_publication.rs:140-190 | The byte where the publisher writes is the ring slot of its absolute position, through term-id wrap. |
| `PublicationHistory.AppendTracks` | src/media/network_publication.rs:140-179 | An accepted offer extends the stream by exactly its frame and leaves every unscanned frame in the log. |
| `PublicationHistory.RotateTracks` | src/media/network_publication.rs:180-253 | A rotation the sender is clear of pads the term to its end, cleans the next partition and leaves every unscanned frame in the log. |
| `PublicationHistory.DataEndIsBoundary` | src/media/network_publication.rs:175-178 | pub_position is a frame boundary: a frame that starts before it ends by it. |
| `PublicationHistory.DataFramesComplete` | src/media/network_publication.rs:203-229 | A sender that has reached pub_position has passed every data frame. |
| `PublicationScan.ReadFrame` | src/media/term_buffer.rs:204-251 | At the start of a shown frame a reader finds its length, its bytes and whether it is a pad. |
| `PublicationScan.ScanWalks` | src/media/term_buffer.rs:204-251 | A scan that stays within published data visits exactly the next frames of the stream, stops on a frame boundary, and passes its limit by less than one frame. |
| `PublicationScan.ScanTracks` | src/media/network_publication.rs:203-229 | A clamped sender_scan transmits exactly the data frames between the old and new sender position and advances to its limit or the end of the term. |
| `PublicationRuns.RotationKeepsUnscannedExactly` | src/media/network_publication.rs:231-253 | Cleaning the entered partition leaves every unscanned frame in the log if and only if sender_position has reached the term two before the active one. |
| `PublicationRuns.UnsafeRotationErases` | src/media/network_publication.rs:238-252 | Otherwise the rotation zeroes the very next frame the sender would read. |
| `PublicationRuns.RotationBound` | src/media/network_publication.rs:146-186 | In every run within 2^31 terms, for arbitrary frame sizes that fit a term and whatever earlier rotations did, a rotation leaving pad bytes finds the sender beyond the last pad bytes of the term whose partition it enters. |
| `PublicationRuns.OfferSucceeds` | src/media/network_publication.rs:135-190 | A frame that fits a term is back-pressured exactly while the sender is three terms behind; otherwise it is accepted at once, or on the immediate retry after AdminAction, and the position returned is the end of its frame in the stream. |
| `PublicationRuns.OfferExactly` | src/media/network_publication.rs:135-190 | Each of the four answers is given if and only if a condition on payload length, MTU, the two positions and the room in the term holds; too large and back-pressured change nothing. |
| `PublicationRuns.ShortPadIsSafe` | src/media/network_publication.rs:146-186 | A pad of at most 32 bytes makes the rotation safe. |
| `PublicationRuns.UniformIsSafe` | src/media/network_publication.rs:146-186 | With frames of one aligned length back-pressure alone makes every rotation safe. |
| `PublicationRuns.SentInOrder` | src/media/network_publication.rs:140-265 | In every run of offers, status messages and clamped send cycles with safe rotations, the frames sent are a prefix of the frames accepted, all of them once the sender has caught up, and sender_position stays at or below pub_position and below the limit plus one frame. |
| `PublicationRuns.UniformSentInOrder` | src/media/network_publication.rs:140-265 | With frames of one aligned length that holds for every run, across rotations, pads and term-id wrap, with no assumption on rotations. |
| `PublicationRuns.ShortPadSentInOrder` | src/media/network_publication.rs:140-265 | The same for arbitrary sizes when every rotation leaves at most 32 bytes of padding. |
| `PublicationRuns.AcceptedCarry` | src/media/network_publication.rs:140-179 | Over every run the frames accepted are, one for one and in order, data frames with the publication's session and stream ids that carry the payloads of the accepted offers. |
| `PublicationRuns.SendAdvances` | src/agent/sender.rs:635-692 | Over every run, a send cycle with a free slot moves a sender that is behind both the published data and its limit. |
| `PublicationRuns.CatchesUp` | src/agent/sender.rs:635-692 | After every run whose limit covers the published data, some number of send cycles with free slots sends everything that was accepted, in order. |
| `PublicationRuns.LimitIsCeiling` | src/agent/sender.rs:214-232 | Over every run the sender limit is the maximum of the term length and of all status-message proposals seen. |
| `PublicationStall.MixedSizesStall` | src/media/network_publication.rs:231-253 | A concrete run of mixed frame sizes in which a rotation erases unscanned data: eight frames accepted, one sent, and no further operation ever moves the sender or the publisher. |
| `NetworkPublication.New` | src/media/network_publication.rs:94-126 | Construction succeeds exactly for an MTU of at least the header length and a power-of-two term length from 32 up. |
| `NetworkPublication.ScanFrames` | src/media/term_buffer.rs:204-251 | The scan loop emits exactly the frames of the functional scan and returns the bytes it covered. |
| `NetworkPublication.NetworkPublication.constructor` | src/media/network_publication.rs:94-126 | A new publication is the initial one: zeroed log, both positions 0. |
| `NetworkPublication.NetworkPublication.Offer` | src/media/network_publication.rs:140-190 | Offer gives the result and leaves the log bytes, cursor and positions of the functional offer, in all four cases; `PublicationRuns.OfferExactly` and `AcceptedCarry` say what these are. |
| `NetworkPublication.NetworkPublication.WritePadFrame` | src/media/term_buffer.rs:275-312 | Writes a pad header over the unused tail, or nothing when no header fits. |
| `NetworkPublication.NetworkPublication.RotateTerm` | src/media/network_publication.rs:243-253 | Moves to the next term id, offset 0, and zeroes exactly the partition it enters. |
| `NetworkPublication.NetworkPublication.SenderScan` | src/media/network_publication.rs:203-229 | Emits and advances as the functional scan of the sender's term does. |
| `TermLog.CommitLastIsWholeFrame` | src/media/concurrent_publication.rs:252-276 | Header with length 0, payload, then the length word leave the same bytes as the whole frame at once. |
| `TermLog.CommitLastIsWholePad` | src/media/concurrent_publication.rs:215-225 | Pad header without its length word, then the length word, leave the whole pad header. |
| `ConcurrentPublication.Publisher.Offer` | src/media/concurrent_publication.rs:171-286 | As a whole call the concurrent offer gives the result and state of the same functional offer. |
| `ConcurrentPublication.Publisher.WriteFrame` | src/media/concurrent_publication.rs:231-276 | The three commit steps together append exactly the frame. |
| `ConcurrentPublication.Publisher.WritePadFrame` | src/media/concurrent_publication.rs:196-226 | The two pad stores together write the pad of the single-threaded publication. |
| `ConcurrentPublication.Publisher.RotateTerm` | src/media/concurrent_publication.rs:289-299 | Moves to the next term and zeroes exactly the partition it enters. |
| `ConcurrentPublication.Sender.SenderScan` | src/media/concurrent_publication.rs:374-453 | As a whole call the concurrent scan emits and advances as the functional scan. |
| `ConcurrentPublication.Lockstep` | src/media/concurrent_publication.rs:171-453 | Given the same calls, both publications return exactly the results and slices of the reference fold of those calls, and end with its bytes and positions. |
| `PublicationSteps.NextKeeps` | src/media/concurrent_publication.rs:171-299 | Every single memory access of publisher or sender, in any state reached, keeps the invariant that ties log, positions and half-written frame to the stream. |
| `PublicationSteps.CommitKeeps` | src/media/concurrent_publication.rs:272-276 | Storing the length word over the half-written frame completes it and disturbs no unsent frame. |
| `PublicationSteps.PublishKeeps` | src/media/concurrent_publication.rs:278-283 | Storing pub_position makes the committed frame, and nothing else, part of the published stream. |
| `PublicationSteps.CommitPadKeeps` | src/media/concurrent_publication.rs:215-227 | Storing the pad's length word and rotating extends the stream by the pad only. |
| `PublicationSteps.InterleavedInOrder` | src/media/concurrent_publication.rs:171-453 | In every interleaving, byte by byte, with safe rotations: each slice emitted is a whole accepted frame, in the order accepted and once each. |
| `PublicationSteps.UniformInterleavedInOrder` | src/media/concurrent_publication.rs:171-453 | With frames of one aligned length the same holds for every interleaving, with no assumption on rotations. |
| `PublicationSteps.ShortPadInterleavedInOrder` | src/media/concurrent_publication.rs:171-453 | For arbitrary sizes the same holds for every interleaving in which each rotation leaves at most 32 bytes of padding. |
| `PublicationCalls.OfferCall` | src/media/concurrent_publication.rs:171-299 | The publisher's steps, run without interruption, end in the state and with the accepted frames of the whole offer, in each of its outcomes. |
| `PublicationCalls.ScanCall` | src/media/concurrent_publication.rs:374-453 | The sender's steps, run without interruption, emit and advance as the whole scan. |
| `SenderControl.UpdateLimitIsMax` | src/agent/sender.rs:214-232 | The half-range comparison never misjudges: the new limit is the larger of the old limit and the proposal. |
| `SenderControl.ScanLimitClamps` | src/agent/sender.rs:635-673 | The scan limit reaches neither past the published data nor past the flow-control limit. |
| `SenderControl.ScanLimitExactly` | src/agent/sender.rs:635-673 | The scan limit is the least of the window left, the data published, the MTU times the free slots, and 2^32 - 1, and 0 where that is negative. |
| `SenderControl.SrttBetweenSamples` | src/agent/sender.rs:276-291 | The estimate is 0 exactly while no sample was accepted; afterwards it lies between any bounds on the accepted samples, in spite of both shifts rounding down. |
| `SenderControl.RttGain` | src/agent/sender.rs:276-291 | A sample outside 1 .. 2^62 - 2 changes nothing, the first one is taken as it is, and any other moves the estimate an eighth of the way, to within one unit. |
| `SenderControl.SrttConverges` | src/agent/sender.rs:276-291 | After any samples, enough equal ones bring the estimate to within 7 of their value. |
| `PublicationEntry.PublicationEntry.UpdateSenderLimitFromSm` | src/agent/sender.rs:214-232 | Updates the limit in place as the functional update does. |
| `PublicationEntry.PublicationEntry.UpdateRtt` | src/agent/sender.rs:276-291 | Updates the estimate in place as the functional update does, ignoring samples out of range; any but the first moves it by an eighth of the way. |
| `PublicationEntry.PublicationEntry.SendCycle` | src/agent/sender.rs:630-692 | One send cycle scans with the limit of `SenderControl.ScanLimitExactly` and puts exactly the non-pad frames on the wire. |
| `ImageWindow.OnDataKeeps` | src/agent/receiver.rs:284-366 | Whatever frame arrives, at any term id and any offset, negative and unaligned ones included: consumption and active term stay equal, consumption and expected offset stay equal, the consumption position does not go back and covers receiver_position, and every byte is zero or written by a frame of the one window term its partition stands for. |
| `ImageWindow.OnDataExactly` | src/agent/receiver.rs:284-366 | The effect of any frame in whole positions: one stored raises receiver and consumption position to its end if that is further; one ahead makes its term the active one; any other changes neither. A status message becomes pending exactly when a frame is stored and the driver sends them on data. |
| `ImageWindow.StoresExactly` | src/agent/receiver.rs:313-345 | A frame is stored if and only if its term lies at most three behind the active one, or ahead by less than 2^30 - 1, and it fits into its term. |
| `ImageWindow.OneTermPerPartition` | src/agent/receiver.rs:313-337 | No partition ever holds bytes of two terms. |
| `ImageWindow.CleanedExactly` | src/agent/receiver.rs:316-322 | A jump of any number of terms cleans exactly the partitions of the terms entered, at most four. |
| `ImageWindow.SurvivorInWindow` | src/agent/receiver.rs:313-327 | What a jump does not clean still belongs to the moved window. |
| `ImageWindow.GapSeenExactly` | src/agent/receiver.rs:284-287 | The wrapping half-range test sees a gap exactly when a frame of the active term starts beyond the expected offset by less than 2^30 - 1. |
| `ImageWindow.NakDueExactly` | src/agent/receiver.rs:284-303 | In plain arithmetic: a NAK is due if and only if a frame of the active term starts beyond the expected offset by less than 2^30 - 1 and the delay since the last NAK is over. |
| `ImageWindow.NakRangeEmpty` | src/agent/receiver.rs:284-303 | A NAK asks for the range from the expected offset to the frame that revealed the gap, and the log holds nothing in the part of it that lies in the term. |
| `ImageWindow.NakSpaced` | src/agent/receiver.rs:288-303 | A NAK is queued only when nak_delay_ns has passed since the last one. |
| `ImageWindow.StepNakSound` | src/agent/receiver.rs:284-303 | An operation queues no NAK, or one NAK for a range of the active term in which the log holds nothing. |
| `ImageWindow.RunKeeps` | src/agent/receiver.rs:284-366 | Over every run from a setup frame, of arriving frames, status messages and polls: the window invariant holds, queued NAKs are at least nak_delay_ns apart and ask only for ranges in which the log held nothing, a NAK is queued exactly when a frame shows a gap after the delay and the queue has room, and advertised positions never decrease. |
| `ImageWindow.SmDueExactly` | src/agent/receiver.rs:672-686 | In plain arithmetic: a status message is due if and only if one is pending or more than the interval has passed since the last. |
| `ImageWindow.SmSentExactly` | src/agent/receiver.rs:672-686 | Over every run from a setup frame: the image's turn sends a status message if and only if the interval since the last one is over, or a frame was stored since and the driver sends them on data; it advertises the position of that moment. |
| `ImageStream.WireFacts` | src/agent/receiver.rs:313-364 | A frame of a sender's stream is recognised at its true distance from the active term, fits its term, and is stored byte for byte. |
| `ImageStream.AdvanceHolds` | src/agent/receiver.rs:313-327 | Moving the window keeps exactly the stored frames still in it and leaves everything else blank. |
| `ImageStream.WriteHolds` | src/media/shared_image.rs:146-202 | Storing a frame, in any order, disturbs no other stored frame and no blank length word. |
| `ImagePoll.GapWalks` | src/media/shared_image.rs:352-384 | The gap scan stops at the next stored frame of the term, or at its end. |
| `ImagePoll.PollWalks` | src/media/shared_image.rs:341-433 | The polling loop delivers exactly the stored frames it walks over, at most the limit, stops inside no frame and not beyond receiver_position, and only for the limit, the end of the term or receiver_position. |
| `ImageDelivery.ArriveFed` | src/agent/receiver.rs:284-366 | An arriving frame of the stream is stored, or refused when it is behind the window; the image holds exactly the stored frames. |
| `ImageDelivery.PollFed` | src/media/shared_image.rs:316-444 | A poll delivers, unchanged and in stream order, exactly the stored frames between the old and the new subscriber position, at most the limit and nothing for a limit of 0, and does not pass receiver_position; at the end of an exactly filled term, with no length behind it, it does nothing. |
| `ImageDelivery.PassedUncommitted` | src/media/shared_image.rs:352-384 | A data frame a poll passed over had no committed length. |
| `ImageDelivery.FreshFed` | src/media/shared_image.rs:92-132 | The image created from a setup frame that names a frame boundary starts at that position and holds nothing. |
| `ImageDelivery.DeliveredInOrder` | src/media/shared_image.rs:316-444 | For any loss, duplication and reordering the fragments delivered are a subsequence of those sent, in strictly increasing position, with unchanged payloads; and every poll of the run delivers each data frame it moves past unless its length was not committed, and stops only for the limit, receiver_position or the end of the term. |
| `ImageDelivery.EveryFrameAccounted` | src/media/shared_image.rs:316-444 | Every data frame behind the subscriber was delivered, or was not committed at the poll that passed it. |
| `ImageBoundary.BoundaryPollExactly` | src/media/shared_image.rs:324-361 | At the end of an exactly filled active term a poll leaves everything as it is, and the subscriber at or below receiver_position, if and only if the first length word of the next partition is not positive; it is positive exactly when a frame of the term four terms back is still held there. |
| `ImageBoundary.StaleHeadPoll` | src/media/shared_image.rs:324-361 | Otherwise the poll delivers that old frame and moves the subscriber beyond receiver_position. |
| `ImageBoundary.RedeliversAtBoundary` | src/media/shared_image.rs:316-444 | Reachable without loss: after any number n >= 4 of exactly filled terms, each polled at once, one more poll delivers frame n - 4 again. |
| `ImageBoundary.RedeliveryExample` | src/media/shared_image.rs:316-444 | Four header-only frames in terms of 32 bytes, none lost: the poll after the fourth delivers the first again. |
| `SharedImage.ReceiverImage.constructor` | src/media/shared_image.rs:92-132 | The two handles start as the functional new image. |
| `SharedImage.ReceiverImage.AppendFrame` | src/media/shared_image.rs:146-202 | An invalid partition and a frame that does not fit its term are refused without effect; otherwise header with length 0, payload and committed length leave exactly the frame's bytes, and the new offset is its aligned end. |
| `SharedImage.ReceiverImage.RotateTo` | src/agent/receiver.rs:313-327 | The cleaning loop and the cursor resets move the window as the functional step does. |
| `SharedImage.ReceiverImage.CheckGap` | src/agent/receiver.rs:284-303 | Returns the NAK from the expected offset to the frame exactly when the frame is beyond it in the active term and the delay has passed, and stamps the time. |
| `SharedImage.ReceiverImage.OnData` | src/agent/receiver.rs:284-366 | The imperative on_data leaves the state of the functional one and returns its NAK. |
| `SharedImage.ReceiverImage.SendSm` | src/agent/receiver.rs:672-686 | A status message carries the consumption term and offset and is due exactly when one is pending or more than the interval has passed since the last. |
| `SharedImage.SubscriberImage.PollTerm` | src/media/shared_image.rs:337-433 | The polling loop with gap-skip and pad-skip computes the functional poll of a term. |
| `SharedImage.SubscriberImage.PollFragments` | src/media/shared_image.rs:316-444 | The imperative poll delivers and advances as the functional poll. |
| `SharedImage.SkipGap` | src/media/shared_image.rs:362-379 | The skip loop ends at the next positive length word or at the term boundary. |
| `ImageStepsKept.SubscriberKeeps` | src/media/shared_image.rs:341-433 | Every single access of a poll keeps the invariant that ties log, cursor and half-read fragment to the stream, and a data frame the cursor passes is delivered by that step or has no committed length; excepted are length loads inside a frame being written, other than the missing length of a new one, and of a stale length at the end of the newest term. |
| `ImageStepsWrite.ReceiverKeeps` | src/agent/receiver.rs:313-366 | Every single access of on_data - cleaning, copying, committing, storing the position - keeps it too, unless it completes a frame whose length a poll has just found missing. |
| `ImageStepsWrite.ArriveKeeps` | src/agent/receiver.rs:313-337 | So does the start of any arrival, at any point of a poll, new, late or repeated, unless it would clean a term the subscriber still reads. |
| `ImageInterleaved.InterleavedDelivery` | src/media/shared_image.rs:316-444 | In every interleaving of receiver and subscriber, access by access, that excludes these accesses: fragments delivered are whole frames of the stream, unchanged and in order, and a frame passed over was not committed when passed. Polls and arrivals start at any time, and late and repeated frames are written during polls. |
| `ImageInterleaved.PublishedUnderCheckIsSkipped` | src/media/shared_image.rs:350-384 | Whenever the frame at the cursor is published between the two loads, the poll passes over it although it is committed. |
| `ImageInterleaved.PublishedUnderCheckIsReached` | src/media/shared_image.rs:350-361 | On every new image, for whatever frame comes next, allowed steps lead to that point, with no loss and no duplicate. |
| `ImageInterleaved.CommittedUnderScanIsSkipped` | src/media/shared_image.rs:362-384 | Whenever a late frame is committed where a poll has just found no length, the poll passes over it although it is committed. |
| `ImageInterleaved.LateFrameIsReached` | src/media/shared_image.rs:350-384 | On every new image, when a frame of the term overtakes the next one, allowed steps lead to that commit, and to a load inside the late frame if it is longer than 32 bytes. |
| `ImageInterleaved.HalfWrittenIsMisread` | src/media/shared_image.rs:362-384 | Whenever the search of a gap loads inside a frame being written and the word there is positive, the poll goes on from inside the frame. |
| `ImageInterleaved.HalfWrittenIsReached` | src/media/shared_image.rs:362-384 | So the misreading is reached by allowed steps and one load, for every late frame whose first payload word is positive. |
| `ImageInterleaved.RepeatedIsSkipped` | src/media/shared_image.rs:176-198 | Whenever a poll loads the length of a frame that is being written again, once its length bytes are cleared, it passes over the frame although it had been committed. |
| `ImageInterleaved.RepeatedIsReached` | src/media/shared_image.rs:176-198 | On every new image whose first frame arrives twice, allowed steps and one load reach the skipping of that frame, and nothing is delivered. |
| `ImageCalls.ArriveCall` | src/agent/receiver.rs:313-366 | The receiver's steps, run without interruption, leave the image of the whole on_data, apart from the NAK time stamp. |
| `ImageCalls.PollCall` | src/media/shared_image.rs:316-444 | The subscriber's steps, run without interruption, deliver and advance as the whole poll. |
| `EndToEnd.ParseIsWire` | src/frame.rs:129-152 | The receiver parses every frame of a publication back into its own term, offset and payload. |
| `EndToEnd.SentKey` | src/frame.rs:129-152 | Every datagram a publication run sends parses to the session and stream of that publication, so the receiver looks up its image. |
| `EndToEnd.RunLabelled` | src/media/network_publication.rs:157-169 | Every frame written by a publication run carries the term id and offset of the place where it stands, and every write cursor the run passed is a frame boundary. |
| `EndToEnd.SubscriberSeesSubsequence` | src/media/shared_image.rs:316-444 | From offer to subscriber: datagrams of a publication run, lost, repeated and reordered, parsed from their bytes and fed to an image created by that publication's setup at any time: what is handed over are payloads as they were given to accepted offers, unchanged, in the order offered, each at most once. |
| `EndToEnd.SmRaisesLimit` | src/agent/sender.rs:214-232 | The way back: at any moment of such a run the receiver's consumption term and offset raise the sender's limit to exactly the consumption position plus the window, and never lower it. |
| `RecordRing.WriteKeepsItems` | src/cnc/ring_buffer.rs:294-313 | Writing behind the unread records, less than a lap beyond the first, disturbs none of them. |
| `RecordRing.ReadItem` | src/cnc/ring_buffer.rs:344-373 | A reader at a record finds its length, its type and its payload. |
| `RecordRing.PadReachesEnd` | src/cnc/ring_buffer.rs:219-233 | The padding before a wrap ends exactly at the end of the buffer, so the record after it starts at offset 0. |
| `RecordRing.NeededIsLeast` | src/cnc/ring_buffer.rs:208-233 | A record goes to the first place at or behind the tail where the end of the buffer does not cut it. |
| `RingBuffer.New` | src/cnc/ring_buffer.rs:150-160 | A ring is created exactly for power-of-two capacities from 32 up. |
| `RingBuffer.MpscRingBuffer.Write` | src/cnc/ring_buffer.rs:197-317 | Too large and Full are returned exactly when the record exceeds the capacity, or record plus padding exceeds the free space, leaving everything unchanged; otherwise the record, behind padding if it would straddle the end, is appended to the queue. |
| `RingBuffer.MpscRingBuffer.Read` | src/cnc/ring_buffer.rs:327-394 | Delivers in order and removes every record before the first of type 0, skipping the padding type. |
| `RingBuffer.MpscRingBuffer.WriteRecord` | src/cnc/ring_buffer.rs:294-313 | Zeros, payload, length and type, in that order, leave exactly the record. |
| `RingRuns.Run` | src/cnc/ring_buffer.rs:197-394 | Every run of whole calls, with any 32-bit message types, returns the results, accepts the messages and delivers the messages of the reference queue for those calls. |
| `RingRuns.WriteTakesFirstPlace` | src/cnc/ring_buffer.rs:208-292 | A write that fits the capacity is Full exactly when no place in the free space holds its record in one piece; otherwise it takes the first such place. |
| `RingRuns.FifoExactly` | src/cnc/ring_buffer.rs:327-394 | After a final read everything accepted has been delivered, in order, if and only if no accepted message has type 0 or the padding type -1. |
| `RingRuns.DeliveredFirst` | src/cnc/ring_buffer.rs:327-394 | At any time what was delivered are, in order, the first accepted messages that are not padding, and none of the messages passed has type 0. |
| `RingRuns.ZeroBlocks` | src/cnc/ring_buffer.rs:344-361 | Once a message of type 0 is at the head, no later call ever delivers anything. |
| `RingRuns.ZeroTypeExample` | src/cnc/ring_buffer.rs:192-394 | Two accepted writes of types 0 and 1 to a new ring of 64 bytes: no sequence of calls ever delivers a message. |
| `RingClaims.NextKeeps` | src/cnc/ring_buffer.rs:208-292 | Every load, exchange and head advance keeps the claims contiguous, in one piece each, and within one capacity of the head. |
| `RingClaims.ClaimsDisjoint` | src/cnc/ring_buffer.rs:208-292 | In every reachable state two claims of which the earlier is unconsumed share no byte of the buffer, neither records nor pads. |
| `RingClaims.ClaimSparesUnread` | src/cnc/ring_buffer.rs:208-292 | A claim never covers an unconsumed byte, although the head its producer loaded may be stale. |
| `RingClaims.RunKeeps` | src/cnc/ring_buffer.rs:208-292 | Every interleaving of any number of producers with a consumer reaches only such states. |
| `RingClaims.ClaimTakesFirstPlace` | src/cnc/ring_buffer.rs:208-292 | From any reachable state a producer that is not interrupted claims exactly when its record has a place, takes the first, and pads up to it; otherwise it claims nothing. |
| `Broadcast.BroadcastTransmitter.Transmit` | src/cnc/broadcast.rs:162-202 | Refuses exactly messages larger than the capacity; otherwise appends the message, after padding if it would straddle the end, and keeps every record within one capacity of the tail readable. |
| `Broadcast.BroadcastReceiver.Receive` | src/cnc/broadcast.rs:285-340 | A receiver at most the capacity behind gets exactly the messages since its cursor, in order, and ends at the tail. |
| `BroadcastRuns.Run` | src/cnc/broadcast.rs:162-340 | Every run with any number of receivers joining at any time transmits and hands over what the reference fold of those calls says, receiver by receiver. |
| `BroadcastRuns.NothingMissed` | src/cnc/broadcast.rs:285-340 | What a receiver has got is always an initial stretch of the messages transmitted since it joined, without gap or repetition, whatever the others did, and all of them whenever its cursor stands at the tail. |
| `BroadcastRuns.ReceiveCatchesUp` | src/cnc/broadcast.rs:285-340 | Over every run a receive brings a receiver to the tail, with everything transmitted since it joined, if and only if it was at most the capacity behind. |
| `Bridge.NoSharedAccess` | src/client/bridge.rs:76-107 | In every interleaving no slot's data is about to be accessed by both sides, what the consumer takes is there, and what the producer overwrites is not. |
| `Bridge.ExactlyOnePlace` | src/client/sub_bridge.rs:86-136 | In every interleaving an item is in as many places - a hand, a slot, taken, refused - as it was offered times: one offered once is in exactly one place. |
| `Bridge.RunKeeps` | src/client/sub_bridge.rs:193-222 | Every reachable state keeps the slot protocol. |
| `Bridge.DepositAlone` | src/client/bridge.rs:76-89 | The producer's steps, run without interruption whatever the consumer is at, fill the first empty slot, or refuse the item when there is none. |
| `Bridge.TakeAlone` | src/client/bridge.rs:96-107 | The consumer's steps, run without interruption from any reachable state, take exactly what the slot holds and free it. |
| `Bridge.PeekAlone` | src/client/sub_bridge.rs:126-136 | The steps of a peek, run without interruption, read exactly what the slot holds and change nothing. |
| `Bridge.TransferBridge.Deposit` | src/client/bridge.rs:76-89 | As a whole call: fills the first empty slot, and refuses exactly when there is none. |
| `Bridge.TransferBridge.TryTake` | src/client/bridge.rs:96-107 | As a whole call: returns and empties what the slot holds; nothing for an empty slot or an index out of range. |
| `Bridge.TransferBridge.PeekItem` | src/client/sub_bridge.rs:126-136 | As a whole call: returns what the slot holds and leaves it there. |
| `Retransmit.NakSeenByKey` | src/media/retransmit_handler.rs:88-130 | A NAK changes the state of its own key only, and that only when the key is inactive and a slot is free. |
| `Retransmit.TickSeenByKey` | src/media/retransmit_handler.rs:142-174 | A tick moves every key's action by exactly one step of delay, linger, inactive. |
| `Retransmit.FiredOnce` | src/media/retransmit_handler.rs:142-174 | One tick calls back for a key at most once, exactly when its action waits and has expired. |
| `Retransmit.FiresOncePerNak` | src/media/retransmit_handler.rs:88-174 | Under a clock that does not go back: no two active actions share a key, every NAK taken up fires exactly once, at the first tick at or after its delay, with its length, and firings of one key are at least delay plus linger apart. |
| `Retransmit.AcceptsExactly` | src/media/retransmit_handler.rs:96-130 | A NAK is taken up if and only if no active action has its key and some slot is inactive. |
| `Retransmit.NakTakenUp` | src/media/retransmit_handler.rs:88-174 | Over every run a NAK is taken up if and only if its key is idle and fewer keys are busy than the table has slots; a key is busy from a NAK taken up until the first tick that finds the linger of its firing over. |
| `Retransmit.DelayAcrossWrap` | src/media/retransmit_handler.rs:150-151 | A delay that starts before the 64-bit clock wraps and ends after it still fires, exactly from its end on. |
| `Retransmit.RetransmitHandler.OnNak` | src/media/retransmit_handler.rs:88-130 | The single pass accepts exactly when the key is not active and a slot is free, and uses the first free slot. |
| `Retransmit.RetransmitHandler.ProcessTimeouts` | src/media/retransmit_handler.rs:142-174 | The loop fires and steps the whole table as the functional tick. |
| `Retransmit.RetransmitHandler.ActiveCount` | src/media/retransmit_handler.rs:177-186 | Counts the actions that are not inactive. |

## Left out

- Broadcast.BroadcastReceiver.Receive: requires a receiver at most the capacity behind; after a lap the code restarts at the tail minus the capacity, which need not be a record boundary, and nothing is promised there.
- RingBuffer.MpscRingBuffer.Read: covers whole calls; delivery while a producer is between claim and commit is not modelled, because a consumed record keeps its old payload bytes.
- ImageDelivery.PollFed: requires the subscriber's term to be in the window, or its end to have no stale length behind it, which `ImageBoundary` shows to be needed; a subscriber more than three terms behind is not covered.
- ImageWindow.OnDataKeeps: requires that the 32-bit sum of offset and aligned length does not wrap, and stays under 2^31 terms.
- SharedImage.ReceiverImage.OnData: the same.
- SharedImage.ReceiverImage.AppendFrame: the same.
- SharedImage.SubscriberImage.PollFragments: a whole call; `ImageCalls.PollCall` ties it to the interleaved steps.
- ImageInterleaved.InterleavedDelivery: frames of one stream and a subscriber within three terms; NAK and status-message bookkeeping, which the subscriber does not see, is not part of the steps; sequentially consistent accesses.
- RingBuffer.New: capacities above 2^30, the largest power of two for which every record length fits its i32 word, are not modelled.
- Broadcast.New: the same.
- RingRuns.Run: fewer than 2^31 calls, so that the 64-bit positions do not wrap.
- BroadcastRuns.Run: a receiver found lapped is marked and delivers nothing more in the reference, because nothing is promised for it.
- NetworkPublication.New: term lengths and MTUs above 2^29, where 32-bit sums of offsets can wrap, are not modelled.
- PublicationSteps.InterleavedInOrder: sequentially consistent accesses; the release/acquire orderings of the code are not modelled.
- ReceiverSetup.OnSetup: handles are numbers; for a receiver without a bridge, `ImageTable.Table.OnSetup` is the whole call.
- Kernel, sockets and name resolution (`src/media/uring_poller.rs`, `transport.rs`, `poller.rs`, `channel.rs`): a send is appending to the list of frames sent.
- Send buffers (`src/media/buffer_pool.rs`) and frames dropped for want of a send slot.
- What `do_retransmit` puts on the wire for a NAK, and the retransmit path from NAK to resend; only its scheduling is modelled.
- Frame, command and control-message codecs (`src/frame.rs`, `src/cnc/command.rs`) beyond the data header: fixed-layout copies.
- Setup, heartbeat and round-trip messages, endpoints, and the order in which an agent serves its publications and images.
- Context, clock, idle strategies, agent runner, conductor, client facade and CnC file: configuration, threads and wiring.
- Closing of an image as seen by the subscriber, and bridges being dropped with items inside.
