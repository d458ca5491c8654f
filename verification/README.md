# skai-edge: a verified model of the video uplink

skai-edge decodes an RTSP camera, runs a YOLO detector on its frames, stores
alerts, and sends the H.264 stream to LAN viewers (WHEP) and to the cloud (WHIP).
This project models the parts of it whose correctness is hard to see from one
function, and proves what they promise for all inputs, all runs and all
interleavings. `dafny verify dfyconfig.toml` checks everything.

| modules | component |
|---|---|
| `AnnexB`, `SeiNal`, `Splice` | the H.264 reader, the SEI encoder and the splicer (ITU-T H.264 sections 7.3.1, 7.3.2.3.1, 7.4.1, D.1.6 and Annex B) |
| `DetectionJson`, `PayloadSize`, `SeiSelector`, `StableSort`, `Uplink` | the detection payload, its size, and which results ride on which access unit |
| `RtpClock` | RTP time (section 5.1 of RFC 3550, the 90 kHz clock of RFC 6184) |
| `BoundedQueue`, `WhipGate` | the drop-oldest queue and the keyframe gate of the WHIP send loop |
| `WhepSessions` | the WHEP session manager |
| `AlertStore`, `AlertRules`, `DetectorPermit` | snapshot/row storage across crashes, alert rules, detector toggles |
| `Letterbox`, `Resample`, `Nms`, `Greedy` | preprocessing and postprocessing of the detector |
| `EncoderTimeline` | presentation times around the encoder |

How the model relates to the code:

- Loops are methods with invariants, objects are classes; each is proved equal to a
  function of its inputs or old state, and the theorems are about those functions.
- Code that several threads run is a transition system whose steps are the lock-held
  sections (`WhepSessions`, `WhipGate`) or single system calls with a crash possible
  between any two (`AlertStore`). The classes in `WhepSessions` and `WhipGate` show
  that each section, as code, is one of those steps.
- Integers are unbounded except where the code wraps (`RtpClock`) or checks limits
  (`Letterbox`). Floating point is exact real arithmetic with a tag for non-finite
  input; printed numbers are integers in units of 1/10000.
- Outcomes of foreign code (file and database calls, sends, peer creation) are
  parameters of the steps. Database commits are atomic and durable, renames are
  atomic, and a directory operation survives a crash for certain only after an fsync
  of its directory.

Four promises do not hold of the code as it is; each has a counterexample and its
exact condition.

- Keyframe gate: the loop pops a unit and reads the drop counter under two lock
  acquisitions (src/webrtc/whip_publisher.cpp:411-418). If a unit overflows in
  between and the popped unit is a keyframe, the loss goes unnoticed and a
  non-keyframe can follow across a gap (`WhipGate.HiddenLoss`). `WhipGate.GateHolds`
  shows that this is the only way.
- RTP time: for every unit without PTS the clock counts one frame interval. A later
  PTS of the same generation moves the RTP time forward if and only if it lies ahead
  of the previous PTS by more than the intervals counted since, modulo 2^32
  (`RtpClock.TimeMovesForwardIff`, `RtpClock.ForwardIff`); otherwise it does not, as in
  `RtpClock.DisorderMovesBackward`. With PTS on every unit after a generation's first
  PTS, nothing is counted and rising PTS suffice (`RtpClock.TimeMovesForward`).
- Alert ids: they are unique only as long as the wall clock does not repeat across
  restarts; persisting under a committed id deletes that alert's snapshot
  (`AlertStore.ReusedIdLosesSnapshot`). Within one run of the manager they are always
  distinct (`AlertRules.SerialsDiffer`).
- Normalised boxes: the header says they are clamped to the frame, but corner and size
  are rounded separately. The far edge lies outside the frame, by 1/10000, if and only
  if the box reaches the frame's edge and its corner lies exactly between two units
  (`DetectionJson.NormalizedInFrame`, `DetectionJson.NormalizedOvershoot`).

## Model

| member | source | states |
|---|---|---|
| `AnnexB.FindStarts` | tests/support/h264_sei_test_support.hpp:31-37 | the scan finds the start positions of the structural reading, skipping three bytes after each start code |
| `AnnexB.StartsDelimitChunks` | tests/support/h264_sei_test_support.hpp:31-41 | the index-driven starts delimit exactly the byte strings between start codes, for every byte string |
| `AnnexB.TrimmedEnd` | tests/support/h264_sei_test_support.hpp:41 | the backward loop removes exactly the trailing zero bytes of a chunk |
| `AnnexB.SplitAnnexB` | tests/support/h264_sei_test_support.hpp:30-47 | the reader's NAL list is the list of non-empty chunks after a start code, in order, with type and payload |
| `AnnexB.ChunksRejoin` | tests/support/h264_sei_test_support.hpp:31-41 | the byte strings between start codes give the stream when put back together, and none holds a start code |
| `AnnexB.ChunkUnitIs` | tests/support/h264_sei_test_support.hpp:41-45 | a chunk of zeros is no unit; any other is one, up to its last byte that is not zero |
| `AnnexB.RemoveEmulationPrevention` | tests/support/h264_sei_test_support.hpp:49-61 | the stripping loop computes the structural removal of emulation prevention bytes |
| `AnnexB.ReadCodedLoop` | tests/support/h264_sei_test_support.hpp:73-80 | the ff-coded number loop returns the coded value and its length, or fails exactly at the end of data |
| `AnnexB.ReadBody` | tests/support/h264_sei_test_support.hpp:81-87 | UUID, payload and trailing-bits check of a message whose type and size were read, or nothing when they do not fit |
| `AnnexB.ParseUserDataSei` | tests/support/h264_sei_test_support.hpp:69-88 | the parser's result for every NAL, including each rejection |
| `SeiNal.BuildRbsp` | src/webrtc/detection_sei.cpp:117-127 | the message RBSP: type 5, ff-coded size, UUID, payload, trailing bits |
| `SeiNal.EncodeUserDataSeiNal` | src/webrtc/detection_sei.cpp:115-141 | the emulation-prevention loop computes the escaped unit behind a four-byte start code |
| `SeiNal.UnescapeInvertsEscape` | src/webrtc/detection_sei.cpp:131-139 | stripping undoes escaping, for every byte string and every number of preceding zeros |
| `SeiNal.EscapeProtects` | src/webrtc/detection_sei.cpp:131-139 | escaped bytes hold no 00 00 00, 00 00 01 or 00 00 02, whatever zeros precede them |
| `SeiNal.EscapesOnlyIfNeeded` | src/webrtc/detection_sei.cpp:131-139 | a byte is inserted if and only if a byte of at most 03 follows two zeros |
| `SeiNal.ReadSize` | src/webrtc/detection_sei.cpp:119-124 | the reader's ff-coded size is the encoder's, for every size |
| `SeiNal.SeiRoundTrip` | src/webrtc/detection_sei.cpp:115-141 | for every UUID and payload the reader finds exactly one type-6 unit without an inner start code and recovers UUID, payload and valid trailing bits |
| `Splice.InsertBeforeFirstVcl` | src/webrtc/detection_sei.cpp:143-159 | returns false and changes nothing exactly when a reader sees no VCL unit; otherwise inserts at the first VCL start code, keeping its zero byte, and any inserted unit is read immediately before the first VCL unit, all others unchanged |
| `Splice.SpliceCorrect` | src/webrtc/detection_sei.cpp:145-157 | the NAL list after the edit is the original one with the unit placed before the first VCL unit, for every access unit, start-code length and stray zeros |
| `Splice.StartCodeKept` | src/webrtc/detection_sei.cpp:149-155 | the insertion never splits a four-byte start code |
| `Splice.ChunksOfConcat` | tests/support/h264_sei_test_support.hpp:31-37 | reading a concatenation glues the readings of its parts when no start code lies across the seam |
| `Splice.NothingToSplice` | src/webrtc/detection_sei.cpp:158 | without a VCL start code the reader sees no VCL unit |
| `Splice.EncodedUnitsCanBeSpliced` | src/webrtc/detection_sei.cpp:115-141 | every encoded detection unit meets the conditions under which splicing preserves the stream, and reads back as its message |
| `DetectionJson.AppendFraction` | src/webrtc/detection_sei.cpp:26-35 | the digit-stripping loop prints the fraction without trailing zeros |
| `DetectionJson.AppendNumber` | src/webrtc/detection_sei.cpp:18-36 | any double is printed with sign, whole part and fraction of its nearest 1/10000; non-finite values and values beyond 1e9 as zero |
| `DetectionJson.ValueRoundTrip` | src/webrtc/detection_sei.cpp:19-20 | what is printed for a value is read back within half a unit of it, or as zero if it is not finite or too large |
| `DetectionJson.NumberRoundTrip` | src/webrtc/detection_sei.cpp:18-36 | a number parser reads every printed value back exactly, whatever delimiter follows |
| `DetectionJson.NoTrailingZero` | src/webrtc/detection_sei.cpp:28-35 | a printed fraction never ends in the digit zero |
| `DetectionJson.AppendString` | src/webrtc/detection_sei.cpp:38-53 | the loop quotes a byte string, escaping quotes, backslashes and control bytes |
| `DetectionJson.TextRoundTrip` | src/webrtc/detection_sei.cpp:38-53 | a string parser reads every byte string back exactly |
| `DetectionJson.AppendBox` | src/webrtc/detection_sei.cpp:95-107 | a box is printed as its six fields in order, ahead of whatever follows |
| `DetectionJson.DetectionSeiJson` | src/webrtc/detection_sei.cpp:87-113 | the nested loops print the whole document |
| `DetectionJson.DocumentRoundTrip` | src/webrtc/detection_sei.cpp:87-113 | a parser for the documented grammar recovers every printed result list, out-of-range values as zero |
| `DetectionJson.ExactRoundTrip` | src/webrtc/detection_sei.cpp:18-19 | the list is recovered exactly if and only if every value is within the printable range |
| `DetectionJson.EdgeUnits` | src/webrtc/detection_sei.cpp:72-75 | per axis: rounded corner plus rounded size exceeds the frame exactly when the box ends at its edge and starts exactly between two units, and then by one unit |
| `DetectionJson.NormalizedInFrame` | src/webrtc/detection_sei.cpp:62-77 | normalised values lie in [0,1] for every input including non-finite ones; the far edge leaves the frame if and only if the far corner is at or beyond the frame's edge and the near one lies exactly between two units |
| `DetectionJson.NormalizedAccurate` | src/webrtc/detection_sei.cpp:62-77 | for every input: with corners moved into the frame and the score into [0,1], place, size and score are kept to the nearest 1/10000, each in its own field |
| `DetectionJson.NormalizedOvershoot` | src/webrtc/detection_sei.cpp:72-75 | the exception at an ordinary size: a box from column 4 to the right edge of a frame 640 wide |
| `PayloadSize.JsonPrintable` | src/webrtc/detection_sei.cpp:38-53 | no byte of a payload is below 0x20, whatever the class names |
| `PayloadSize.EncodedSize` | src/webrtc/detection_sei.cpp:170-172 | detection payloads need no emulation prevention, so the unit's size is an exact function of the text length |
| `PayloadSize.FitsIff` | include/skai/webrtc/detection_sei.hpp:14-16 | a message fits if and only if its unit has at most 1024 bytes |
| `PayloadSize.SizeGrowsWithBoxes` | src/webrtc/detection_sei.cpp:229-234 | the unit of one result grows strictly with the number of leading boxes kept |
| `PayloadSize.EmptyResultFits` | src/webrtc/detection_sei.cpp:227 | a result without boxes fits the cap, so the bisection starts from a count that fits |
| `SeiSelector.OldestIndex` | src/webrtc/detection_sei.cpp:179-183 | the minimum scan finds the first least result by generation, then PTS |
| `SeiSelector.AddDropsOldest` | src/webrtc/detection_sei.cpp:176-187 | a result is added at the end; exactly if that makes too many, one is dropped, the first of the earliest generation and PTS |
| `SeiSelector.Partition` | src/webrtc/detection_sei.cpp:189-204 | in order and with multiplicity: a result stays exactly if its generation is later, is due exactly if its generation is the unit's and it is at most a second older and not younger, and is counted as dropped otherwise |
| `SeiSelector.PartitionIsExact` | src/webrtc/detection_sei.cpp:193-203 | every waiting result is exactly one of later, due or stale |
| `SeiSelector.DtInWindow` | src/webrtc/detection_sei.cpp:212-215 | a due result's dt is the rounded distance and at most 90000 |
| `SeiSelector.DropUntilFits` | src/webrtc/detection_sei.cpp:216-221 | the loop drops the fewest oldest results until the rest fits or one is left |
| `SeiSelector.Bisect` | src/webrtc/detection_sei.cpp:227-234 | the bisection finds the largest number of leading boxes whose unit fits |
| `SeiSelector.TrimBoxes` | src/webrtc/detection_sei.cpp:222-237 | the newest result alone is cut to its best-scored boxes that fit, and the cut boxes are counted |
| `SeiSelector.TrimIsOptimal` | src/webrtc/detection_sei.cpp:222-237 | the trimmed result fits, kept and cut boxes are together the original ones, no cut box outscores a kept one, and one more box would not fit |
| `SeiSelector.SameBoxesSameSize` | src/webrtc/detection_sei.cpp:225-228 | reordering boxes does not change a unit's size, so the full count is known not to fit |
| `SeiSelector.TakeIsBest` | src/webrtc/detection_sei.cpp:189-251 | at most 1024 bytes; attached are the longest newest suffix of the due results that fits, or the newest alone with its best boxes, oldest first |
| `SeiSelector.TakeSorts` | src/webrtc/detection_sei.cpp:189-251 | for every state and unit, which waiting results stay, which are candidates, in which order they go out, and which are dropped, stated from generations and PTS alone |
| `SeiSelector.MessageTells` | src/webrtc/detection_sei.cpp:206-249 | the message tells of every attached result its rounded distance and its boxes, all of them or, of a single one, the best that fit; at most 1024 bytes; units and cut boxes are counted exactly |
| `SeiSelector.SelectorRuns` | src/webrtc/detection_sei.cpp:176-251 | over every sequence of calls each added result is waiting, attached or dropped exactly once, at most max_pending wait, and each attached one rode on a unit of its own generation at most 1 s later |
| `SeiSelector.SeiResultSelector.AddNext` | src/webrtc/detection_sei.cpp:176-187 | new state of the selector after an add |
| `SeiSelector.SeiResultSelector.TakeNext` | src/webrtc/detection_sei.cpp:189-251 | what waits afterwards is what has a later generation, bytes come back exactly if some result is due, and state, counters and bytes are those of the specification |
| `StableSort.SortStable` | src/webrtc/detection_sei.cpp:206-208 | the sort keeps, for every key, the elements with that key in their original order |
| `StableSort.StableSortUnique` | src/webrtc/detection_sei.cpp:225-226 | an ordered result that keeps equal keys in order is unique, so any stable sort gives this one |
| `Uplink.UnitReadsBack` | src/webrtc/detection_sei.cpp:170-172 | the unit of a message reads back as exactly that message |
| `Uplink.AttachDetections` | src/webrtc/whip_publisher.cpp:423-427 | a viewer of the sent unit reads its own NAL units with the selector's message before the first VCL unit and no other; units without VCL or with nothing due are unchanged |
| `Uplink.ViewerLocatesResults` | src/webrtc/whip_publisher.cpp:423-427 | for every result in a message read from a sent unit, the unit's RTP time minus the result's dt is the RTP time of the result's own frame, within one tick |
| `RtpClock.TicksExact` | include/skai/video/encoded_access_unit.hpp:23-28 | the split form equals floor(pts*90000/1e9) mod 2^32 and no 64-bit intermediate overflows |
| `RtpClock.DtExactIff` | src/webrtc/detection_sei.cpp:79-85 | the computed dt is the documented rounding if and only if that fits 32 bits |
| `RtpClock.WhipRtpClock.constructor` | src/webrtc/whip_policy.hpp:50-63 | the clock's initial state |
| `RtpClock.WhipRtpClock.Timestamp` | src/webrtc/whip_policy.cpp:76-97 | new state and timestamp of one call; learned interval stays in [1, 9000] |
| `RtpClock.RunRemembers` | src/webrtc/whip_policy.cpp:76-97 | after every run the clock's private fields are a function of the units sent: the last PTS of the generation, the units without PTS since, and the last plausible PTS distance |
| `RtpClock.StepsAre` | src/webrtc/whip_policy.cpp:76-97 | every step of every run in terms of the units alone: a PTS continuing a generation moves the time by its lead over the last PTS and the intervals counted since, any other unit by the frame interval, which stays in [1, 9000] |
| `RtpClock.BeginsAt` | src/webrtc/whip_policy.cpp:80-92 | a session begins at its start value, or at the PTS of its first unit |
| `RtpClock.TimeMovesForwardIff` | src/webrtc/whip_policy.cpp:76-97 | over every run, with units without PTS anywhere and any number of restarts, each step is in (0, 2^31) modulo 2^32 if and only if every such lead is |
| `RtpClock.ForwardIff` | src/webrtc/whip_policy.cpp:83-91 | for leads within half the clock's range, that is a PTS later than the last one by more than the intervals counted |
| `RtpClock.TimeMovesForward` | src/webrtc/whip_policy.cpp:76-97 | every orderly run moves forward; a restart advances the time by exactly the learned interval, a continuing PTS by its distance in ticks |
| `RtpClock.DisorderMovesBackward` | src/webrtc/whip_policy.cpp:83-91 | one unit without PTS between two PTS: the run moves forward if and only if the second PTS is more than 3000 ticks after the first |
| `RtpClock.ViewerRecoversTime` | src/webrtc/whip_policy.cpp:91 | RTP time of the carrier minus dt is the result frame's RTP time within one tick, and exact for whole ticks, whatever was sent between |
| `RtpClock.SessionRecoversTime` | src/webrtc/whip_policy.cpp:76-97 | the same for any two units of one generation in any session |
| `BoundedQueue.Bounded.PushBack` | include/skai/core/bounded_queue.hpp:35-48 | new queue value after a push, refused only after shutdown |
| `BoundedQueue.Bounded.TakeFront` | include/skai/core/bounded_queue.hpp:110-116 | the oldest value, if any, and the new queue value |
| `BoundedQueue.Bounded.DiscardAll` | include/skai/core/bounded_queue.hpp:75-81 | new queue value and the number discarded |
| `BoundedQueue.Bounded.Shutdown` | include/skai/core/bounded_queue.hpp:65-71 | buffered values stay available after shutdown |
| `BoundedQueue.Bounded.Reset` | include/skai/core/bounded_queue.hpp:84-89 | a fresh lifecycle |
| `BoundedQueue.QueueRuns` | include/skai/core/bounded_queue.hpp:35-116 | pushed = popped + dropped + discarded + size; what is queued is the newest accepted values in order, never more than the capacity |
| `BoundedQueue.OpEffect` | include/skai/core/bounded_queue.hpp:35-116 | a push removes nothing from a queue that is not full and exactly the oldest value from a full one; pop, discard and shutdown remove the oldest, all and nothing |
| `BoundedQueue.HighWaterIs` | include/skai/core/bounded_queue.hpp:35-60 | the high-water mark is the largest number of values ever held |
| `WhipGate.StepKeepsInv` | src/webrtc/whip_publisher.cpp:382-440 | every step of producer or send loop keeps: while the gate is open, all units missing after the last sent one were counted by the drop counter |
| `WhipGate.GateHolds` | src/webrtc/whip_publisher.cpp:374-440 | in every interleaving a sent non-keyframe is no discontinuity and follows the last sent unit of its session; it is its immediate push-order successor if and only if nothing overflowed between that unit's pop and the counter read |
| `WhipGate.AtomicTakeIsGapFree` | src/webrtc/whip_publisher.cpp:411-419 | if nothing happens between pop and counter read, every sent non-keyframe is the immediate successor of the unit sent before it |
| `WhipGate.SendsIff` | src/webrtc/whip_publisher.cpp:411-440 | a unit is sent if and only if it is delivered and is a keyframe or stands behind an open gate with no discontinuity and no loss counted |
| `WhipGate.GateIsOpenIff` | src/webrtc/whip_publisher.cpp:374-440 | in every run the gate is open if and only if a unit got through and no session start, resume or withheld unit has followed |
| `WhipGate.HiddenLoss` | src/webrtc/whip_publisher.cpp:411-420 | a concrete run in which an overflow between the two lock acquisitions sends a non-keyframe across a gap |
| `WhipGate.SendLoop.Begin` | src/webrtc/whip_publisher.cpp:374-379 | the loop's initial locals |
| `WhipGate.SendLoop.WaitForTrack` | src/webrtc/whip_publisher.cpp:388-404 | a closed or disconnected track empties the queue once and asks for a resume |
| `WhipGate.SendLoop.TakeUnit` | src/webrtc/whip_publisher.cpp:405-411 | a resume re-arms the gate; the oldest unit is taken |
| `WhipGate.SendLoop.DecideOn` | src/webrtc/whip_publisher.cpp:416-435 | gate, counter update and send; a rejected send ends the session |
| `WhepSessions.StepKeepsInv` | src/webrtc/webrtc_manager.cpp:584-816 | every lock-held section keeps accounting, ownership and gating |
| `WhepSessions.SessionsAccounted` | src/webrtc/webrtc_manager.cpp:584-816 | in every interleaving: created = closed + live, live within the peer limit, no media implies no session and no cached keyframe, and no media worker outlives the map and pending closes |
| `WhepSessions.DownStaysDown` | src/webrtc/webrtc_manager.cpp:796-816 | from the end of shutdown to the next configure the map stays empty, nothing is cached or created, even with creations in flight |
| `WhepSessions.RegistersIff` | src/webrtc/webrtc_manager.cpp:606-644 | a session is registered if and only if the manager serves, a place is free, the peer could be created and the id is new, and then exactly that entry is added |
| `WhepSessions.ProceedsIff` | src/webrtc/webrtc_manager.cpp:666-682 | a creation passes its second check exactly if its session is still the one registered and wanted, and media start exactly if it was not closed meanwhile |
| `WhepSessions.ClosesExactly` | src/webrtc/webrtc_manager.cpp:687-728 | each way of closing removes the sessions it names and no others, and counts them |
| `WhepSessions.CloseFinishes` | src/webrtc/webrtc_manager.cpp:818-830 | a finished close stops that session's media for good and touches no other |
| `WhepSessions.ConfiguresExactly` | src/webrtc/webrtc_manager.cpp:584-598 | a configuration sets limit and switch, and the manager serves afterwards exactly if enabled with media available |
| `WhepSessions.CanFill` | src/webrtc/webrtc_manager.cpp:606-644 | for every limit some run reaches exactly that many sessions |
| `WhepSessions.KeyframeIs` | src/webrtc/webrtc_manager.cpp:759-816 | in every run the cached keyframe is the last one published while serving with no discontinuity, media loss or shutdown since |
| `WhepSessions.SweepStale` | src/webrtc/webrtc_manager.cpp:708-718 | the erase loop removes exactly the stale entries and counts them |
| `WhepSessions.WebRtcManager.RegisterSession` | src/webrtc/webrtc_manager.cpp:606-644 | a handle comes back if and only if the session is accepted; map and counter grow by exactly that entry |
| `WhepSessions.WebRtcManager.RejectOffer` | src/webrtc/webrtc_manager.cpp:649-659 | failed negotiation removes whatever is registered under the id |
| `WhepSessions.WebRtcManager.AcceptOffer` | src/webrtc/webrtc_manager.cpp:667-678 | the second check passes if and only if the session is still the one registered and wanted, and hands over the cached keyframe |
| `WhepSessions.WebRtcManager.CloseSession` | src/webrtc/webrtc_manager.cpp:687-697 | close by id |
| `WhepSessions.WebRtcManager.CleanupStale` | src/webrtc/webrtc_manager.cpp:703-719 | reaping of stale sessions |
| `WhepSessions.WebRtcManager.SetMediaAvailable` | src/webrtc/webrtc_manager.cpp:774-790 | media loss empties map and cache |
| `WhepSessions.WebRtcManager.PublishUnit` | src/webrtc/webrtc_manager.cpp:759-772 | the keyframe cache, and the registered sessions the unit is handed to |
| `WhepSessions.WebRtcManager.BeginShutdown` | src/webrtc/webrtc_manager.cpp:797-801 | shutdown flags the manager |
| `WhepSessions.WebRtcManager.EndShutdown` | src/webrtc/webrtc_manager.cpp:805-814 | shutdown empties the map |
| `WhepSessions.WebRtcManager.ApplyConfig` | src/webrtc/webrtc_manager.cpp:586-596 | a configuration takes effect after a shutdown |
| `AlertStore.PersistKeepsInv` | src/alerts/alert_manager.cpp:206-237 | every system call of a persist, succeeding or failing, keeps the store's invariant |
| `AlertStore.CleanKeepsInv` | src/alerts/alert_manager.cpp:246-274 | every system call of a cleanup, succeeding or failing, keeps the store's invariant |
| `AlertStore.ReconcileKeepsInv` | src/alerts/alert_manager.cpp:287-302 | every step of a reconcile keeps the store's invariant |
| `AlertStore.CrashKeepsInv` | src/alerts/alert_manager.cpp:185-306 | a crash at any moment, losing any unsynced directory operations, keeps the store's invariant |
| `AlertStore.RowsKeepSnapshots` | src/alerts/alert_manager.cpp:185-306 | in every run every committed row has a fully written snapshot under its final or tombstone name, also after a crash now; after a successful reconcile it has the final name and no tombstone is left |
| `AlertStore.CleanupLeavesNoOrphan` | src/alerts/alert_manager.cpp:240-306 | rows go oldest first as a prefix of the excess, success leaves exactly the newest keep, and no crash or reconcile leaves a final-name snapshot whose row was deleted |
| `AlertStore.PersistSucceeds` | src/alerts/alert_manager.cpp:185-233 | a persist all of whose calls succeed, under an id without a row, adds exactly its row and leaves its snapshot durably under the final name |
| `AlertStore.PersistFails` | src/alerts/alert_manager.cpp:209-238 | whichever call fails first, no row is added and exactly the names the code leaves behind are left |
| `AlertStore.PersistOutcome` | src/alerts/alert_manager.cpp:231-238 | over every run, a persist reports success if and only if it added its row, and otherwise leaves the rows alone |
| `AlertStore.CleanupSucceeds` | src/alerts/alert_manager.cpp:240-276 | a cleanup all of whose calls succeed deletes exactly the excess rows and their snapshots, durably, and touches no other file |
| `AlertStore.CleanupStops` | src/alerts/alert_manager.cpp:254-260 | it stops at the first excess row whose snapshot is not under its final name, with exactly the rows before it gone |
| `AlertStore.CleanupRestores` | src/alerts/alert_manager.cpp:261-267 | if the row cannot be deleted, the snapshot returns durably to its final name and the row stays |
| `AlertStore.ReconcileSucceeds` | src/alerts/alert_manager.cpp:278-306 | a reconcile all of whose calls succeed, in any order of tombstones, turns each into the final name if its row exists, removes it otherwise, and changes nothing else |
| `AlertStore.UnsyncedMayBeLost` | src/alerts/alert_manager.cpp:222-230 | before the directory sync a crash may leave a new snapshot under any name it went through or none; after it, only the final name |
| `AlertStore.CrashLeaves` | src/alerts/alert_manager.cpp:185-306 | a crash keeps the rows and leaves of each alert's names any state since the last sync |
| `AlertStore.SyncIsLocal` | src/alerts/alert_manager.cpp:230 | a directory sync makes exactly the files of that day durable |
| `AlertStore.ReusedIdLosesSnapshot` | src/alerts/alert_manager.cpp:222-236 | persisting under the id of a committed row that is not quarantined deletes that row's snapshot: the condition of the two results above is needed |
| `AlertStore.CleanupKeepsNewest` | src/storage/alert_repository.cpp:301-316 | deleting the whole excess leaves exactly the newest rows |
| `AlertStore.ExcessExists` | src/storage/alert_repository.cpp:308-312 | the oldest-excess query has an answer for every set of rows |
| `AlertRules.CollectMatching` | src/alerts/alert_manager.cpp:137-148 | the loop collects the matching detections in order |
| `AlertRules.MatchesIff` | src/alerts/alert_manager.cpp:138-148 | a detection matches exactly if all its numbers are finite, its class has the rule's name, it is confident enough and its centre lies in the region |
| `AlertRules.MatchingIff` | src/alerts/alert_manager.cpp:137-148 | what is collected is what matches, in order and as often as it occurs |
| `AlertRules.AdvanceRule` | src/alerts/alert_manager.cpp:149-178 | a rule's next state and whether it fires |
| `AlertRules.AlertManager.constructor` | src/alerts/alert_manager.cpp:110-118 | fresh rules and an empty history after configuration |
| `AlertRules.AlertManager.Process` | src/alerts/alert_manager.cpp:123-183 | all rules after one result, including the reset at a generation change; the alerts returned are those of this result in the manager's whole history |
| `AlertRules.AlertsAreFirings` | src/alerts/alert_manager.cpp:135-181 | the alerts returned for a result are of exactly the rules that fire on it when seen alone, each with its matching detections |
| `AlertRules.CounterIsStreak` | src/alerts/alert_manager.cpp:149-155 | the counter never exceeds the current streak of matches of one generation without an alert |
| `AlertRules.RaisesIff` | src/alerts/alert_manager.cpp:123-183 | over every run, the manager returns an alert of a rule if and only if at least N consecutive matching results of one generation end here after the rule's previous alert, all its earlier alerts are at least the cooldown ago, and the alert is stored |
| `AlertRules.SerialsDiffer` | src/alerts/alert_manager.cpp:163-165 | serial numbers of the alerts of a run strictly increase, so no two ids are equal, also when storing fails in between |
| `DetectorPermit.ApiState.CommitDetections` | include/skai/api_state.hpp:126-144 | a result is published exactly if the detector is enabled and the permit is current |
| `DetectorPermit.ApiState.InvalidateDetections` | include/skai/api_state.hpp:147-156 | the published result is withdrawn under the same condition |
| `DetectorPermit.ApiState.Configure` | include/skai/api_state.hpp:94-101 | a new configuration switches the detector and its generation |
| `DetectorPermit.ApiState.SetDetectorEnabled` | include/skai/api_state.hpp:167-173 | a toggle changes the generation and withdraws the published result |
| `DetectorPermit.ApiState.SetDetectorSupported` | include/skai/api_state.hpp:180-189 | losing support disables the detector |
| `DetectorPermit.GenerationCountsToggles` | include/skai/api_state.hpp:97-98 | two moments share a generation if and only if nothing toggled between |
| `DetectorPermit.NoCommitAcrossToggle` | include/skai/api_state.hpp:133-135 | a result under a permit taken earlier is committed if and only if the detector is enabled and nothing toggled since |
| `DetectorPermit.LatestImpliesEnabled` | include/skai/api_state.hpp:136-142 | a published result implies an enabled detector |
| `DetectorPermit.SupportedIs` | include/skai/api_state.hpp:180-189 | support is what the last report of it said |
| `DetectorPermit.EnabledIs` | include/skai/api_state.hpp:94-189 | the switch is what the last toggle set, as far as the detector was supported then |
| `DetectorPermit.LatestIs` | include/skai/api_state.hpp:126-173 | what is published is the last accepted commit since the last toggle or accepted invalidation |
| `DetectorPermit.AlertWithinOnePermit` | src/inference/yolo_inference_module.cpp:214-250 | all results behind one alert were committed with no toggle between them |
| `Nms.IouFacts` | src/inference/yolo_postprocess.cpp:29-40 | IoU is symmetric, in [0,1], and 1 for a box with itself |
| `Nms.IouIsRatio` | src/inference/yolo_postprocess.cpp:29-40 | overlap over union, without division |
| `Nms.OverlapIsCommonArea` | src/inference/yolo_postprocess.cpp:29-40 | the overlap is the area of the box of common points, zero without any |
| `Nms.BestClass` | src/inference/yolo_postprocess.cpp:80-89 | the channel loop finds the best finite class score |
| `Nms.BestIsFirstMaximum` | src/inference/yolo_postprocess.cpp:80-89 | it is the first class with the greatest finite score, or none is finite |
| `Nms.Filter` | src/inference/yolo_postprocess.cpp:77-110 | the filter loop collects the candidates of all columns |
| `Nms.CandidateAtFacts` | src/inference/yolo_postprocess.cpp:90-109 | a column yields a candidate exactly under the stated filters, with the column's centre, size, best class and score |
| `Nms.CandidatesIff` | src/inference/yolo_postprocess.cpp:77-110 | the candidates are those of the columns, each once, in column order |
| `Nms.RankFacts` | src/inference/yolo_postprocess.cpp:112-118 | ranking orders by confidence, then index, and is a permutation |
| `Nms.RankingUnique` | src/inference/yolo_postprocess.cpp:112-118 | there is only one ranking of a set of candidates |
| `Nms.KeptIsTheSelection` | src/inference/yolo_postprocess.cpp:126-157 | a candidate is kept if and only if fewer than max better ones are and none of those conflicts with it, and no other set of ranks has this property |
| `Nms.RejectedIsCovered` | src/inference/yolo_postprocess.cpp:127-136 | below the cap a rejected candidate is covered by a kept one of its class at least as confident |
| `Nms.OutputDetermined` | src/inference/yolo_postprocess.cpp:112-157 | the output depends on the set of candidates alone |
| `Nms.RestoredInFrame` | src/inference/yolo_postprocess.cpp:141-153 | a kept box restores to a non-empty box inside the frame, so the degenerate-box skip never fires |
| `Nms.RestoreBoxRestores` | src/inference/yolo_postprocess.cpp:139-152 | a detection has its candidate's class and confidence; corners inside the content map back to the frame point the letterbox maps there, corners outside to the frame's edge |
| `Nms.IsSuppressed` | src/inference/yolo_postprocess.cpp:127-135 | the inner loop finds a conflict exactly if there is one |
| `Nms.SelectBoxes` | src/inference/yolo_postprocess.cpp:120-157 | the greedy loop with its cap restores exactly the kept candidates |
| `Nms.PostprocessYolo` | src/inference/yolo_postprocess.cpp:56-157 | fails exactly on invalid input; otherwise the boxes are, in rank order, the restored boxes of the unique selection, non-empty, inside the frame and above the threshold |
| `Letterbox.ReadableIff` | src/inference/preprocess.cpp:10-35 | an image is accepted if and only if its sizes are positive and small enough and its last row ends inside the buffer |
| `Letterbox.PlansAreValid` | src/inference/preprocess.cpp:55-96 | every plan scales both dimensions by the largest scale that fits, to the nearest pixel, is valid and accepted by the resampler, fills one dimension and is centred in the other |
| `Letterbox.RestoreInverts` | src/inference/yolo_postprocess.cpp:124-152 | restoration exactly inverts the forward map and clamping leaves the frame's points alone |
| `Letterbox.RestoredNonEmpty` | src/inference/yolo_postprocess.cpp:106-108 | an interval reaching into the content area restores to a non-empty interval of the frame |
| `Letterbox.RestoresCorner` | src/inference/yolo_postprocess.cpp:139-147 | a restored and clamped corner is the frame point the letterbox maps to it, or the frame's edge outside the content |
| `Resample.PixelInBounds` | src/inference/preprocess.cpp:10-35 | every pixel of a valid image, at any stride, lies inside the buffer |
| `Resample.SampleConvex` | src/inference/preprocess.cpp:37-51 | a sample stays within the range of the four pixels it reads |
| `Resample.SampleAtPixel` | src/inference/preprocess.cpp:37-51 | a sample at a pixel's position is that pixel |
| `Resample.SampleIsLinear` | src/inference/preprocess.cpp:37-51 | on an image linear in its coordinates every sample is that linear function at its own place, moved to the nearest point of the image |
| `Resample.SourceIsRestoredCentre` | src/inference/preprocess.cpp:106-110 | sampling looks where box restoration points |
| `Resample.CellInUnit` | src/inference/preprocess.cpp:104-114 | every tensor value lies in [0,1] |
| `Resample.CellIs` | src/inference/preprocess.cpp:100-118 | cells outside the content are 114/255; a content cell shows the frame at the point whose letterbox image is its centre, planes in RGB order |
| `Resample.UnscaledIsCopy` | src/inference/preprocess.cpp:105-115 | without scaling every content cell is exactly its pixel, in RGB plane order |
| `Resample.OffsetInjective` | src/inference/preprocess.cpp:111-114 | distinct cells have distinct offsets |
| `Resample.FillRow` | src/inference/preprocess.cpp:106-115 | one row of the tensor is filled, nothing else changes |
| `Resample.PreprocessCpu` | src/inference/preprocess.cpp:83-118 | the errors in order, or a tensor whose every cell is padding or the bilinear mix of its plane |
| `EncoderTimeline.InputRises` | src/video/h264_encoder.cpp:317-326 | submitted PTS strictly increase whatever the capture clock does, and never precede the capture time |
| `EncoderTimeline.InputIsLeast` | src/video/h264_encoder.cpp:314-327 | a submitted PTS is the least time not before its capture and after the previous one |
| `EncoderTimeline.Encoder.Submit` | src/video/h264_encoder.cpp:314-326 | PTS assignment of one frame |
| `EncoderTimeline.Encoder.RebuildPipeline` | src/video/h264_encoder.cpp:248-251 | a rebuild forgets the pipeline's origin only |
| `EncoderTimeline.Encoder.CaptureSample` | src/video/h264_encoder.cpp:356-382 | rebasing of one sample; samples without PTS change nothing |
| `EncoderTimeline.RebaseKeepsOrder` | src/video/h264_encoder.cpp:369-377 | rebasing preserves dts <= pts, and distances from the origin on |
| `EncoderTimeline.OutputTimeline` | src/video/h264_encoder.cpp:356-382 | over any number of rebuilds output PTS strictly increase, distances within a pipeline are kept, the first pipeline is unchanged, and a rebuild starts at the least time one frame after the last output and not before its raw PTS |

## Left out

- GStreamer, libdatachannel, CUDA/TensorRT, curl, Beast and SQLite themselves: foreign code, represented only by the outcomes of calls.
- HTTP routing, status and metrics rendering, the browser client, scripts, installation and command line: plumbing that would add only easy members.
- YAML parsing and configuration range checks: the validated ranges appear as conditions (`frames >= 1`, a positive frame duration, a positive queue capacity).
- RTSP recovery, application lifecycle, health watchdog, event queue, tensor layout, GPS and recording: modellable, with easier properties than those above.
- Gap-freedom for WHEP viewers: a session starts from a cached keyframe and the units published since are not replayed, so the gate is stated for the WHIP loop only.
- Floating-point rounding and NaN bit patterns; the finiteness test of box corners after widening to double cannot fail in exact arithmetic and is not a branch of the model.
- Overflow of 64-bit counters, generations and nanosecond times after centuries of running.
- Session-id randomness, timers, thread wake-ups and liveness under scheduling: only safety is proved, and which sessions are stale is arbitrary.
- `dt_percentile` and the ring of recent dt values, log texts, close reasons and the list of recently closed sessions: they influence nothing else.
- Persist, cleanup and reconcile are modelled on values, one step per system call, so that a crash can fall between any two; update in place of the manager object is not part of that model. Frame validation, the choice of the JPEG encoder and the check that a snapshot path lies inside the alert directory are left out, and one task runs at a time.
- AlertRules.AlertManager.Process: leaves out the wall-clock time stamp, GPS fix and model version copied into an alert, the text of its id apart from the serial number, and the event sent to subscribers; whether storing succeeds is an input, and what storing does is `AlertStore`.
- DetectorPermit.ApiState.CommitDetections: the callback run under the lock is not part of the state; it runs exactly when the result is true, and the results it hands to the alert queue are the commits `DetectorPermit.AlertWithinOnePermit` speaks of.
- WhepSessions.WebRtcManager.PublishUnit: gives the sessions a unit is handed to, not what their queues do with it, which is no part of the manager's state.
- AlertStore.RowsKeepSnapshots: assumes the date directories themselves are durable, because their parent is never synced.
- AlertStore.CleanupLeavesNoOrphan: assumes that nothing else deletes rows while a cleanup runs; `keep` is bounded by the largest 32-bit integer, as in the query.
- EncoderTimeline.OutputTimeline: requires raw PTS that rise within each pipeline and a positive frame duration.
- Greedy and StableSort state facts about selection and sorting that hold of any element type; their rows appear only where the code relies on them.
