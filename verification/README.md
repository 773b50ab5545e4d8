# Verified model of the ADAS classifier and its safety chain

A camera proposes regions, an FPGA accelerator classifies them, a judgement layer turns the answers
into Clear, Slow or Stop, and a TurtleBot obeys over a serial line. The Dafny modules here model the
parts of that system whose correctness does not show in any single function, in the form the code
gives them, and prove what they promise. `dafny verify dfyconfig.toml` checks everything.

## What is modelled

**Accelerator and classifier.** `FixedWidth`, `Sums` and `Golden` state the integer golden model
point by point; `GoldenModel` has its loops over arrays, up to the class. `PackedMac`, `Lanes` and
`Engine` model the HLS engine: packed multiplies, channel blocks, reduction trees, a two-row buffer
pooled on the fly, and 32-bit registers that wrap. `Refinement` and `Accelerator` connect the two,
and `NetworkMeaning` and `ClassMeaning` say what both compute in plain arithmetic. `PsPipeline`,
`Postprocess` and `ClassifyOne` add the board's preprocessing, GAP, fully connected layer and
argmax, up to the result record. `Equalization` and `RequantDerivation` cover the export:
cross-layer equalization and requant multipliers with rounding folded into the bias; `FloatMeaning`
is the float network in plain arithmetic.

**Safety chain over time.** `SafetyJudge`, `HazardLatch`, `SafetyBridge`, `ConnectionLoop`,
`SafetyTransmitter`, `UartFrame`, `UartReceiver`, `Arbiter` and `Debounce` each model one component
as the class it is, every method proved against a step function. `SafetyRun`, `ResumeGate` and
`Freshness` compose the steps into runs and prove statements about all of them, and `LineNoise` puts
the receiver at the end of a noisy line. `DriverView` states every command of the arbiter from the
messages alone.

**Protocols.** `SafetyMessage` is the seqlock as two interleaved step machines, with the two
routines shown to perform those steps, the reader with the writer interfering before every load, and
`SeqlockWrap` is the run that its counter width allows. `RoiProtocol` is the ROI wire format,
`TcpParties` the protocol's two parties as automata over socket calls, `TcpEndpoints` the two
programs over arbitrary sockets, whose calls are shown to follow those automata, `TcpSession` both
parties on one connection, and `ClassifiedSession` the classifier behind it.

**Proposals.** `Nms` is the decoding and suppression of the proposal network's boxes, in the
program's early-stopping form and in the reference's; `SuppressionOrder` says when the order that a
sort leaves equal scores in matters.

The rows of the table below that start with "helper, one step" unfold a single call or a single
step. Each is used in the proof of a statement over runs, frames or images and is not a result of
its own.

## Assumptions

- Floats are reals. Wire floats are IEEE 754 binary32 bit patterns (section 3.4 of IEEE 754-2008).
- Clocks never go back where a statement compares times, and `now + hold` does not overflow 64 bits.
- A method that runs under a mutex is one atomic step. Seqlock accesses are sequentially consistent,
  one 32-bit cell at a time; a 32-bit store is atomic. Fewer than 2^31 publishes fall into one read
  attempt; `SeqlockWrap.WrapAroundTears` shows that the bound is needed and
  `SafetyMessage.CheckPassesIff` exactly what the reader's check sees beyond it.
- Sockets and the serial port are byte streams: a call moves some bytes, is interrupted, ends or
  fails. Serial writes are all or nothing. `Freshness` assumes a link without errors whose frames
  arrive within `delay`, and one clock for both ends.
- Integers are unbounded except where the code's width matters: `ap_int` values, 32-bit accumulators
  and registers, the seqlock's counter and class words wrap as written.

## Where the code differs from what is said about it

- `derive_multiplier_shift` promises a mantissa in [2^30, 2^31) and a shift that fits a byte. The
  shift stops at 62 and the guard halves only once, so the promise is kept exactly for (2^30 - 1/2)
  / 2^62 <= M < 2^31 - 1/2: `RequantDerivation.PromiseIff`, with failing inputs on both sides in
  `SmallMultiplierFails` and `LargeMultiplierFails`.
- The requant register of the engine has 32 bits, the golden model's has 64.
  `PackedMac.RequantAgreesIff` gives the exact multipliers for which this never shows, and
  `RequantOverflows` an accumulator for each of the others.
- The reference decoder keeps boxes without area, the program drops them. `Nms.AlwaysAgreesIff` and
  `Nms.AgreesWithReferenceIff` say on which lists the results agree, and
  `Nms.ReferenceKeepsDegenerate` that they need not. Both sort by score with sorts that are not
  stable, so score ties can matter as well (`SuppressionOrder.TiesCanDiffer`).
  `SuppressionOrder.AgreeForEveryOrderIff` and `AlwaysMatchesIff` are the exact conditions on the
  boxes for both together.
- The latch is meant to ignore its own class once released. With a class number below -1, which no
  shipped class map has, it does not: `HazardLatch.LatchedClassStopsIff`, with a run in
  `NegativeClassStops`.
- The speed caps are meant to lower the speed. A negative cap replaces every command under SLOW by
  the cap's magnitude; `ResumeGate.NeverTooFastIff` says when that leaves the robot's limits.

## Model

| member | source | states |
|---|---|---|
| `PackedMac.MacPair` | arty/pl_db/hls/HW/classifier_engine.cpp:55-87 | one shared 8x25-bit product gives both a*w_lo and a*w_hi exactly, for every activation and weight pair |
| `PackedMac.Reduce8Sum` | arty/pl_db/hls/HW/classifier_engine.cpp:21-30 | the three-level adder tree over eight 32-bit lanes is the wrapped plain sum |
| `PackedMac.AdderLevel` | arty/pl_db/hls/HW/classifier_engine.cpp:89-106 | one level of the 27-input tree: pairs of wrapped sums |
| `PackedMac.Reduce27` | arty/pl_db/hls/HW/classifier_engine.cpp:89-122 | the 27-input tree, with its odd leftovers, is the wrapped plain sum |
| `PackedMac.RequantAgreesIff` | arty/pl_db/hls/HW/classifier_engine.cpp:210-241 | multiplier by multiplier: the 32-bit register between shift and clamp never changes a golden result if and only if the multiplier lies in (-2^shift, 2^shift] |
| `PackedMac.RequantAgreesForAll` | arty/pl_db/hls/HW/classifier_engine.cpp:210-230 | for all non-negative multipliers at once that holds if and only if the shift is at least 31 |
| `PackedMac.ShiftedFits` | arty/pl_db/hls/HW/classifier_engine.cpp:221-230 | with such a multiplier the shifted product of every 32-bit accumulator fits 32 bits |
| `PackedMac.RequantOverflows` | arty/pl_db/hls/HW/classifier_engine.cpp:221-230 | every other multiplier has an accumulator whose result the register turns from 127 into 0 |
| `Lanes.LanesAreDot` | arty/pl_db/hls/HW/classifier_engine.cpp:586-611 | eight per-lane partial sums over all channel blocks and taps add up to the golden dot product, for any lane and block count |
| `Lanes.FlatIsDot` | arty/pl_db/hls/HW/classifier_engine.cpp:127-150 | the 27 flattened products of a 3x3x3 window add up to the golden dot product |
| `Engine.Dot27` | arty/pl_db/hls/HW/classifier_engine.cpp:127-150 | the unpacked 27-tap product sum of conv0, wrapped to 32 bits |
| `Engine.PoolRow` | arty/pl_db/hls/HW/classifier_engine.cpp:369-389 | on-the-fly pooling of a finished row pair out of the two-row buffer: every value of the row is at least each of its four window values and equal to one of them; other output rows are untouched |
| `Engine.SameConvPool.MacPairStep` | arty/pl_db/hls/HW/classifier_engine.cpp:594-601 | one packed multiply-accumulate into two output lanes |
| `Engine.SameConvPool.LoadPixels` | arty/pl_db/hls/HW/classifier_engine.cpp:568-584 | eight input channels of one tap, zero outside the map: padding 1 |
| `Engine.SameConvPool.AccumulateBlock` | arty/pl_db/hls/HW/classifier_engine.cpp:551-606 | all taps and channel blocks of one output-channel block leave the golden partial sums in the lanes |
| `Engine.SameConvPool.ConvRow` | arty/pl_db/hls/HW/classifier_engine.cpp:547-615 | one row of the row buffer is the convolution row, whatever was in the buffers before |
| `Engine.SameConvPool.Run` | arty/pl_db/hls/HW/classifier_engine.cpp:510-637 | conv1 and conv2 with pooling: the output is conv, 32-bit requant and 2x2 maxpool of the input, for any even size and channel counts divisible by the block sizes, whatever row and weight buffers held before |
| `Engine.Conv0Pool0.ConvRow` | arty/pl_db/hls/HW/classifier_engine.cpp:318-367 | one row of the valid convolution on the pre-padded image |
| `Engine.Conv0Pool0.Run` | arty/pl_db/hls/HW/classifier_engine.cpp:257-391 | conv0 with pooling: the same for the pre-padded input image |
| `Refinement.ConvExact` | arty/models/roi_classifier_int8_db/golden_int8.py:54-77 | where the golden accumulator and the shifted product fit 32 bits, the hardware's pixel is the golden one |
| `Refinement.StageExact` | arty/models/roi_classifier_int8_db/golden_int8.py:70-83 | then the pooled stage is the golden stage |
| `Refinement.NetworkExact` | arty/models/roi_classifier_int8_db/golden_int8.py:93-106 | three hardware stages are the three golden stages when every golden accumulator and shifted product fits 32 bits, for any multiplier and shift |
| `Refinement.BiasRoomNetwork` | arty/models/roi_classifier_int8_db/golden_int8.py:54-71 | a bound on the exported biases and requant values alone that rules out every overflow, for all 8-bit weights and images |
| `Accelerator.ClassifierTop.Run` | arty/pl_db/hls/HW/classifier_engine.cpp:735-781 | classifier_top: for every input, weights, biases and requant values three rounds of conv, requant and maxpool with 32-bit wrap-around, and exactly the golden network when no golden accumulator and no shifted product overflows; both also as relations in plain arithmetic between the input and the output buffer |
| `Golden.RequantIsNearest` | arty/models/roi_classifier_int8_db/golden_int8.py:74-77 | a requantised pixel is the value from 0 to 127 nearest to acc*multiplier/2^shift rounded down, and only that value is; within the range it is the rounded value itself |
| `Golden.ConvSumIff` | arty/models/roi_classifier_int8_db/golden_int8.py:54-71 | a number is the accumulator exactly when it is the bias plus the products of activation and weight under the kernel, added up over input channels, columns and rows |
| `NetworkMeaning.PixelIff` | arty/models/roi_classifier_int8_db/golden_int8.py:54-77 | so a golden pixel is determined by these two statements alone |
| `NetworkMeaning.HwPixelIff` | arty/pl_db/hls/HW/classifier_engine.cpp:221-241 | and a hardware pixel by them and two 32-bit registers, after the sum and after the shift |
| `NetworkMeaning.NetworkHolds` | arty/models/roi_classifier_int8_db/golden_int8.py:93-106 | the golden network and the hardware's are three stages of such pixels, 2x2 maxima and zero borders, connected in that order |
| `NetworkMeaning.NetworkUnique` | arty/models/roi_classifier_int8_db/golden_int8.py:93-106 | and whatever is connected to the same input that way has the same values |
| `GoldenModel.Int8Conv3x3` | arty/models/roi_classifier_int8_db/golden_int8.py:54-71 | over arrays, the tap-by-tap accumulation of whole-map matrix products, themselves loops over the channels, is the point-by-point convolution |
| `GoldenModel.RequantReluClamp` | arty/models/roi_classifier_int8_db/golden_int8.py:74-77 | every value of the map it leaves is from 0 to 127 and nearest to its accumulator times the multiplier over 2^shift, rounded down |
| `GoldenModel.MaxPool2x2` | arty/models/roi_classifier_int8_db/golden_int8.py:80-83 | every value of the map it leaves is at least each of its four window values and equal to one of them |
| `GoldenModel.QuantizeInput` | arty/models/roi_classifier_int8_db/golden_int8.py:86-90 | the quantised image with its zero border |
| `GoldenModel.RunLayers` | arty/models/roi_classifier_int8_db/golden_int8.py:93-106 | the loop that pads, convolves, requantises and pools the current map three times computes the golden network |
| `GoldenModel.RunGolden` | arty/models/roi_classifier_int8_db/golden_int8.py:93-117 | the whole of run_golden, from the image over channel sums and logits to argmax, reports the golden class, also in the sense of ClassMeaning.GoldenClassIs |
| `ClassMeaning.GoldenClassIs` | arty/models/roi_classifier_int8_db/golden_int8.py:86-117 | the golden class in plain arithmetic, from the image's bytes: nearest levels with a zero border, the network's three stages, channel sums, weighted sums with bias, and the first largest of them |
| `ClassMeaning.GoldenClassUnique` | arty/models/roi_classifier_int8_db/golden_int8.py:86-117 | no image has two such classes |
| `ClassMeaning.BoardClassIs` | arty/ps_db/src/postprocess/classifier_postprocess.c:43-115 | the board's class for any divisor in the same terms, its divisions without their fractions |
| `PsPipeline.QuantizeIsRounding` | arty/ps_db/src/preprocess/roi_preprocessor.c:6-9 | the integer rounding is round-half-away of p*127/255, as the golden quantisation has it |
| `PsPipeline.OffsetInjective` | arty/ps_db/src/preprocess/roi_preprocessor.c:24-32 | no two pixels share a flat NHWC index |
| `PsPipeline.Preprocess` | arty/ps_db/src/preprocess/roi_preprocessor.c:11-41 | the whole PL buffer afterwards, whatever it held before: at ((y+1)*98+x+1)*3+c the nearest level to p*127/255 of byte (y*96+x)*3+c of the picture, and zeros around it |
| `Postprocess.GapSum` | arty/ps_db/src/postprocess/classifier_postprocess.c:6-41 | per-channel sums of the output map: over the 144 elements at (y*12+x)*64+channel of the buffer |
| `Postprocess.ChannelSumIs` | arty/models/roi_classifier_int8_db/golden_int8.py:108-109 | the golden gap_sum is the sum over all rows and columns |
| `Postprocess.LogitIs` | arty/ps_db/src/postprocess/classifier_postprocess.c:61-86 | a logit is its bias plus the weights times the channel sums, each divided first |
| `Postprocess.Fc` | arty/ps_db/src/postprocess/classifier_postprocess.c:43-92 | Ok exactly when every 64-bit logit fits 32 bits, and then all logits; otherwise the overflow status |
| `Postprocess.FcNeverOverflows` | arty/ps_db/src/postprocess/classifier_postprocess.c:61-86 | with divisor 1 no logit of any activation map overflows when each bias is within 2^31-1-149815296 of zero |
| `Postprocess.Argmax` | arty/ps_db/src/postprocess/classifier_postprocess.c:94-115 | the first maximum of the logits, and the error for an empty list |
| `Postprocess.FirstMaxUnique` | arty/ps_db/src/postprocess/classifier_postprocess.c:104-111 | there is only one first maximum |
| `ClassifyOne.LogitIsGolden` | arty/models/roi_classifier_int8_db/golden_int8.py:108-114 | with divisor 1 the board's logits are the golden ones |
| `ClassifyOne.GoldenMapFits` | arty/models/roi_classifier_int8_db/golden_int8.py:93-117 | exported parameters with room make the whole golden run overflow-free on every image |
| `ClassifyOne.Decide` | arty/ps_db/tools/ps_classifier_server.c:270-292 | for every divisor and output map: Ok with the first maximum of the logits exactly when all of them fit 32 bits, else the overflow status; the golden class with divisor 1 |
| `ClassifyOne.Classify` | arty/ps_db/tools/ps_classifier_server.c:228-319 | every result passes the client's validation; each failure has its status, an overflowing logit included; and for every image on which no golden value overflows the class is the golden model's first maximum, which is every image when the parameters leave room |
| `Equalization.EquivalentLogits` | arty/models/roi_classifier_int8_db/cle.py:10-17 | two parameter sets that differ by positive per-channel scales at the three joints give the same logits for every input |
| `Equalization.BlockDivided` | arty/models/roi_classifier_int8_db/cle.py:13-17 | conv, ReLU and maxpool commute with positive channel scales |
| `Equalization.PairIsBalanced` | arty/models/roi_classifier_int8_db/cle.py:40-68 | equalize_pair puts both ranges of every live channel on their geometric mean and leaves dead channels alone |
| `Equalization.FcIsBalanced` | arty/models/roi_classifier_int8_db/cle.py:71-87 | the same for the last convolution against the classifier's columns |
| `Equalization.RoundsKeepLogits` | arty/models/roi_classifier_int8_db/cle.py:90-110 | any number of rounds leaves every logit of every input unchanged |
| `Equalization.ApplyCle` | arty/models/roi_classifier_int8_db/cle.py:90-110 | the loop over the parameter dictionary: with a true root its result is at the end of a chain of exactly that many rounds as CleRoundIs describes them, the last of which leaves every live classifier joint balanced; and every logit is kept |
| `Equalization.CleRoundIs` | arty/models/roi_classifier_int8_db/cle.py:90-110 | one round is conv0/s0, conv1*s0/s1, conv2*s1/s2, fc*s2 with the biases divided, where the square of every scale times the input-side range is the output-side range at the moment of its update, and a channel dead on either side has scale 1 |
| `Equalization.RoundBalances` | arty/models/roi_classifier_int8_db/cle.py:71-87 | after a round every live joint between conv2 and the classifier has equal ranges on both sides, and their product is what it was |
| `FloatMeaning.LogitIs` | arty/models/roi_classifier_int8_db/cle.py:10-17 | the logits that are kept, in plain arithmetic: three convolutions with zero borders, the largest of zero and four window values, channel means, and weighted sums with bias |
| `RequantDerivation.DeriveMultiplierShift` | arty/models/roi_classifier_int8_db/fixed_point.py:46-64 | the doubling loop: the smallest normalising shift up to the limit, rounding, and the guard against 2^31 |
| `RequantDerivation.NormalisedIff` | arty/models/roi_classifier_int8_db/fixed_point.py:46-64 | for every real M: the multiplier is in [2^30, 2^31) exactly for M*2^62 >= 2^30-1/2 and M < 2^32-1/2, and the shift is not negative exactly for M < 2^31-1/2 |
| `RequantDerivation.PromiseIff` | arty/models/roi_classifier_int8_db/fixed_point.py:46-64 | so a normalised multiplier with a shift that fits a byte comes out exactly for (2^30-1/2)/2^62 <= M < 2^31-1/2 |
| `RequantDerivation.OutsideThePromise` | arty/models/roi_classifier_int8_db/fixed_point.py:46-64 | outside: a smaller M gets shift 62 and M*2^62 rounded, a larger one shift -1 and half of M rounded, one that is not positive nothing |
| `RequantDerivation.RoundHalfUpIs` | arty/models/roi_classifier_int8_db/quantize_export.py:149-159 | the rounding that is folded in is to the nearest integer, the larger of two equally near ones |
| `RequantDerivation.SmallMultiplierFails` | arty/models/roi_classifier_int8_db/fixed_point.py:56-58 | 2^-33 gives 2^29 at shift 62 |
| `RequantDerivation.LargeMultiplierFails` | arty/models/roi_classifier_int8_db/fixed_point.py:59-63 | 2^31 gives shift -1, and 2^32 a multiplier of 2^31 as well |
| `RequantDerivation.DerivationIsPrecise` | arty/models/roi_classifier_int8_db/fixed_point.py:46-64 | for every M in [2^-32, 2^31-1/2) a normalised multiplier, a shift that fits and a relative error of at most 2^-31; up to M = 1/2 the shift is at least 31 |
| `RequantDerivation.FoldedRounding` | arty/models/roi_classifier_int8_db/quantize_export.py:149-159 | for every accumulator the compensated bias gives a result within 1 of round-half-up, different only within multiplier/2 of a rounding boundary |
| `RequantDerivation.ExportedConvIsRounded` | arty/models/roi_classifier_int8_db/quantize_export.py:142-159 | so every output of the exported convolution is within 1 of the correctly rounded one, for every positive multiplier |
| `SafetyMessage.SnapshotsAreAtomic` | common/src/SafetyMessage.cpp:21-76 | in every interleaving of cell-wise copies, each successful read holds the format marks, the time, the count, at most 32, and that many detections of exactly one completed publish, and successes never go back to an older one |
| `SafetyMessage.RunInv` | common/src/SafetyMessage.cpp:21-76 | the invariant of every reachable state of writer and reader |
| `SafetyMessage.ReadIsAtomic` | common/src/SafetyMessage.cpp:47-76 | so a call that returns true, whatever the writer did meanwhile, has delivered marks, time, count, at most 32, and that many detections of exactly one completed publish |
| `SafetyMessage.SharedMessage.PublishThenRead` | common/src/SafetyMessage.cpp:21-76 | a publish followed by an undisturbed read returns true for every maxRetries from 0 on, with exactly what was published, up to 32 detections |
| `SeqlockWrap.WrapAroundTears` | common/src/SafetyMessage.cpp:47-60 | the bound cannot be dropped: a run with 2^31 publishes inside one read attempt, which returns true with halves of the capture times of two publishes |
| `SeqlockWrap.ManyReach` | common/src/SafetyMessage.cpp:21-45 | any number of publishes of the same message is a run of the protocol that moves the counter by twice as much |
| `SafetyMessage.WriterThread.Run` | common/src/SafetyMessage.cpp:21-45 | the interfering writer only ever performs protocol steps on the shared cells |
| `SafetyMessage.SharedMessage.Publish` | common/src/SafetyMessage.cpp:21-45 | the writer's routine performs protocol steps, advances the sequence by two, and leaves a message that carries exactly the publication; the cells behind it are untouched |
| `SafetyMessage.SharedMessage.Read` | common/src/SafetyMessage.cpp:47-76 | with the writer's thread doing any protocol steps before every load, reader and writer together perform a protocol run and a returned true is one of its successes; a returned false means that all maxRetries+1 attempts met an odd or changed sequence, or one with an unchanged sequence copied an unusable message; undisturbed it succeeds exactly on an even sequence and a usable message |
| `SafetyJudge.CloserFrameIsNotSafer` | common/src/SafetyJudge.cpp:93-127 | nor is a frame in which every record has come closer, for every excluded class |
| `SafetyJudge.WorstIsFirstMaximum` | common/src/SafetyJudge.cpp:93-127 | the verdict is the maximum over the records that are not excluded and names the first that attains it |
| `SafetyJudge.JudgeWorst` | common/src/SafetyJudge.cpp:93-127 | the loop with its early exit computes that verdict |
| `SafetyJudge.ClassPresent` | common/src/SafetyJudge.cpp:129-140 | true exactly when a record of the class passes the gates; never for a negative class |
| `HazardLatch.Latch.Update` | common/src/SafetyHazardLatch.cpp:18-74 | one update: the new memory and the returned state |
| `HazardLatch.AnswerIs` | common/src/SafetyHazardLatch.cpp:18-74 | every update of every run outside a hold: the answer is the worst of what the records ask for whose class is not the watched one; it is Stop exactly when one of them is judged Stop, and then it starts an event for the class of the first of these and the hold time; otherwise the latch is Idle or still watches its class |
| `HazardLatch.Latch.Reset` | common/src/SafetyHazardLatch.cpp:9-16 | back to the initial memory |
| `HazardLatch.RunInv` | common/src/SafetyHazardLatch.cpp:18-74 | in every run the latched class outside Idle is a car or person class, never a sign or the background |
| `HazardLatch.NonInterference` | common/src/SafetyHazardLatch.cpp:18-74 | two runs that differ only in signs and in records judged Clear keep the same phase, class, deadline and counters and stop together |
| `HazardLatch.ErasedRunKeepsLatch` | common/src/SafetyHazardLatch.cpp:18-74 | erasing all signs and all records judged Clear from every frame leaves the latch's memory and its Stops unchanged |
| `HazardLatch.EventHolds` | common/src/SafetyHazardLatch.cpp:23-28 | after an event at t every update before t+hold_ms returns Stop and changes nothing |
| `HazardLatch.ReleasedIgnoresItsClass` | common/src/SafetyHazardLatch.cpp:57-72 | once released the latched class alone never causes Stop, for real class numbers |
| `HazardLatch.LatchedClassStopsIff` | common/src/SafetyHazardLatch.cpp:36-72 | for any class number: it does exactly when the class is below -1 and given up in this very update |
| `HazardLatch.NegativeClassStops` | common/src/SafetyHazardLatch.cpp:36-72 | a run of two equal frames in which that happens: the first starts an event, the second stops again for the released class alone |
| `HazardLatch.ReleasedHistory` | common/src/SafetyHazardLatch.cpp:36-53 | what the two counters say about the frames since the last appearance or the end of the hold |
| `HazardLatch.UnlatchesIff` | common/src/SafetyHazardLatch.cpp:36-53 | while Released: the counters behind EventEndsIff, read against one known start of the watch |
| `HazardLatch.EventEndsIff` | common/src/SafetyHazardLatch.cpp:23-53 | over every run and every phase outside Idle, the update in which the hold ends included: an update gives the class up exactly when, since the hold ended or the class was last seen, it has been absent in max(1, release_frames) consecutive updates and release_ms have passed; the latch is Idle again exactly then, unless the same update starts the next event |
| `HazardLatch.StopHasCause` | common/src/SafetyHazardLatch.cpp:18-74 | in every run an update that returns Stop sees a box that stops the robot or comes less than hold_ms after a frame that showed one |
| `HazardLatch.CloserStopsNoLater` | common/src/SafetyHazardLatch.cpp:18-74 | if every record of a run is as near as in another run or nearer, the first Stop comes no later |
| `SafetyTransmitter.Transmitter.SendLocked` | arty/ps_db/src/control/SafetyTransmitter.cpp:27-40 | an all-or-nothing write of one encoded frame, counted either way |
| `SafetyTransmitter.Transmitter.Publish` | arty/ps_db/src/control/SafetyTransmitter.cpp:42-60 | the decision is stored; a Stop that replaces Slow or Clear is written at once if the port is up, and nothing else is ever written |
| `SafetyTransmitter.Transmitter.Tick` | arty/ps_db/src/control/SafetyTransmitter.cpp:62-88 | one periodic frame: the published state if a decision was seen less than the timeout ago, else Stop |
| `SafetyBridge.Bridge.AddObservation` | arty/ps_db/src/control/ps_safety_bridge.cpp:187-272 | the new pending frame for every observation: ignored, recorded, background noted, or a failed one recorded as a person |
| `SafetyBridge.PublishedIsMaximum` | arty/ps_db/src/control/ps_safety_bridge.cpp:274-334 | over every run of flushes and forced stops: the published state is the more dangerous of the latch's answer in its own run and Slow, which is asked for exactly by a suspicious background or by a sign less than sign_hold_ms old with no forced stop since |
| `SafetyBridge.StopHasCause` | arty/ps_db/src/control/ps_safety_bridge.cpp:187-334 | over every such run: a flush that publishes Stop holds such an observation, or follows a frame that held one by less than hold_ms |
| `SafetyBridge.DeadlineHasSign` | arty/ps_db/src/control/ps_safety_bridge.cpp:286-294 | in every run the sign deadline is that of a flushed sign since the last forced stop, or 0 |
| `SafetyBridge.FrameIsComplete` | arty/ps_db/src/control/ps_safety_bridge.cpp:187-272 | up to 32 observations are judged in full, in order |
| `SafetyBridge.AddedIs` | arty/ps_db/src/control/ps_safety_bridge.cpp:187-272 | what an observation adds to the frame, in pixels: nothing if it has no size, scores too low or is called background, otherwise the one record that stands for it, a failed classification as a person |
| `SafetyBridge.SuspiciousIff` | arty/ps_db/src/control/ps_safety_bridge.cpp:227-255 | exactly which background observations ask for Slow, in pixels |
| `SafetyBridge.SignSeenIff` | arty/ps_db/src/control/ps_safety_bridge.cpp:286-294 | exactly which records are signs that count |
| `SafetyBridge.Bridge.FindSign` | arty/ps_db/src/control/ps_safety_bridge.cpp:286-294 | true exactly when a pending sign passes the judge's gates |
| `SafetyBridge.Bridge.FlushFrame` | arty/ps_db/src/control/ps_safety_bridge.cpp:274-334 | one flush: latch, sign hold, merge, cleared frame and publication |
| `SafetyBridge.Bridge.ForceStop` | arty/ps_db/src/control/ps_safety_bridge.cpp:336-348 | the frame and the sign hold are dropped and Stop is published; the latch keeps its memory |
| `SafetyBridge.SignHolds` | arty/ps_db/src/control/ps_safety_bridge.cpp:286-326 | a sign seen by a flush keeps every flush at Slow or above for sign_hold_ms unless force-stopped |
| `SafetyBridge.LatchFollows` | arty/ps_db/src/control/ps_safety_bridge.cpp:302-307 | over any series of flushes and forced stops the latch runs over exactly the flushed frames |
| `ConnectionLoop.GroupsAreMaximalRuns` | arty/ps_db/tools/ps_classifier_server.c:481-508 | the loop's groups are the maximal runs of equal frame ids |
| `ConnectionLoop.MaximalRunsUnique` | arty/ps_db/tools/ps_classifier_server.c:481-508 | and no other partition is |
| `ConnectionLoop.ServeConnection` | arty/ps_db/tools/ps_classifier_server.c:481-557 | a whole connection with the sender's periods anywhere in between: every group but the last is flushed, at the arrival of the next; the sender is told and writes exactly what the script of the requests says, then the forced Stop |
| `ConnectionLoop.ScriptDecides` | arty/ps_db/tools/ps_classifier_server.c:500-508 | leaving out the sender's periods, that script is exactly one decision per finished group, in order |
| `ConnectionLoop.ConnectionIsRun` | arty/ps_db/tools/ps_classifier_server.c:481-557 | from any past on, a connection extends the bridge's run: its i-th decision is the state after its first i+1 flushes, and its end is the forced stop |
| `ConnectionLoop.DecisionIsMaximum` | arty/ps_db/tools/ps_classifier_server.c:481-523 | so every decision of a connection is the more dangerous of the latch's answer to its frame and the Slow that background and signs of the whole run ask for |
| `ConnectionLoop.FlushSeesOneFrame` | arty/ps_db/tools/ps_classifier_server.c:500-523 | a flush judges all observations of one frame and no others |
| `ConnectionLoop.LastFrameIsDropped` | arty/ps_db/tools/ps_classifier_server.c:489-498 | nothing of the last frame reaches the latch or the next connection |
| `SafetyRun.StopStaysOut` | arty/ps_db/src/control/SafetyTransmitter.cpp:42-88 | once the Stop of an event at t is published, every frame written before t+hold_ms is Stop, with sender ticks between decision and publication and failing writes anywhere |
| `SafetyRun.StopGoesOut` | arty/ps_db/src/control/SafetyTransmitter.cpp:42-60 | the publication of a decided Stop is always possible, and where something else was published and the port is up it puts a Stop frame on the wire at once |
| `SafetyRun.RunInv` | arty/ps_db/src/control/ps_safety_bridge.cpp:302-333 | in every run, while the latch holds, whatever waits to be published is Stop |
| `SafetyRun.AwaitsPublication` | arty/ps_db/src/control/ps_safety_bridge.cpp:302-333 | between its decision and its publication an event stays what it is |
| `Debounce.Filter.Update` | common/src/SafetyDebounce.cpp:24-70 | one update of state, candidate, count and start time |
| `Debounce.Filter.Reset` | common/src/SafetyDebounce.cpp:17-22 | back to Stop |
| `Debounce.RunExplained` | common/src/SafetyDebounce.cpp:24-70 | in every run: candidate never above the state, count zero exactly when they are equal, the count and start time describe the trailing raw run, and the output is never below the raw state |
| `Debounce.DropsIff` | common/src/SafetyDebounce.cpp:24-70 | the output drops to r exactly when the last max(2, release_frames) or more raw states are all r over at least release_hold_ms, and otherwise stays or rises at once |
| `UartFrame.Crc8` | common/src/UartFrame.cpp:5-24 | the nested bit loop computes the CRC register |
| `UartFrame.Encode` | common/src/UartFrame.cpp:26-35 | the three bytes of a frame, nothing else in the buffer changed; refused exactly for a short buffer |
| `UartFrame.CrcIsBitSerial` | common/src/UartFrame.cpp:13-22 | the byte-wise loop is the bit-serial division of the whole message |
| `UartFrame.CrcIsTheRemainder` | common/src/UartFrame.cpp:5-24 | for messages of every length the register is the remainder of message*x^8 modulo x^8+x^2+x+1, and no other byte is |
| `UartFrame.CrcLinear` | common/src/UartFrame.cpp:5-24 | linear over XOR |
| `UartFrame.ResidueZeroIff` | common/src/UartFrame.cpp:5-24 | an appended byte gives residue 0 exactly when it is the CRC |
| `UartFrame.BurstIsDetected` | common/src/UartFrame.cpp:5-24 | any nonzero error burst of at most eight consecutive bits changes the CRC |
| `UartFrame.CorruptFrameRejected` | turtlebot/ros2_ws/src/rpi_adas_demo/rpi_adas_demo/uart_safety_receiver.py:62-65 | a frame hit by such a burst anywhere, its CRC byte included, is never accepted |
| `UartReceiver.Receiver.Poll` | turtlebot/ros2_ws/src/rpi_adas_demo/rpi_adas_demo/uart_safety_receiver.py:52-69 | one poll: the buffer and the publications are those of the scan of buffer plus new bytes |
| `UartReceiver.OfflineScan` | turtlebot/tools/rawuart.py:20-27 | the offline scan finds the same frames and accounts for every byte |
| `UartReceiver.ScanIsLeftmost` | turtlebot/ros2_ws/src/rpi_adas_demo/rpi_adas_demo/uart_safety_receiver.py:52-69 | what a scan finds in any bytes: the frames from left to right, none overlapping another, such that every other place that checks out begins inside one of them; what is left are the last two bytes or fewer |
| `UartReceiver.FramesAre` | common/src/UartFrame.cpp:26-35 | the three frames byte by byte: A5 00 59, A5 01 5E, A5 02 57 |
| `UartReceiver.FragmentationIndependent` | turtlebot/ros2_ws/src/rpi_adas_demo/rpi_adas_demo/uart_safety_receiver.py:52-69 | however the bytes are split over polls, the result is that of one scan over all of them |
| `UartReceiver.RunPolls` | turtlebot/ros2_ws/src/rpi_adas_demo/rpi_adas_demo/uart_safety_receiver.py:52-69 | so a poll loop publishes what the offline scan finds |
| `UartReceiver.ScanFrames` | turtlebot/ros2_ws/src/rpi_adas_demo/rpi_adas_demo/uart_safety_receiver.py:58-68 | an undisturbed stream is decoded frame by frame |
| `UartReceiver.Resynchronises` | turtlebot/ros2_ws/src/rpi_adas_demo/rpi_adas_demo/uart_safety_receiver.py:56-68 | after any garbage at most the first of the following frames is lost, and then STOP is published in its place |
| `LineNoise.NoisyStreamIsSafe` | turtlebot/ros2_ws/src/rpi_adas_demo/rpi_adas_demo/uart_safety_receiver.py:52-69 | over any number of frames, each hit by at most one burst of at most eight bits, and any fragmentation: every published state that lets the robot move was sent in a frame that arrived intact, in the order sent and no more often |
| `UartReceiver.FirstFrameCanBeLost` | turtlebot/ros2_ws/src/rpi_adas_demo/rpi_adas_demo/uart_safety_receiver.py:59-68 | a garbage prefix for which that happens |
| `Arbiter.ApplyDeadzone` | turtlebot/ros2_ws/src/rpi_adas_demo/rpi_adas_demo/cmd_vel_arbiter.py:332-338 | zero exactly inside the dead zone, never beyond full deflection, and with the sign of the input |
| `Arbiter.CmdVelArbiter.SafetyCallback` | turtlebot/ros2_ws/src/rpi_adas_demo/rpi_adas_demo/cmd_vel_arbiter.py:151-160 | a safety message: undefined values are STOP, STOP arms the gate and publishes zero at once |
| `Arbiter.CmdVelArbiter.JoyTimer` | turtlebot/ros2_ws/src/rpi_adas_demo/rpi_adas_demo/cmd_vel_arbiter.py:221-256 | the joy-mode tick up to the freshness check |
| `Arbiter.CmdVelArbiter.Drive` | turtlebot/ros2_ws/src/rpi_adas_demo/rpi_adas_demo/cmd_vel_arbiter.py:258-302 | the joy-mode tick from the safety state on |
| `Arbiter.CmdVelArbiter.ManualTimer` | turtlebot/ros2_ws/src/rpi_adas_demo/rpi_adas_demo/cmd_vel_arbiter.py:184-219 | the tick in no_joy_mode |
| `Arbiter.CmdVelArbiter.TimerCallback` | turtlebot/ros2_ws/src/rpi_adas_demo/rpi_adas_demo/cmd_vel_arbiter.py:179-302 | every tick publishes exactly one twist and leaves exactly this memory |
| `ResumeGate.MovementNeedsNeutral` | turtlebot/ros2_ws/src/rpi_adas_demo/rpi_adas_demo/cmd_vel_arbiter.py:173-176 | in any run, between an event that arms the gate and the next nonzero twist there is a tick with neutral input and a later one with deliberate input, and nothing arms the gate after the neutral tick |
| `ResumeGate.RunHistory` | turtlebot/ros2_ws/src/rpi_adas_demo/rpi_adas_demo/cmd_vel_arbiter.py:280-291 | what an open or half-open gate says about the past of a run |
| `ResumeGate.GateOpenIff` | turtlebot/ros2_ws/src/rpi_adas_demo/rpi_adas_demo/cmd_vel_arbiter.py:280-291 | in every run the gate is open exactly when nothing has armed it yet or neutral and then deliberate input has come since |
| `ResumeGate.CommandIs` | turtlebot/ros2_ws/src/rpi_adas_demo/rpi_adas_demo/cmd_vel_arbiter.py:179-302 | every command of every run in full: the driver's input, as it is under CLEAR and the nearest within the caps under SLOW, exactly when the tick reaches the gate and that holds; otherwise zero |
| `DriverView.CommandFollows` | turtlebot/ros2_ws/src/rpi_adas_demo/rpi_adas_demo/cmd_vel_arbiter.py:151-338 | the same from outside: every command as a function of the messages and ticks so far, with no reference to what the arbiter remembers |
| `DriverView.ReleasedIff` | turtlebot/ros2_ws/src/rpi_adas_demo/rpi_adas_demo/cmd_vel_arbiter.py:173-291 | the gate is open exactly when no alarm has come yet or the driver has let go of the stick and steered again since the last one |
| `DriverView.AlwaysKnows` | turtlebot/ros2_ws/src/rpi_adas_demo/rpi_adas_demo/cmd_vel_arbiter.py:151-176 | what the arbiter remembers is what the last messages said |
| `Arbiter.InputDirects` | turtlebot/ros2_ws/src/rpi_adas_demo/rpi_adas_demo/cmd_vel_arbiter.py:310-338 | the direction asked for: Y minus A and X minus B when a face button is down, else both axes with their signs behind the dead zone, the clearly weaker one dropped |
| `ResumeGate.EstopIsParity` | turtlebot/ros2_ws/src/rpi_adas_demo/rpi_adas_demo/cmd_vel_arbiter.py:221-234 | in every joy-mode run the e-stop is on exactly after an odd number of presses of its button, however long each is held, and while it is on every command is zero |
| `ResumeGate.FullSpeed` | turtlebot/ros2_ws/src/rpi_adas_demo/rpi_adas_demo/cmd_vel_arbiter.py:304-338 | in every joy-mode run a tick that finds the gate open under CLEAR turns one face button, or the stick all the way forward, into the maximum speed in its direction |
| `ResumeGate.NeverTooFastIff` | turtlebot/ros2_ws/src/rpi_adas_demo/rpi_adas_demo/cmd_vel_arbiter.py:293-300 | no joy-mode run ever leaves 0.22 and 2.84, exactly for caps that are not more negative than those limits |
| `ResumeGate.SpeedLimits` | turtlebot/ros2_ws/src/rpi_adas_demo/rpi_adas_demo/cmd_vel_arbiter.py:211-300 | under SLOW within the caps; in joy mode within 0.22 and 2.84 or, for a cap more negative than that, its magnitude |
| `ResumeGate.DeadzoneMonotone` | turtlebot/ros2_ws/src/rpi_adas_demo/rpi_adas_demo/cmd_vel_arbiter.py:332-338 | the stick response is odd and never falls |
| `Arbiter.CmdVelArbiter.PassGate` | turtlebot/ros2_ws/src/rpi_adas_demo/rpi_adas_demo/cmd_vel_arbiter.py:202-210 | the gate opens only for a deliberate input after a neutral one |
| `Freshness.MovementIsFresh` | turtlebot/ros2_ws/src/rpi_adas_demo/rpi_adas_demo/cmd_vel_arbiter.py:248-256 | end to end over transmitter, byte link, receiver and arbiter: a nonzero command at t goes back to a Clear or Slow decision made later than t-(decision_timeout+delay+safety_timeout) |
| `Freshness.RunInv` | arty/ps_db/src/control/SafetyTransmitter.cpp:42-88 | the invariant of every run of the composed system |
| `Freshness.PollScans` | turtlebot/ros2_ws/src/rpi_adas_demo/rpi_adas_demo/uart_safety_receiver.py:53-68 | on an error-free link a poll of any number of bytes hands over exactly the frames it completes |
| `Freshness.PollDelivers` | turtlebot/ros2_ws/src/rpi_adas_demo/rpi_adas_demo/uart_safety_receiver.py:53-68 | a poll that completes a frame leaves the arbiter with the state of the last frame it completes, stamped with the time of the poll |
| `Freshness.TickIsBacked` | arty/ps_db/src/control/SafetyTransmitter.cpp:62-88 | a frame that lets the robot move is backed by a recent decision |
| `RoiProtocol.HeaderRoundTrip` | shared/include/roi_protocol.h:138-190 | decode(encode(header)) is the header |
| `RoiProtocol.BboxRoundTrip` | shared/include/roi_protocol.h:201-237 | the same for the box, floats as bit patterns |
| `RoiProtocol.ResultRoundTrip` | shared/include/roi_protocol.h:248-279 | the same for the result |
| `RoiProtocol.RequestRoundTrip` | arty/ps_db/src/network/tcp_roi_server.c:213-255 | the server reconstructs exactly the request sent |
| `RoiProtocol.ResponseRoundTrip` | arty/ps_db/src/network/tcp_roi_server.c:274-294 | the client decodes exactly the response sent |
| `RoiProtocol.RequestLayout` | shared/include/roi_protocol.h:138-237 | a request on the wire, field by field at its offset: the mark 52 4F 49 31, version 2, type 1, identifiers, payload size, box and picture, all big-endian |
| `RoiProtocol.ResponseLayout` | shared/include/roi_protocol.h:138-279 | a response likewise, with type 2 and the request's identifiers |
| `TcpEndpoints.TransferOut` | jetson/src/network/TcpRoiClient.cpp:329-356 | the send loop over partial, interrupted and failing calls: all bytes, or a proper prefix and the failure of the first call that fails, which only happens if fewer calls than bytes come before it |
| `TcpEndpoints.TransferIn` | jetson/src/network/TcpRoiClient.cpp:371-398 | the receive loop: exactly the bytes asked for, or a failure with the same reason when enough bytes arrive |
| `TcpEndpoints.TcpRoiClient.SendRequest` | jetson/src/network/TcpRoiClient.cpp:165-218 | the three writes of a request, or a prefix of it and a closed connection |
| `TcpEndpoints.TcpRoiClient.ReceiveResponse` | jetson/src/network/TcpRoiClient.cpp:236-314 | Ok consumes exactly one response that answers this request; every failure closes the connection |
| `TcpEndpoints.TcpRoiClient.Classify` | jetson/src/network/TcpRoiClient.cpp:116-315 | status, bytes sent and consumed, result and connection for every behaviour of the socket; the calls made are a path of the protocol's client that ends as the status says |
| `TcpEndpoints.ReceiveRequest` | arty/ps_db/src/network/tcp_roi_server.c:199-256 | Ok consumes exactly one request; a protocol error means a bad header; the calls are a path of the protocol's server |
| `TcpEndpoints.SendResult` | arty/ps_db/src/network/tcp_roi_server.c:258-301 | the response bytes, or a proper prefix and a failure; refused exactly for an impossible confidence; the calls are a path of the protocol's server |
| `TcpEndpoints.AnswersIff` | jetson/src/network/TcpRoiClient.cpp:236-314 | byte by byte, which 32 bytes the client takes for an answer to its request |
| `TcpEndpoints.RequestHeaderIff` | arty/ps_db/src/network/tcp_roi_server.c:213-232 | byte by byte, which headers the server takes for a request |
| `TcpParties.ClientWrites` | jetson/src/network/TcpRoiClient.cpp:329-356 | writing any prefix of a request in any pieces is a path of the protocol's client |
| `TcpParties.ClientReads` | jetson/src/network/TcpRoiClient.cpp:371-398 | reading up to the next check in any pieces is one, too |
| `TcpParties.ServerReads` | arty/ps_db/src/network/tcp_roi_server.c:12-43 | the same for the server's reads |
| `TcpParties.ServerWrites` | arty/ps_db/src/network/tcp_roi_server.c:45-76 | and for its writes |
| `TcpSession.ClientCallIsStep` | jetson/src/network/TcpRoiClient.cpp:317-399 | every call a client may make is a step of the session that moves exactly its bytes |
| `TcpSession.ServerCallIsStep` | arty/ps_db/src/network/tcp_roi_server.c:12-76 | every call a server may make is one, too |
| `TcpSession.InStepAlways` | jetson/src/network/TcpRoiClient.cpp:116-315 | for every fragmentation, interleaving and failure: between calls both directions are at a message boundary, received results are the computed ones in order, and no side sees a protocol error |
| `TcpSession.EachCallAnsweredOnce` | jetson/src/network/TcpRoiClient.cpp:116-315 | the answered requests are the called ones, in order, but for the one under way |
| `TcpSession.NoDeadlock` | jetson/src/network/TcpRoiClient.cpp:116-315 | while neither side has failed and a call is pending, some step is possible that is not a failure and brings its answer nearer |
| `TcpSession.ReceivedAreRight` | jetson/src/network/TcpRoiClient.cpp:116-315 | whatever holds of every computed result and the request it was computed for holds of every result classify returned and the request it was called with |
| `ClassifiedSession.AnswerRequest` | arty/ps_db/tools/ps_classifier_server.c:500-552 | the server's result for a request is the class of that request's own image, the golden class when no golden value of the image overflows |
| `ClassifiedSession.SessionClassifies` | arty/ps_db/tools/ps_classifier_server.c:481-557 | so in every session, whatever the fragmentation and the failures, each result the client got belongs to its own request's image, and the requests answered are the first ones called, in order |
| `ClassifiedSession.BoardIsGolden` | arty/models/roi_classifier_int8_db/golden_int8.py:108-117 | on such an image with divisor 1 the board's class is the one run_golden reports |
| `TcpSession.RunInv` | arty/ps_db/src/network/tcp_roi_server.c:199-301 | the invariant of every reachable state of the two endpoints and the bytes in flight |
| `Nms.GreedyIsReference` | jetson/models/proposal/decode_reference.py:95-111 | one-by-one greedy selection is the reference's keep-and-filter, on every list |
| `Nms.ReferenceNms` | jetson/models/proposal/decode_reference.py:95-111 | the loop over index lists computes the reference, which is that selection |
| `Nms.Collect` | jetson/src/roi/RoiProposer.cpp:104-129 | exactly the predictions that are confident and whose box has an area, decoded, in order |
| `Nms.Propose` | jetson/src/roi/RoiProposer.cpp:135-164 | the early-stopping loop returns the first max_candidates of that selection, box by box, with the frame's id and numbered from 0 |
| `Nms.OverlapIff` | jetson/src/roi/RoiProposer.cpp:28-40 | the suppression test in coordinates, for all boxes and thresholds: the common area against the threshold times the area covered by either box |
| `Nms.ProperOverlapIff` | jetson/src/roi/RoiProposer.cpp:28-40 | for boxes with an area: w*h > t*(area+area-w*h) with the lengths of the common intervals |
| `Nms.GreedySelects` | jetson/src/roi/RoiProposer.cpp:135-164 | what is kept, in coordinates: exactly the boxes that no kept box before them overlaps in that sense |
| `Nms.DecodeInverts` | jetson/src/roi/RoiProposer.cpp:104-129 | a box inside the frame, scaled and padded into the network's picture, decodes to itself |
| `Nms.KeptAreSpread` | jetson/src/roi/RoiProposer.cpp:135-164 | kept boxes overlap pairwise by at most the threshold |
| `Nms.RejectedOverlaps` | jetson/src/roi/RoiProposer.cpp:135-164 | a box is passed over exactly when an earlier kept one overlaps it |
| `Nms.DropDegenerate` | jetson/src/roi/RoiProposer.cpp:122-128 | dropping degenerate boxes before or after the suppression gives the same list |
| `Nms.AgreesWithReferenceIff` | jetson/models/proposal/decode_reference.py:85-111 | program and reference agree on a list exactly when no box is degenerate or the boxes before the first degenerate one already fill the result |
| `Nms.AlwaysAgreesIff` | jetson/src/roi/RoiProposer.cpp:122-128 | they agree for every result length exactly when no box is degenerate |
| `SuppressionOrder.OrderIsIrrelevantIff` | jetson/src/roi/RoiProposer.cpp:131-164 | whatever order a sort leaves equal scores in, the selection is the same exactly when, in one sorted list, at most one box of each score survives the better ones |
| `SuppressionOrder.SettledAlike` | jetson/src/roi/RoiProposer.cpp:131-164 | with ties settled in that sense every sorted order of the same boxes gives the same selection |
| `SuppressionOrder.AgreeForEveryOrderIff` | jetson/models/proposal/decode_reference.py:60-111 | end to end from the predictions at a given threshold: program and reference agree for every order of ties on either side and every result length exactly when every confident box has an area and at most one box of each score survives the better ones |
| `SuppressionOrder.AlwaysMatchesIff` | jetson/src/roi/RoiProposer.cpp:103-164 | end to end over all thresholds from 0 to 1: they agree exactly when every confident box has an area and no two different ones share a score |
| `SuppressionOrder.IouAtMostOne` | jetson/src/roi/RoiProposer.cpp:135-164 | two boxes with an area never overlap by more than 1, so nothing is suppressed at threshold 1 |
| `SuppressionOrder.TiesCanDiffer` | jetson/src/roi/RoiProposer.cpp:131-133 | two boxes with the same score of which each side keeps another one |
| `Nms.ReferenceKeepsDegenerate` | jetson/models/proposal/decode_reference.py:85-88 | a list on which they differ |
| `SuppressionOrder.ProposalsMatchReference` | jetson/src/roi/RoiProposer.cpp:103-164 | on two given sorted lists, with ties settled or ordered alike: the proposals are the first proper boxes the reference keeps, and its result exactly under the same condition on the boxes |
| `SafetyJudge.StopIff` | common/src/SafetyJudge.cpp:23-87 | helper, one step: exactly which boxes mean Stop; a sign or the background never does |
| `SafetyJudge.SlowIff` | common/src/SafetyJudge.cpp:23-87 | helper, one step: exactly which boxes mean Slow |
| `SafetyJudge.CloserIsNotSafer` | common/src/SafetyJudge.cpp:23-87 | helper, one step: a box that comes closer is never judged safer |
| `SafetyBridge.FlushMerges` | arty/ps_db/src/control/ps_safety_bridge.cpp:302-326 | helper, one step: the published state is the latch's, raised to Slow exactly for a suspicious background or an active sign hold; Stop comes from the latch only |
| `SafetyTransmitter.MovingFrameIff` | arty/ps_db/src/control/SafetyTransmitter.cpp:62-84 | helper, one step: a frame lets the robot move exactly when the latest decision does and is younger than the timeout |
| `ResumeGate.NoMovementWithoutPermission` | turtlebot/ros2_ws/src/rpi_adas_demo/rpi_adas_demo/cmd_vel_arbiter.py:231-274 | helper, one step: stale or stopped safety, stale input, e-stop or a released deadman give zero |
| `ResumeGate.OpenGatePassesInput` | turtlebot/ros2_ws/src/rpi_adas_demo/rpi_adas_demo/cmd_vel_arbiter.py:293-302 | helper, one step: a tick that leaves the gate open passes the input on |
| `ResumeGate.CardinalInput` | turtlebot/ros2_ws/src/rpi_adas_demo/rpi_adas_demo/cmd_vel_arbiter.py:304-330 | helper, one step: a single face button, or the stick all the way forward, is a full input in its direction |
| `ResumeGate.MovementPassesGate` | turtlebot/ros2_ws/src/rpi_adas_demo/rpi_adas_demo/cmd_vel_arbiter.py:179-302 | helper, one step: a nonzero twist only comes from a tick with fresh safety, no STOP, fresh input and an open gate |
| `ResumeGate.StopEventIsNotNeutral` | turtlebot/ros2_ws/src/rpi_adas_demo/rpi_adas_demo/cmd_vel_arbiter.py:185-198 | helper, one step: a tick that stops the robot is never the neutral tick the gate waits for |
| `ResumeGate.CapIsNearest` | turtlebot/ros2_ws/src/rpi_adas_demo/rpi_adas_demo/cmd_vel_arbiter.py:296-297 | helper, one step: the cap is the nearest command within the limit |
| `ResumeGate.FullDeflection` | turtlebot/ros2_ws/src/rpi_adas_demo/rpi_adas_demo/cmd_vel_arbiter.py:337-338 | helper, one step: full stick gives the full command |
| `SafetyBridge.RecordIsNormalised` | arty/ps_db/src/control/ps_safety_bridge.cpp:210-215 | helper, one step: a record is the original box in fractions of the frame |
| `SafetyBridge.ObservationStopsIff` | arty/ps_db/src/control/ps_safety_bridge.cpp:187-272 | helper, one step: in pixels, exactly which observations give the frame a record that stops the robot: a car, a person or a failed classification on the path, near and tall enough |
| `HazardLatch.IdleOnlyByUnlatching` | common/src/SafetyHazardLatch.cpp:36-53 | helper, one step: a step into Idle gives the class up |
| `HazardLatch.BackToIdleIff` | common/src/SafetyHazardLatch.cpp:18-74 | helper, one step: in any run an update leads back to Idle exactly when it gives the class up and does not stop |
| `SafetyMessage.CheckPassesIff` | common/src/SafetyMessage.cpp:58-60 | helper, one step: the end-of-attempt check passes exactly when the sequence moved by a multiple of 2^32, hence only unchanged within the stated bound |
| `ClassifyOne.ImageFitsMap` | arty/models/roi_classifier_int8_db/golden_int8.py:93-106 | helper, one step: on an image without overflow the accelerator leaves the golden map |
| `LineNoise.InPlace` | turtlebot/ros2_ws/src/rpi_adas_demo/rpi_adas_demo/uart_safety_receiver.py:56-68 | helper, one step: a frame in step is accepted only if it is intact |
| `LineNoise.OneLate` | turtlebot/ros2_ws/src/rpi_adas_demo/rpi_adas_demo/uart_safety_receiver.py:56-68 | helper, one step: a state byte that noise has turned into a magic is followed by a byte that means STOP |
| `LineNoise.TwoLate` | turtlebot/ros2_ws/src/rpi_adas_demo/rpi_adas_demo/uart_safety_receiver.py:56-68 | helper, one step: a magic that noise has turned into a moving state is never confirmed by the byte behind it |
| `Golden.PoolIsLargest` | arty/models/roi_classifier_int8_db/golden_int8.py:80-83 | helper, one step: a pooled value is at least each of its four window values and equal to one of them |
| `Postprocess.TruncDivIs` | arty/ps_db/src/postprocess/classifier_postprocess.c:69-71 | helper, one step: and that division drops the fraction: the remainder is smaller than the divisor and has the dividend's sign |
| `RoiProtocol.AcceptableIff` | jetson/src/network/TcpRoiClient.cpp:288-312 | helper, one step: which results the client takes: a status up to 4, a confidence of at most a million, a class exactly with status 0, and no confidence without |
| `Nms.ClampIsNearest` | jetson/src/roi/RoiProposer.cpp:116-121 | helper, one step: a coordinate outside the frame goes to the nearest edge |
| `Equalization.OutRangeIs` | arty/models/roi_classifier_int8_db/cle.py:26-37 | helper, one step: the range of an output channel is the largest absolute value of its weights |
| `Equalization.InRangeIs` | arty/models/roi_classifier_int8_db/cle.py:26-37 | helper, one step: the range of an input channel likewise |

## Left out

- Float rounding: thresholds, boxes, scales and stick values are reals, so a comparison on the edge of a float is not modelled.
- Camera capture, TensorRT, OpenCV resizing and colour conversion, MJPEG streaming, the HTML view and the joystick driver: I/O and libraries.
- Sockets, termios, mmap and ioctl beyond the byte-stream contract: connecting, binding, accepting and socket options.
- Null pointers passed to the C and C++ entry points, which only return early; `SafetyMessage.publish` with a null item list is modelled.
- The content of detections after a publish with a null item list: the cells keep what an older publish left there.
- The `sequence` cell inside the copied message: the reader compares it with its own reading of the shared counter only.
- HLS pragmas, latencies and array partitioning: they do not change a value. The weight-loading loops are written as parallel copies.
- `conv_same_parallel` and `dot27_pair`: `classifier_top` does not call them.
- Softmax confidence: a parameter between 0 and 1,000,000, or absent; it never enters a decision.
- Calibration, training, BatchNorm folding, file parsing, environment variables and measurement statistics.
- The square root of cle.py is any positive function; only the balance of the ranges needs its square.
- FoldedRounding: says that a differing result is near a rounding boundary, not that every accumulator near one differs, because which of them do depends on how Python rounded the compensation.
- The bias addition of quantize_conv is unbounded here; the export's cast to int32 is not modelled.
- Freshness.MovementIsFresh: bounds the age of a decision and does not say that a fresh Clear reaches the robot, because that needs timer periods which the code does not guarantee.
- SafetyTransmitter.run: the periodic loop is not modelled; ticks may come at any time.
- HazardLatch.ReleasedIgnoresItsClass: asks for non-negative car and person class numbers, because it is false without; LatchedClassStopsIff has the exact condition.
- The 32-bit frame counters of the latch and the debounce are unbounded.
- The bridge's conversion of wire bit patterns to floats: observations carry reals.
- The sorting algorithms themselves: any order by score is accepted, ties included.
- Letterbox geometry of the proposal input: scale and padding are parameters.
- Arbiter logging, ROS publishers and parameter declaration beyond the two clamped parameters.
