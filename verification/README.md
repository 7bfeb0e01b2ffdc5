# Human capture: verified model

Two phones capture depth frames, a backend pairs and reconstructs them into a body with colliders, and a game client
receives the result. This project models the parts of that pipeline that are hard to get right and proves what they
promise.

* **Capture pipeline** (`CaptureQueue`, `PipelineSteps`, `PipelineInvariant`, `CapturePipeline`, `PipelineOutcomes`, `PipelineActor`,
  `Subsequences`): the phone's actor as atomic segments between awaits, over every interleaving of submit, clear and drain,
  and which class each outcome puts a frame in.
* **Clocks and pairing** (`Clock`, `Pairing`, `Shutter`): clock offsets from round trips with the on-wire formulas of
  section 8 of RFC 5905, the two-queue matcher, and together a bound on how far apart two paired shutters truly fired.
* **Collider geometry** (`Rays`, `Spheres`, `Boxes`, `Bases`, `OrientedBoxes`, `CommonPoints`, `SlabTriples`, `SeparatingAxes`,
  `Segments`, `Searches`, `Capsules`, `Shapes`, `Tolerances`, `NearestHit`): ray and overlap tests against the set of points each shape stands
  for. A square root is a parameter `sqrt` with `IsSqrt(sqrt)`; an origin inside a shape is a hit at distance 0, as in
  the game client.
* **Body warp** (`BodyWarp`): the height-dependent deformation, its gates, and its inverse.
* **Wire format** (`Envelope`, `Buffers`, `StrictJson`): HMC1 framing and buffer tiling in three programs, and the strict
  JSON reader over a token stream (RFC 8259: duplicate names are its section 4, nesting limits its section 9).
* **Algorithms with a simple specification** (`Voxels`, `Hands`, `Board`): voxel merging, hand association and the board's
  vectoriser.
* **Backend runtime** (`Runtime`, `Progress`, `Recalibration`, `Delivery`, `AppRuntime`, `Freshness`, `Quality`): publication, what
  it takes for a frame to be published, recalibration, clients, the freshness latch and the quality warnings.

Numbers are mathematical: floats and times are `real`, integers are unbounded except where their width matters (the
64-bit epoch and totals of the capture pipeline, the 64-bit product of the client's length check, the 16 and 32-bit
fields of the envelope). `RealMath`, `Vectors` and `Wrappers` are shared.

Where the code does something else than its own comments or documentation say, the model follows the code:

* The envelope encoder emits messages of unknown type that its own decoder refuses (`Envelope.DecodeAfterEncode`).
* A cancel or timeout that lands while a board frame is being examined can be overwritten, and the cancelled session then
  installs its rig (`Recalibration.CancelledSessionCanInstall`; exactly when, `Recalibration.CancelCanBeOverwritten`).
* Hand association promises a margin over any other candidate, but candidates already used on the other side are not
  compared (`Hands.UsedRivalIgnored`; exactly when it holds, `Hands.FullMarginOfAnswer`), and the recorded margin depends
  on how ties are ordered (`Hands.MarginDependsOnOrder`; exactly when it does not, `Hands.AnswerIsOrderFree`).
* The nearest collider depends on the order of the colliders when near ties form a chain
  (`NearestHit.NearTiesDependOnOrder`; exactly when it does not, `NearestHit.EveryOrderChooses`).
* A background warning can recover on a frame whose background was not measured (`Quality.BackgroundRecoversUnmeasured`;
  nothing else recovers unmeasured, `Quality.RecoveryIsMeasured`).
* In simulation mode frames from an unsynchronised phone are paired as if its clock were exact (`Shutter.UnsynchronisedPair`;
  exactly for which frames, pairs and configurations the bound holds, `Shutter.FrameClockedExactly`,
  `Shutter.PairClockedExactly`, `Shutter.BudgetKeptExactly`).
* The restart after the phone's drain loop is never taken: the loop ends with an empty queue, and no submit can run before
  the flag is lowered in the same actor turn.
* The slab tests treat nearly parallel rays as parallel, and the capsule test skips its wall for them, so neither is exact
  for every ray (`Tolerances.TinyComponentMisses`, `Tolerances.NearParallelSkipsWall`); `Tolerances.SlabExactWithoutTiny`,
  `Tolerances.OrientedExactWithoutTiny` and `Capsules.Intersect` say exactly for which they are.
* The client's 64-bit check of a declared point count wraps round (`Buffers.WrappedCountPasses`; exactly when it is right,
  `Buffers.LengthCheckExact`).

## Model

| member | source | states |
|---|---|---|
| CaptureQueue.CaptureBackpressureQueue.EnqueueSnapshot | ios-capture/HumansCapture/Encoding/CaptureBackpressureQueue.swift:22-26 | A snapshot joins the end of the queue exactly when fewer than the maximum wait, and nothing else changes |
| CaptureQueue.CaptureBackpressureQueue.EnqueueLive | ios-capture/HumansCapture/Encoding/CaptureBackpressureQueue.swift:28-32 | The live slot always takes the new frame and hands back the one it displaced |
| CaptureQueue.CaptureBackpressureQueue.PopFirst | ios-capture/HumansCapture/Encoding/CaptureBackpressureQueue.swift:34-38 | The oldest snapshot comes first; a live frame only when no snapshot waits |
| CaptureQueue.CaptureBackpressureQueue.RemoveAll | ios-capture/HumansCapture/Encoding/CaptureBackpressureQueue.swift:40-45 | Everything waiting is returned, snapshots first, and the queue is empty after |
| CapturePipeline.NoLostWakeup | ios-capture/HumansCapture/Encoding/CapturePipeline.swift:57-221 | Over every interleaving of submits, clears and resumptions there is at most one drain task, it exists exactly while the flag is set, and frames waiting imply it exists |
| CapturePipeline.EveryFrameAccounted | ios-capture/HumansCapture/Encoding/CapturePipeline.swift:57-221 | Every submitted frame is in exactly one of queued, in flight, sent, failed, rejected, superseded or cleared, and the two published totals are the sizes of their classes |
| CapturePipeline.IssuedInSubmissionOrder | ios-capture/HumansCapture/Encoding/CapturePipeline.swift:115-150 | Sends are issued in submission order among snapshots and among live frames |
| CapturePipeline.NoSendAfterClear | ios-capture/HumansCapture/Encoding/CapturePipeline.swift:103-150 | With fewer than 2^64 clears in a run, no frame dequeued before a clear has its send issued after it |
| CapturePipeline.GuardIsExact | ios-capture/HumansCapture/Encoding/CapturePipeline.swift:145 | The epoch guard passes a finished save on exactly when the clears since its dequeue are a multiple of 2^64 |
| CapturePipeline.StaleSendAfterWrap | ios-capture/HumansCapture/Encoding/CapturePipeline.swift:104-145 | The bound on clears is needed: 2^64 clears during one save wrap the epoch round and the stale snapshot is sent |
| CapturePipeline.ResumeProgress | ios-capture/HumansCapture/Encoding/CapturePipeline.swift:115-221 | Each resumption lowers a measure of the remaining work |
| CapturePipeline.DrainEnds | ios-capture/HumansCapture/Encoding/CapturePipeline.swift:115-221 | After any run, as many resumptions as that measure says, with no new submission and whatever they report, leave no task, nothing waiting, and every submitted frame finished |
| PipelineActor.Pipeline.SubmitSource | ios-capture/HumansCapture/Encoding/CapturePipeline.swift:57-97 | The actor segment of a submit, field by field, is the submit step of the state machine |
| PipelineActor.Pipeline.ClearQueue | ios-capture/HumansCapture/Encoding/CapturePipeline.swift:103-113 | The actor segment of a clear is the clear step |
| PipelineActor.Pipeline.StartDrain | ios-capture/HumansCapture/Encoding/CapturePipeline.swift:96-116 | The first segment of a spawned drain task is the resume step |
| PipelineActor.Pipeline.DrainUntilAwait | ios-capture/HumansCapture/Encoding/CapturePipeline.swift:115-160 | The drain loop up to its next await is the drain step, failures included |
| PipelineActor.Pipeline.ResumeAfterSave | ios-capture/HumansCapture/Encoding/CapturePipeline.swift:135-160 | Resuming after the recorder is the resume step: with the epoch unchanged and the recording saved the send of that snapshot is issued at once, otherwise the snapshot fails and the loop goes on |
| PipelineActor.Pipeline.ResumeAfterSend | ios-capture/HumansCapture/Encoding/CapturePipeline.swift:150-213 | Resuming after the socket is the resume step: a finished send raises the total and lists that frame as sent, a failed one lists it as failed and leaves the total, and either way the loop goes on with the queue |
| PipelineOutcomes.DrainLoopTakes | ios-capture/HumansCapture/Encoding/CapturePipeline.swift:115-160 | The loop takes frames in queue order, each that fails to encode becomes a failed one, and it stops at the first that encodes, saving a snapshot or issuing the send of a live frame, or ends with the queue empty and the flag lowered |
| PipelineOutcomes.SendOutcome | ios-capture/HumansCapture/Encoding/CapturePipeline.swift:150-213 | In every reachable state with a send pending: success adds one to the 64-bit total and exactly that frame to the sent ones, failure adds it to the failed ones, nothing else is counted |
| PipelineOutcomes.SaveOutcome | ios-capture/HumansCapture/Encoding/CapturePipeline.swift:135-160 | In every reachable state with a save pending: the send of that snapshot is issued exactly when the save succeeded and the epoch still stands; otherwise it fails and no total moves |
| PipelineOutcomes.SpawnOutcome | ios-capture/HumansCapture/Encoding/CapturePipeline.swift:115-134 | A spawned task goes on with the queue as it finds it and counts nothing |
| PipelineOutcomes.SnapshotOutcome | ios-capture/HumansCapture/Encoding/CapturePipeline.swift:57-97 | A snapshot is rejected exactly when the maximum already wait, and otherwise stands behind the waiting snapshots and before the live frame, with a task to drain it |
| PipelineOutcomes.LiveOutcome | ios-capture/HumansCapture/Encoding/CapturePipeline.swift:57-97 | A live frame is always taken; the one it displaces is superseded and adds one to the dropped total |
| PipelineOutcomes.ClearOutcome | ios-capture/HumansCapture/Encoding/CapturePipeline.swift:103-113 | A clear ends exactly the waiting frames, leaves the task in its await alone and changes the epoch |
| PipelineOutcomes.SentAreSucceeded | ios-capture/HumansCapture/Encoding/CapturePipeline.swift:57-221 | Over every run the sent frames are those whose socket send came back without an error, in that order, and the published total is their number |
| Clock.ProbeIsHonest | backend/src/hmc_backend/capture/clock.py:33-41 | With non-negative path delays the offset of one probe errs by half the difference of the two delays, at most half the round trip, and the delay is their sum |
| Clock.StableSortIsSort | backend/src/hmc_backend/capture/clock.py:80-82 | Sorting by delay is a permutation, ascending, and keeps samples of equal delay in arrival order |
| Clock.RetainedIsLowestDelay | backend/src/hmc_backend/capture/clock.py:61-83 | After any sequence of pongs the retained set is the first `keep` of the stable delay sort of everything accepted since the last reset |
| Clock.RetainedAreQuickest | backend/src/hmc_backend/capture/clock.py:61-83 | What is retained after any pongs is as quick as everything else accepted since the last reset, and as much of it as fits |
| Clock.MedianSplits | backend/src/hmc_backend/capture/clock.py:89-97 | At most half the retained offsets lie strictly on either side of the reported one |
| Clock.MedianMidway | backend/src/hmc_backend/capture/clock.py:89-97 | The reported offset lies midway between the two middle ones of the sorted offsets, which for an odd number are one |
| Clock.UncertaintyIs | backend/src/hmc_backend/capture/clock.py:99-110 | The reported uncertainty is the larger of half the greatest distance of two retained offsets and half the quickest round trip, in milliseconds: neither exceeds it and one attains it |
| Clock.EstimateError | backend/src/hmc_backend/capture/clock.py:89-110 | Honest samples put the median within half the largest admitted delay and within 3 times the reported uncertainty of the true offset |
| Clock.ConstantOffsetNeverResets | backend/src/hmc_backend/capture/clock.py:71-76 | At one true offset no honest probe triggers the reset, if and only if the delay limit is at most a second |
| Clock.ConstantOffsetRun | backend/src/hmc_backend/capture/clock.py:61-83 | Every run of honest probes at one offset forgets nothing but the truncated tail, if and only if the delay limit is at most a second or nothing is ever kept |
| Clock.StepResets | backend/src/hmc_backend/capture/clock.py:71-77 | A step beyond 1 s plus the admitted delay clears everything at the first accepted sample after it |
| Clock.StepNoticedExactly | backend/src/hmc_backend/capture/clock.py:71-77 | A step is certain to be noticed at its first accepted honest sample if and only if it exceeds 1 s plus the admitted delay |
| Clock.StepLeavesOnlyNew | backend/src/hmc_backend/capture/clock.py:61-83 | From that sample on only post-step samples are retained |
| Clock.ClockEstimator.RecordPong | backend/src/hmc_backend/capture/clock.py:61-83 | Append, sort and truncate in place give the next retained set and report exactly the accepted samples |
| Pairing.BestIsNearest | backend/src/hmc_backend/capture/pairing.py:68-76 | The scan finds the earliest eligible candidate with the least skew, and nothing exactly when none is eligible |
| Pairing.Pairer.Offer | backend/src/hmc_backend/capture/pairing.py:54-109 | One offer in place: the new queues and the outcome, rejections included, are the specified ones |
| Pairing.OfferDecides | backend/src/hmc_backend/capture/pairing.py:54-86 | Which of the five outcomes an offer has: a stranger or an uncertain frame is rejected as that and changes nothing; a frame with an acceptable candidate is paired with the earliest of the nearest, which alone leaves its queue; with only candidates too far it waits and the skew is the reason; without a candidate it waits and there is no reason |
| Pairing.NewestStay | backend/src/hmc_backend/capture/pairing.py:46-84 | A waiting frame joins the end of its queue, which is then the last frames, as many as the window holds, of the old queue and it |
| Pairing.Pairer.Clear | backend/src/hmc_backend/capture/pairing.py:111-114 | Clearing a known device empties its queue only |
| Pairing.EmittedIsProper | backend/src/hmc_backend/capture/pairing.py:78-109 | An emitted pair has one frame of each device in configured order, their true skew within the limit, and the same capture when that is required |
| Pairing.RunKeeps | backend/src/hmc_backend/capture/pairing.py:54-114 | Over every run: nothing in one queue is pairable with anything in the other, queues stay in bounds and hold their own device, every admitted frame is queued, paired, evicted or cleared exactly once |
| Pairing.NeverPairedTwice | backend/src/hmc_backend/capture/pairing.py:54-86 | No frame is paired more often than it was admitted |
| Shutter.NormalizedIsClocked | backend/src/hmc_backend/api/runtime.py:449-457 | A normalized frame errs from its true backend time by at most 125 ms and at most 3 times its uncertainty |
| Shutter.NormalizedExactly | backend/src/hmc_backend/api/runtime.py:449-457 | A packet is normalized exactly when its phone has an accepted probe or the mode is simulation: capture time less the median offset, with the reported uncertainty, or as it is with none |
| Shutter.WhatIsForgotten | backend/src/hmc_backend/api/runtime.py:141-148 | A new calibration empties both queues and nothing else; a new device session empties the samples and the queue of its phone only |
| Shutter.FrameClockedExactly | backend/src/hmc_backend/api/runtime.py:449-457 | A frame that passes is certain to be within its bounds, whatever true offset its probes allow, if and only if the mode is not simulation or its phone has an accepted probe |
| Shutter.OtherSessionClockedExactly | backend/src/hmc_backend/api/runtime.py:449-457 | A packet captured at another clock offset than the one probed is certain to be within its bounds if and only if the two offsets are equal |
| Shutter.ShuttersWithinBudget | backend/src/hmc_backend/api/runtime.py:425-482 | Over every run of probes, reconnects, arrivals and recalibrations, the true shutter gap of an emitted pair is at most the skew limit plus both phones' clock bounds |
| Shutter.UnsynchronisedPair | backend/src/hmc_backend/api/runtime.py:451-454 | In simulation mode with either phone unprobed, the other probed or not, two shutters any distance apart are paired with a skew of zero |
| Shutter.PairClockedExactly | backend/src/hmc_backend/api/runtime.py:449-482 | Two frames that pass are certain to have fired within their skew and both bounds if and only if both phones have an accepted probe |
| Shutter.BudgetKeptExactly | backend/src/hmc_backend/api/runtime.py:425-482 | Every run of real probes emits only pairs within the skew limit and both bounds if and only if the mode is not simulation or the configuration can never pair |
| Rays.ExactHitUnique | minecraft-mod/src/main/java/dev/humancraft/geometry/Shape.java:10-20 | A ray query has one exact answer: the least parameter in reach whose point is in the solid |
| Spheres.Intersect | minecraft-mod/src/main/java/dev/humancraft/geometry/Sphere.java:18-40 | The sphere test returns exactly the first hit within reach, 0 from inside |
| Spheres.Overlaps | minecraft-mod/src/main/java/dev/humancraft/geometry/Sphere.java:42-45 | True exactly when sphere and box share a point, touching included |
| Boxes.ClosestPointIsNearest | minecraft-mod/src/main/java/dev/humancraft/geometry/Aabb.java:54-63 | The clamped point lies in the box and no point of the box is nearer |
| Boxes.IntersectRay | minecraft-mod/src/main/java/dev/humancraft/geometry/Aabb.java:69-98 | For every ray the slab test is the exact answer for the ray with components below EPSILON flushed to zero |
| OrientedBoxes.WorldRoundTrip | minecraft-mod/src/main/java/dev/humancraft/geometry/Obb.java:64-74 | World to local to world is the identity |
| OrientedBoxes.LocalRoundTrip | minecraft-mod/src/main/java/dev/humancraft/geometry/Obb.java:64-74 | Local to world to local is the identity |
| OrientedBoxes.Intersect | minecraft-mod/src/main/java/dev/humancraft/geometry/Obb.java:96-126 | The slab test is the exact answer for the flushed local ray, and in world space whenever no local component is flushed |
| OrientedBoxes.LocalExactIsWorldExact | minecraft-mod/src/main/java/dev/humancraft/geometry/Obb.java:96-126 | An exact answer in the local frame is the exact answer in the world at the same distance |
| SeparatingAxes.Separated | minecraft-mod/src/main/java/dev/humancraft/geometry/Obb.java:159-170 | True exactly when the projections on the axis leave a gap beyond the tolerance |
| SeparatingAxes.SeparatedMeansDisjoint | backend/src/hmc_backend/colliders/geometry.py:247-272 | A gap on any axis at all, normalised or not, means the two solids share no point |
| SeparatingAxes.FifteenAxesSuffice | minecraft-mod/src/main/java/dev/humancraft/geometry/Obb.java:129-157 | The two solids share a point if and only if none of the fifteen axes, without tolerance, keeps their projections apart: completeness of the separating-axis test |
| SlabTriples.SixMeet | minecraft-mod/src/main/java/dev/humancraft/geometry/Obb.java:129-157 | Two triples of perpendicular slabs whose projections touch on fifteen axes have a point in all six, parallel edges included |
| CommonPoints.Helly | minecraft-mod/src/main/java/dev/humancraft/geometry/Obb.java:129-157 | Slabs in space of which the first five can each be left out with a point common to the rest all have a common point |
| SeparatingAxes.Overlaps | minecraft-mod/src/main/java/dev/humancraft/geometry/Obb.java:129-157 | False exactly when one of the tested axes separates, and then the solids are disjoint; when it is true they share a point, once the box is grown by 0.00003163, exactly unless the axis of two nearly parallel edges, left out of the test, keeps them apart |
| Segments.ClosestPointOnSegment | minecraft-mod/src/main/java/dev/humancraft/geometry/Segment.java:18-34 | No point of a non-degenerate segment is nearer than the closest point |
| Segments.BoxDistanceConvex | minecraft-mod/src/main/java/dev/humancraft/geometry/Segment.java:36-40 | The squared distance to a box is convex along the segment |
| Segments.BoxDistanceLipschitz | minecraft-mod/src/main/java/dev/humancraft/geometry/Segment.java:36-40 | Along the segment it changes no faster than the steepness the search bounds use |
| Searches.SquaredDistanceToBox | minecraft-mod/src/main/java/dev/humancraft/geometry/Segment.java:41-71 | Golden-section search: the answer is attained on the segment and exceeds the minimum by at most steepness times phi^100 |
| Searches.GoldenRatio | minecraft-mod/src/main/java/dev/humancraft/geometry/Segment.java:47 | The constant lies strictly between 0 and 1 and its square is 1 minus itself, so one probe is reused each round |
| Searches.GoldenWidth | minecraft-mod/src/main/java/dev/humancraft/geometry/Segment.java:52-66 | A hundred rounds leave a bracket narrower than 10^-20 |
| Searches.TernaryDistanceToBox | backend/src/hmc_backend/colliders/geometry.py:218-240 | Ternary search: never below the minimum and above it by at most steepness times (2/3)^iterations |
| Searches.SearchesAgree | backend/src/hmc_backend/colliders/geometry.py:218-240 | The two programs' distances differ by no more than their tolerances |
| Capsules.Intersect | minecraft-mod/src/main/java/dev/humancraft/geometry/Capsule.java:24-70 | On a non-degenerate capsule the answer is exact if and only if the wall was not wrongly skipped; on a degenerate one it is the exact answer for the sphere around the first end |
| Capsules.EntryBefore | minecraft-mod/src/main/java/dev/humancraft/geometry/Capsule.java:58-64 | From outside, the capsule is entered no later than at the wall entry or inside a cap: the nearest entry is the entry of the union |
| Capsules.SkippedIsWrong | minecraft-mod/src/main/java/dev/humancraft/geometry/Capsule.java:47-56 | Whenever the wall is skipped although its entry is first, the answer is wrong |
| Capsules.WallDistance | minecraft-mod/src/main/java/dev/humancraft/geometry/Capsule.java:36-56 | Skipped for rays nearly parallel to the axis; otherwise it returns t exactly when the line of the ray first touches the infinite cylinder at t, ahead of the origin and between the end planes |
| Capsules.Overlaps | minecraft-mod/src/main/java/dev/humancraft/geometry/Capsule.java:72-75 | True only for a real overlap; false only when the box misses the capsule shrunk by the search tolerance |
| Shapes.PointRoundTrip | minecraft-mod/src/main/java/dev/humancraft/model/StageToWorld.java:26-32 | Stage to world to stage and back is the identity both ways |
| Shapes.ShapeMoves | minecraft-mod/src/main/java/dev/humancraft/model/StageToWorld.java:38-40 | A stage point is in a shape exactly when its world image is in the mapped shape, for spheres, capsules and oriented boxes |
| Shapes.ExactHitMoves | minecraft-mod/src/main/java/dev/humancraft/model/StageToWorld.java:26-40 | Mapping shape and ray multiplies the exact hit distance by the scale and keeps misses misses |
| Shapes.BoxHitMoves | minecraft-mod/src/main/java/dev/humancraft/geometry/Aabb.java:69-98 | An exact hit on an axis-aligned box scales with the box, its corners mapped |
| Shapes.SlabAnswerMoves | minecraft-mod/src/main/java/dev/humancraft/geometry/Aabb.java:69-98 | What the slab test answers, flushed components or not, it answers scaled for the mapped ray and box |
| Shapes.OrientedAnswerMoves | minecraft-mod/src/main/java/dev/humancraft/geometry/Obb.java:96-126 | The same for an oriented box and its own frame: distance and point are the mapped ones |
| Tolerances.FlushIsIdentity | minecraft-mod/src/main/java/dev/humancraft/geometry/Aabb.java:76-84 | Flushing leaves a ray as it is exactly when no direction component is nonzero and below EPSILON; for those rays the slab tests are exact for the ray itself |
| Tolerances.SlabWithinTolerance | minecraft-mod/src/main/java/dev/humancraft/geometry/Aabb.java:69-98 | Otherwise a hit is in the box grown by the drift and a miss misses the box shrunk by it |
| Tolerances.TinyComponentMisses | minecraft-mod/src/main/java/dev/humancraft/geometry/Aabb.java:76-84 | A ray with a tiny component that meets the box and is reported as a miss |
| Tolerances.SlabExactWithoutTiny | minecraft-mod/src/main/java/dev/humancraft/geometry/Aabb.java:69-98 | For a given ray the slab test is exact on every box and reach if and only if no direction component is nonzero and below EPSILON |
| Tolerances.OrientedExactWithoutTiny | minecraft-mod/src/main/java/dev/humancraft/geometry/Obb.java:96-126 | For given axes and ray the oriented slab test is exact on every such box and reach if and only if no component in the frame of the axes is nonzero and below EPSILON |
| Tolerances.DegenerateMissesTip | minecraft-mod/src/main/java/dev/humancraft/geometry/Capsule.java:29-31 | A capsule shorter than the tolerance whose far tip is hit earlier than reported |
| Tolerances.DegenerateExactOnlyAtPoint | minecraft-mod/src/main/java/dev/humancraft/geometry/Capsule.java:29-31 | The answer for the sphere around the first end is exact for the capsule on every ray if and only if the two ends coincide |
| Tolerances.PointCapsuleIsSphere | minecraft-mod/src/main/java/dev/humancraft/geometry/Capsule.java:29-31 | When the two ends coincide the degenerate answer is the capsule's own |
| Tolerances.NearParallelSkipsWall | minecraft-mod/src/main/java/dev/humancraft/geometry/Capsule.java:47-56 | A ray nearly parallel to the axis that enters through the wall while the wall is skipped |
| NearestHit.NearestHit | backend/src/hmc_backend/colliders/geometry.py:191-202 | The scan returns a collider in reach, above any other by at most EPSILON per collider met since; the one that would replace every other in reach if there is such a one; the nearest whenever no near tie has an id as small |
| NearestHit.EveryOrderChooses | backend/src/hmc_backend/colliders/geometry.py:191-202 | Every order of the colliders gives the same answer if and only if that collider would replace every other one in reach |
| NearestHit.NearestInEveryOrder | backend/src/hmc_backend/colliders/geometry.py:191-202 | The nearest collider is the answer in every order if and only if no other one in reach within EPSILON of it has an id as small |
| NearestHit.ChoiceDrift | backend/src/hmc_backend/colliders/geometry.py:195-202 | A chain of near ties moves the choice by at most EPSILON a step |
| NearestHit.NearestUnique | backend/src/hmc_backend/colliders/geometry.py:191-202 | At most one collider is the nearest with the smallest id, whatever the order |
| NearestHit.NearTiesDependOnOrder | backend/src/hmc_backend/colliders/geometry.py:200 | A chain of near ties answered with its nearest or, in the other order, two tolerances beyond |
| BodyWarp.InterpChord | backend/src/hmc_backend/reconstruction/body_merge.py:68-77 | Interpolation passes through every knot and is the chord between neighbours |
| BodyWarp.InterpOutside | backend/src/hmc_backend/reconstruction/body_merge.py:68-77 | Beyond the knots the end values continue |
| BodyWarp.LateralInverse | backend/src/hmc_backend/reconstruction/body_merge.py:78-83 | Exchanging the half widths undoes the lateral map at every x |
| BodyWarp.LateralStretch | backend/src/hmc_backend/reconstruction/body_merge.py:81-83 | At fixed height distances stretch by a factor in [0.5, 2]: strictly increasing and continuous at the trunk edge |
| BodyWarp.LimbsTranslate | backend/src/hmc_backend/reconstruction/body_merge.py:52-54 | Outside the trunk distances are unchanged |
| BodyWarp.WidthsAt | backend/src/hmc_backend/reconstruction/body_merge.py:158-188 | At every height, knot or not, the half widths are at least 0.03 and their ratio in [0.5, 2] |
| BodyWarp.WarpInverse | backend/src/hmc_backend/reconstruction/body_merge.py:65-86 | Inverse after forward and forward after inverse are the identity on every point |
| BodyWarp.WarpAtHeight | backend/src/hmc_backend/reconstruction/body_merge.py:65-86 | In either direction points of one height keep a common height, their depth apart and their left-right order, their lateral distance times a factor in [0.5, 2] |
| BodyWarp.ForwardDirection | backend/src/hmc_backend/reconstruction/body_merge.py:65-86 | The forward warp raises every point by the vertical shift, moves it toward the front by the depth shift of its height, and carries the source trunk there onto the target trunk; beyond it the distance to the edge stays |
| BodyWarp.KnotImage | backend/src/hmc_backend/reconstruction/body_merge.py:68-86 | At a knot height these are the knot's own numbers: height, depth shift, and middle and both edges of the source trunk to those of the target |
| BodyWarp.BodyBasis | backend/src/hmc_backend/reconstruction/body_merge.py:138-142 | Lateral, up and toward-front are perpendicular unit vectors, right-handed |
| BodyWarp.AssembleProfile | backend/src/hmc_backend/reconstruction/body_merge.py:154-188 | The slice loop and its gates give the measured profile or the rejection of the first gate that fails |
| BodyWarp.MeasuredPointwise | backend/src/hmc_backend/reconstruction/body_merge.py:158-179 | Knot by knot the profile is the measurement of the usable slices, bottom to top |
| BodyWarp.SliceHeights | backend/src/hmc_backend/reconstruction/body_merge.py:158 | The twelve heights run in equal steps from 8 cm above the floor to 4 cm below the shoulders |
| BodyWarp.KeptExactly | backend/src/hmc_backend/reconstruction/body_merge.py:158-165 | A height is used exactly when neither cloud has fewer than 20 points there and neither trunk is narrower than 6 cm |
| BodyWarp.GatesSuffice | backend/src/hmc_backend/reconstruction/body_merge.py:180-188 | The gates force strictly increasing knots, half widths of at least 0.03 and ratios in [0.5, 2] |
| BodyWarp.AcceptedWarpIsInvertible | backend/src/hmc_backend/reconstruction/body_merge.py:126-189 | Every accepted assembly builds a bijective warp |
| BodyWarp.KnotThickness | backend/src/hmc_backend/reconstruction/body_merge.py:166-179 | At a knot the forward warp puts a point of the rear median at least the minimum thickness behind the front one and a point of the rear inner envelope at most the seam overlap past the front one, and one of the two exactly |
| BodyWarp.TrunkEdgesMeet | backend/src/hmc_backend/reconstruction/body_merge.py:154-189 | At a knot of an accepted assembly the forward warp keeps the aligned height and carries the rear trunk's left and right edges onto the front's |
| BodyWarp.AcceptedExactly | backend/src/hmc_backend/reconstruction/body_merge.py:154-188 | An assembly is accepted if and only if at least five usable slices reach far enough, low enough and high enough, and the two widths agree within a factor 2 in each; which rejection it is otherwise |
| StrictJson.JsonReader.Element | minecraft-mod/src/main/java/dev/humancraft/contract/StrictJson.java:77-121 | The recursive descent with its loops, consuming the reader in place, gives the specified tree, error and position |
| StrictJson.ParseDocument | minecraft-mod/src/main/java/dev/humancraft/contract/StrictJson.java:62-75 | A document is one element with nothing after it |
| StrictJson.ParseExactlyPrinted | minecraft-mod/src/main/java/dev/humancraft/contract/StrictJson.java:62-121 | A token stream is accepted as a tree exactly when it is that tree's whole printing, with distinct names in every object and nesting within 32 |
| StrictJson.PrintInjective | minecraft-mod/src/main/java/dev/humancraft/contract/StrictJson.java:62-121 | No two acceptable trees share a printing |
| StrictJson.Obj.Require | minecraft-mod/src/main/java/dev/humancraft/contract/StrictJson.java:141-147 | A required field is marked as read even when missing, which is an error |
| StrictJson.Obj.Nullable | minecraft-mod/src/main/java/dev/humancraft/contract/StrictJson.java:149-153 | An optional field is marked as read; null counts as absent |
| StrictJson.Obj.Has | minecraft-mod/src/main/java/dev/humancraft/contract/StrictJson.java:155-157 | Asking whether a field is present and not null marks nothing |
| StrictJson.Obj.Finish | minecraft-mod/src/main/java/dev/humancraft/contract/StrictJson.java:255-261 | The first field nobody read is reported |
| StrictJson.DecodeAcceptsExactly | minecraft-mod/src/main/java/dev/humancraft/contract/StrictJson.java:124-261 | A decoder accepts an object exactly when every required key is there and every key was read by require or nullable |
| Envelope.LittleEndianRoundTrip | ios-capture/HumansCapture/Protocol/HMCEnvelope.swift:103-108 | An integer that fits its width is read back from its little-endian bytes |
| Envelope.LittleEndianAt | ios-capture/HumansCapture/Protocol/HMCEnvelope.swift:103-108 | The low byte comes first: byte i counts the 256^i |
| Envelope.FrameLayout | docs/contracts.md:33-45 | Where each part of a frame lies: the four magic bytes, version, type and the two lengths at their offsets, then the header and the payload to the end |
| Envelope.DecodeExactlyFrames | backend/src/hmc_backend/protocol/envelope.py:114-170 | A decoder accepts exactly the frames of in-limit messages of a known type and returns the message framed |
| Envelope.RefusedAs | backend/src/hmc_backend/protocol/envelope.py:114-170 | Why a framed message is refused: too large exactly for a known type over a limit, invalid exactly for an unknown type or a length that is not the declared one |
| Envelope.RefusedEarly | backend/src/hmc_backend/protocol/envelope.py:114-150 | Bytes too short or without the magic word are invalid, and of another version exactly when only that differs |
| Envelope.PythonAndJavaAgree | minecraft-mod/src/main/java/dev/humancraft/contract/Hmc1Envelope.java:15-50 | On any bytes the two decoders agree, error codes included, exactly unless an RGBD payload between 8 and 16 MiB is declared; on character messages always |
| Envelope.DecodeAfterEncode | backend/src/hmc_backend/protocol/envelope.py:90-132 | What the encoder emits its own decoder takes back exactly for the two known types and refuses for every other |
| Envelope.EncodeRefuses | backend/src/hmc_backend/protocol/envelope.py:90-111 | The encoder refuses exactly what is over a limit, and otherwise exactly a type that does not fit its field, which it writes there |
| Envelope.UnknownTypeIsEmitted | backend/src/hmc_backend/protocol/envelope.py:93-111 | The encoder's promise to emit nothing its decoder rejects fails for type 3 |
| Envelope.EnvelopeRoundTrip | backend/src/hmc_backend/protocol/envelope.py:90-170 | With a header printer its parser undoes, decode after encode is the identity on in-limit messages |
| Envelope.SwiftEncode | ios-capture/HumansCapture/Protocol/HMCEnvelope.swift:78-99 | The phone's field-by-field writer emits exactly the frame of its header and joined buffers, or the size error |
| Envelope.SwiftToPython | backend/src/hmc_backend/protocol/envelope.py:114-170 | What the phone sends the backend decodes to the same header and payload |
| Envelope.JavaEncode | minecraft-mod/src/main/java/dev/humancraft/contract/Hmc1Envelope.java:53-65 | The Java writer frames its arguments with the type reduced to 16 bits |
| Buffers.ExpectedLength | backend/src/hmc_backend/protocol/buffers.py:89-96 | The loop computes the product of the dimensions times the element size, nothing for JPEG |
| Buffers.RasterLengths | docs/contracts.md:299-301 | A depth raster has four bytes a pixel, a confidence raster one, a list of points sixteen a point; a JPEG image any number |
| Buffers.ValidateDescriptors | backend/src/hmc_backend/protocol/buffers.py:117-156 | Validation passes exactly the tight tilings of the payload with distinct names whose fixed-size buffers match their shapes, and the error it gives names a fault that is there |
| Buffers.EachByteInOneBuffer | backend/src/hmc_backend/protocol/buffers.py:117-156 | Every payload byte lies in exactly one accepted buffer |
| Buffers.RawIsSlice | backend/src/hmc_backend/protocol/buffers.py:159-178 | Looking a buffer up by name gives its own slice |
| Buffers.JoinedIsPayload | backend/src/hmc_backend/protocol/buffers.py:175-178 | Joining the named slices in order gives the payload back |
| Buffers.Descriptors | ios-capture/HumansCapture/Protocol/HMCEnvelope.swift:37-65 | The phone describes its buffers end to end exactly when they are named, distinct, properly shaped and fit 32 bits, and the error it gives names a fault that is there |
| Buffers.PhoneTilesForBackend | ios-capture/HumansCapture/Protocol/HMCEnvelope.swift:37-65 | What the phone describes always tiles, and passes the backend exactly when every shape fits its data |
| Buffers.PhoneDataArrives | backend/src/hmc_backend/protocol/buffers.py:175-178 | Under each name the backend reads the very bytes the phone put there |
| Buffers.EncodeRgbd | ios-capture/HumansCapture/Protocol/HMCEnvelope.swift:67-100 | The phone encodes exactly when the header is valid, its descriptors are those of the buffers as laid out and the limits hold, and then emits the frame of header text and joined buffers; which of these fails is the error |
| Buffers.PhoneFrameIsRead | backend/src/hmc_backend/protocol/envelope.py:114-170 | What that encoder sends the backend decodes to the same header text and payload; the declared descriptors tile it and under each name lie the bytes the phone put there |
| Buffers.ValidateBuffers | minecraft-mod/src/main/java/dev/humancraft/contract/CharacterFrameDecoder.java:61-103 | The client accepts exactly the tight tilings with a points buffer of the right format and length, and returns it; the error it gives names a fault that is there |
| Buffers.BackendImpliesClient | minecraft-mod/src/main/java/dev/humancraft/contract/CharacterFrameDecoder.java:61-103 | Of the frames that pass the backend rules the client accepts exactly those with a one-dimensional points buffer |
| Buffers.CountLimitMakesExact | minecraft-mod/src/main/java/dev/humancraft/contract/CharacterFrameDecoder.java:27-30 | Within the point limit the client's 64-bit length check is the true one |
| Buffers.WrappedCountPasses | minecraft-mod/src/main/java/dev/humancraft/contract/CharacterFrameDecoder.java:87-91 | Before that limit it is not: 2^60 records pass as an empty buffer |
| Buffers.LengthCheckExact | minecraft-mod/src/main/java/dev/humancraft/contract/CharacterFrameDecoder.java:87-91 | For every 32-bit length the wrapped check gives the true verdict if and only if the count is below 2^60 or at least 2^28 above a multiple of 2^60 |
| Voxels.LexSortIsStable | backend/src/hmc_backend/reconstruction/geometry.py:71-74 | The sorting permutation lists all indices in key order, equal keys in input order |
| Voxels.NumberRuns | backend/src/hmc_backend/reconstruction/geometry.py:75-80 | Run mask and running sum number the runs of equal keys and mark where each starts |
| Voxels.CombineMasks | backend/src/hmc_backend/reconstruction/geometry.py:80-82 | The in-place scatter gives each group exactly the bits set by its members |
| Voxels.VoxelDownsample | backend/src/hmc_backend/reconstruction/geometry.py:59-84 | One point per occupied voxel in key order: place and colour of the earliest input in it, mask bits exactly those of some input in it; nothing changes without points or a positive size |
| Voxels.KeyIsCube | backend/src/hmc_backend/reconstruction/geometry.py:71 | A voxel is the half-open cube of the given size above its index |
| Voxels.GroupingUnique | backend/src/hmc_backend/reconstruction/geometry.py:59-84 | That specification leaves one possible result |
| Voxels.FilteredIsFixed | backend/src/hmc_backend/reconstruction/geometry.py:59-84 | Filtering a filtered cloud changes nothing |
| Voxels.MergeClouds | backend/src/hmc_backend/reconstruction/reconstruct.py:165-190 | The merged cloud is the whole filtered cloud when that fits the budget, otherwise that many of its points; places and colours come from inputs, no camera bit is created, and none is lost while all points fit |
| Voxels.FlattenInOrder | backend/src/hmc_backend/reconstruction/reconstruct.py:173-181 | Every cloud is in the concatenation whole and in view order, and nothing else is |
| Hands.MarginIsClearance | backend/src/hmc_backend/vision/hand_association.py:248-257 | Testing the one best alternative against the margin tests every alternative |
| Hands.AssociateHands | backend/src/hmc_backend/vision/hand_association.py:235-259 | The greedy loops give the fold of the specified step over the sorted table |
| Hands.RunPromises | backend/src/hmc_backend/vision/hand_association.py:228-259 | In any order: no candidate serves two sides, every assignment is a table entry, and it beats its own other side and every unused rival by the margin |
| Hands.AnswerPromises | backend/src/hmc_backend/vision/hand_association.py:240-259 | So for the answer, however the sort breaks ties |
| Hands.AssociationIsOrderFree | backend/src/hmc_backend/vision/hand_association.py:243-259 | With a positive margin every descending order of the scores gives the same assignment |
| Hands.SwapTied | backend/src/hmc_backend/vision/hand_association.py:245-258 | Two neighbouring tied entries may be processed in either order |
| Hands.ZeroMarginDependsOnOrder | backend/src/hmc_backend/vision/hand_association.py:245-258 | Without a positive margin two tied candidates for one side win or lose by their order |
| Hands.ChoiceIsFreeExactly | backend/src/hmc_backend/vision/hand_association.py:243-259 | Every table is assigned the same candidates in every descending order if and only if the margin is positive |
| Hands.MarginDependsOnOrder | backend/src/hmc_backend/vision/hand_association.py:250-257 | A table where the recorded margin depends on the order although the choice does not |
| Hands.TiedMargins | backend/src/hmc_backend/vision/hand_association.py:248-258 | Two acceptable tied entries for different sides and candidates leave the same state in both orders if and only if neither best alternative changes when the other candidate is used |
| Hands.AnswerIsOrderFree | backend/src/hmc_backend/vision/hand_association.py:243-259 | With a positive margin the whole answer, margins included, is the same for every descending order if and only if the table has no two contested entries: tied, clearing everything, nothing better clearing, and a margin that notices the other |
| Hands.UsedRivalIgnored | backend/src/hmc_backend/vision/hand_association.py:230-232 | A candidate that wins a side although one used on the other side scores higher there |
| Hands.FullMarginAtStep | backend/src/hmc_backend/vision/hand_association.py:228-258 | An accepted entry has the documented margin over every other candidate if and only if it has it over those already used |
| Hands.FullMarginOfAnswer | backend/src/hmc_backend/vision/hand_association.py:228-259 | The answer has the documented margin if and only if each side beats by it what the other side's winner scored there |
| Hands.FullMarginOnTable | backend/src/hmc_backend/vision/hand_association.py:228-259 | For a positive margin, on the table alone: the answer has the documented margin in every order if and only if no entry that follows the best clearing one is outscored within the margin, on its side, by that one's candidate |
| Board.RunsExact | backend/scripts/print_calibration_board.py:25-28 | The runs of a row are its maximal black stretches, in order |
| Board.Vectorise | backend/scripts/print_calibration_board.py:21-35 | The rectangles are non-empty, pairwise disjoint and cover exactly the black pixels |
| Board.ExactlyOneRectangle | backend/scripts/print_calibration_board.py:21-35 | A pixel is black exactly when one rectangle contains it, and then only one does |
| Runtime.RunPublishes | backend/src/hmc_backend/api/runtime.py:310-557 | Over every run, recalibrations included: frame numbers strictly increase, each frame bears the calibration active at publication and one source of each phone, the store holds the last one published, every client sees increasing numbers with only the latest waiting |
| Runtime.EncodedKeeps | backend/src/hmc_backend/api/hub.py:31-46 | Publishing puts the newest frame before every client and keeps all of the above |
| Progress.TakenUpExactly | backend/src/hmc_backend/api/runtime.py:459-501 | From an idle lock a frame is taken up if and only if no registration runs, the rig is in force, whole and usable, and the frame is certain enough and has an acceptable candidate waiting |
| Progress.ProcessedIsPublished | backend/src/hmc_backend/api/runtime.py:503-543 | A pair processed and encoded is published once, under the next number, with the calibration in force, and is what the store holds; only an empty live one is not |
| Progress.FailurePublishesNothing | backend/src/hmc_backend/api/runtime.py:503-557 | A failed processing changes nothing but the lock, a failed encoding uses a number up and publishes nothing |
| Progress.CompletedIsPublished | backend/src/hmc_backend/api/runtime.py:459-557 | From the completing frame to the store: exactly one publication, live or not |
| Progress.TwoFramesArePublished | backend/src/hmc_backend/api/runtime.py:459-557 | One frame of each phone that may be paired, arriving one after the other, come to exactly one publication: the first waits and the second completes the pair |
| Progress.PairerSeesReady | backend/src/hmc_backend/api/runtime.py:462-482 | Exactly the frames that find everything ready reach the pairer; an unsteady one breaks the rig and a frame never changes the calibration or its number |
| Progress.UnsteadyBlocks | backend/src/hmc_backend/api/runtime.py:464-466 | One frame that is not steady breaks the rig: whatever happens, no frame is taken up again until a freshly solved rig is swapped in |
| Progress.SwapStartsAfresh | backend/src/hmc_backend/api/runtime.py:336-356 | Swapping in a solved rig empties the queues, clears the break, keeps the frame number and makes its session ready |
| Progress.RegisterForgets | backend/src/hmc_backend/api/runtime.py:141-148 | A phone that registers anew has nothing waiting; the other phone's frames stay |
| Progress.RegistrationStarts | backend/src/hmc_backend/api/runtime.py:212-220 | A request starts a collecting session that has seen nothing yet, unless one is running; nothing else changes |
| Progress.LoopLeavesNothingPending | backend/src/hmc_backend/api/runtime.py:283-308 | When the calibration loop returns its session is no longer pending: a cancelled or unfinished one has failed, any other stays as it is |
| Progress.SetbackFails | backend/src/hmc_backend/api/runtime.py:324-356 | A recording that cannot be saved, or a rig not solved in time, fails its session and leaves the rig in force |
| Recalibration.RigChangesOnlyByInstall | backend/src/hmc_backend/api/runtime.py:336-356 | The rig changes only when a validating session is solved in time, and the frame counter survives |
| Recalibration.NoInstallAfterFailure | backend/src/hmc_backend/api/runtime.py:222-228 | Over every run a session that failed or was cancelled before going live installs no rig, unless the failure landed while one of its frames was examined |
| Recalibration.RaceNeedsExamination | backend/src/hmc_backend/calibration/session.py:88-126 | Only a cancel or timeout that finds a frame under examination can race |
| Runtime.CommitRevives | backend/src/hmc_backend/calibration/session.py:121-126 | A failed session comes back to life exactly on the accepted frame that completes both counts |
| Recalibration.CancelledSessionCanInstall | backend/src/hmc_backend/calibration/session.py:125-126 | A run from the start in which a cancelled session installs its rig |
| Recalibration.SessionInstalls | backend/src/hmc_backend/api/runtime.py:310-356 | Twelve accepted frames of each phone and a rig solved in time put that rig in force |
| Recalibration.CancelCanBeOverwritten | backend/src/hmc_backend/api/runtime.py:222-228 | After a cancel or timeout some continuation still installs the failed session if and only if a frame of it was under examination that would complete both counts |
| Delivery.PublishedSeenExactly | backend/src/hmc_backend/api/hub.py:31-46 | In any run a frame just published waits for every subscriber, and each sees it, whatever happens next, if and only if its turn comes before the next frame or announcement and before it leaves |
| Delivery.WaitingSeenExactly | backend/src/hmc_backend/api/hub.py:37-46 | The same from any sound state in which a frame waits |
| Delivery.GreetedWithLatest | backend/src/hmc_backend/api/app.py:228-233 | In every run a client is shown, before anything else, the frame that was the latest when it connected, whatever happened before it subscribed |
| Delivery.DisconnectForgets | backend/src/hmc_backend/api/app.py:244-245 | A client that leaves is forgotten; every other client and everything else stays |
| Delivery.StepOnSubscriber | backend/src/hmc_backend/api/hub.py:31-46 | Every step of the runtime either puts a frame or an announcement before a subscriber, displacing what waits, or is its own turn, or leaves it alone |
| AppRuntime.AppRuntime.BroadcastItem | backend/src/hmc_backend/api/hub.py:31-46 | The loop over the subscribers replaces whatever waits for each |
| AppRuntime.AppRuntime.HandleFrame | backend/src/hmc_backend/api/runtime.py:459-501 | One arriving frame under the ingest lock keeps the queue, publication and board invariants; it is taken up only as part of a proper pair stamped with the calibration in force, and it is taken up whenever it completes a pair while everything is ready; nothing is published |
| AppRuntime.AppRuntime.FinishProcessing | backend/src/hmc_backend/pipeline/assembler.py:42-108 | The invariants are kept; a numbered frame is newer than everything published, of the calibration in force and one frame of each phone, and an empty live one uses its number up |
| AppRuntime.AppRuntime.FinishEncoding | backend/src/hmc_backend/api/runtime.py:537-543 | The invariants are kept; what is published was numbered, and is at once in the store and before every subscriber, newer than all it has seen; on failure nothing changes |
| AppRuntime.AppRuntime.FinishExamination | backend/src/hmc_backend/calibration/session.py:88-126 | The invariants are kept; only the examined session changes, and a failed one comes back only if it failed during the examination and the frame completes both counts |
| AppRuntime.AppRuntime.FinishSolving | backend/src/hmc_backend/api/runtime.py:338-356 | The invariants are kept; calibration and pairer change together, with the queues emptied and nothing in hand, only for a validating session solved in time that had not failed unless during an examination |
| AppRuntime.AppRuntime.RequestRegistration | backend/src/hmc_backend/api/runtime.py:212-220 | A session starts exactly when none is running |
| AppRuntime.AppRuntime.ClearRegistration | backend/src/hmc_backend/api/runtime.py:222-228 | The invariants are kept; the newest session is failed, older ones, rig, queues, frame in hand and everything published stay |
| AppRuntime.AppRuntime.Take | backend/src/hmc_backend/api/app.py:251-257 | A client takes what waits for it, once |
| Freshness.RigFreshness.Observe | backend/src/hmc_backend/calibration/session.py:193-215 | One observation in place is the latch step, and reports the latched reason |
| Freshness.LatchIsExact | backend/src/hmc_backend/calibration/session.py:193-215 | The latch is set exactly when some frame altered session or raster, lacked a baseline, or was the third moved one of its phone in a row |
| Freshness.LatchHolds | backend/src/hmc_backend/calibration/session.py:194-195 | Once broken the rig stays broken for the reason first found |
| Freshness.ReasonIsFirst | backend/src/hmc_backend/calibration/session.py:193-215 | The reason is that of the first frame that broke the rig: a phone without a baseline, or how that frame had changed |
| Quality.QualityMonitor.Observe | backend/src/hmc_backend/observability/quality.py:147-202 | One observation updates the state of its key only, as the specified step |
| Quality.MonitorPromises | backend/src/hmc_backend/observability/quality.py:147-202 | Over every run: warnings at least the interval apart, an episode opens only after the required consecutive poor frames, each recovery answers exactly one warned episode on a frame where everything warned about reads fine |
| Quality.PoorSignalsAre | backend/src/hmc_backend/observability/quality.py:155-165 | Poor is exactly a background over its limit or a measured coverage under its own |
| Quality.StreakWarns | backend/src/hmc_backend/observability/quality.py:168-183 | The required number of poor frames in a row, with no warning within the interval, warns of exactly what the last one shows |
| Quality.EpisodeRecovers | backend/src/hmc_backend/observability/quality.py:184-202 | A warned episode recovers on the first frame with nothing poor and nothing warned about unmeasured |
| Quality.RecoveryIsMeasured | backend/src/hmc_backend/observability/quality.py:185-190 | At every recovery everything warned about was measured, if and only if it is not the case that the background was among it and absent |
| Quality.BackgroundRecoversUnmeasured | backend/src/hmc_backend/observability/quality.py:155-162 | For every streak length: a background warning recovers on a frame with no background at all |

## Left out

- CapturePipeline.NoSendAfterClear: holds below 2^64 clears in a run, because the epoch wraps; `CapturePipeline.GuardIsExact` is the condition without that bound.
- Board.Vectorise: requires a width of at least one pixel; a row without pixels makes the original fail.
- Capsules.Intersect: on a degenerate capsule the contract is exactness for the sphere around the first end; `Tolerances.DegenerateExactOnlyAtPoint` says for which capsules that is exactness for the capsule, without a condition on the single ray.
- Capsules.Overlaps: a negative answer excludes only the capsule shrunk by the search tolerance, because the search stops after 100 rounds.
- SeparatingAxes.Overlaps: a true answer is about the box grown by 0.00003163, because of the tolerance. `SeparatingAxes.FifteenAxesSuffice` is the exact test without it.
- OrientedBoxes.Intersect: exactness in world space is stated for local directions without a component in (0, EPSILON); otherwise the answer is exact for the flushed ray, as for Boxes.IntersectRay. `Tolerances.OrientedExactWithoutTiny` shows that no more holds for every box.
- NearestHit.NearestHit: distances are given; the Python ray tests themselves, which report the exit distance from inside a shape, are not modelled.
- Shutter.ShuttersWithinBudget: assumes non-negative path delays and a fixed offset within one device session, in simulation mode at least one accepted probe per phone, and that every packet is read within the device session it was captured in; `Shutter.OtherSessionClockedExactly` says what is certain of one that is not. `Shutter.BudgetKeptExactly` drops the assumption about simulation mode.
- BodyWarp.AssembleProfile: quantiles, medians and point counts of a slice are inputs; the vertical alignment and the core selection before the loop are not modelled, and the front direction is taken as horizontal and of unit length.
- BodyWarp.KnotThickness: states the thickness at the knots; between knots the shift is interpolated.
- Voxels.VoxelDownsample: the quotient of coordinate and voxel size is exact, without single-precision rounding or the 64-bit key range.
- Voxels.MergeClouds: the seeded permutation is any ordered choice of the right size.
- Hands.AssociateHands: works on a given score table; scoring itself (distances, directions, handedness) is not modelled.
- Board pixels: the scaling to millimetres and its six-digit printing are not modelled.
- StrictJson.ParseDocument: starts from the tokenizer's tokens; a number is kept as its text and a flag whether it converts to a decimal. UTF-8 decoding and the typed field conversions are not modelled.
- Envelope.EnvelopeRoundTrip: the header's JSON text is an abstract pair of printer and parser.
- Envelope.SwiftEncode: frames a header given as bytes; the comparison of its descriptors with the buffers is in `Buffers.EncodeRgbd`, where the validity of its other fields is an input.
- Envelope.JavaEncode: the byte buffer is a growing sequence, not a preallocated array.
- Runtime.RunPublishes: whether the rig in force may be used at all, and what the freshness latch says of a frame, are inputs of the frame's step (`Freshness` models the latch); reconstruction, detection and fitting are one step that succeeds or fails; a client that disconnects is forgotten, and a frame published between a client's greeting and its subscription reaches it only through a later one.
- Recalibration.NoInstallAfterFailure: board frames arrive as complete pairs (pairing is `Pairing`), and whether a frame is accepted is an input.
- Freshness.LatchIsExact: how far a pose has moved from its baseline is an input.
- Quality.MonitorPromises: one key at a time, with a streak of at least one frame and an interval that is not negative; measuring the coverages is not modelled.
- IEEE rounding, NaN and infinities, and the orthonormality tolerances of axes: reals are exact and axes exactly orthonormal.
- Empty point clouds on the wire: both readers refuse a zero dimension.
- WebSockets, HTTP routes, service discovery, file formats, telemetry and threads: only the atomic steps they impose are kept.
- Camera solving, body and hand detection, cloud registration, segmentation, user interfaces and avatar rendering.
