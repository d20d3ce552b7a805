# Artery: verified models of its stateful cores

Artery is a V2X simulator on top of OMNeT++, INET, Vanetza and SUMO. Most of it is wiring, but several
components hold real algorithms or state that lives as long as the simulation. This project models them in
Dafny and proves what they keep over every run, in the form the code has: objects that update their fields are
classes, loops are loops, and each method is tied to a function or a history about which the properties are
proved. `dafny verify dfyconfig.toml` checks everything.

| Files | What they model |
|---|---|
| `Shapes`, `ArrayStrides`, `Buffers`, `StridedIteration`, `Broadcasting`, `Vectorize` | NumPy broadcasting and element-wise calls in the vendored pybind11 |
| `ChannelSamples`, `ChannelLoadMeasurements`, `ReportScan`, `VanetRx`, `ChannelLoadAgreement` | the two channel busy ratio meters, when their reports are right and when they agree |
| `VehicleFilters`, `VehicleDataProvider` | heading, yaw rate, curvature filter and curvature confidence |
| `TypeBases` | the worklist over Python base classes and its cache in pybind11 |
| `TraciCache`, `TraciSubscription`, `TraciNodes`, `TraciSimulation` | TraCI subscriptions, vehicle nodes, delayed insertion, and the core that drives them |
| `TaiTimer`, `Awareness`, `CaService` | time stamps, the table of received CAMs, and CAM generation timing |
| `EnvironmentTracking` | objects tracked by the local sensors |
| `Sampling` | time-stamped sample buffers |
| `Storyboard` | effect stacks of cars and the storyboard that keeps them in line with conditions |
| `Machine`, `Sequences`, `Wrappers` | shared: fixed-width integers and time units, distinct sequences, optional values |

## How the parts are stated

* **Broadcasting.** The odometer with precomputed carry strides stands, after k steps, at base plus index dot
  stride for the k-th row-major index, for any rank, extents and strides. The linear fast path and the odometer
  path are proved against the same element-wise meaning, so `Vectorize.Run` has one contract whichever ran.
* **Channel load.** Both meters carry a ghost history of all samples. The ring is simple enough to be the
  specification; the run-length deque is related to it before and after it has been cut back by reports.
* **Filters.** Over `real` numbers and a symbolic pi. The second-order recurrence is shown to be a cascade of two
  one-pole stages; the bound on the hidden first stage is the invariant that carries the bound on the output. The
  provider carries the ghost sequence of all raw values, and its outputs are proved to be a function of it, so the
  bounds hold on runs of any length and for whatever limit the raw values of the run obey.
* **Base classes.** Reachability over paths. The loop's termination measure is the number of paths still to be
  followed, which drops by one even when the current element is popped and the index stepped back. The cache is
  transparent over whole runs in which classes are created, registered, asked for and destroyed in any order.
* **TraCI.** `TraciSimulation.Core` is a transition system: connection, simulation step, insertion event, passing
  of time, further subscriptions. `Valid` is proved after the constructor and kept by every event. A ghost log
  of due and insertion times makes timeliness of insertions a statement about whole runs.
* **CAM timing.** A ghost log of all messages sent; the rules of ETSI EN 302 637-2, section 6.1.3, are predicates
  over the log that every trigger keeps.

## Where the code does something else than one might expect

* `src/artery/inet/VanetRx.cc:73` adds 32-bit counters, and `:54` stores the run length in 32 bits. A report leaves
  behind exactly those runs that its scan gets past, which need not be less than a window when the counter has wrapped
  (`LeftBehind`, `ReportLeaves`). Let a run fill up the window. The report is right, whatever the last report left
  behind that run, if and only if the sample counter ends up full as well (`ClosingRunExact`). The ratio stays within
  1, as `src/artery/networking/DccEntityBase.cc:54` asserts, whatever the last report left behind any run, if and only
  if the sample counter is full, or lacks exactly one sample while the busy counter is below the window
  (`InRangeIff`). `OverflowRun` drives the receiver, with its reports every 100 ms, to a ratio above 1 after 9.5 idle
  hours; `StuckRun` shows that it need not recover: after another 2^32 + 1 idle symbols it still reports 12501 busy
  samples where 0 is right.
* `src/artery/inet/VanetRx.cc:88` also forgets the run that closes the window. A later report never overcounts but may
  undercount, by exactly the busy samples among those missing from the window; `UndercountRun` reports 0 where 12400
  are right. As long as no run comes near 2^32 symbols (`Fits`), a report is right whatever happened before the runs
  it still knows of if and only if these fill the window (`ReportRightIff`).
* The two meters treat a rest of less than one symbol differently. They record the same samples of the same
  medium if and only if the rest of each gap between switches, together with the burst of shorter gaps right before
  it, stays below one symbol (`SameStreamIffRestsFit`).
* `src/artery/application/Timer.cc:46` and `:49` assert a distance of at most 0x7fff. They hold if and only if the
  stamp is not exactly 0x8000 away from the current time (`ReconstructMilliseconds`). The unsigned subtraction
  at `:48` may wrap; the conversion back to a signed duration undoes that, so the result is right anyway.
* `src/artery/application/VehicleDataProvider.cc:117` clamps to the positive limit for both directions: the sign of
  the published curvature is right if and only if the filter output is at least -1 (`PublishedSign`).
  `RightTurnPublishedLeft` drives the provider to an output of -2, published as +1, in four updates. Since the first
  two raw values serve as seeds, outputs may exceed all raw values (`Overshoot`).
* `src/artery/application/SampleBuffer.h:62` selects samples strictly newer than the limit, despite the name
  `not_before`.
* `src/artery/storyboard/EffectStack.cc:33-38` never counts. When a story is removed, an effect of another story
  loses its force exactly if some removed effect lay below it and another story's effect below that one
  (`RemoveEffectsByStory`). So all others stay in force if and only if no removed effect lay between two of them
  (`AllInForceIff`).
* `src/artery/application/CaService.cc:50` starts with a generation interval of 1000 ms whatever `maxInterval` is, so
  the gap between messages is bounded by the larger of the two.
* CAM stamps repeat every 65.536 s. A message is accepted exactly if its age modulo 65.536 s is within the lifetime of
  1100 ms, or within the same time of the next repetition (`AcceptedExactly`). So acceptance coincides with being
  within the lifetime if and only if the age is below 64.436 s or off the repetitions (`AcceptedIffAlive`).
* The limits `minInterval` and `maxInterval` are not checked against each other. The bounds on CAM gaps are stated for
  arbitrary limits; with a minimum of at most 1000 ms and at most the maximum they are the standard's.

## Model

| member | source | states |
|---|---|---|
| Shapes.RowUnrankOfRank | extern/pybind11/include/pybind11/numpy.h:1289-1300 | row-major numbering of in-bounds indices is one-to-one: mixed-radix digits of the rank are the index |
| Shapes.RowRankOfUnrank | extern/pybind11/include/pybind11/numpy.h:1289-1300 | every position below the element count is the rank of its mixed-radix digits |
| Shapes.ColumnUnrankOfRank | extern/pybind11/include/pybind11/numpy.h:773-780 | the same for the numbering in which the first dimension runs fastest |
| Shapes.ColumnRankOfUnrank | extern/pybind11/include/pybind11/numpy.h:773-780 | every position is reached in that numbering |
| Shapes.OffsetSteps | extern/pybind11/include/pybind11/numpy.h:303-307 | the zero index has offset 0 and each step along an axis moves the offset by its stride: offsets are the index-dot-stride sums |
| ArrayStrides.ComputeCStrides | extern/pybind11/include/pybind11/numpy.h:763-771 | the in-place loop computes item size times the product of the later extents |
| ArrayStrides.ComputeFStrides | extern/pybind11/include/pybind11/numpy.h:773-780 | the in-place loop computes item size times the product of the earlier extents |
| ArrayStrides.FStridesAt | extern/pybind11/include/pybind11/numpy.h:773-780 | each Fortran stride is item size times the product of the earlier extents |
| ArrayStrides.RowOffset | extern/pybind11/include/pybind11/numpy.h:303-307 | the recursive index-dot-stride sum over C strides is item size times row-major rank |
| ArrayStrides.ColumnOffset | extern/pybind11/include/pybind11/numpy.h:773-780 | with Fortran strides the byte offset is item size times column-major rank |
| ArrayStrides.CStridesDense | extern/pybind11/include/pybind11/numpy.h:763-771 | C strides map in-bounds indices one-to-one onto the item slots of [0, nbytes) |
| ArrayStrides.FStridesDense | extern/pybind11/include/pybind11/numpy.h:773-780 | Fortran strides do so too |
| Buffers.OwnIndex | extern/pybind11/include/pybind11/numpy.h:1310-1333 | a buffer is read at an index within its own bounds that keeps the result's coordinates on every axis that is not stretched |
| Buffers.BroadcastOffset | extern/pybind11/include/pybind11/numpy.h:1310-1333 | walking the result shape with 0 strides on stretched axes visits the buffer's own elements |
| StridedIteration.ComputeCarryStrides | extern/pybind11/include/pybind11/numpy.h:1248-1256 | the right-to-left recurrence computes the closed form: own stride minus the rewind of all later dimensions |
| StridedIteration.CarryRecurrence | extern/pybind11/include/pybind11/numpy.h:1254 | the closed form obeys the recurrence of the code |
| StridedIteration.CarryStep | extern/pybind11/include/pybind11/numpy.h:1289-1300 | carrying at dimension j raises the rank by one and moves the offset by that dimension's carry stride |
| StridedIteration.Successor | extern/pybind11/include/pybind11/numpy.h:1289-1300 | a carry inside the shape reaches the next position, which is still in range |
| StridedIteration.InitCommonIterator | extern/pybind11/include/pybind11/numpy.h:1310-1333 | fills the shared scratch strides completely, whatever an earlier buffer left in them |
| StridedIteration.MultiArrayIterator.constructor | extern/pybind11/include/pybind11/numpy.h:1275-1287 | starts at position 0 with every pointer at its buffer's base |
| StridedIteration.MultiArrayIterator.Next | extern/pybind11/include/pybind11/numpy.h:1289-1300 | one step to the next position with all pointers in lock step; at the end the index wraps to zero |
| StridedIteration.MultiArrayIterator.IncrementCommonIterators | extern/pybind11/include/pybind11/numpy.h:1335-1338 | every pointer follows a carry of the index to the new index |
| StridedIteration.MultiArrayIterator.AtPosition | extern/pybind11/include/pybind11/numpy.h:1271-1343 | after k increments the index is the mixed-radix form of k and every pointer is base plus index dot stride |
| Broadcasting.BroadcastBuffers | extern/pybind11/include/pybind11/numpy.h:1351-1422 | fails iff two extents other than 1 clash on an axis; otherwise the broadcast shape and the storage class of all buffers |
| Broadcasting.MergeExtents | extern/pybind11/include/pybind11/numpy.h:1363-1374 | merging one more buffer keeps each axis at the common extent, or finds a clash |
| Broadcasting.CContiguous | extern/pybind11/include/pybind11/numpy.h:1391-1402 | the stride scan accepts exactly the C strides |
| Broadcasting.FContiguous | extern/pybind11/include/pybind11/numpy.h:1404-1415 | the stride scan accepts exactly the Fortran strides |
| Broadcasting.Classify | extern/pybind11/include/pybind11/numpy.h:1377-1421 | C exactly if all buffers are singletons or full-size with C strides, else Fortran exactly if so with Fortran strides, else neither; early exits change nothing |
| Broadcasting.BroadcastShapeUnique | extern/pybind11/include/pybind11/numpy.h:1357-1375 | shape and storage class do not depend on the order of the buffers |
| Broadcasting.CompatibleAnyOrder | extern/pybind11/include/pybind11/numpy.h:1372-1373 | neither does failure |
| Broadcasting.ConformsToBroadcastShape | extern/pybind11/include/pybind11/numpy.h:1360-1375 | every input axis has extent 1 or the extent of the result |
| Vectorize.ApplyTrivial | extern/pybind11/include/pybind11/numpy.h:1512-1533 | item k is f at the k-th addresses of a linear walk by the sizes of the parameter types, in which singletons stand still |
| Vectorize.CLinearAddress | extern/pybind11/include/pybind11/numpy.h:1519-1532 | for C-ordered or singleton buffers the linear walk visits the elements in row-major order |
| Vectorize.FLinearAddress | extern/pybind11/include/pybind11/numpy.h:1519-1532 | for Fortran-ordered or singleton buffers it visits them in column-major order |
| Vectorize.ApplyBroadcast | extern/pybind11/include/pybind11/numpy.h:1535-1552 | the odometer path writes f of the broadcast elements in row-major order |
| Vectorize.RowItemsHold | extern/pybind11/include/pybind11/numpy.h:1497-1509 | reading a C-strided result at an index finds the item written for that index |
| Vectorize.ColumnItemsHold | extern/pybind11/include/pybind11/numpy.h:1497-1509 | reading a Fortran-strided result does so too |
| Vectorize.Run | extern/pybind11/include/pybind11/numpy.h:1470-1510 | fails iff extents clash, is scalar iff all arguments are; otherwise each index holds f of the broadcast elements, on either path, in Fortran order iff only that is linear, else in C order |
| Vectorize.ArgumentRead | extern/pybind11/include/pybind11/numpy.h:1535-1552 | each argument is read at base plus own index dot own strides, for an own index as above |
| Vectorize.MatrixAndVector | extern/pybind11/include/pybind11/numpy.h:1535-1552 | the addresses read for row i and column j when a vector of 3 meets a 2 by 3 matrix |
| ChannelLoadReceiver.VanetRx.constructor | src/artery/inet/VanetRx.cc:23-36 | starts with a full window of idle samples |
| ChannelLoadReceiver.VanetRx.RecomputeMediumFree | src/artery/inet/VanetRx.cc:48-59 | records the elapsed whole symbols under the old medium state, and nothing below one symbol |
| ChannelLoadReceiver.VanetRx.ReportChannelLoad | src/artery/inet/VanetRx.cc:61-95 | exact busy count of the deque's newest 12500 samples, ratio in [0,1], the longest whole-run prefix below the window kept and a one-sided error against the true history while nothing overflowed; otherwise what the wrapped counters make of it, and only runs the scan gets past stay |
| ChannelLoadScan.ScanExact | src/artery/inet/VanetRx.cc:67-90 | without counter overflow the scan counts exactly the busy samples among the newest 12500 |
| ChannelLoadScan.ScanKeeps | src/artery/inet/VanetRx.cc:80-88 | and keeps the longest prefix of whole runs that stays below the window |
| ChannelLoadScan.ScanPast | src/artery/inet/VanetRx.cc:69-85 | what the 32-bit counters are behind a run of any true length, and where the scan ends |
| ChannelLoadScan.ClosingRunExact | src/artery/inet/VanetRx.cc:53-88 | a report whose window a run fills up is right, whatever the last report left behind, iff the 32-bit sample counter ends up full |
| ChannelLoadScan.ReportLeaves | src/artery/inet/VanetRx.cc:86-89 | whatever the deque is like, a report leaves runs of less than 2^32 that its own scan gets past again |
| ChannelLoadScan.InRangeIff | src/artery/inet/VanetRx.cc:73-93 | its ratio stays within 1, whatever the last report left behind a run, iff the sample counter is full behind that run, or lacks one sample while the busy counter is below the window |
| ChannelLoadReceiver.VanetRx.ReportInRange | src/artery/inet/VanetRx.cc:61-95 | so it does for a receiver whose deque ends in what the last report left |
| ChannelLoadReceiver.OverflowRun | src/artery/inet/VanetRx.cc:38-95 | a run of the receiver, with a report every 100 ms, that ends in a ratio above 1 |
| ChannelLoadReceiver.StuckRun | src/artery/inet/VanetRx.cc:38-95 | the runs survive that report, and after 9.5 more idle hours the receiver still reports 12501 busy samples where there are none |
| ChannelLoadScan.ReportError | src/artery/inet/VanetRx.cc:86-93 | the samples a cut-back deque misses of the window are the whole reporting error |
| ChannelLoadScan.ReportFacts | src/artery/inet/VanetRx.cc:61-95 | count, kept runs and error of a report on a deque whose runs fit the counters |
| ChannelLoadScan.ReportRightIff | src/artery/inet/VanetRx.cc:86-93 | with runs that fit the counters, a report is right whatever happened before the known runs iff these fill the window |
| ChannelLoadReceiver.UndercountRun | src/artery/inet/VanetRx.cc:86-93 | a run of the receiver in which a report finds none of 12400 busy samples, because the report before forgot them |
| ChannelLoadReceiver.FullyBusy | src/artery/inet/VanetRx.cc:61-95 | a medium that is busy for 100 ms is reported with ratio 1 |
| ChannelLoadReceiver.DequeCut | src/artery/inet/VanetRx.cc:88 | what a report keeps is still the newest part of the history, in fewer than 12500 runs |
| ChannelLoadReceiver.DequePush | src/artery/inet/VanetRx.cc:52-56 | pushing a run of at least one symbol keeps the deque the newest part of the history, with at most one run per symbol since the last report |
| ChannelLoadReceiver.VanetRx.DequeBound | src/artery/inet/VanetRx.cc:30-42 | with a report every 100 ms the deque never exceeds 25000 entries |
| ChannelSamples.WindowsAgree | src/artery/nic/ChannelLoadMeasurements.cc:41-47 | a history behind an idle window and a ring that started empty have equally many busy samples in their windows |
| ChannelSamples.WindowLasts | src/artery/inet/VanetRx.cc:23-36 | the window of 12500 symbols lasts 100 ms |
| ChannelLoadRing.ChannelLoadMeasurements.Reset | src/artery/nic/ChannelLoadMeasurements.cc:10-15 | forgets all samples |
| ChannelLoadRing.ChannelLoadMeasurements.Fill | src/artery/nic/ChannelLoadMeasurements.cc:27-39 | appends the elapsed whole symbols; the ring stays the newest 12500 samples of everything recorded |
| ChannelLoadRing.ChannelLoadMeasurements.Busy | src/artery/nic/ChannelLoadMeasurements.cc:17-20 | the elapsed time counts under the old state, then the medium is busy |
| ChannelLoadRing.ChannelLoadMeasurements.Idle | src/artery/nic/ChannelLoadMeasurements.cc:22-25 | the elapsed time counts under the old state, then the medium is idle |
| ChannelLoadRing.ChannelLoadMeasurements.ChannelLoad | src/artery/nic/ChannelLoadMeasurements.cc:41-47 | share of busy samples among the newest 12500, in [0,1] |
| ChannelLoadRing.FullyLoaded | src/artery/nic/ChannelLoadMeasurements.cc:41-47 | a medium that is busy for 100 ms gives load 1, from any start time |
| ChannelLoadAgreement.SameSamplesKept | src/artery/inet/VanetRx.cc:53-54 | recording the same samples keeps both meters in step |
| ChannelLoadAgreement.MetersAgree | src/artery/inet/VanetRx.cc:61-95 | fed the same samples, a receiver that has not reported yet counts what the ring counts |
| ChannelLoadAgreement.SameStreamIffRestsFit | src/artery/inet/VanetRx.cc:51-56 | the meters record the same samples of one medium iff the rest of each gap and the burst of shorter gaps before it stay below one symbol |
| ChannelLoadAgreement.FeedBoth | src/artery/nic/ChannelLoadMeasurements.cc:27-39 | both meters driven by the same switches record their streams, and agree on the load under that condition |
| ChannelLoadAgreement.HalfSymbolsDiffer | src/artery/nic/ChannelLoadMeasurements.cc:30-38 | two switches half a symbol apart that only the receiver records |
| VehicleFilters.HeadingNormalised | src/artery/application/VehicleDataProvider.cc:54-67 | the heading is in [0, 2 pi), congruent to a quarter turn minus the mobility angle |
| VehicleFilters.HeadingPeriodic | src/artery/application/VehicleDataProvider.cc:61-62 | angles that differ by whole turns have the same heading |
| VehicleFilters.ShortestRotation | src/artery/application/VehicleDataProvider.cc:157-163 | the wrapped difference is within [-pi, pi], congruent to the raw one, and the smallest such rotation |
| VehicleFilters.PoleForm | src/artery/application/VehicleDataProvider.cc:105-109 | the recurrence written with its double pole 1 / (1 + omega t) |
| VehicleFilters.Cascade | src/artery/application/VehicleDataProvider.cc:105-109 | the filter is two one-pole stages in series through a hidden value |
| VehicleFilters.StepStaysInBand | src/artery/application/VehicleDataProvider.cc:105-110 | one step keeps outputs and hidden value within a bound that covers the raw input |
| VehicleFilters.SeedsInBand | src/artery/application/VehicleDataProvider.cc:100-103 | raw values used as seeds cost a factor of (1 + r) / (1 - r) at most |
| VehicleFilters.SeedBoundReached | src/artery/application/VehicleDataProvider.cc:100-103 | seeds of opposite sign start the hidden stage exactly at that factor |
| VehicleFilters.SelfSeededBounded | src/artery/application/VehicleDataProvider.cc:100-110 | on runs of any length, if all raw values stay within m, every stored output stays within m (1 + r) / (1 - r) |
| VehicleFilters.ZeroSeededBounded | src/artery/application/VehicleDataProvider.cc:123-137 | started from zeros, every output stays within m itself |
| VehicleFilters.Overshoot | src/artery/application/VehicleDataProvider.cc:100-110 | with raw seeds an output may exceed all raw values |
| VehicleFilters.UnitGain | src/artery/application/VehicleDataProvider.cc:105-109 | a constant input is a fixed point |
| VehicleData.PublishedSign | src/artery/application/VehicleDataProvider.cc:112-118 | what is published for every filter output: 0 below 1/2500, the output itself up to 1, and +1 above; the sign is right iff the output is at least -1 |
| VehicleData.LookupFinds | src/artery/application/VehicleDataProvider.cc:184-191 | the lookup ends at a table entry, so it never throws |
| VehicleData.LookupAntitone | src/artery/application/VehicleDataProvider.cc:39-52 | more angular acceleration never means more confidence, which stays in [0, 1] |
| VehicleData.ConfidenceIntervals | src/artery/application/VehicleDataProvider.cc:39-52 | which confidence belongs to which interval of angular acceleration, in degrees per second squared: 1.0 iff not above 0, ..., 0.0 iff above 20 |
| VehicleData.ConfidenceIsFilteredDerivative | src/artery/application/VehicleDataProvider.cc:132-136 | the confidence filter is the same low-pass applied to the difference quotient of the yaw rate |
| VehicleData.VehicleDataProvider.constructor | src/artery/application/VehicleDataProvider.cc:73-82 | zero-seeded confidence filter, empty curvature filter, last update at the end of time |
| VehicleData.VehicleDataProvider.CurvatureWithin | src/artery/application/VehicleDataProvider.cc:84-121 | after any number of updates the stored curvatures stay within the band that the raw ones of the whole run determine |
| VehicleData.VehicleDataProvider.AccelerationWithin | src/artery/application/VehicleDataProvider.cc:123-140 | the stored angular accelerations stay within the largest change of the yaw rate of the whole run |
| VehicleData.VehicleDataProvider.CalculateCurvature | src/artery/application/VehicleDataProvider.cc:84-121 | below 1 m/s straight and nothing stored; two seeds; then the filter of 0.33 Hz at 0.1 s, published as 0 below 1/2500, as it is up to 1, as 1 above; outputs remain a function of all raw values so far |
| VehicleData.VehicleDataProvider.CalculateCurvatureConfidence | src/artery/application/VehicleDataProvider.cc:123-140 | filters the yaw rate change and looks the result up in the table, never throwing; the outputs remain a function of all changes so far |
| VehicleData.ConfidenceFiltered | src/artery/application/VehicleDataProvider.cc:123-139 | the confidence filter of 1 Hz at 100 s takes the change of the yaw rate, and the table decides by its magnitude |
| VehicleData.VehicleDataProvider.MeasureYawRate | src/artery/application/VehicleDataProvider.cc:157-165 | yaw rate of the shorter rotation, within the limit |
| VehicleData.VehicleDataProvider.Measure | src/artery/application/VehicleDataProvider.cc:151-170 | speed and heading as reported; yaw rate and acceleration are the differences to the last report over the elapsed time, if there was one |
| VehicleData.VehicleDataProvider.Update | src/artery/application/VehicleDataProvider.cc:142-182 | first, repeated and ordinary updates; a repeated one changes nothing, the others enter the history of raw values and publish the curvature as above |
| VehicleData.RightTurnPublishedLeft | src/artery/application/VehicleDataProvider.cc:112-118 | a run of the provider that publishes +1 for an output of -2 |
| VehicleData.WideTurnPublished | src/artery/application/VehicleDataProvider.cc:84-121 | a run of the provider on a left turn of 50 m radius publishes 0.02 |
| VehicleData.StraightIsConfident | src/artery/application/VehicleDataProvider.cc:123-142 | a run of the provider straight ahead publishes confidence 1.0 |
| VehicleData.RatesMeasured | src/artery/application/VehicleDataProvider.cc:147-165 | yaw rate and acceleration times the elapsed seconds are the differences |
| VehicleData.RestCutOff | src/artery/application/VehicleDataProvider.cc:147-149 | elapsed time counts in whole milliseconds, rounded towards zero |
| TypeBases.AppendNew | extern/pybind11/include/pybind11/cast.h:108-117 | appends exactly the infos not yet there, without duplicates |
| TypeBases.ExpansionShrinks | extern/pybind11/include/pybind11/cast.h:119-131 | replacing a class by its bases lowers the number of paths still to be followed by one |
| TypeBases.Enlist | extern/pybind11/include/pybind11/cast.h:119-131 | the bases go to the end, in the place of the current class if that was the last one |
| TypeBases.AllTypeInfoPopulate | extern/pybind11/include/pybind11/cast.h:90-133 | terminates on acyclic hierarchies with exactly the infos cached for classes reached through uncached ones, without duplicates |
| TypeBases.CachedInfoIsRoot | extern/pybind11/include/pybind11/cast.h:102-118 | what cached answers contribute are genuine registered roots |
| TypeBases.RootIsCached | extern/pybind11/include/pybind11/cast.h:102-118 | every registered root is found, at the latest where its path meets a cached class |
| TypeBases.OwnEntryUnused | extern/pybind11/include/pybind11/cast.h:145-149 | the fresh empty entry of a class is not consulted while it is being filled |
| TypeBases.Internals.AllTypeInfo | extern/pybind11/include/pybind11/cast.h:135-152 | answers exactly the registered roots of the current hierarchy, in whatever order classes are asked for; the cache stays consistent |
| TypeBases.SameRoots | extern/pybind11/include/pybind11/cast.h:135-152 | a class from which nothing derives changes the roots of no other class |
| TypeBases.Internals.DefineClass | extern/pybind11/include/pybind11/pybind11.h:918 | creating and registering a class keeps all cached answers right |
| TypeBases.Internals.DestroyClass | extern/pybind11/include/pybind11/pybind11.h:1500-1505 | so does destroying one; a cached answer is evicted with it, the entry of a registered class stays behind |
| TraciCache.VariableCache.Get | src/traci/VariableCache.h:31-61 | a hit returns what is stored, a miss what the server says about this very variable, fetched at most once per reset, so all readers see the same value |
| TraciCache.CheckTimeSync | src/traci/CheckTimeSync.cc:9-14 | whether SUMO's clock is within a hundredth of a step of the simulation time; the cache hands out the same values afterwards |
| TraciCache.VariableCache.Reset | src/traci/VariableCache.cc:17-20 | drops everything and takes the new values |
| TraciSubscription.UnionMembers | src/traci/BasicSubscriptionManager.cc:92 | the merged list has exactly the members of both lists |
| TraciSubscription.UnionSorted | src/traci/BasicSubscriptionManager.cc:92-94 | it stays strictly sorted and does not get shorter, so the assertion holds |
| TraciSubscription.SameSizeSameList | src/traci/BasicSubscriptionManager.cc:96 | comparing sizes detects every change of the list |
| TraciSubscription.BasicSubscriptionManager.TraciInit | src/traci/BasicSubscriptionManager.cc:41-57 | subscribes the simulation variables and all running vehicles |
| TraciSubscription.BasicSubscriptionManager.SubscribeVehicle | src/traci/BasicSubscriptionManager.cc:67-73 | the vehicle joins with the current list; no other subscription changes |
| TraciSubscription.BasicSubscriptionManager.UnsubscribeVehicle | src/traci/BasicSubscriptionManager.cc:75-82 | the vehicle leaves, the others stay in sync |
| TraciSubscription.BasicSubscriptionManager.SubscribeVehicleVariables | src/traci/BasicSubscriptionManager.cc:89-101 | the list is the union of all requests so far, and every subscribed vehicle's server-side subscription equals it |
| TraciSubscription.BasicSubscriptionManager.SubscribeSimulationVariables | src/traci/BasicSubscriptionManager.cc:103-113 | the same for the variables of the simulation |
| TraciSubscription.BasicSubscriptionManager.Step | src/traci/BasicSubscriptionManager.cc:115-136 | unless the clocks are apart: the simulation cache is reset, the lists it hands out leave and join, and every subscribed vehicle has a cache with this step's results |
| TraciSubscription.BasicSubscriptionManager.GetVehicleCache | src/traci/BasicSubscriptionManager.cc:138-145 | one cache per vehicle, created on first use and never replaced |
| TraciNodes.EnqueueValid | src/traci/InsertionDelayNodeManager.cc:58 | queueing keeps the order by time and each vehicle at most once |
| TraciNodes.EnqueuePlace | src/traci/InsertionDelayNodeManager.cc:58 | a new entry goes behind all of its own time: equal times stay in order of arrival |
| TraciNodes.DequeueValid | src/traci/InsertionDelayNodeManager.cc:78 | so does taking a vehicle out |
| TraciNodes.DequeuePlace | src/traci/InsertionDelayNodeManager.cc:78 | the other entries keep their order |
| TraciNodes.LogEnqueue | src/traci/InsertionDelayNodeManager.cc:54-61 | a queued vehicle waits for departure plus delay; waiting, inserted and gone vehicles stay apart |
| TraciNodes.LogDequeue | src/traci/InsertionDelayNodeManager.cc:78 | a vehicle removed while waiting is gone and never inserted |
| TraciNodes.LogFire | src/traci/InsertionDelayNodeManager.cc:29-36 | the first waiting vehicle comes in at its own due time |
| TraciNodes.NodeManager.InsertedOnTime | src/traci/InsertionDelayNodeManager.cc:26-61 | in every reachable state a vehicle not removed is inserted exactly at departure plus delay, or still waits and is not overdue |
| TraciNodes.NodeManager.TimePasses | src/traci/InsertionDelayNodeManager.cc:43-52 | time up to the scheduled event leaves nothing overdue |
| TraciNodes.NodeManager.BasicAddVehicle | src/traci/BasicNodeManager.cc:122-139 | a node and a sink that starts with the position, heading and speed asked of the server if the mapper equips the vehicle, a null sink otherwise |
| TraciNodes.NodeManager.DelayedAddVehicle | src/traci/InsertionDelayNodeManager.cc:54-61 | the vehicle waits in the queue and the event is set to the earliest time |
| TraciNodes.NodeManager.DirectAddVehicle | src/traci/BasicNodeManager.cc:122-139 | the vehicle is inserted on the spot; nodes remain exactly the vehicles with a sink |
| TraciNodes.NodeManager.ScheduleVehicleInsertion | src/traci/InsertionDelayNodeManager.cc:43-52 | event scheduled iff the queue is non-empty, at its minimum; the assertion holds |
| TraciNodes.NodeManager.RemoveVehicle | src/traci/InsertionDelayNodeManager.cc:71-81 | a waiting vehicle leaves the queue, an inserted one loses node and sink, an unknown one is ignored |
| TraciNodes.NodeManager.DirectRemoveVehicle | src/traci/BasicNodeManager.cc:141-146 | node and sink are gone, all others stay |
| TraciNodes.NodeManager.BasicUpdateVehicle | src/traci/BasicNodeManager.cc:148-158 | the sink is told position, heading and speed, each from the vehicle's cache, or asked of the server where the cache has none |
| TraciNodes.NodeManager.UpdateVehicles | src/traci/BasicNodeManager.cc:106-110 | every vehicle with a sink gets exactly the position, heading and speed reported in this step, or asked for where not subscribed |
| TraciNodes.NodeManager.HandleInsertEvent | src/traci/InsertionDelayNodeManager.cc:26-41 | the event inserts the head of the queue at its due time and schedules the next one; queue and nodes stay disjoint |
| TraciNodes.NodeManager.TraciInit | src/traci/BasicNodeManager.cc:69-79 | takes up the running vehicles and requests its variables |
| TraciNodes.NodeManager.TraciStep | src/traci/BasicNodeManager.cc:81-113 | the second comparison of the clocks cannot fail; departures, arrivals and crashes as the simulation cache tells, then updates that read caches of this very step; staying vehicles keep their sinks, new ones have one iff equipped |
| TraciNodes.NodeManager.RemovedMembers | src/traci/BasicNodeManager.cc:92-104 | arrived vehicles are removed in any case, crashed ones only if so configured |
| TraciNodes.NodeManager.AnnouncedDue | src/traci/InsertionDelayNodeManager.cc:54-61 | a departed vehicle is due after its delay, or at once without delays |
| TraciNodes.NodeManager.TraciClose | src/traci/BasicNodeManager.cc:115-120 | all nodes are removed; the loop terminates |
| TraciSimulation.Core.constructor | src/traci/Core.cc:23-42 | the invariant holds initially |
| TraciSimulation.Core.Connect | src/traci/Core.cc:64-71 | after connection, in either order of the two listeners, both know exactly the running vehicles |
| TraciSimulation.Core.SimulationStep | src/traci/Core.cc:54-59 | a step with the clocks apart reaches no node; otherwise known vehicles stay a subset of subscribed ones, equal while nothing delays or crashes and no one departs and arrives at once; each sink gets this step's position, heading and speed |
| TraciSimulation.Core.InsertionFires | src/traci/InsertionDelayNodeManager.cc:26-41 | the fired vehicle is inserted exactly when due and told what its cache holds, the invariant is kept |
| TraciSimulation.Core.TimeAdvances | src/traci/InsertionDelayNodeManager.cc:43-52 | the invariant is kept while time passes up to the next event |
| TraciSimulation.Core.MoreVehicleVariables | src/traci/BasicSubscriptionManager.cc:89-101 | later requests keep the invariant |
| TaiTimer.NearestIsClose | src/artery/application/Timer.cc:38-53 | the reconstructed time has the given low 16 bits and is within 0x8000 of now, within 0x7fff unless antipodal |
| TaiTimer.NearestByBranches | src/artery/application/Timer.cc:40-50 | the three branches pick the time nearest to now with the given low 16 bits |
| TaiTimer.Reconstruct | src/artery/application/Timer.cc:41-50 | they do so in 64-bit unsigned arithmetic, and the assertions hold iff the stamp is not antipodal |
| TaiTimer.RoundTrip | src/artery/application/Timer.cc:38-53 | truncating a time within 0x7fff of now to 16 bits and reconstructing it gives it back |
| TaiTimer.Timer.ReconstructMilliseconds | src/artery/application/Timer.cc:38-53 | the nearest such time, despite 64-bit wrap-around; the assertions hold iff the stamp is not antipodal |
| Awareness.AgeSeen | src/artery/application/Timer.cc:38-53 | a receiver sees the age of data modulo 65.536 s, as the representative nearest to zero |
| Awareness.AcceptedExactly | src/artery/application/LocalDynamicMap.cc:20-28 | end to end, for data of any age: accepted iff the age modulo 65.536 s is within 1100 ms of a repetition |
| Awareness.ExpiryOfFresh | src/artery/application/LocalDynamicMap.cc:20-28 | data of less than half the repetition expires 1100 ms after the millisecond it stems from |
| Awareness.AcceptedIffAlive | src/artery/application/LocalDynamicMap.cc:20-28 | acceptance coincides with being within the lifetime iff the age is below 64.436 s or off the repetitions |
| Awareness.AliasedMessageAccepted | src/artery/application/CaService.cc:147 | data that is exactly 65.536 s old is accepted though its lifetime has long run out |
| Awareness.ReceiveOne | src/artery/application/Timer.cc:12-53 | a table of a station with any time base accepts its first message exactly under that condition |
| Awareness.LocalDynamicMap.UpdateAwareness | src/artery/application/LocalDynamicMap.cc:15-37 | accepted messages replace the station's entry, others change nothing |
| Awareness.LocalDynamicMap.DropExpired | src/artery/application/LocalDynamicMap.cc:39-49 | afterwards a station is in the table iff its last accepted CAM has not expired, and with that CAM |
| Awareness.LocalDynamicMap.CountMatching | src/artery/application/LocalDynamicMap.cc:51-58 | number of stations whose CAM satisfies the predicate |
| CamGeneration.SpacedPairs | src/artery/application/CaService.cc:111-114 | spacing of the log bounds every pair of consecutive messages |
| CamGeneration.FirstHasContainer | src/artery/application/CaService.cc:67-68 | the first CAM carries the low-frequency container |
| CamGeneration.ContainerRecent | src/artery/application/CaService.cc:154-157 | a CAM without the container follows one that had it by less than 500 ms |
| CamGeneration.ContainerExactly | src/artery/application/CaService.cc:154-157 | a CAM has the container iff no earlier one had it within the last 500 ms |
| CamGeneration.LowDynamicsCount | src/artery/application/CaService.cc:116-126 | the counter's history value is the number of low-dynamics CAMs that no dynamics CAM has followed |
| CamGeneration.ThreeInARow | src/artery/application/CaService.cc:120-125 | three low-dynamics CAMs in a row reach the limit |
| CamGeneration.CaService.Decide | src/artery/application/CaService.cc:110-120 | when a CAM is due and why, for every delay congestion control may report |
| CamGeneration.CaService.constructor | src/artery/application/CaService.cc:47-81 | initial time stamps, interval limits and interval |
| CamGeneration.CaService.CheckTriggeringConditions | src/artery/application/CaService.cc:105-128 | a CAM is sent iff the reported delay, clamped to the limits, has passed and there is a cause; which cause, and the interval it leaves; all timing rules are kept |
| CamGeneration.CaService.SendCam | src/artery/application/CaService.cc:145-157 | the container is there iff 500 ms have passed since it was last sent |
| CamGeneration.CaService.Generate | src/artery/application/CaService.cc:116-126 | interval and low-dynamics counter after a CAM; three low-dynamics CAMs without a dynamics one force the maximum interval |
| CamGeneration.TimelySent | src/artery/application/CaService.cc:114-122 | a trigger that sends keeps the spacing and leaves nothing overdue |
| CamGeneration.CaService.WholeRun | src/artery/application/CaService.cc:105-128 | on every run, for any limits, consecutive CAMs are at least the delay reported for the later one, clamped to the limits, apart, and less than the largest limit plus one trigger period; containers come exactly every 500 ms at the earliest; three low-dynamics CAMs in a row leave the maximum interval |
| EnvironmentTracking.TapAllEntries | src/artery/envmod/LocalEnvironmentModel.cc:68-79 | a detection taps each detected object once, however often it is listed, and no other |
| EnvironmentTracking.TapAllRefreshes | src/artery/envmod/LocalEnvironmentModel.cc:157-177 | detected objects keep their first time and get the last one, all other entries stay |
| EnvironmentTracking.PruneSensors | src/artery/envmod/LocalEnvironmentModel.cc:142-155 | exactly the sensors whose latest detection is still valid stay |
| EnvironmentTracking.LocalEnvironmentModel.ComplementObjects | src/artery/envmod/LocalEnvironmentModel.cc:68-79 | the detections enter the history and the tracked objects; first detection times and all other entries stay |
| EnvironmentTracking.LocalEnvironmentModel.Tap | src/artery/envmod/LocalEnvironmentModel.cc:157-177 | starts tracking now, or moves only the last time and keeps the first; all other entries stay |
| EnvironmentTracking.LocalEnvironmentModel.EraseExpired | src/artery/envmod/LocalEnvironmentModel.cc:83-93 | the erase loop keeps exactly the existing objects that some sensor still sees |
| EnvironmentTracking.ErasedTracked | src/artery/envmod/LocalEnvironmentModel.cc:81-94 | erasing leaves exactly the live objects that some sensor's latest detection still covers |
| EnvironmentTracking.LocalEnvironmentModel.Update | src/artery/envmod/LocalEnvironmentModel.cc:81-94 | tracked iff the object exists and some sensor's latest detection in the whole history is still valid, by exactly those sensors |
| Sampling.SampleBuffer.Insert | src/artery/application/SampleBuffer.h:79-87 | newest first; what falls out is older than all that stays; not newer than the latest is an error that changes nothing |
| Sampling.SampleBuffer.NotBefore | src/artery/application/SampleBuffer.h:58-64 | the binary search returns exactly the samples strictly newer than the limit |
| Sampling.SampleBuffer.SetCapacity | src/artery/application/SampleBuffer.h:50 | shrinking drops the oldest samples: all that stay are newer |
| Sampling.DurationAtLeast | src/artery/application/SampleBuffer.h:40-47 | n samples at least an interval apart cover at least n - 1 intervals |
| Sampling.DurationSpans | src/artery/application/SampleBuffer.h:40-47 | the duration is the largest distance of two samples in the range |
| Sampling.SkipEarlySampler.SetDuration | src/artery/application/Sampling.h:32-36 | the capacity is the least that covers the duration |
| Sampling.SkipEarlySampler.SetInterval | src/artery/application/Sampling.h:40-47 | a different interval starts over with an empty buffer |
| Sampling.SkipEarlySampler.SetCapacity | src/artery/application/Sampling.h:62-69 | the capacity is the ceiling of duration over interval, zero without an interval |
| Sampling.SkipEarlySampler.Feed | src/artery/application/Sampling.h:100-106 | a sample is stored iff the interval has passed since the newest one; gaps stay at least the interval and the chronology error is unreachable |
| Storyboard.EffectStack.AddEffect | src/artery/storyboard/EffectStack.cc:10-16 | a new effect is applied on top, a known one changes nothing |
| Storyboard.EffectStack.Unwind | src/artery/storyboard/EffectStack.cc:23-31 | takes effects out of force from the top down to the wanted one, which leaves the stack |
| Storyboard.EffectStack.Replay | src/artery/storyboard/EffectStack.cc:32-38 | applies all effects again, or none, since the loop never counts |
| Storyboard.EffectStack.RemoveFromMiddle | src/artery/storyboard/EffectStack.cc:18-39 | removes one effect; the unwound ones are back in force only if it lay at the bottom |
| Storyboard.EffectStack.RemoveEffect | src/artery/storyboard/EffectStack.cc:41-52 | the effect leaves the stack wherever it was, the others keep their order |
| Storyboard.EffectStack.RemoveEffectsByStory | src/artery/storyboard/EffectStack.cc:54-68 | exactly the other effects remain in order; one of them loses its force exactly if a removed effect lay below it and an effect of another story below that one |
| Storyboard.AllInForceIff | src/artery/storyboard/EffectStack.cc:32-38 | hence all of them stay in force iff no removed effect lay between two of them |
| Storyboard.EffectStack.IsStoryOnStack | src/artery/storyboard/EffectStack.cc:70-78 | finds out whether the story has an effect on the stack |
| Storyboard.NextRemoved | src/artery/storyboard/EffectStack.cc:65-67 | what the removal of the story's next effect does to the stack and to the effects in force |
| Storyboard.OthersMembers | src/artery/storyboard/EffectStack.cc:54-68 | the remaining effects are exactly those of other stories |
| Storyboard.StackAfterStories | src/artery/storyboard/Storyboard.cc:158-176 | bringing one story in line leaves exactly as many of its effects as it has factories, or none, and all other stories as they are |
| Storyboard.SettleNext | src/artery/storyboard/Storyboard.cc:141-145 | settling one more story keeps the earlier ones settled |
| Storyboard.Board.StoryApplied | src/artery/storyboard/Storyboard.cc:192-200 | whether the car's stack has the story; a car without a stack has none |
| Storyboard.Board.AddEffects | src/artery/storyboard/Storyboard.cc:202-218 | as many new effects as the story has factories go on top, distinct, of this story and car and in force, the old stack stays below; the error occurs iff the story is there already |
| Storyboard.Board.RemoveStory | src/artery/storyboard/Storyboard.cc:220-223 | the car keeps exactly the effects of other stories, other cars are untouched |
| Storyboard.Board.CheckCar | src/artery/storyboard/Storyboard.cc:158-176 | one story on one car follows its condition: added with all its effects, kept, or removed without touching others, and never added twice |
| Storyboard.Board.UpdateStoryboard | src/artery/storyboard/Storyboard.cc:136-147 | afterwards a car's stack has exactly as many effects of a story as the story has factories if its condition has just held, and none otherwise; the error for adding twice is unreachable |

## Left out

- OMNeT++ module lifecycle, gates, signals, logging and drawing. Time is an integer parameter.
- The SUMO process and the TraCI socket. The server is a map of subscriptions plus the results it reports and its answers to queries, each of the variable's own type.
- Vanetza (GeoNetworking, DCC, ASN.1, security) and Boost.Geometry. The DCC delay, whether the rate control exists, and which dynamics thresholds are exceeded are inputs.
- Floating-point rounding: angles, filters and ratios are exact reals, pi is symbolic, there are no NaNs; quotients of simulation times are exact integer divisions.
- Overflow of signed sizes and strides in the NumPy code: sizes and addresses are unbounded integers. Arguments that are not vectorised are part of the function; array arguments have been converted to the parameter types before.
- TypeBases.Internals.DestroyClass: the identity of a destroyed registered class is not used again; assignment to the bases of an existing class is not modelled.
- TraciNodes.NodeManager: the virtual call from the base class is a flag that selects the delayed or the direct kind of manager.
- TraciNodes.NodeManager.TraciStep: departing vehicles are distinct and not currently known, and insertion delays are non-negative; duplicate insertions into the queue are not modelled.
- TraciNodes.NodeManager.BasicAddVehicle: the 32-bit node index does not wrap.
- TraciSubscription.BasicSubscriptionManager.SubscribeVehicle: errors that SUMO raises for unknown vehicles are not modelled.
- TaiTimer.Timer.ReconstructMilliseconds: for TAI times that are non-negative and at least half a stamp period below the end of the signed 64-bit range of microseconds.
- CamGeneration.CaService.WholeRun: the upper bound on gaps presumes punctual triggers; message contents are not modelled.
- Storyboard.EffectStack: what an effect restores when it is taken out of force, such as a speed; stacks of cars that have left stay behind and are not modelled further.
- StrictSampler, the interdistance matrix, filtering by sensor category, and the remaining parts of pybind11.
