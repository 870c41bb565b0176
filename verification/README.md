# Verified models of the vision pipeline

Dafny models of the parts of this repository where state and arithmetic live, with proofs of what those parts are
for. `dafny verify dfyconfig.toml` checks everything.

| files | system |
|---|---|
| `BoxGeometry`, `Assignment`, `Association`, `AssociationChoice`, `SortSpec`, `SortTracker`, `SortRuns`, `SortMotion`, `SortWellFormed` | the SORT tracker: boxes and overlap, the assignment shim, association and what it chooses, the tracker objects, whole runs, motion, and runs in which nothing degenerates |
| `FrameLock`, `DetectionFilter`, `FrameLockRuns` | the car detector's filter, its frame-lock count, and the settings for which that count is optimal |
| `Publisher`, `Pipeline` | telemetry delivery: the bounded drop-oldest queue, the batching HTTP fallback, and their composition |
| `Sparkline`, `SparklineRows`, `SparklineFeed` | the sliding 30-minute occupancy sparkline, the rows and minutes it shows, and the sparkline fed by the telemetry store |
| `SignalStability`, `SignalCounts`, `SignalDisplay`, `Sorting` | holding, expiring, counting and displaying live signals |
| `TelemetryStore`, `TelemetryRuns`, `TelemetrySteps` | the shared telemetry socket with its buffers and timers |
| `Text`, `HistoryUrl`, `HistoryLinks` | the history page's filters as a query string, and what its parameters mean |
| `MediaMtx`, `MediaMtxBlocks`, `MediaMtxRender`, `MediaMtxTwice`, `MediaMtxContents` | rewriting the MediaMTX configuration, and what it then says |
| `Common` | optional values and facts about sequences |

Code that changes fields, lists or maps is a class or a method here, proved against a function on values (`Frame`,
`Offer`, `ApplyFrame`, `Update`, ...); whole-run theorems are lemmas about those functions.

Conventions. Floats are reals; what floating point adds and the code reacts to is explicit (a quotient by zero, a
prediction that is not a number or infinite, an unparsable date). Milliseconds are integers. Code between two `await`
points, or one browser callback, is one step. `scipy.optimize.linear_sum_assignment` is an assumed function: a largest
matching of least total cost with ascending rows. The Kalman measurement update is an arbitrary function of the
tracker's identity, age, state and detection. `localeCompare`, class colours, date and number parsing and printing are
parameters.

On positive detections, with a measurement update that keeps area and ratio positive, nothing in the tracker degenerates:
no call raises, every prediction and every reported box is positive, and masking and popping leave row `j` to tracker
`j` (`SortWellFormed.NothingDegenerates`). Beyond such runs the last holds exactly while no prediction is infinite,
since the mask drops infinite rows and the pop only those that are not numbers (`SortRuns.RowsBelongToTrackers`).

Where a property fails, its exact condition is proved:

- Every coasted box is well formed exactly when the ratio is positive and the area is positive now or after one step
  (`BoxGeometry.CoastingStaysWellFormed`).
- A frame whose drawing raises is counted by the lock and lost to the caller. With a measurement update that keeps area
  and ratio positive, the counts returned are the greedy count on every run exactly when the size limits are not
  negative, or no confidence can pass the threshold, or no label is a car or a truck; the limits are unchecked
  environment integers, and with a negative one a single detection without extent is lost
  (`FrameLockRuns.CountsAreGreedyIff`, `FrameLockRuns.CarelessLosesACount`).
- After seeding, every continuation shows the peaks of all dated rows exactly when no row beyond the window counts
  anything: such rows are dropped for good (`Sparkline.SeedShowsAllRowsIff`).
- The displayed signal rows are independent of the order of the signals, and of how they are spread over cameras,
  exactly when no two classes present compare equal with equal counts; tied classes in two orders are the failing input
  (`SignalCounts.CountsIgnoreOrder`, `SignalCounts.AggregateIgnoresGrouping`, `SignalCounts.TiesShow`).
- Listeners of the store are told once per message and read the latest frame, so they see every frame of a camera
  exactly when no message carries two of them; the sparkline is such a listener (`TelemetryRuns.ListenersMissIff`,
  `SparklineFeed.BucketsShowWhatIsHeard`).
- The store keeps track of all its open connections exactly when no close report arrives for another socket than the
  one held; a concrete run leaves two connections open (`TelemetryRuns.OneConnectionUnlessLate`,
  `TelemetryRuns.LateReportLeavesTwoConnections`).
- An unused store always lets go of its socket exactly when the idle grace covers the reconnect delay, or it has no
  token (`TelemetryRuns.QuietIffGraceCoversReconnect`). The default grace does.
- The latest frame ends the ring buffer exactly when the capacity is at least one or nothing arrived
  (`TelemetryRuns.LatestEndsTheBuffer`).
- A list survives its comma join exactly when every item is nonempty, trimmed and free of commas, and a filter state
  survives its link exactly when it is in the link's normal form (`HistoryUrl.ListRoundTrip`, `HistoryUrl.RoundTripIff`).
- Replacing a list block twice equals replacing it once exactly when every line of every value stays an item
  (`MediaMtxTwice.ReplaceTwiceIff`, with a value of two lines in `ReplaceTwiceFails`); rendering twice equals rendering once exactly when that holds of all lists and the
  scalar's value is one line (`MediaMtxRender.RenderTwice`, `MediaMtxRender.RenderTwiceFails`). Normalizing an origin
  twice changes it exactly when taking its slashes away lays bare a space (`MediaMtx.NormalizeTwice`,
  `MediaMtx.NormalizeTwiceFails`).

Code against documentation. `Sort.update` asks to be called for every frame (`v1/sort.py:214`), but the detector calls
it only when there are detections (`v1/car_detection.py:101-102`), so a frame of the tracker is a call of `update`.
Frame indices restart at 0 whenever processing restarts (`v1/app.py:102`) while the detector keeps its lock, so the
optimality of the count is stated for a fresh detector and increasing indices.

## Model

| member | source | states |
|---|---|---|
| BoxGeometry.IouIsASimilarity | v1/sort.py:47-63 | on positive boxes overlap over union is symmetric, between 0 and 1, and 1 exactly for equal boxes |
| BoxGeometry.IouIsTheShare | v1/sort.py:47-63 | overlap over union times the area of the union is the area of the box that both share, 0 when they share none |
| BoxGeometry.OverlapBounds | v1/sort.py:54-60 | the common area is at most the smaller area and equals both areas exactly when the boxes coincide |
| BoxGeometry.BoxRoundTrip | v1/sort.py:66-91 | a positive box is recovered from the state its measurement starts, which has positive area and ratio |
| BoxGeometry.StateRoundTrip | v1/sort.py:66-91 | a state gives a positive box exactly when its area and ratio are positive, and measuring that box gives the state back |
| BoxGeometry.CoastingStaysWellFormed | v1/sort.py:133-145 | after any number of predictions the box is well formed exactly when the ratio is positive and the area is positive at the start or after one step |
| Assignment.LapJv | backend/src/lap.py:10-37 | row and column arrays are mutually inverse partial matchings holding exactly the solved pairs whose cost is at most the limit; the total is the sum of their costs; empty matrices give nothing |
| Assignment.UnlimitedTotalIsLeast | backend/src/lap.py:28-37 | without a limit the returned total is at most that of any largest matching |
| Assignment.KeptTotalIsLeast | backend/src/lap.py:28-37 | whatever the limit, no matching of the same rows with the same columns is cheaper than the pairs kept |
| Assignment.LinearAssignment | v1/sort.py:36-44 | with `lap` installed or not, the result is the solver's own pair sequence |
| Association.AssociateDetectionsToTrackers | v1/sort.py:154-196 | refines the association function, including no trackers, no detections, and a solver that refuses the matrix |
| Association.SplitMatched | v1/sort.py:174-194 | the three loops yield the kept matches, then the unmatched indices in ascending order followed by those of the low pairs |
| Association.AssociationPartitions | v1/sort.py:154-196 | every detection is in exactly one of matches and new detections, every tracker in exactly one of matches and lost trackers; matches reuse no index and none is below the threshold |
| Association.WhereComplete | v1/sort.py:168 | the stacked indices are exactly the pairs above the threshold |
| Association.WhereOrder | v1/sort.py:168 | the stacked indices come in row-major order |
| Association.ShortcutMeansMatching | v1/sort.py:166-168 | the guard on row and column sums holds exactly when the above-threshold pairs form a nonempty matching |
| Association.ShortcutContainsRivals | v1/sort.py:166-168 | under the guard the pairs taken are a matching that contains every matching of above-threshold pairs |
| Association.ShortcutSurvivesFilter | v1/sort.py:183-190 | the low-overlap filter removes none of the pairs the shortcut took |
| Association.ShortcutIsBest | v1/sort.py:166-168 | for a nonnegative threshold no matching of above-threshold pairs has a larger total overlap than the pairs taken |
| AssociationChoice.ShortcutIsClearCut | v1/sort.py:165-170 | the shortcut is taken exactly when the overlaps above the threshold are at least one and no two of them compete for a detection or a tracker |
| AssociationChoice.ClearCutChoice | v1/sort.py:165-190 | when no overlaps above the threshold compete, exactly they are matched |
| AssociationChoice.ContestedChoice | v1/sort.py:169-190 | otherwise some largest matching of greatest total overlap yields the matches: exactly its pairs whose overlap is at least the threshold |
| AssociationChoice.AnswersIff | v1/sort.py:165-170 | the association raises exactly when some overlap is not a number and the shortcut does not apply |
| SortTracker.KalmanBoxTracker.constructor | v1/sort.py:114-121 | a tracker starts at the measurement, at rest, with zero counters and the next id, which is used up |
| SortTracker.KalmanBoxTracker.Update | v1/sort.py:123-131 | the new value of every field after a hit |
| SortTracker.KalmanBoxTracker.Predict | v1/sort.py:133-145 | the new value of every field after a prediction, with the area guard, and the box returned |
| SortMotion.PredictedBox | v1/sort.py:133-145 | the predicted box is centred where the velocity carries the centre, has the area its velocity gives, or the old one when that would leave none, and keeps its ratio |
| SortMotion.BoxAfterMisses | v1/sort.py:133-145 | after any number of misses the box lies on the straight line of its velocity, its area changed for as long as that leaves one |
| SortMotion.NewTrackStays | v1/sort.py:99-121 | a new tracker shows its detection and, without a match, predicts it again and again |
| SortMotion.FrameMeasures | v1/sort.py:234-241 | after a call that answers, every matched tracker has the state measured once from its predicted state by its own detection, and every new detection a tracker at rest at it with the next id |
| SortTracker.Sort.Update | v1/sort.py:210-253 | one call leaves tracker list, frame count, id counter and result as one frame of the value model prescribes, also when the solver raises |
| SortTracker.Sort.PredictAll | v1/sort.py:221-229 | predicts every tracker once; the rows kept are the finite boxes, the positions noted those that are not numbers |
| SortTracker.PopsExactlyNan | v1/sort.py:230-231 | popping the noted positions backwards removes exactly the trackers whose prediction is not a number and keeps the others in order |
| SortTracker.Sort.PopAll | v1/sort.py:230-231 | the object list after the pops is the list of trackers with a prediction, in order |
| SortTracker.Sort.UpdateMatched | v1/sort.py:234-236 | exactly the matched trackers are updated, each with its detection |
| SortTracker.Sort.CreateTrackers | v1/sort.py:238-241 | one fresh tracker per unmatched detection, with consecutive ids, appended in order |
| SortTracker.Sort.ReportAndPrune | v1/sort.py:242-253 | walking backwards while popping removes exactly the trackers missed more than `max_age` times, keeps the others in order and reports the shown ones newest first |
| SortRuns.ExplainsStep | v1/sort.py:123-145 | a miss or a hit moves the counters as appending it to the match history does |
| SortRuns.CountersFollowHistory | v1/sort.py:114-145 | in every reachable state ids ascend along the list, and age, hits, time since update, streak and box history are functions of each tracker's match history since birth |
| SortRuns.SurvivesIff | v1/sort.py:225-250 | a tracker outlives a call exactly when its prediction is a number and, unless the solver raises, its trailing misses, this call included, are at most `max_age` |
| SortRuns.RemovedOnLastMiss | v1/sort.py:248-250 | a track with a valid prediction is removed exactly on a call that does not raise, on a miss after at least `max_age` misses in a row |
| SortRuns.MissesBounded | v1/sort.py:232-250 | in every reachable state no tracker has missed more than `max_age` calls, and one more for each call that raised since |
| SortRuns.ReportRows | v1/sort.py:243-252 | reported rows stem from shown trackers and their ids strictly descend |
| SortRuns.ReportedIff | v1/sort.py:243-252 | reported ids are distinct and descend; an id is reported exactly when its tracker was matched or born in this call and, past the first `min_hits` calls, those that raised counted, was matched in each of the last `min_hits` calls |
| SortRuns.OneFreshPerDetection | v1/sort.py:232-250 | after a call exactly one tracker per detection has a time since update of 0, and none when the solver raised |
| SortRuns.RowsBelongToTrackers | v1/sort.py:221-231 | after masking and popping, rows and trackers line up exactly when no prediction is infinite |
| SortWellFormed.FrameStaysWellFormed | v1/sort.py:210-253 | a call on positive detections with well-formed trackers drops nobody, does not raise, leaves well-formed trackers and reports positive boxes |
| SortWellFormed.RunStaysWellFormed | v1/sort.py:210-253 | in every state that positive detections reach, every tracker has positive area and ratio |
| SortWellFormed.NothingDegenerates | v1/sort.py:221-253 | on such runs every call answers, every reported box is positive, and rows and trackers line up |
| SortWellFormed.RemovedExactlyOnLastMiss | v1/sort.py:248-250 | on such runs a tracker never has more than `max_age` misses in a row and is removed exactly on the next one |
| SortWellFormed.OneFreshPerPositiveDetection | v1/sort.py:234-250 | on such runs exactly one tracker per detection has a time since update of 0 after each call |
| FrameLock.CountedAreSpaced | v1/car_detection.py:105-112 | counted frames are detection frames that passed the lock, in order, at least the lock period apart |
| FrameLock.GreedyCountIsOptimal | v1/car_detection.py:105-112 | no set of detection frames with that spacing is larger than the greedy one, which has it |
| FrameLock.DetectionsAreProper | v1/car_detection.py:70-92 | with nonnegative size limits the tracker only sees positive boxes inside the margins |
| DetectionFilter.ExactlyTheAccepted | v1/car_detection.py:70-92 | the tracker is handed exactly the confident cars and trucks inside the margins that exceed the size limits, in order, with every coordinate cut to a whole pixel toward zero |
| DetectionFilter.RaisesIff | v1/car_detection.py:70-74 | a label lookup raises exactly when a confident row has an index before the start of the label list |
| FrameLock.CarDetector.DetectAndTrack | v1/car_detection.py:41-131 | one call runs the tracker exactly on frames with detections, moves the lock exactly on unlocked frames the tracker answers, and returns the count, or 0 when something raises |
| FrameLockRuns.CarefulIsDrawn | v1/car_detection.py:70-124 | with size limits that are not negative, or nothing that can be detected as a car or a truck, every frame that passes the lock is drawn |
| FrameLockRuns.CarelessLosesACount | v1/car_detection.py:73-131 | otherwise a single shot, with a confidence between the threshold and 1, is counted by the lock and the caller is told nothing of it |
| FrameLockRuns.CountsAreGreedyIff | v1/car_detection.py:70-131 | the counts of a fresh detector add up to the greedy count on every run exactly when the size limits are not negative, no confidence can pass the threshold, or nothing is labelled a car or a truck |
| FrameLockRuns.CountIsLargestSpacedSet | v1/car_detection.py:101-112 | with such settings the count of a fresh detector over increasing indices is the size of a largest set of detection frames one lock period apart |
| Publisher.BufferedTelemetryPublisher.constructor | backend/src/argus/inference/publisher.py:107-117 | an open, empty publisher without a worker |
| Publisher.BufferedTelemetryPublisher.Publish | backend/src/argus/inference/publisher.py:119-135 | queue, worker, drop count and unfinished tasks after a publish: ignored when closed, otherwise a worker is ensured and a full queue gives up its oldest item |
| Publisher.BufferedTelemetryPublisher.PutNoWait | backend/src/argus/inference/publisher.py:123-125 | appends and counts a task when there is room, otherwise changes nothing and says so |
| Publisher.BufferedTelemetryPublisher.DropOldestPending | backend/src/argus/inference/publisher.py:174-181 | the oldest item goes and counts as done; only frames are counted as dropped |
| Publisher.BufferedTelemetryPublisher.DrainTake | backend/src/argus/inference/publisher.py:191-197 | the worker takes the oldest frame, or returns at a sentinel |
| Publisher.BufferedTelemetryPublisher.DrainFinish | backend/src/argus/inference/publisher.py:197-205 | answered, failed or timed out, the item counts as done and the worker goes on |
| Publisher.BufferedTelemetryPublisher.CancelWorker | backend/src/argus/inference/publisher.py:155-158 | a cancelled worker counts the item it had taken as done and takes no more |
| Publisher.BufferedTelemetryPublisher.CloseBegin | backend/src/argus/inference/publisher.py:137-138 | nothing but the flag changes, and from here on an offer changes nothing |
| Publisher.BufferedTelemetryPublisher.CloseAskWorker | backend/src/argus/inference/publisher.py:139-150 | the sentinel joins a queue with room, if a worker was ever started |
| Publisher.HttpPublisher.constructor | backend/src/argus/inference/publisher.py:239-249 | an empty buffer without a batch start |
| Publisher.HttpPublisher.Publish | backend/src/argus/inference/publisher.py:251-259 | the buffer is posted exactly when now minus the batch start, set now if unset, is at least the flush interval; it is emptied exactly when that post is acknowledged, and the call raises exactly when it fails |
| Publisher.HttpPublisher.Flush | backend/src/argus/inference/publisher.py:261-272 | posts the whole buffer and clears it exactly when the post is acknowledged |
| Publisher.BatchesAreNewest | backend/src/argus/inference/publisher.py:251-272 | published frames fall into consecutive chunks whose newest `max_buffer_size` frames are the acknowledged batches, the last chunk's being the buffer; without a bound nothing is left out |
| Publisher.BatchesEndTheirChunks | backend/src/argus/inference/publisher.py:251-272 | every batch is the end of its chunk, whole or of `max_buffer_size` frames, and so is the buffer of what came since |
| Publisher.BatchStartIsHistory | backend/src/argus/inference/publisher.py:251-272 | the batch start is the time of the first publish since the last acknowledged batch |
| Publisher.PostsWhenTheIntervalHasPassed | backend/src/argus/inference/publisher.py:251-272 | a publish posts exactly when that time is at least the flush interval ago, and what it posts is the newest part of all frames since |
| Pipeline.StepKeeps | backend/src/argus/inference/publisher.py:119-293 | every step of every party keeps the pipeline invariant |
| Pipeline.EveryRun | backend/src/argus/inference/publisher.py:119-293 | over every interleaving the queue is bounded, pending frames are the newest suffix of the accepted ones, sentinels come last and only after closing, unfinished tasks are queued plus in-flight items, drops are counted, and every sink sees frames in acceptance order |
| Pipeline.ExactlyOnePlace | backend/src/argus/inference/publisher.py:119-293 | every accepted frame is in exactly one place: evicted, pending, in flight, acknowledged, lost at the primary, trimmed, buffered, or in one acknowledged batch |
| Pipeline.EndsOfAPublish | backend/src/argus/inference/publisher.py:191-293 | a frame the primary acknowledged is done; one it refused ends the HTTP buffer, which is posted exactly when the interval has passed since its batch began; one cut short is lost, and only a cancellation leaves the worker cancelled |
| Pipeline.OpenPublisherEnqueues | backend/src/argus/inference/publisher.py:119-135 | on an open publisher an offered frame always ends the queue, a full queue gives up a frame and counts it: the second full-queue branch is dead |
| Pipeline.OpenHasWorker | backend/src/argus/inference/publisher.py:167-172 | after a publish on an open publisher a worker is there to drain it, also when the last one was cancelled |
| Pipeline.CleanCloseLeavesNothing | backend/src/argus/inference/publisher.py:137-165 | once the worker returned at the sentinel and the last post was acknowledged, no frame is pending, in flight or buffered |
| Pipeline.LostOnlyByInterruption | backend/src/argus/inference/publisher.py:213-225 | without timeouts and cancellations no frame is lost at the primary |
| Pipeline.CleanShutdown | backend/src/argus/inference/publisher.py:137-225 | after a close without timeout or cancellation, once the worker is done and the last post is acknowledged, every accepted frame was once evicted, acknowledged by the primary, trimmed, or posted in an acknowledged batch |
| Pipeline.CloseCanFinish | backend/src/argus/inference/publisher.py:137-205 | from every reachable state in which a close has begun and the worker is neither done nor cancelled, uninterrupted steps bring the sentinel into the queue and the worker to its return, losing no frame |
| Sparkline.FloorMinuteAligned | frontend/src/hooks/use-live-sparkline.ts:21-23 | the result is a whole minute: the last one not after the time, for times before the epoch the first one not before it |
| Sparkline.SetBucketPeaks | frontend/src/hooks/use-live-sparkline.ts:39-52 | the loop raises one bucket of every counted class, in any class order |
| Sparkline.ShiftBuckets | frontend/src/hooks/use-live-sparkline.ts:67-75 | every series slides and keeps its length of 30 |
| Sparkline.MergeOccupancySnapshot | frontend/src/hooks/use-live-sparkline.ts:54-65 | a snapshot outside the window changes nothing, one inside raises its bucket |
| Sparkline.ShiftsCompose | frontend/src/hooks/use-live-sparkline.ts:67-75 | shifting by `k` and then by `n` is shifting by `k + n` |
| Sparkline.MergeCommutesWithShift | frontend/src/hooks/use-live-sparkline.ts:54-75 | merging a snapshot no later than the window and then shifting reads the same as shifting and then merging, when counts are not negative; for any counts it reads as the larger of that and shifting alone |
| Sparkline.LiveSparkline.constructor | frontend/src/hooks/use-live-sparkline.ts:88-89 | an empty window ending at the current minute |
| Sparkline.LiveSparkline.Apply | frontend/src/hooks/use-live-sparkline.ts:156-172 | window and buckets after a frame, however early, late or undated |
| Sparkline.LiveSparkline.RollWindowForward | frontend/src/hooks/use-live-sparkline.ts:199-205 | the window moves to the current minute or stays |
| Sparkline.LiveSparkline.Seed | frontend/src/hooks/use-live-sparkline.ts:119-132 | the buckets are replaced by what the rows inside the window give |
| Sparkline.BucketsArePeaks | frontend/src/hooks/use-live-sparkline.ts:119-205 | after any seeding, frames in any order and minute ticks, bucket `i` of every class is the largest count received for its minute, 0 if none, and the window end is a whole minute |
| Sparkline.WindowNeverMovesBack | frontend/src/hooks/use-live-sparkline.ts:156-205 | over every run the window end never decreases |
| Sparkline.LateRowIsForgotten | frontend/src/hooks/use-live-sparkline.ts:121-131 | a seed row later than the window reads 0 when the window reaches its minute |
| Sparkline.SeedShowsAllRowsIff | frontend/src/hooks/use-live-sparkline.ts:119-205 | after seeding, every continuation by frames and ticks shows the peaks of all dated rows and frames exactly when no row beyond the window counts anything |
| SparklineRows.SeedNamesItsClasses | frontend/src/hooks/use-live-sparkline.ts:119-132 | seeding gives a row to the classes named and to those of rows inside the last 30 minutes or undated, and to no other |
| SparklineRows.FrameNamesItsClasses | frontend/src/hooks/use-live-sparkline.ts:156-172 | a frame adds rows for the classes it counts unless it is older than the window |
| SparklineRows.RowsStay | frontend/src/hooks/use-live-sparkline.ts:156-205 | a class keeps its row until the next seeding |
| SparklineRows.RowsInMinutes | frontend/src/hooks/use-live-sparkline.ts:119-205 | every row has 30 values, the last for the window's minute and each before it for a minute earlier, and each is the peak of its minute |
| SparklineRows.PeakIsLargest | frontend/src/hooks/use-live-sparkline.ts:44-51 | the peak is an upper bound of what was received for class and minute, and is received unless it is 0 |
| SparklineRows.FrameMinutes | frontend/src/hooks/use-live-sparkline.ts:21-23 | frames are filed under the last whole minute of 60000 ms, those before the epoch under the next |
| SparklineRows.RowMinutes | frontend/src/hooks/use-live-sparkline.ts:26-29 | seed rows are filed under the next whole minute |
| SparklineRows.WindowEnds | frontend/src/hooks/use-live-sparkline.ts:156-205 | the window ends at the latest of its old end and the whole minute of the frame or the clock |
| Sorting.SortByCorrect | frontend/src/lib/live-signal-stability.ts:114 | sorting by a strict weak order gives an ordered permutation |
| Sorting.SortByIsStable | frontend/src/lib/live-signal-stability.ts:114 | elements that compare equal keep their order |
| Sorting.TiedKeepOrder | frontend/src/lib/live-signal-stability.ts:114 | of two elements that compare equal one stands before the other exactly when it did before sorting |
| Sorting.StrictOrderUnique | frontend/src/lib/live-signal-stability.ts:144-149 | a strictly ordered list is determined by its elements |
| SignalStability.TrackKeyIsFaithful | frontend/src/lib/live-signal-stability.ts:41-45 | two tracks share a key exactly when class and identity agree, colons in class names included |
| SignalDisplay.SameKeyIff | frontend/src/lib/live-signal-stability.ts:41-45 | two tracks share a key exactly when class names are equal and so are the ids, the stable id standing for the own one where there is one |
| SignalStability.BeforeIsAnOrder | frontend/src/lib/live-signal-stability.ts:188-194 | the comparison of signals is a strict weak order |
| SignalStability.UpdateSignalTracks | frontend/src/lib/live-signal-stability.ts:47-115 | the two Map-filling loops and the sort compute the update function |
| SignalStability.FindFrame | frontend/src/lib/live-signal-stability.ts:67-85 | under each key the frame contributes its last permitted track, and keys stay unique |
| SignalStability.FindCarry | frontend/src/lib/live-signal-stability.ts:87-112 | a key the frame shows wins; any other carries over, live, held or not at all, by its age |
| SignalStability.UpdateByKey | frontend/src/lib/live-signal-stability.ts:47-115 | one update has unique keys, is in display order, and shows under each key what frame and previous entry dictate |
| SignalStability.FoldIsHistory | frontend/src/lib/live-signal-stability.ts:47-115 | after any ticks whose clock never goes back, the incremental list shows under every key exactly what the history of sightings says: track, state, age, last and first sighting |
| SignalStability.HistoryDeterminesTheList | frontend/src/lib/live-signal-stability.ts:47-115 | when no two signals shown compare equal, the whole list is the one ordered list that shows what the history says |
| SignalStability.HoldAndGrace | frontend/src/lib/live-signal-stability.ts:87-112 | with the grace within the hold, a key is listed exactly while its last sighting is at most the hold old, and live exactly while that sighting was not coasting and is current or, with no frame since, at most the grace old |
| SignalDisplay.NewKeyJoinsTheEnd | frontend/src/lib/live-signal-stability.ts:51-85 | a new key joins the end of the Map |
| SignalDisplay.KnownKeyKeepsItsPlace | frontend/src/lib/live-signal-stability.ts:51-85 | a known key keeps its place |
| SignalDisplay.RunsListOnlyAllowed | frontend/src/lib/live-signal-stability.ts:62-93 | after any ticks with a class filter, only classes of the filter are listed |
| SignalDisplay.OnlyAllowedAreListed | frontend/src/lib/live-signal-stability.ts:62-93 | one update lists classes of the filter alone, neither from the frame nor held from before |
| SignalDisplay.RunsListTheFrame | frontend/src/lib/live-signal-stability.ts:67-85 | after any ticks the last allowed track of the last frame under each key is listed, with its state, age, colour and first sighting |
| SignalDisplay.FrameTrackIsListed | frontend/src/lib/live-signal-stability.ts:67-85 | the same of one update, a live track being of age 0 and a coasting one of the age it says, at least 0 |
| SignalDisplay.UnseenIsKeptIff | frontend/src/lib/live-signal-stability.ts:87-112 | an entry whose key the frame does not show stays exactly when its class is allowed and its last sighting is within the hold or, live and without a frame, within the grace |
| SignalDisplay.NothingElseIsListed | frontend/src/lib/live-signal-stability.ts:67-112 | what is listed is a track of the frame seen now or an entry listed before |
| SignalDisplay.SignalsAreDisplayed | frontend/src/lib/live-signal-stability.ts:188-194 | live signals come before held ones, then class names ascend, then track ids |
| SignalCounts.DeriveSignalCounts | frontend/src/lib/live-signal-stability.ts:117-157 | the rows are the merge of the signals' unit rows and the totals are the sums of the rows |
| SignalCounts.DerivedCounts | frontend/src/lib/live-signal-stability.ts:117-157 | one row per class present, in display order, counting its live and held signals; live plus held totals equal the number of signals |
| SignalDisplay.RowsCountPlaces | frontend/src/lib/live-signal-stability.ts:117-143 | a row counts the places of the list that hold live and held signals of its class |
| SignalDisplay.RowsAreDisplayed | frontend/src/lib/live-signal-stability.ts:144-149 | rows with more live signals come first, then rows with more signals, then class names ascend |
| SignalDisplay.TiedRowsKeepAppearance | frontend/src/lib/live-signal-stability.ts:144-149 | rows that compare equal come in the order in which their classes first appear |
| SignalDisplay.RowHasFirstColor | frontend/src/lib/live-signal-stability.ts:122-130 | a row has the colour of the first signal of its class |
| SignalCounts.MergeConserves | frontend/src/lib/live-signal-stability.ts:117-157 | merging rows loses no count, neither of a class nor in total |
| SignalCounts.CountsIgnoreOrder | frontend/src/lib/live-signal-stability.ts:117-157 | with class-determined colours, every permutation of the signals gives the same rows exactly when no two classes present compare equal with equal live and total counts |
| SignalCounts.TiesShow | frontend/src/lib/live-signal-stability.ts:144-149 | signals of two tied classes can be brought into two orders whose rows differ |
| SignalCounts.AggregateCameras | frontend/src/pages/Live.tsx:121-155 | the nested loops over cameras compute the merge of all rows that count something |
| SignalDisplay.CountedIsASubsequence | frontend/src/pages/Live.tsx:121-155 | exactly the rows that count something are aggregated, in order |
| SignalCounts.AggregatingCamerasIsCountingAll | frontend/src/pages/Live.tsx:121-155 | without tied classes, aggregating the rows each camera shows gives the same sorted rows as counting all cameras' signals at once |
| SignalCounts.AggregateIgnoresGrouping | frontend/src/pages/Live.tsx:121-155 | the aggregate is the same for every way of spreading the signals over cameras exactly when no two classes are tied |
| TelemetryStore.Telemetry.constructor | frontend/src/stores/telemetry-store.ts:28-38 | nothing subscribed, buffered, open or pending |
| TelemetryStore.Telemetry.Open | frontend/src/stores/telemetry-store.ts:44-53 | a new socket exactly when none is held and there is a token |
| TelemetryStore.Telemetry.Close | frontend/src/stores/telemetry-store.ts:93-100 | the last reconnect is cleared, the held socket is told to close and let go |
| TelemetryStore.Telemetry.CancelIdle | frontend/src/stores/telemetry-store.ts:114-117 | the pending idle close is cleared |
| TelemetryStore.Telemetry.Subscribe | frontend/src/stores/telemetry-store.ts:113-120 | one more subscription, no idle close pending, and a socket opened when none is held |
| TelemetryStore.Telemetry.Unsubscribe | frontend/src/stores/telemetry-store.ts:121-129 | one subscription less, also for an unknown camera, and a fresh idle close when nobody is left |
| TelemetryStore.Telemetry.OnClose | frontend/src/stores/telemetry-store.ts:62-69 | any socket's close report lets go of the held one and schedules a reconnect while somebody is subscribed |
| TelemetryStore.Telemetry.OnMessage | frontend/src/stores/telemetry-store.ts:70-90 | frames of subscribed cameras become latest and join buffers cut to the capacity; others change nothing |
| TelemetryStore.Telemetry.OnIdle | frontend/src/stores/telemetry-store.ts:104-109 | closes when nobody is subscribed and forgets the timer |
| TelemetryStore.Telemetry.OnReconnect | frontend/src/stores/telemetry-store.ts:67 | opens unless a socket is held |
| TelemetryRuns.StepKeeps | frontend/src/stores/telemetry-store.ts:44-129 | every event keeps the store's invariant, whichever socket it comes from |
| TelemetryRuns.EveryRun | frontend/src/stores/telemetry-store.ts:44-129 | in every reachable state a subscribed camera with a token has a socket held or a reconnect pending, and a pending idle timer means no subscriber |
| TelemetrySteps.SocketsOpen | frontend/src/stores/telemetry-store.ts:44-53 | in every possible run a subscription and a reconnect leave a socket held whenever there is a token; one held already stays, and a new one is new |
| TelemetrySteps.UnsubscriptionWaits | frontend/src/stores/telemetry-store.ts:121-129 | an unsubscription touches no socket and starts one new idle timer, the only one, exactly when nobody is left |
| TelemetrySteps.CloseReportReconnects | frontend/src/stores/telemetry-store.ts:62-69 | a close report lets go of the socket held and schedules one new reconnect exactly when somebody subscribes |
| TelemetrySteps.IdleTimerCloses | frontend/src/stores/telemetry-store.ts:93-110 | the idle timer tells the socket held to close and takes back the last reconnect scheduled |
| TelemetrySteps.ConnectionIsCalled | frontend/src/stores/telemetry-store.ts:44-69 | the connection is called after the last report, or connecting when a socket was just opened |
| TelemetryRuns.ClosesOnlyUnused | frontend/src/stores/telemetry-store.ts:93-110 | the store closes a socket only when nobody is subscribed, and a firing idle timer always finds it so |
| TelemetryRuns.SubscribersAreCounted | frontend/src/stores/telemetry-store.ts:113-129 | the reference counts are those of the subscription history |
| TelemetryRuns.BufferIsTheNewestArrivals | frontend/src/stores/telemetry-store.ts:79-88 | a camera's buffer is the newest `capacity` frames that arrived while it was subscribed, its latest frame the last of them |
| TelemetrySteps.BufferEndsArrivals | frontend/src/stores/telemetry-store.ts:79-88 | the buffer is the end of what arrived, of all of it or as long as the capacity |
| TelemetryRuns.LatestEndsTheBuffer | frontend/src/stores/telemetry-store.ts:81-87 | the latest frame is the buffer's last exactly when the capacity is at least one or nothing arrived |
| TelemetryRuns.ListenersMissIff | frontend/src/stores/telemetry-store.ts:79-89 | a listener that reads the latest frame once per message sees every arrival exactly when no message carries two frames of the camera |
| SparklineFeed.FedWhatIsHeard | frontend/src/hooks/use-live-sparkline.ts:182-187 | over every run of the store the sparkline is given exactly the frames its listener hears |
| SparklineFeed.BucketsShowWhatIsHeard | frontend/src/hooks/use-live-sparkline.ts:156-205 | fed by the store, buckets are the peaks of the frames heard, which are all frames that arrived while the camera was subscribed when no message carries two of them |
| TelemetryRuns.OneConnectionUnlessLate | frontend/src/stores/telemetry-store.ts:62-69 | every open connection is the one held throughout a run exactly when no close report concerns another socket than the one held |
| TelemetryRuns.LateReportLeavesTwoConnections | frontend/src/stores/telemetry-store.ts:62-69 | a possible run that ends with two open connections |
| TelemetryRuns.LongGraceIsQuiet | frontend/src/stores/telemetry-store.ts:93-110 | with an idle grace of at least the reconnect delay, no subscriber and no idle timer means no socket and no reconnect |
| TelemetryRuns.ShortGraceIsNot | frontend/src/stores/telemetry-store.ts:66-68 | with a shorter grace a possible run ends with a socket nobody uses and no timer closes |
| TelemetryRuns.QuietIffGraceCoversReconnect | frontend/src/stores/telemetry-store.ts:66-110 | an unused store always lets go of its socket exactly when the grace covers the reconnect delay or there is no token |
| TelemetrySteps.GraceInMilliseconds | frontend/src/stores/telemetry-store.ts:66-110 | with a token, an unused store without a pending idle timer has neither socket nor pending reconnect in every possible run exactly when the grace is at least 1500 ms |
| HistoryUrl.Write | frontend/src/lib/history-url-state.ts:179-207 | the successive set calls give the present fields in order, each once |
| HistoryUrl.ListRoundTrip | frontend/src/lib/history-url-state.ts:105-111 | a joined list reads back with every item split and trimmed again, and as itself exactly when all items are clean |
| HistoryUrl.NamesReadBack | frontend/src/lib/history-url-state.ts:84-103 | granularities, metrics and windows read back from their names |
| HistoryUrl.ReadWritten | frontend/src/lib/history-url-state.ts:147-207 | reading what was written gives the normal form of the state at the reading clock |
| HistoryUrl.RoundTripIff | frontend/src/lib/history-url-state.ts:147-207 | a state survives write and read exactly when it is in that normal form, spelled out field by field |
| HistoryUrl.ReadIsWritable | frontend/src/lib/history-url-state.ts:147-177 | whatever the query, the state read can be written, its list items are clean and its threshold is not negative |
| HistoryUrl.RewritingIsStable | frontend/src/lib/history-url-state.ts:147-207 | for every query and any two clocks, writing, reading and writing again gives the same parameters |
| HistoryUrl.WindowEndsAtTheMinute | frontend/src/lib/history-url-state.ts:119-127 | the window has its duration and ends at the last local minute start; two clocks resolve it alike exactly when they show the same local minute |
| HistoryLinks.EmptyQuery | frontend/src/lib/history-url-state.ts:129-177 | an empty query is the 24 hours before the present local minute, following, by the hour, of everything |
| HistoryLinks.UnboundedQuery | frontend/src/lib/history-url-state.ts:147-177 | without bounds the window counts 15 minutes, an hour, a day or a week back, in milliseconds, and only `follow=0` stops following |
| HistoryLinks.BoundedQuery | frontend/src/lib/history-url-state.ts:147-177 | with a bound the window is absolute and never follows; a bound that is missing or unreadable is the one of the last 24 hours |
| HistoryLinks.NamesMean | frontend/src/lib/history-url-state.ts:84-103 | each name means one granularity, metric or window |
| HistoryLinks.SpeedMeans | frontend/src/lib/history-url-state.ts:113-117 | speed is on for `1` alone, and a threshold is a number that is not negative |
| HistoryLinks.ListsMean | frontend/src/lib/history-url-state.ts:105-111 | items stand between commas, are trimmed, and blank ones are none |
| HistoryLinks.LinkSays | frontend/src/lib/history-url-state.ts:179-188 | window and follow are written of a relative state, the bounds of an absolute one |
| HistoryLinks.LinkSaysMore | frontend/src/lib/history-url-state.ts:189-206 | the other parameters are written exactly when they differ from what the reader assumes |
| HistoryLinks.DefaultLink | frontend/src/lib/history-url-state.ts:179-207 | the default state is written as window and follow alone |
| HistoryLinks.GetIsFirst | frontend/src/lib/history-url-state.ts:147-177 | the first pair with a key is the one found |
| HistoryLinks.SetThenGet | frontend/src/lib/history-url-state.ts:180-204 | setting a key makes its value the only one and touches no other key |
| MediaMtx.DedupePreserveOrder | installer/lib/render_mediamtx_config.py:18-27 | the loop with its seen set computes the deduplicated list |
| MediaMtx.DedupeKeepsFirstOccurrences | installer/lib/render_mediamtx_config.py:18-27 | exactly the nonblank stripped values, each once, ordered by first occurrence |
| MediaMtx.DedupeIdempotent | installer/lib/render_mediamtx_config.py:18-27 | deduplicating again changes nothing |
| MediaMtx.NormalizeTwice | installer/lib/render_mediamtx_config.py:30-34 | normalizing again changes an origin exactly when taking its slashes away lays bare a space |
| MediaMtxContents.NormalizedOrigin | installer/lib/render_mediamtx_config.py:30-34 | an origin loses the space around it and, if it has a scheme, all slashes at its end, and nothing else |
| MediaMtx.NormalizeTwiceFails | installer/lib/render_mediamtx_config.py:30-34 | an origin with a space before its last slash is changed by the second normalization |
| MediaMtx.LinesRoundTrip | installer/lib/render_mediamtx_config.py:38-42 | joined lines split into themselves when none holds a line break |
| MediaMtxBlocks.ReplaceScalar | installer/lib/render_mediamtx_config.py:37-43 | the first line starting with the key is replaced, or the key is reported missing |
| MediaMtxBlocks.ReplaceListBlock | installer/lib/render_mediamtx_config.py:46-58 | the scan for the header and the items after it computes the block rewrite, or reports empty values or a missing key |
| MediaMtxBlocks.RewriteFrame | installer/lib/render_mediamtx_config.py:51-57 | only the items of the key's first block are exchanged, every line before and after stays, and reading the block back gives the values |
| MediaMtxBlocks.RewritesCommute | installer/lib/render_mediamtx_config.py:46-58 | rewriting the blocks of two keys in either order gives the same lines |
| MediaMtxBlocks.RewriteTwice | installer/lib/render_mediamtx_config.py:46-58 | the last rewrite of a block wins, so rewriting it twice is rewriting it once |
| MediaMtxBlocks.RewriteKeepsHeaders | installer/lib/render_mediamtx_config.py:46-58 | a rewrite neither makes nor removes a block |
| MediaMtxBlocks.ScalarCommutes | installer/lib/render_mediamtx_config.py:37-58 | a scalar and a block can be rewritten in either order |
| MediaMtxBlocks.ScalarFacts | installer/lib/render_mediamtx_config.py:37-43 | the last value written to a scalar wins, and neither scalars nor headers come or go |
| MediaMtxRender.RenderConfig | installer/lib/render_mediamtx_config.py:80-97 | the loop over the list keys and the optional scalar compute the rendering, stopping at the first error |
| MediaMtxContents.EachListUnderItsKeys | installer/lib/render_mediamtx_config.py:88-94 | when no value holds a line break, the origins stand and read back under the three `AllowOrigins` keys and the hosts under `webrtcAdditionalHosts`, as the items after the header |
| MediaMtxContents.UrlUnderItsKey | installer/lib/render_mediamtx_config.py:96-97 | given a URL, the first line of `authJWTJWKS` holds it without the slashes at its end |
| MediaMtxContents.OnlyItemsAndTheScalarChange | installer/lib/render_mediamtx_config.py:91-97 | no other line comes or goes |
| MediaMtxContents.RenderAnswers | installer/lib/render_mediamtx_config.py:88-97 | for such values, the first key that lacks values or a place in the text is the one reported, and otherwise rendering succeeds |
| MediaMtxRender.RenderSucceedsIff | installer/lib/render_mediamtx_config.py:88-97 | rendering succeeds exactly when every list has values, every list key a block and, if set, the scalar a line, in the text or among the lines of values rendered before |
| MediaMtxRender.RenderOnLines | installer/lib/render_mediamtx_config.py:88-97 | when every line of every list value is again an item and the scalar's value is one line, the rendered text is a function of the template's lines and reads as them with blocks and scalar rewritten |
| MediaMtxRender.FixedMeansContained | installer/lib/render_mediamtx_config.py:88-97 | rendering leaves a text as it is only for such inputs |
| MediaMtxRender.RenderTwice | installer/lib/render_mediamtx_config.py:88-97 | rendering the result with the same inputs changes nothing exactly when every line of every list value is again an item and the scalar's value is one line; then every block reads back its values' lines, which are the values when they hold no line break |
| MediaMtxRender.RenderTwiceFails | installer/lib/render_mediamtx_config.py:88-97 | a host of two lines makes the second rendering of any text that renders differ |
| MediaMtxTwice.ReplaceTwiceIff | installer/lib/render_mediamtx_config.py:46-58 | replacing a block again changes nothing exactly when every line of every value is again an item |
| MediaMtxTwice.ReplaceTwiceFails | installer/lib/render_mediamtx_config.py:46-58 | a value of two lines makes the second replacement differ in any text with the key |

## Left out

- SortTracker.KalmanBoxTracker.Update: the measurement update of the Kalman filter, its covariance and its gain are an arbitrary function; only the constant-velocity mean step and the area guard are modelled.
- SortTracker.KalmanBoxTracker.constructor: a box without height makes the state not finite as a whole, where the original leaves single components that are not numbers; either way its box and its next prediction are not numbers, and it is popped before it can be updated.
- SortWellFormed.RunStaysWellFormed: that the Kalman update keeps area and ratio positive on positive detections is a hypothesis about foreign numeric code.
- SortTracker.Sort.Update: the detections' fifth column and the rows of zeros beside the boxes are dropped, since nothing reads them.
- BoxGeometry.IouIsASimilarity: exact real arithmetic, without rounding or overflow.
- Assignment.LapJv: the solver is assumed to answer with a largest matching; a matrix that is not two-dimensional is not representable.
- FrameLock.CarDetector.DetectAndTrack: the network, image preparation and drawing are left out, except that drawing a box that is not finite raises.
- Publisher.BufferedTelemetryPublisher.constructor: the sizes the original refuses are excluded by the precondition; timeouts are events and log throttling is left out.
- Publisher.BufferedTelemetryPublisher.CloseAskWorker: waiting for room is the step being possible later; it may also happen after the worker is done, which only allows more runs.
- Publisher.HttpPublisher.Flush: calls are serialized, as the single worker serializes them; two overlapping flushes, or a close overlapping a running post after an outside cancellation, are not modelled.
- Pipeline.CleanCloseLeavesNothing: the primary's own close and the ownership of the HTTP client are left out.
- Sparkline.LiveSparkline.Seed: a change of camera starts a new object; a failed seed after such a change, which leaves the old camera's buckets in place, is not modelled.
- Sparkline.LiveSparkline.Apply: React runs state updaters in queue order, so each is a step; loading flags and errors are left out.
- SparklineFeed.BucketsShowWhatIsHeard: the sparkline listens for the whole run; the frames it takes from the buffer when it starts to listen are not modelled, and a frame told twice is applied once, which peaks cannot tell apart.
- SignalStability.FoldIsHistory: options are fixed over a run, and the clock does not go back.
- TelemetryStore.Telemetry.OnMessage: JSON parsing is left out, and buffers are values, so a caller that keeps a buffer does not see it grow.
- TelemetryStore.Telemetry.Close: a socket that reports its close inside `close()` is the close followed by the report; listeners that call back into the store are not modelled.
- TelemetryRuns.QuietIffGraceCoversReconnect: timers fire in the order the HTML standard demands of timers with comparable delays; elapsed time itself is not modelled.
- HistoryUrl.ReadWritten: percent encoding, ISO date printing and number printing are assumed to be undone by parsing, and the zone's offset does not change within the minute.
- MediaMtxRender.RenderConfig: reading the source file and the atomic write of the result.
- Drawable selection by stream mode, NATS, the SORT demo, the historical query of `v1/app.py`, the inference scheduler, stream playback, operational health, history search and the installer's command line: easy members or foreign code.
