# CCTV behaviour monitor: frame-to-frame decision logic

This project models, in Dafny, the decision core of a CCTV behaviour
monitor. Each video frame yields person boxes, pose landmarks and a smoke
flag, and the core turns them into judgements that span several frames:

- **Identity tracker** (`Tracker`, app/tracker.py). It matches each new
  person box to the previous frame's tracks by the distance between their
  top-left corners. Unmatched boxes get fresh ids from a counter, and tracks
  nobody claims are dropped. `SimpleTracker` is a class: its `objects`
  dictionary is an insertion-ordered sequence of entries, and its `next_id`
  is a field. `Update` is proved against the specification function `Assign`.
- **Zone and loiter monitor** (`Rules`, app/rules.py). It tests whether a
  track's box centre is inside a polygon, by even-odd ray casting. It keeps a
  per-track presence map and emits entered, loitering and left events.
  `ZoneMonitor` is a class with a `presence` map. Its `Inside` and `Update`
  loops are proved against `InPolygon` and `MonitorUpdate`.
- **Smoking confirmation and evidence recording** (`CctvProcessor`,
  app/cctvprocessor.py). This covers the person-class filter in front of the
  tracker, and the global four-state machine: hand on mouth, hand released,
  then smoke within 3 s. It also covers the recorder, which keeps one
  session at a time for 5 s, and the first trigger wins. `Processor` holds
  the state-machine fields and the recording variables. The video writer is
  a log of sessions, each with the timestamps of the frames written to it
  and a released flag. The recording variables and `smoking_events` are
  locals of one `run_logic` call, while the pose state and the tracker are
  attributes that outlive it. `StartRun` marks the boundary between two
  calls, and the clock `t` restarts from 0 in each call.
- **Drinking test** (`DrinkingDetector`, app/drinkingdetector.py). This is a
  pure check: the hand is within 80 px of the mouth, and some bottle centre
  is within 120 px of the hand.
- **Hand-to-face geometry** (`PoseDetector`, app/posedetector.py). It
  covers the hand-to-mouth decision of `is_smoking_pose`, as a method with
  the source's list-building loop and early exit. It also covers the
  frame-coordinate points of `get_person_points`, as a function that
  includes numpy's slice rules for the crop. Landmarks are the model's
  normalised coordinates, and they become pixels by truncating `x * width`.
  A box at negative coordinates less than one frame width (or height) out
  is cropped from the opposite edge, and its points are still shifted by
  the negative corner, just as in the code.

`Common` holds the shared pieces (points, boxes, squared distance, the
floor-division midpoint). It also holds the lemma that justifies comparing
squared integer distances in place of the source's `sqrt`/`hypot`
thresholds. Times are exact reals. No operation assumes that time increases.

## Model

| member | source | states |
|---|---|---|
| Common.SqDist | app/tracker.py:22-24 | The squared distance is zero exactly when the two points coincide. Every `hypot`/`sqrt` threshold is compared on squares. |
| Common.Midpoint | app/rules.py:26 | The centre `((x1+x2)//2, (y1+y2)//2)` rounds down like Python's floor division, negative sums included. |
| Common.RootComparison | app/tracker.py:22-24 | For non-negative reals, `d < c` iff `d² < c²`, and `d <= c` iff `d² <= c²`. This makes the squared thresholds that replace `sqrt` exact. |
| Tracker.Lookup | app/tracker.py:33 | Reading a key finds a value iff the key is stored, and the value found is the one stored under it. |
| Tracker.Put | app/tracker.py:33 | `updated_objects[id] = det` adds `id` to the key set and nothing else, with at most one more entry. |
| Tracker.PutNewKey | app/tracker.py:33 | A new key is appended after all existing entries (dictionary insertion order). |
| Tracker.PutExistingKey | app/tracker.py:33 | Overwriting an existing key keeps its position and every other entry. |
| Tracker.PutDistinct | app/tracker.py:33 | Writing keeps the keys distinct. |
| Tracker.PutEntries | app/tracker.py:33 | After a write, every entry was there before or is the one just written. |
| Tracker.PutLookup | app/tracker.py:33 | The written key reads back the new detection, and every other key reads what it did before. |
| Tracker.FirstNear | app/tracker.py:17-26 | Gives the index of the first previous-frame entry, in dictionary order, whose top-left corner is within 30 px, or the length when there is none. No earlier entry is close. |
| Tracker.MatchId | app/tracker.py:17-26 | No id is claimed iff no previous-frame entry is within 30 px. A claimed id is a previous-frame id. |
| Tracker.Assign | app/tracker.py:9-33 | The specification of `update`: each detection gets exactly one id. |
| Tracker.AssignNextId | app/tracker.py:28-30 | `next_id` grows by exactly the number of detections no previous entry can claim. |
| Tracker.AssignPrefix | app/tracker.py:10-30 | The ids of the first n detections do not depend on the detections after them. |
| Tracker.UnmatchedPrefix | app/tracker.py:28-30 | The count of unmatched detections only grows along the detection list. |
| Tracker.AssignStep | app/tracker.py:10-33 | One loop iteration appends the detection's id and writes the detection under it into the new dictionary. |
| Tracker.AssignIdOf | app/tracker.py:17-30 | Detection i takes the id of the first close previous entry. Otherwise it takes `next_id` plus the number of unmatched detections before it. Matching never looks at ids minted in the same call. |
| Tracker.FreshIdsIncrease | app/tracker.py:28-30 | Two unmatched detections get strictly increasing, hence distinct, fresh ids, even when they lie close together. |
| Tracker.AssignIdsOrigin | app/tracker.py:17-30 | Every assigned id is a previous-frame id or lies in [old `next_id`, new `next_id`), and the counter never decreases. |
| Tracker.AssignWrites | app/tracker.py:10-33 | The new dictionary is exactly the in-order writes of each detection under its assigned id, into an empty dictionary. |
| Tracker.PutAllKeys | app/tracker.py:33 | Those writes store exactly the ids written, with no more entries than writes. |
| Tracker.PutAllDistinct | app/tracker.py:33 | Each written id is stored once. |
| Tracker.PutAllLastWins | app/tracker.py:33 | An id is bound to the last detection written under it. |
| Tracker.PutAllEntries | app/tracker.py:33 | Every written entry holds one of the written detections. |
| Tracker.AssignStored | app/tracker.py:10-35 | After `update`, `objects` holds exactly the ids assigned in this call, each once. It has at most as many entries as there were detections, so unclaimed old tracks are gone. |
| Tracker.AssignLastWins | app/tracker.py:33 | When several detections take the same id, the last one is stored. |
| Tracker.AssignStoresDetections | app/tracker.py:33 | Every stored entry holds one of this frame's detections. |
| Tracker.AssignBelowCounter | app/tracker.py:28-30 | Every stored id stays below the new `next_id`, so the counter never issues an id that is in use. |
| Tracker.DroppedIdNeverReturns | app/tracker.py:28-35 | An id that was issued and then dropped is neither assigned nor stored again, and stays below the counter. |
| Tracker.UpdateFacts | app/tracker.py:9-35 | When all old ids are below the counter, the new dictionary has distinct ids, all below the new counter. The counter grows by the unmatched count, the stored ids are the assigned ones, there are no more entries than detections, and dropped ids stay dropped. |
| Tracker.ContinuingTrackKeepsId | app/tracker.py:17-26 | A detection within the radius of a one-entry tracker keeps that entry's id, and the counter does not move. |
| Tracker.ReappearanceGetsFreshId | app/tracker.py:10-35 | `update([])` empties the tracker and leaves `next_id` unchanged. A detection in the next frame then gets the fresh id `next_id`. |
| Tracker.Output | app/tracker.py:38-45 | The output has one `(oid, bbox, cls, conf)` per stored entry, in dictionary order. Its ids are distinct when the stored ids are. |
| Tracker.SimpleTracker.constructor | app/tracker.py:5-7 | Starts with `next_id = 0` and empty `objects`. |
| Tracker.SimpleTracker.Claim | app/tracker.py:17-26 | The inner loop with `break` returns exactly `MatchId`. |
| Tracker.SimpleTracker.Update | app/tracker.py:9-45 | The new `objects` and `next_id` are those of `Assign`, and `next_id` grows by the unmatched count. The stored ids are the assigned ones, and dropped ids stay dropped. `update([])` empties the tracker with the counter unchanged. The output is `Output(objects)`, with distinct ids and no more tracks than detections. |
| Tracker.SimpleTracker.Report | app/tracker.py:38-45 | The output loop builds exactly `Output(objects)`. |
| Rules.Straddles | app/rules.py:15-16 | An edge that passes the `min < y <= max` test is never horizontal, so the `else p1x` fallback and a division by zero never occur. |
| Rules.Crossings | app/rules.py:13-19 | Gives the number of toggling edges among the first k, at most one per edge. The last edge closes the polygon through `i % n`. |
| Rules.ConfiguredZoneIsHalfOpenRectangle | app/rules.py:7-20 | On the configured zone, the ray test is the half-open rectangle 100 < x <= 500, 100 < y <= 400: the left and top borders are outside. |
| Rules.ConfiguredZoneSamples | main.py:16 | On the configured zone, (300, 300) is inside and (0, 0) is outside. |
| Rules.ObserveKeepsConsistent | app/rules.py:28-40 | A new entry, and each observation, keeps `in_zone` true exactly when `enter_time` is set. |
| Rules.EnteringTrackDoesNotLoiter | app/rules.py:31-36 | A track turning inside emits only "entered", records `t`, and cannot loiter-alert in the same frame. |
| Rules.StayingTrackLoitersPeriodically | app/rules.py:34-36 | A track staying inside alerts iff strictly more than the threshold has passed since its recorded time. The alert resets that time to `t`. |
| Rules.LeavingTrack | app/rules.py:34-40 | A leaving track clears its entry and reports the stay. When the stay was overdue, it first alerts and then reports 0 s, because the loiter check runs before the exit check. |
| Rules.ZeroEnterTimeNeverLoiters | app/rules.py:34-38 | A track recorded at exactly t = 0 never loiter-alerts, and it reports a 0 s stay on leaving. |
| Rules.OutsideTrackIsQuiet | app/rules.py:31-40 | A track that stays outside changes nothing and emits nothing. |
| Rules.ObservationEventOrder | app/rules.py:31-40 | One observation's events are all about that track. They come in enter, loiter, exit order, each at most once, and a track never both enters and leaves. |
| Rules.MonitorKeepsConsistent | app/rules.py:22-41 | A whole update keeps the presence invariant for every entry. |
| Rules.MonitorLeavesAbsentTracks | app/rules.py:24-30 | Every listed track gets an entry. A track absent from the list keeps its stale entry unchanged. |
| Rules.PeriodicLoiterScenario | app/rules.py:34-36 | With the 8 s threshold, a track entering at t = 1 alerts at t = 9.5 and again at t = 18, and at no frame in between. |
| Rules.ZoneMonitor.constructor | app/rules.py:2-5 | Stores the polygon and the threshold, which defaults to 10 s, with an empty presence map. |
| Rules.ZoneMonitor.Inside | app/rules.py:7-20 | The edge loop, with its running `p1`, returns exactly the even-odd rule `InPolygon`. |
| Rules.ZoneMonitor.Observe | app/rules.py:24-40 | One loop body updates the track's entry and returns exactly that observation's events. |
| Rules.ZoneMonitor.Update | app/rules.py:22-41 | The new map and the events equal those of `MonitorUpdate`, and the invariant is kept. Listed tracks gain entries, and absent tracks are untouched. |
| CctvProcessor.PersonDetections | app/cctvprocessor.py:65 | The filter keeps exactly the class-0 detections, each with its multiplicity, so the result is never longer than the input. |
| CctvProcessor.PersonDetectionsAppend | app/cctvprocessor.py:65 | Filtering a concatenation gives the concatenation of the filtered parts, so the filter keeps input order. |
| CctvProcessor.PersonDetectionsSingle | app/cctvprocessor.py:65 | A single detection is kept iff its class is 0. With the append lemma, this makes the result the person detections in input order. |
| CctvProcessor.OnlyPersonsTracked | app/cctvprocessor.py:64-66 | Behind the filter, the tracker only stores and reports class-0 tracks. |
| CctvProcessor.SmokingStep | app/cctvprocessor.py:76-94 | The event fires iff the pose is off and the state is `VIOLATION_CONFIRMED`, or `WAITING_FOR_SMOKE` with smoke. The release time changes only on leaving `POSE_ACTIVE`, and then it becomes `t`. |
| CctvProcessor.SmokingTransitionTable | app/cctvprocessor.py:76-94 | Gives the whole transition table, branch by branch, including staying at exactly 3.0 s. |
| CctvProcessor.RunSmoking | app/cctvprocessor.py:74-94 | The state machine run over consecutive frames gives one violation flag per frame. |
| CctvProcessor.RunSmokingSnoc | app/cctvprocessor.py:74-94 | Frames are handled in order: one more frame steps the state the earlier frames left, and appends that frame's flag after theirs. |
| CctvProcessor.PuffIsConfirmedTwice | app/cctvprocessor.py:76-94 | Pose [T,F,F,F] with smoke on frame 3 emits on exactly frames 3 and 4 and ends in `NONE`, from any state but `VIOLATION_CONFIRMED`. |
| CctvProcessor.ConfirmedStateWaitsForPoseRelease | app/cctvprocessor.py:76-94 | With the pose on, `VIOLATION_CONFIRMED` is kept silently. With it off, it emits once more and returns to `NONE`. |
| CctvProcessor.WindowExpiresQuietly | app/cctvprocessor.py:85-90 | While waiting with no pose and no smoke, nothing is emitted. The machine falls back to `NONE` iff some frame comes more than 3 s after the release. |
| CctvProcessor.IdleWithoutPoseStaysIdle | app/cctvprocessor.py:76-94 | Without the pose, `NONE` stays `NONE` and emits nothing. |
| CctvProcessor.NoSmokeNoViolation | app/cctvprocessor.py:85-94 | Without smoke, a run not starting in `VIOLATION_CONFIRMED` never emits and never reaches that state. |
| CctvProcessor.RecordingStep | app/cctvprocessor.py:118-140 | Keeps at most one open session, the last one. A session is added only on a start, that is on the event, with the live source and while idle. |
| CctvProcessor.RecordingStepEffect | app/cctvprocessor.py:118-140 | A start sets the deadline to `t + 5`, and otherwise the deadline stays. The frame is written to the current session, the triggering one included. The recorder stays on iff `t <= deadline`. An idle recorder that does not start is untouched. Earlier sessions never change: on a start, all existing sessions are kept as they were and the new one is appended. |
| CctvProcessor.OpenSessionStep | app/cctvprocessor.py:118-137 | A frame up to the deadline is written to the open session, and a trigger on it neither moves the deadline nor opens a writer. |
| CctvProcessor.OpenSessionAbsorbsFrames | app/cctvprocessor.py:118-140 | First trigger wins: frames up to the deadline are all written to the one open session, and new events change nothing else. |
| CctvProcessor.DeadlineClosesSession | app/cctvprocessor.py:134-140 | The first frame past the deadline is written, then the session is released and recording stops. |
| CctvProcessor.EvidenceScenario | app/cctvprocessor.py:118-140 | An event at t = 2 opens one session closing at 7. A second event at t = 4 changes nothing. The session is open at 6.99 and released at 7.01, holding all four frames. |
| CctvProcessor.FileSourceNeverRecords | app/cctvprocessor.py:118 | A source other than camera 0 never records, whatever the events. |
| CctvProcessor.RestartRecorder | app/cctvprocessor.py:46-49 | Between runs, the writer still open is released. Recording is off with deadline 0, and every session keeps its frames. Sessions already released stay as they were. |
| CctvProcessor.RestartReleasesEverySession | app/cctvprocessor.py:155-157 | From a valid recorder, the restart leaves a valid recorder with every session released. |
| CctvProcessor.WindowSurvivesRestart | app/cctvprocessor.py:20-21 | The smoking state and release time survive a new run, though its clock restarts. A hand released at t = 100 in one run, followed by smoke at t = 2 in the next, confirms a violation. |
| CctvProcessor.Processor.constructor | app/cctvprocessor.py:20-49 | Starts in `NONE` with time 0, no events, not recording, deadline 0, no writer, and an empty tracker. |
| CctvProcessor.Processor.StartRun | app/cctvprocessor.py:46-49 | Ending one `run_logic` call and starting the next (the cleanup at 155-157, then the fresh locals). The recorder restarts as `RestartRecorder`, and the events are cleared. The pose state and tracker are attributes, so they are unchanged. Validity is kept. |
| CctvProcessor.Processor.StepSmoking | app/cctvprocessor.py:74-94 | Clears the events and runs the if/elif chain. The result is exactly `SmokingStep`, with at most one event, and the recorder is untouched. |
| CctvProcessor.Processor.StepRecording | app/cctvprocessor.py:118-140 | Start, write and stop give exactly `RecordingStep` for this frame's events, and the state machine is untouched. |
| CctvProcessor.Processor.ProcessFrame | app/cctvprocessor.py:61-140 | Filter, then track, then the state machine, then the recorder. The tracker moves as `Assign` on the person detections, and only class-0 tracks come out. The smoking and recording state move as their step functions, and validity is kept. |
| DrinkingDetector.DistanceSq | app/drinkingdetector.py:6-9 | Gives the sentinel 9999 (squared) when a point is missing, and otherwise a squared distance that is zero iff the points coincide. |
| DrinkingDetector.MissingPointIsFar | app/drinkingdetector.py:6-9 | The sentinel distance fails both the 80 px and the 120 px test. |
| DrinkingDetector.Center | app/drinkingdetector.py:11-15 | `_center(None)` is None. Otherwise the result is the floor-division centre of the box. |
| DrinkingDetector.SquaredThresholds | app/drinkingdetector.py:34-43 | `d > 80` iff `d² > 6400`, and `d < 120` iff `d² < 14400`, for non-negative d. |
| DrinkingDetector.BottleNear | app/drinkingdetector.py:40-43 | A bottle counts iff it is present and its centre is strictly within 120 px of the hand. |
| DrinkingDetector.AnyBottleNear | app/drinkingdetector.py:39-46 | The early-return loop is true iff some bottle counts. |
| DrinkingDetector.DetectDrinking | app/drinkingdetector.py:17-46 | True iff both keys are present and bound to points, the hand is within 80 px (inclusive) of the mouth, and some present bottle centre is strictly within 120 px of the hand. An empty bottle list gives False. |
| DrinkingDetector.DrinkingIgnoresBottleOrder | app/drinkingdetector.py:39-44 | The result depends only on which bottles are listed, not on their order or repetitions. |
| DrinkingDetector.MouthThresholdBoundary | app/drinkingdetector.py:34-36 | A hand 80 px from the mouth passes, and one at 81 px does not. |
| DrinkingDetector.BottleThresholdBoundary | app/drinkingdetector.py:39-44 | A bottle centre 120 px from the hand does not count, and a None box is skipped. |
| DrinkingDetector.MissingHandFails | app/drinkingdetector.py:24-31 | A missing "hand" key or a None hand gives False. |
| PoseDetector.Trunc | app/posedetector.py:22-23 | `int()` truncates toward zero. |
| PoseDetector.PresentHands | app/posedetector.py:48-52 | The hand list holds exactly the detected hands, at most two. The right hand comes first when present, and the left hand last. |
| PoseDetector.IsSmokingPose | app/posedetector.py:25-72 | The guarded list-building and early-exit loop returns exactly `SmokingPose`. |
| PoseDetector.SmokingPoseCases | app/posedetector.py:32-63 | No face, no hand, or eyes less than 10 px apart gives False. Otherwise the result is True iff a present index tip is nearer the nose than half the eye distance. Swapping the hands does not change it. |
| PoseDetector.NormalizedDistanceTest | app/posedetector.py:41-61 | `fw < 10` iff `fw² < 100`, and, for `fw >= 10`, `d / fw < 0.5` iff `4d² < fw²`. |
| PoseDetector.SliceBound | app/posedetector.py:85 | In-range bounds are kept. A negative bound down to `-n` counts from the end, a smaller one becomes 0, and one past the end becomes `n`. |
| PoseDetector.SliceLen | app/posedetector.py:85-87 | The crop length is `stop - start` for in-range bounds, 0 for reversed bounds with a non-negative stop, and never more than the axis. |
| PoseDetector.NegativeBoundsCropFromFarEdge | app/posedetector.py:85 | A box at x from -50 to -10 on a 640-px frame crops 40 columns from the right edge, starting at column 590. |
| PoseDetector.PersonPoints | app/posedetector.py:78-122 | None iff the crop is empty or no face is found. Otherwise both keys are present, the mouth is set, and the hand is None iff neither hand is found. |
| PoseDetector.PersonPointsInBox | app/posedetector.py:98-122 | For a box inside the frame, the mouth is the nose scaled to the crop and shifted by (x1, y1). The hand is the right tip if present, else the left. Both lie in the box. |
| PoseDetector.HalfQuotient | app/posedetector.py:57-61 | `d / fw < 0.5` iff `2d < fw`, for a positive face width. |
| PoseDetector.AxisInRange | app/posedetector.py:22-23 | A coordinate in [0, 1), scaled by an axis length and truncated, is a pixel index on that axis. |
| PoseDetector.PixelInCrop | app/posedetector.py:22-23 | A landmark in the unit square lands on a pixel of the image. |
| PoseDetector.EmptyCropHasNoPoints | app/posedetector.py:85-88 | A box reversed with a non-negative end (0 <= x2 <= x1, or 0 <= y2 <= y1), or a box with both x bounds at or below -width or both y bounds at or below -height, gives an empty crop and no points. |

## Left out

- Perception is out of scope: the YOLO person and smoke detectors, and the MediaPipe holistic model. Their answers enter as parameters: detection tuples, the pose and smoke flags, and landmark results. app/detector.py and app/smokedetector.py are not part of this model.
- Display and I/O are out of scope. This means video capture, `imshow`, `waitKey`, drawing, colours and text overlays (app/cctvprocessor.py:96-115 and 142-153), `messagebox`, `print`, and the evidence folder and file names. The video writer is reduced to a log of written frame timestamps per session.
- The clock: `time.time() - start` is a `real` parameter.
- Floating point: every real is exact, and `int()` on landmark coordinates is modelled as truncation. `xinters` is computed exactly, so rounding at a polygon edge is not modelled.
- The end of the stream and the `q` key are not modelled. The cleanup that follows them (app/cctvprocessor.py:155-157) is part of `Processor.StartRun`. Releasing the capture and closing windows are left out as display I/O.
- `CCTVProcessor.run_logic` never uses the zone monitor, the drinking detector or `get_person_points`, so `Processor` does not either. main.py has a separate frame loop that feeds the tracker's output to a `ZoneMonitor` (main.py:17-32). The model has both classes but does not wire that loop.
- Processor.ProcessFrame: takes the pose and smoke flags as inputs rather than calling `IsSmokingPose` and the smoke detector, because both depend on model inference.
- Rules.ZoneMonitor.Observe: the presence entry `p`, which the source mutates in place through the dictionary, is modelled as a value written back. No alias to it escapes, so the effect is the same.
- Rules.ZoneMonitor.Inside: requires a non-empty polygon, because the source's `poly[0]` raises an error on an empty one. That failure path is not modelled.
- Only the landmarks the code reads are modelled: face mesh 1, 33 and 263, and hand landmark 8.
- Three behaviours a reader might expect are not in the code, and the model follows the code:
  - With the pose on, `VIOLATION_CONFIRMED` silently stays (the pose branch comes first). It is left, with the event, only on a frame without the pose.
  - Only the smoking event starts a recording. Loitering and drinking never do.
  - The drinking thresholds are the fixed 80 px and 120 px.
- A track that enters at exactly t = 0 never loiter-alerts, because `enter_time or t` treats 0.0 as missing. The model keeps this (Rules.ZeroEnterTimeNeverLoiters).
