# A verified model of the camera server's detection, recording and housekeeping logic

The server watches cameras. Local detection turns frames into tracked objects, dwell timers and line
crossings; events start recordings; retention rules delete old recordings; live streams run in external
processes; and a script translates the interface texts. This project models the state-changing core of these
parts in Dafny and proves what they promise over whole runs. `dafny verify dfyconfig.toml` checks all of it.

How the files follow the program:

- Detection (`app/tbc/detection/`). `geometry`, `boxes`, `zones` and `polygons` hold the plane geometry; `matching`,
  `tracking`, `track_classes` and `track_frames` say what one frame does to the tracks; `object_tracker` is the
  mutable tracker, proved equal to that function; `track_overlap`, `track_history`, `track_conservation`,
  `track_laws`, `track_lifetime`, `track_counting`, `track_matching`, `track_order` and `track_order_runs` hold its
  theorems. `line_crossing` with `line_memory` and `crossing_laws`, `loitering` with `loiter_laws`, `detection_keys`,
  and `active_objects` with `active_laws` do the same for the other trackers; `grace_history` is the memory with a
  grace period that lines and dwell timers share. `pipeline` and `pipeline_laws` compose them into a worker,
  `worker_timers`, `worker_rows` and `worker_lives` say what its reports, its rows and the stored counts mean;
  `reconciliation` is the supervisor that starts and stops workers.
- Recording (`app/tbc/recording.py`): `recording` is the protocol as steps, `recording_starts` says in terms of the
  jobs what each step does, `recording_manager` is the class whose objects the jobs share.
- Live streams (`app/tbc/live.py`): `live` is the protocol as steps, `live_probes` says which readers probe,
  `live_manager` is the class.
- Retention (`app/tbc/maintenance.py`): `retention`, `cleanup` and `cleanup_order`.
- Translation (`scripts/translate_locales.py`): `placeholders`, `batches`, `locales`, `locale_laws`,
  `locale_exact`.

Each mutable class has a function or a step machine that says what its methods do, and the theorems are about
runs of that function. A protocol is a machine whose steps are what happens between two awaits, or between two
statements of different threads; a run is any enabled sequence of steps.

Where the code and its documentation differ, the model follows the code:

- A track is said to be surfaced once matched "min_hits times in a row" (`app/tbc/detection/tracking.py:47-48`).
  A miss does not reset the count. `TrackCounting.InARowExactly` gives the settings for which the documented rule
  holds of every run; the defaults are not among them, and `TrackCounting.GapSurfaces` is the run that breaks it.
- Loitering is said to mean present "for at least N seconds" (`app/tbc/detection/loitering.py:18-19`). The timer
  also counts the grace period after the last sighting. `LoiterLaws.ReportSound` gives the presence that is
  certain and `LoiterLaws.FullExactly` says which reports are true to N. `LoiterLaws.HonestExactly` gives the
  settings for which all are: none with a zone a track can be in and a positive N. `LoiterLaws.PresentForLess`
  is an example.
- A centroid exactly on a drawn line counts as "out" and meets the line again with its next move.
  `CrossingLaws.FaithfulExactly` says of every move whether it is counted as it should be.
- A body records no shorter than every trigger's post-roll only if later triggers do not ask for less.
  `EventRecording.SafeExactly` says what a running body respects until the next trigger,
  `EventRecording.TriggerSafeExactly` which triggers keep it so, `EventRecording.GuardExactly` which runs do, and
  `EventRecording.LoweredPostCuts` is a run that does not.
- The cooldown is counted from the last start of a key only. `RecordingStarts.EveryStartCounts` says when that keeps
  the cooldown of every earlier start, `RecordingStarts.TriggerStarts` that it does while the clock does not go back,
  and `RecordingStarts.ClockBack` is a run where it does not.
- A stopped live stream is not probed, unless an older reader of the same key is at that moment between its exit
  message and the question whether it was stopped: `Live.StopSilencesExactly`;
  `Live.JudgingWhileRunning` reaches that moment.
- Joining and splitting a batch is lossless exactly when no value but the last ends in the first characters of a
  separator and none contains one: `Batches.SplitJoin`; `Batches.SplitShifts` is a batch with the right number of
  wrong values. `LocaleExact.IdentityExactly` says the same of a whole locale file.

## Model

| member | source | states |
|---|---|---|
| Geometry.OrientationIsCrossSign | app/tbc/detection/line_crossing.py:22-28 | the three answers are exactly the signs of the signed area of the triangle |
| Geometry.OnSegmentMeets | app/tbc/detection/line_crossing.py:31-33 | a collinear point that passes the bounding-box test is the point at some fraction in [0,1] of the segment |
| Geometry.SegmentsIntersectExact | app/tbc/detection/line_crossing.py:36-60 | for all real points, collinear, touching and zero-length segments included: true exactly when the two closed segments share a point |
| Geometry.SideExact | app/tbc/detection/line_crossing.py:63-70 | a point t lengths of the line to its left, seen with the y axis up, has side t times the squared length: the sign is the side and the scale is fixed |
| Boxes.IoUSymmetric | app/tbc/detection/tracking.py:28-39 | the overlap ratio does not depend on the order of the boxes |
| Boxes.IoURange | app/tbc/detection/tracking.py:28-39 | the ratio lies in [0,1] |
| Boxes.IoUOneExact | app/tbc/detection/tracking.py:28-39 | the ratio is 1 exactly for two equal boxes of positive area |
| Boxes.IoUExact | app/tbc/detection/tracking.py:28-39 | the ratio times (area a + area b - area of the common part) is the area of the common part, with areas by coordinates and the common part as the points in both boxes; 0 where that part has no area |
| Boxes.ThresholdExact | app/tbc/detection/tracking.py:28-39 | the ratio reaches a threshold t exactly if t is not positive or the coordinates of the two boxes share at least t of the area they cover |
| Matching.SortDescending | app/tbc/detection/tracking.py:74-82 | candidates are looked at by falling overlap |
| Matching.SortStable | app/tbc/detection/tracking.py:74-82 | candidates of equal overlap keep their order |
| Matching.GreedySound | app/tbc/detection/tracking.py:84-90 | accepted pairs are candidates over the threshold and no track or detection is used twice |
| Matching.GreedyStable | app/tbc/detection/tracking.py:84-90 | every admissible pair shares a track or a detection with an accepted pair of at least its overlap |
| Matching.GreedyHalfOptimal | app/tbc/detection/tracking.py:84-90 | the accepted pairs reach at least half the total overlap of any admissible one-to-one choice |
| TrackMatching.ChosenAdmissible | app/tbc/detection/tracking.py:74-99 | the pairing of one class is one-to-one and pairs boxes that overlap at least by the threshold |
| TrackMatching.ChosenStable | app/tbc/detection/tracking.py:74-99 | no track and detection of the class that overlap enough are both left with a worse partner or none |
| TrackMatching.ChosenHalfOptimal | app/tbc/detection/tracking.py:74-99 | the pairing has at least half the total overlap of every admissible pairing of the class |
| TrackClasses.FrameByClass | app/tbc/detection/tracking.py:67-123 | a frame treats each class by itself: its next tracks and its sightings are those of one class pass over its own tracks and detections, with the number its new tracks start from as the only link to other classes |
| TrackFrames.SightingOrigin | app/tbc/detection/tracking.py:84-123 | a sighted track either was live and overlaps its detection of the same class enough, with one more hit, or is new with one hit |
| TrackFrames.NextOrigin | app/tbc/detection/tracking.py:84-121 | a track alive after a frame was sighted by it, or missed by it once more without exceeding the limit |
| TrackOverlap.ContinuedOnly | app/tbc/detection/tracking.py:84-99 | a frame continues a live track only with a detection of its class whose coordinates share the threshold with the track's box; the track takes over box, confidence and tag and counts one hit more |
| TrackOverlap.LonePair | app/tbc/detection/tracking.py:84-123 | one track and one detection of a class: the track is continued exactly if the coordinates share the threshold, else a new track of one hit begins |
| TrackConservation.FrameConservation | app/tbc/detection/tracking.py:84-123 | the sightings of a frame are exactly its detections, as multisets: each sights one track |
| TrackHistory.RunHistory | app/tbc/detection/tracking.py:62-125 | after every run: ids grow and are below the counter, no frame sights an id twice, an id has one class, hits count the sightings, consecutive sightings are linked by overlap and at most max_missed+1 frames apart, misses count the frames since the last sighting and stay within the limit |
| TrackHistory.RunConservation | app/tbc/detection/tracking.py:84-123 | in every frame of a run each detection sights exactly one track and no track twice |
| TrackHistory.BornOnce | app/tbc/detection/tracking.py:111-121 | an id is born in one frame only and a later sighting has more hits |
| TrackHistory.LiveHitsPositive | app/tbc/detection/tracking.py:96-97 | the hits of a live track are the number of frames that sighted it, birth included |
| TrackLifetime.LiveExactly | app/tbc/detection/tracking.py:101-106 | after every run a track last sighted in some frame is alive if and only if that is the last frame or at most max_missed frames ago; it is then as it was sighted, with as many misses as frames since |
| ObjectTracking.ObjectTracker.constructor | app/tbc/detection/tracking.py:56-60 | no tracks, first id 1 |
| ObjectTracking.ObjectTracker.MatchClass | app/tbc/detection/tracking.py:84-99 | the loop over the candidates updates exactly the tracks of the accepted pairs, in order, and surfaces those with enough hits |
| ObjectTracking.ObjectTracker.MissClass | app/tbc/detection/tracking.py:101-106 | exactly the unmatched tracks of the class are missed once more, and dropped beyond the limit |
| ObjectTracking.ObjectTracker.BirthClass | app/tbc/detection/tracking.py:108-123 | exactly the untaken detections become new tracks, numbered from the counter |
| ObjectTracking.ObjectTracker.UpdateClass | app/tbc/detection/tracking.py:70-123 | one class's turn is the class pass of the specification |
| ObjectTracking.ObjectTracker.Update | app/tbc/detection/tracking.py:62-125 | the new tracks, the counter, the sightings and the returned detections are those of the frame function, for any order of the classes |
| TrackLaws.ConfirmedExactly | app/tbc/detection/tracking.py:96-99 | a detection is returned exactly when its track was sighted in at least min_hits frames of the run so far |
| TrackLaws.FlickerSuppressed | app/tbc/detection/tracking.py:47-50 | with min_hits at least 2, a class whose detections never overlap an earlier one still within reach is never returned in the whole run |
| TrackLaws.PersistenceConfirmed | app/tbc/detection/tracking.py:47-50 | with min_hits at most 2, two overlapping detections in adjacent frames surface their class |
| TrackLaws.BoundedMemory | app/tbc/detection/tracking.py:101-121 | the live tracks are at most as many as the detections of the last max_missed+1 frames |
| TrackCounting.GapSurfaces | app/tbc/detection/tracking.py:96-104 | a run that surfaces a track which missed one of the last min_hits frames |
| TrackCounting.InARowExactly | app/tbc/detection/tracking.py:46-54 | every run surfaces only tracks sighted in each of the last min_hits frames if and only if min_hits <= 1, or max_missed <= 0, or the threshold exceeds 1 |
| TrackOrder.ClassRenamed | app/tbc/detection/tracking.py:70-123 | the turn of a class commutes with any injective renaming of its track ids that shifts the block of new ones |
| TrackOrderRuns.OrderIrrelevant | app/tbc/detection/tracking.py:67-125 | two runs over the same detections with any class orders are related by one renaming of ids, injective and order-preserving within each class, in states and sightings |
| TrackOrderRuns.SameConfirmed | app/tbc/detection/tracking.py:67-125 | such runs return the same detections up to order and renaming, in every frame |
| Zones.PolygonRotation | app/tbc/detection/zones.py:9-21 | the polygon test does not depend on the vertex the drawing starts at |
| Zones.PolygonReversal | app/tbc/detection/zones.py:9-21 | nor on the direction of drawing |
| Polygons.RayMeetsExact | app/tbc/detection/zones.py:15-20 | an edge toggles the test exactly when it passes the point's height, lower end included, with the point on its left going up or on its right going down |
| Polygons.CutAlongDiagonal | app/tbc/detection/zones.py:9-21 | for any polygon and diagonal a point is inside exactly if it is inside one of the two parts and not the other |
| Polygons.TriangleExact | app/tbc/detection/zones.py:9-21 | off the side lines of a triangle the test holds exactly for the points on the inner side of all three |
| Polygons.RectangleExact | app/tbc/detection/zones.py:9-21 | for an upright rectangle: exactly its inside with the left and lower sides |
| Zones.FilterMember | app/tbc/detection/zones.py:34-62 | a detection stays exactly if no exclude zone of its class holds it and, where include zones of its class exist, one of them does |
| Zones.FilterExactly | app/tbc/detection/zones.py:24-62 | the same in coordinates: the point half way between two corners of the box, and class lists by position |
| Zones.FilterConcat | app/tbc/detection/zones.py:48-62 | the filter decides detection by detection and keeps their order |
| DetectionKeys.LoiteringKeyInjective | app/tbc/detection/classes.py:90-91 | a loitering key names its class |
| DetectionKeys.CrossingKeyInjective | app/tbc/detection/classes.py:94-97 | a crossing key names its class and direction |
| DetectionKeys.KeysExact | app/tbc/detection/classes.py:36-97 | the keys made for a class are those of its row in the label tables; other classes have none |
| LineCrossing.LineCrossingTracker.Update | app/tbc/detection/line_crossing.py:86-126 | memory and reported crossings after an update are those of its observations, zone by zone and detection by detection, and of one expiry |
| LineCrossing.LineCrossingTracker.ActiveTriggerKeys | app/tbc/detection/line_crossing.py:128-130 | exactly the keys whose pulse has not ended |
| GraceHistory.SeenExact | app/tbc/detection/line_crossing.py:121-124 | a memory that refreshes and expires after 3 seconds holds a key exactly if at every update since some sighting the latest one was at most 3 seconds old, with the time of the latest |
| LineMemory.RememberedExactly | app/tbc/detection/line_crossing.py:103-126 | after any calls a zone and track are remembered, in both tables, exactly under that condition on the calls alone; what is held is the centroid and time of the latest observation |
| LineMemory.NeverForgotten | app/tbc/detection/line_crossing.py:121-124 | a track observed at most 3 seconds apart is never forgotten |
| LineMemory.MoveReported | app/tbc/detection/line_crossing.py:103-116 | a call reports the move of an observed track since its latest observation exactly if the track is remembered and the move shares a point with the drawn segment, in the direction of the side it ends on |
| LineMemory.ReportsExactly | app/tbc/detection/line_crossing.py:103-126 | the crossings returned are the events in order, each with the zone and class of a detection of this call for a line zone that concerns it |
| CrossingLaws.ChangeExactly | app/tbc/detection/line_crossing.py:113-116 | a move adds to #in - #out what it changes in side if and only if it is faithful |
| CrossingLaws.FaithfulExactly | app/tbc/detection/line_crossing.py:113-116 | a move that changes sides is faithful exactly if it passes through the drawn segment; one that does not, exactly if it stays on the "in" side or does not touch the segment |
| CrossingLaws.FaithfulOffLine | app/tbc/detection/line_crossing.py:113-116 | a move between points off the infinite line whose side change, if any, passes through the segment is faithful |
| CrossingLaws.OnLineCountsTwice | app/tbc/detection/line_crossing.py:115 | a track that steps onto the segment and moves along it is counted "out" twice |
| CrossingLaws.RunReports | app/tbc/detection/line_crossing.py:103-126 | in every run the directions reported for a track and a zone are the crossings of the path of its centroids since it was last forgotten |
| CrossingLaws.TrackLaw | app/tbc/detection/line_crossing.py:86-126 | over any run whose moves are faithful, the reports for a track and a zone alternate and #in - #out is the change of side |
| CrossingLaws.BalancedExactly | app/tbc/detection/line_crossing.py:103-126 | the counts of a path are right at every point of it if and only if every move is faithful |
| CrossingLaws.Occupancy | app/tbc/detection/line_crossing.py:86-126 | over any run of faithful moves the number of remembered tracks on the "in" side changes by #in - #out, plus those first seen there, minus those forgotten there |
| CrossingLaws.RedrawnSwaps | app/tbc/detection/line_crossing.py:63-70 | drawing every line the other way swaps in and out over a whole run of centroids off the lines |
| CrossingLaws.TriggerPulse | app/tbc/detection/line_crossing.py:115-119 | a trigger is remembered exactly if it ever fired, until 3 seconds after its last crossing |
| Loitering.LoiterTracker.Update | app/tbc/detection/loitering.py:33-55 | the timers after an update are one tick of those before, with exactly the timers sighted inside a loiter zone of their class |
| Loitering.LoiterTracker.ActiveLoiteringKeys | app/tbc/detection/loitering.py:57-68 | a key is reported exactly when some timer of its class has run for its zone's dwell time |
| LoiterLaws.TimerExact | app/tbc/detection/loitering.py:33-55 | after any run a timer runs exactly when some sighting has been within grace at every update since; it started at the first such sighting and was last seen at the last one |
| LoiterLaws.SightingGap | app/tbc/detection/loitering.py:47-55 | consecutive sightings behind a running timer are at most the grace period plus one update interval apart |
| LoiterLaws.DueExactly | app/tbc/detection/loitering.py:59-64 | a timer is due exactly when a sighting that has been alive ever since is at least the dwell time old |
| LoiterLaws.DwellExactly | app/tbc/detection/loitering.py:57-64 | the dwell time of an id is that of the last loiter zone with it, 10 seconds where it sets none or zero; without such a zone there is none |
| LoiterLaws.ReportSound | app/tbc/detection/loitering.py:57-68 | a reported key proves one track in one zone with a start at least the dwell time ago and a last sighting within grace of the last update, hence a presence short of the dwell time by no more than grace and the age of that update |
| LoiterLaws.FullExactly | app/tbc/detection/loitering.py:57-68 | a report is true to the full dwell time if and only if the timer was already due at its last sighting |
| LoiterLaws.HonestExactly | app/tbc/detection/loitering.py:18-19 | every report of a timer, made right after an update, is true to its zone's dwell time if and only if no detection can sight the timer or the dwell time is not positive |
| LoiterLaws.PresentForLess | app/tbc/detection/loitering.py:63 | a person standing in a drawn room that asks for 10 seconds is there for 7 and reported |
| ActiveObjects.ActiveObjectTracker.Update | app/tbc/detection/supervisor.py:38-42 | the last detection of each class and its time are remembered, classes not detected keep theirs |
| ActiveObjects.ActiveObjectTracker.DetectionRows | app/tbc/detection/supervisor.py:44-74 | one row for each known class, in order, active exactly if the class was last seen within the timeout, with its last detection or none |
| ActiveObjects.MarkAllKeys | app/tbc/detection/supervisor.py:40-42 | a class is remembered after an update exactly if it was before or is detected now |
| ActiveObjects.RowsMember | app/tbc/detection/supervisor.py:47-74 | the rows are exactly those of the known classes |
| ActiveLaws.SeenExact | app/tbc/detection/supervisor.py:38-42 | after any updates a class is remembered exactly if some update had it, with the time of the last such update and its last detection there |
| ActiveLaws.RowsExact | app/tbc/detection/supervisor.py:44-74 | three rows in the order of the labels, active exactly if the last update with the class is no older than the timeout, carrying its last detection there or none |
| WorkerRows.WorkerRows | app/tbc/detection/supervisor.py:177-193 | over every run of a worker a class row is active exactly if the last frame in which a confirmed detection of the class passed the zones is no older than the timeout, and it carries one of that frame |
| WorkerRows.LinesRun | app/tbc/detection/supervisor.py:185-186 | the worker's line memory is that of its confirmed detections, frame by frame, so the laws of calls hold of it |
| Pipeline.DetectionWorker.constructor | app/tbc/detection/supervisor.py:154-159 | a worker starts with fresh trackers, a threshold of 0.3, two hits, three misses, a timeout of max(3, 3/fps) and the counts it finds |
| Pipeline.DetectionWorker.ProcessFrame | app/tbc/detection/supervisor.py:177-193 | the state after a frame, the persisted counts and the three kinds of rows are those of the composition: only confirmed tracks reach the zones, only filtered ones the active rows |
| PipelineLaws.FlickerEndToEnd | app/tbc/detection/supervisor.py:177-193 | with min_hits at least 2, over every run of a worker a flickering class has no confirmed detection, active row, dwell timer or crossing trigger |
| PipelineLaws.FlickerNeverCrosses | app/tbc/detection/supervisor.py:185-186 | nor is any line crossing of it reported in the run |
| PipelineLaws.FlickerInvisible | app/tbc/detection/supervisor.py:189-193 | hence in every run, at any time, none of its rows is active: of the class, of loitering or of a line crossed |
| PipelineLaws.SurfacedDistinct | app/tbc/detection/supervisor.py:181-185 | no frame surfaces a track id twice, so zones meet each track once per frame |
| PipelineLaws.LineRun | app/tbc/detection/supervisor.py:185-186 | over a run of a worker each stored count grows, from whatever it was found at, by the number of crossings of that zone in that direction reported in the run |
| PipelineLaws.WorkerOccupancy | app/tbc/database.py:2215-2228 | over every run of a worker whose moves across a line are faithful, the change of the stored #in - #out plus tracks first seen inside minus those forgotten inside is the number of tracks now inside |
| WorkerLives.StoredTotal | app/tbc/database.py:2215-2228 | over any number of lives of a camera's worker, a stored count is what it was at first plus every crossing reported since |
| WorkerLives.StoredOccupancy | app/tbc/database.py:2215-2228 | over any number of lives with faithful moves the stored #in - #out changes by the sum over the lives of tracks left inside, less those first seen inside, plus those forgotten inside |
| WorkerTimers.TimersRun | app/tbc/detection/supervisor.py:184 | the dwell timers of a worker are those of its confirmed detections, frame by frame |
| WorkerTimers.WorkerReport | app/tbc/detection/supervisor.py:181-193 | a loitering key reported by a worker proves one confirmed track inside one loiter zone, in a frame at least the dwell time ago, in a frame within grace of the last, and never out of grace between |
| Reconciliation.Wanted | app/tbc/detection/supervisor.py:218-237 | wanted are exactly the enabled cameras with a stream and with detection turned on, each with its configuration |
| Reconciliation.RunSafe | app/tbc/detection/supervisor.py:214-260 | in every reachable state two live tasks never serve the same camera, each live task is the registered one, between passes the workers are exactly the wanted cameras with their configurations, and after the supervisor left no task lives |
| Reconciliation.QuietPass | app/tbc/detection/supervisor.py:238-254 | a pass with unchanged wants and no ended task cancels nothing and creates nothing, up to the next pass |
| DetectionSupervisors.DetectionSupervisor.CheckOne | app/tbc/detection/supervisor.py:238-242 | a worker stays exactly if its task runs and its configuration is the wanted one; otherwise it is dropped only after its task has ended |
| DetectionSupervisors.DetectionSupervisor.DropOutdated | app/tbc/detection/supervisor.py:238-242 | afterwards only workers remain that were not outdated, and every dropped worker's task has ended |
| DetectionSupervisors.DetectionSupervisor.CreateMissing | app/tbc/detection/supervisor.py:243-254 | workers present are kept, missing ones get new live tasks |
| DetectionSupervisors.DetectionSupervisor.Pass | app/tbc/detection/supervisor.py:238-254 | a pass is a run of the machine that ends with exactly the wanted workers; outdated workers get new tasks, others keep theirs unless it ended during the pass; a pass with nothing outdated and nothing missing changes nothing |
| DetectionSupervisors.DetectionSupervisor.Shutdown | app/tbc/detection/supervisor.py:256-260 | the way out is a run of the machine that leaves no live task |
| EventRecording.RunSound | app/tbc/recording.py:78-165 | in every reachable state: active entries and unfinished jobs correspond one to one; each job's predecessor for the same camera and key is over and its cooldown had passed; a body stopped no earlier than start plus duration and the last post-roll |
| EventRecording.OneJobPerKey | app/tbc/recording.py:82-84 | at most one job per camera and key is in flight |
| EventRecording.StartsApart | app/tbc/recording.py:307-311 | with one clock reading per trigger, successive starts are at least the cooldown apart and never before the previous job is over |
| EventRecording.BodyLongEnough | app/tbc/recording.py:676-677 | if later triggers of a key never ask for earlier ends, a body stops no earlier than its duration and every end asked of it |
| EventRecording.TriggerRespected | app/tbc/recording.py:82-84 | in the same runs, a body still running after a trigger was handled stops no earlier than that trigger plus post-roll |
| EventRecording.SafeExactly | app/tbc/recording.py:676-677 | in every reachable state, whatever follows up to the next trigger of its key, a running body respects given ends if and only if each lies within its duration or the end its recording object holds |
| EventRecording.TriggerSafeExactly | app/tbc/recording.py:81-84 | a trigger handled on a running job keeps all earlier ends safe if and only if now plus post-roll is at least every earlier end beyond the duration |
| EventRecording.GuardExactly | app/tbc/recording.py:81-84 | a run keeps every running job safe at every moment if and only if each trigger that meets a running job finds the held end within the duration or does not ask for less |
| EventRecording.GuardedStops | app/tbc/recording.py:676-677 | in such a run every body that stopped respected all the ends asked of it |
| EventRecording.LoweredPostCuts | app/tbc/recording.py:81-84 | a run in which a lowered post-roll setting cuts an earlier trigger short |
| RecordingStarts.TriggerExactly | app/tbc/recording.py:78-165 | over every run, in terms of the jobs: a trigger adds one job of its key and time exactly if storage is found, all jobs of the key are over and the cooldown of the last has passed; else it only asks an unfinished job of its key for another end |
| RecordingStarts.TriggerStarts | app/tbc/recording.py:78-165 | if the clock does not go back: it adds a job exactly if storage is found and every earlier job of the key is over and started at least the cooldown ago |
| RecordingStarts.EveryStartCounts | app/tbc/recording.py:307-311 | triggers that start a job respect the cooldown of every earlier job of the key if and only if none started later than the last one |
| RecordingStarts.ClockBack | app/tbc/recording.py:307-311 | a run with a clock that goes back in which they do not |
| RecordingStarts.PollExactly | app/tbc/recording.py:676-677 | over every run a poll stops a body exactly if its duration and the last end asked of it have passed |
| RecordingStarts.FinishExactly | app/tbc/recording.py:247-248 | the end of a job finishes it and changes no other |
| RecordingStarts.SettingsExact | app/tbc/recording.py:81-113 | duration, post-roll and cooldown in microseconds with their defaults and bounds |
| RecordingManagers.CallIsRun | app/tbc/recording.py:78-166 | a call is a run of triggers, one for each active event in order, so the laws of runs hold across calls |
| RecordingManagers.RecordingManager.Extend | app/tbc/recording.py:82-84 | the end of the shared recording object moves, nothing else |
| RecordingManagers.RecordingManager.Start | app/tbc/recording.py:113-146 | a fresh recording object enters both tables with its duration and post-roll |
| RecordingManagers.RecordingManager.HandleEvent | app/tbc/recording.py:78-165 | one active event is one trigger step: extend, refuse in cooldown or without storage, or start; RecordingStarts.TriggerExactly says which |
| RecordingManagers.RecordingManager.MaybeStart | app/tbc/recording.py:57-166 | nothing with recording off or without a stream; else the events are handled in order, and the result says whether one started |
| RecordingManagers.RecordingManager.PollBody | app/tbc/recording.py:676-677 | the body reads the end from the shared object and stops exactly at the later of the two times |
| RecordingManagers.RecordingManager.FinishJob | app/tbc/recording.py:247-248 | the end of a job frees its key and nothing else |
| Live.RunKept | app/tbc/live.py:97-223 | in every reachable state, with any number of lingering readers: a key's messages are the last 20 lines of the log since its last launch, a reader is the latest exactly if its generation is current, the registered process is that of the last launch and every other running one was told to end |
| Live.MessagesCurrent | app/tbc/live.py:176-184 | the messages held are the last 20 lines of the key's log, each said after its last launch began, by that launch, a note, or the reader of that launch |
| Live.StopSilencesExactly | app/tbc/live.py:131-136 | in every reachable state a stop of a running stream keeps its reader from probing until the next launch if and only if no older reader of the key is just judging its exit |
| Live.JudgingWhileRunning | app/tbc/live.py:201-208 | the exception is reachable: a stream relaunched before the reader of its failed process has asked why it ended |
| LiveProbes.MarkedExactly | app/tbc/live.py:97-136 | over every run a key is marked exactly if a running process of it was stopped and since then the key was neither launched nor asked about by a reader |
| LiveProbes.JudgesExactly | app/tbc/live.py:201-209 | over every run a reader stands between its exit message and its question exactly from the failed end of its process, if the key had not been launched again by then, until it asks |
| LiveProbes.ProbesExactly | app/tbc/live.py:206-223 | over every run a reader probes exactly from the moment it asked while no mark stood, with an address and no playlist, until it reports |
| LiveManagers.LiveManager.Launch | app/tbc/live.py:97-119 | stops the old process, opens the next generation with its start line alone, registers the new process |
| LiveManagers.LiveManager.Stop | app/tbc/live.py:131-136 | the process is forgotten; the key is marked only if it was running |
| LiveManagers.LiveManager.Note | app/tbc/live.py:153-155 | the message is appended and the last 20 kept |
| LiveManagers.LiveManager.AppendMessage | app/tbc/live.py:176-184 | accepted exactly for the current generation, otherwise nothing changes |
| LiveManagers.LiveManager.ReadLine | app/tbc/live.py:192-200 | empty and harmless lines are skipped, others appended under the reader's own generation |
| LiveManagers.LiveManager.ReadExit | app/tbc/live.py:201-205 | a failed process leaves an exit message; a superseded reader ends there |
| LiveManagers.LiveManager.JudgeExit | app/tbc/live.py:206-220 | a marked key loses its mark and is not probed |
| LiveManagers.LiveManager.ReportDiagnosis | app/tbc/live.py:221-223 | a diagnosis is appended only under the current generation |
| Retention.NewestSorted | app/tbc/maintenance.py:57 | the size rule goes through recordings by falling start text, character by character |
| Cleanup.NewestStable | app/tbc/maintenance.py:57 | recordings with the same start text keep the order of the list |
| Cleanup.ListReadyFacts | app/tbc/database.py:2711-2722 | cleanup sees exactly the finished, unlocked recordings |
| Cleanup.CleanupPreview | app/tbc/maintenance.py:37-65 | the preview lists each recording that some rule condemns by age or by size exactly once, and none before one whose start text is earlier, character by character |
| Retention.InForceExactly | app/tbc/maintenance.py:130-146 | a rule is in force if and only if it is enabled or is the rule of a storage target with a limit, for that target alone |
| Cleanup.Archive.RulesInForce | app/tbc/maintenance.py:130-146 | the enabled rules followed by one for each storage target with a limit, and no other |
| Cleanup.Archive.ApplyCleanup | app/tbc/maintenance.py:68-74 | the table keeps exactly the recordings no rule in force condemns, and the count is the number removed |
| Cleanup.CleanupExact | app/tbc/maintenance.py:37-74 | a recording is deleted exactly if it is finished, unlocked and condemned by some rule |
| Cleanup.CleanupFixpoint | app/tbc/maintenance.py:37-74 | with fixed rules and clock a second preview after a cleanup is empty |
| Cleanup.SizeFits | app/tbc/maintenance.py:53-63 | after a cleanup what matches a size rule fits its limit |
| Cleanup.NegativeLimit | app/tbc/maintenance.py:53-63 | a negative limit leaves nothing that matches |
| Cleanup.NoneTooOld | app/tbc/maintenance.py:46-50 | nothing over an age limit is left |
| Cleanup.RuleOrderIrrelevant | app/tbc/maintenance.py:43-63 | the outcome does not depend on the order of the rules, even where they overlap |
| Cleanup.KeepGreatest | app/tbc/maintenance.py:55-63 | newest first, a size rule makes the lexicographically greatest choice that fits |
| Cleanup.KeepMaximal | app/tbc/maintenance.py:55-63 | adding back anything a size rule dropped would exceed the limit |
| Retention.TextLeExact | app/tbc/maintenance.py:57-65 | the order of start texts is that of characters: equal, a beginning, or smaller at the first difference |
| CleanupOrder.NewerKept | app/tbc/maintenance.py:53-63 | a size rule that keeps a recording keeps every newer one that is no larger |
| CleanupOrder.NewerSurvives | app/tbc/maintenance.py:37-74 | if a recording survives a cleanup, so does every newer one that is no larger and subject to no rule the older one escapes |
| CleanupOrder.KeptOfWeighed | app/tbc/maintenance.py:53-63 | a size rule goes through the recordings of its camera, key and storage, no earlier text before a later one, equal texts in the order of the list |
| CleanupOrder.DeletedExactly | app/tbc/maintenance.py:43-127 | a recording is deleted exactly if it is finished and unlocked and some rule that names its camera, key and storage or leaves them open finds it more than its days of 86 400 seconds old or does not keep it |
| CleanupOrder.LimitExact | app/tbc/maintenance.py:55 | a size is within the limit exactly if it is within the gigabytes asked for, or is 0 and they are more than -1 byte |
| Placeholders.ProtectPlaceholders | scripts/translate_locales.py:39-46 | the scan returns the text with numbered tokens and the names in order |
| Placeholders.ScanFaithful | scripts/translate_locales.py:36 | cutting a text into literal characters and tokens loses nothing |
| Placeholders.ScanRender | scripts/translate_locales.py:36-53 | a list of pieces is read back from its text exactly when no literal characters spell a token |
| Placeholders.RestoreExactly | scripts/translate_locales.py:49-53 | restoring any text fails exactly if a number is out of range; else each number becomes the name it indexes, however often, and the rest stays |
| Placeholders.ProtectExactly | scripts/translate_locales.py:39-46 | literal characters stay, the placeholder with n placeholders before it becomes the number n, and its name the n-th name |
| Placeholders.NumeralsExact | scripts/translate_locales.py:39-53 | the numbers are written and read in decimal, the last digit the smallest |
| Placeholders.ProtectRestore | scripts/translate_locales.py:39-53 | restoring a protected text gives the text back, for every text |
| Placeholders.RestoreByIndex | scripts/translate_locales.py:49-53 | the pieces of a protected text in any order that spells no new token restore to the same order with names[i] at every token i |
| Batches.MakeBatches | scripts/translate_locales.py:86-104 | the packing loop computes the packing of the specification, or fails on a value over the limit |
| Batches.BatchesExact | scripts/translate_locales.py:86-104 | packing fails exactly on a value over the limit; otherwise it loses, reorders and splits nothing, makes no empty batch, every batch fits the limit, and a batch was closed only because the next value did not fit by the count kept |
| Batches.JoinedLength | scripts/translate_locales.py:91-101 | the length of the joined text is that of its values and separators |
| Batches.ClosedExactly | scripts/translate_locales.py:124-125 | a value ends at the separator that follows it exactly when it holds none and does not end in the start of one |
| Batches.SplitJoin | scripts/translate_locales.py:124-125 | splitting a joined batch gives the values back if and only if all but the last are closed and the last holds no separator |
| Batches.SplitShifts | scripts/translate_locales.py:124-129 | a batch whose split has the right number of values but not the same ones |
| Locales.TranslateLocale | scripts/translate_locales.py:118-137 | the loops compute the translation of the specification, with the three ways to fail |
| LocaleLaws.KeysKept | scripts/translate_locales.py:135-137 | whatever the service answers to each request, a translation that succeeds has exactly the keys of the source, so the parity check never fires |
| LocaleLaws.PlainIsClosed | scripts/translate_locales.py:39-46 | a value without the separator's middle character stays closed when protected |
| LocaleLaws.RearrangingService | scripts/translate_locales.py:118-137 | with a service that keeps the separators and only rearranges the pieces of each text, every key ends up with its rearranged text and the original names |
| LocaleLaws.IdentityRoundTrip | scripts/translate_locales.py:118-137 | with a service that returns its request, the result is the source for every source whose protected values are closed; the only failure is a value over the limit |
| LocaleExact.IdentityExactly | scripts/translate_locales.py:118-137 | with such a service the result is the source if and only if no protected value is over the limit and every batch splits as it was joined |

## Left out

- Floating point: boxes, times, thresholds and scores are reals, so rounding is not modelled.
- The `_tracks` dictionary is a sequence of track values in insertion order; aliasing of a track object between the dictionary and the class dictionary is not modelled, only its effect.
- The iteration order of the set of classes is a parameter of every frame, shown not to matter.
- The rows of the crossing counts that belong to other cameras' zones, which their own workers write, and the removal of a zone's rows with the zone.
- Labels, sub-labels, row captions, JSON payloads, log texts, rule names and deletion reasons.
- Recordings whose camera row is gone, which the join of the listing query hides from cleanup: every row is taken to have its camera.
- Parsing of time stamps: a recording has its start both as text, by which it is sorted, and as a time, by which its age is judged.
- The neural networks, frame grabbing, ffmpeg, sockets, files, SQLite, MQTT and the translation service are inputs; the service answers each request in any way.
- The character classes of the regular expressions are parameters: braces are not word characters, and a digit is a word character with a decimal value, as the ASCII digits have.
- The choice of the active events of a call from its detections and the camera's trigger keys: a call gets the chosen events.
- `_record_clip` apart from its waiting loop, prebuffers, uploads, snapshots and notifications.
- Job fields that only the model has: the list of ends asked for, the clock reading of the cooldown test, the settings at the start, and the stop time.
- Exceptions inside a reconcile pass and a second cancellation during shutdown; a pass that fails leaves by the same way out.
- The statements inside `_append_message` are one step; so are the whole of `_launch`, `stop` and `note`. The exit message of a reader, its judgement and its diagnosis are separate steps.
- Redaction of credentials and the choice of harmless warnings in live messages: a line arrives redacted, with a flag.
- `should_retry`, signatures of composite streams and waiting for a playlist.
- Recovery after a restart of the server.
- The audio supervisor and the camera event supervisor, which run the same reconcile loop.
- `ContinuousRecordingManager`, usage reports, deletion of recording groups, routers, templates, plugins and most of the database: little beyond single statements.
