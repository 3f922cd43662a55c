# Matchly: a verified model

Matchly records amateur football matches, finds the moments worth watching and delivers them as
clips. This project models the code that decides outcomes and proves what it promises:

- **The pipeline runner** (`Domain`, `Manifest`, `Runner`, `Execution`, `Resume`, `Degradation`). One job row
  per video and step, fingerprints of the upload, commits and rollbacks. `Runner.Session` is the runner with its
  committed and working rows, changed in place; `Runner.Run` says as a function what a run leaves and which
  states it publishes on the way, so that a crash is any published state. Steps are arbitrary functions of the
  rows, ending in success, skip or failure; the theorems ask of them only that they never change the segments
  and write `original_url` only when there are segments (`Execution.Trusted`), and `Cards.RealStepsQualify`
  shows that VALIDATE, SCORE_EVENTS, CUT_CLIPS and PERSIST do.
- **The highlight steps** (`HighlightSteps`, `HighlightAnswers`, `Cards`, `CardVisits`, `BrokenCards`,
  `ForcedCalls`) and the recording they start from (`Recording`, `RecordingAnswers`, `Ingest`, `Master`):
  segments confirmed in any order, joined in another process.
- **The tracker** (`Boxes`, `Association`, `Tracking`, `Tracks`, `Lifetimes`, `ByteTracker`). Candidate objects
  updated in place, proved against functions on values; conservation of detections and continuity of tracks are
  theorems about those functions over any list of frames. Coordinates are reals.
- **Signals to clips** (`Numbers`, `Sequences`, `Rounding`, `Sorting`, `Signals`, `Peaks`, `Selection`): fused
  scores, peaks, clip windows rounded to milliseconds, temporal suppression and how many clips can survive it.
- **Shirt numbers** (`Sampling`, `Moments`, `Voting`, `Verdicts`, `Attribution`) and **check-in** (`Roster`,
  `RosterEffects`).
- **Signing in** (`Otp`, `OtpAnswers`, `RefreshTokens`, `RefreshProtocol`, `Replay`): counting bounds on codes
  and guesses, and the browser's single-flight refresh against the server's rotating tokens, as steps of one
  machine.

Wherever the source changes state step by step there is a method (with its loops, on an object or on local
variables) proved equal to a function of its inputs or of the old state; the theorems are about the functions.

Places where the code does not do what its own documentation says, or where a promise needs a condition:

- A matched one-time code is not consumed when the sign-in fails after the match: it matches again exactly
  while an attempt is left and it has not expired (`Otp.MatchedCodeMatchesAgainExactly`). The module comment
  says it cannot be replayed either way. No code ever signs in twice.
- A number that is worn, by nobody with an override, is unregistered exactly when both teams wear it
  (`Roster.OneNumberOnBothTeams`); the docstring speaks of the override only.
- "No broken cards" holds over every call that does not score again by force (`Cards.NoBrokenCards`). Once forced
  scorings are admitted it fails; `BrokenCards.CallBreaksCardsExactly` says, for any call over any rows, exactly when
  the call ends READY with broken cards:
  - a forced full run never does;
  - an unforced full run that ends READY does exactly when PERSIST's row still stands, so that PERSIST is cached, and
    the cards it is shown are not whole: scored again unless the scoring stands, cut unless the cutting stands;
  - a single step does on a READY video exactly as `BrokenCards.StepBreaksCards` says: for instance SCORE_EVENTS
    whenever it has to run, forced or not, and finds moments. From rows that account for their cards its forced
    form is the only call that breaks them (`BrokenCards.AccountedCallBreaksCardsExactly`).
- So what a forced scoring leaves may break the cards in a later, unforced run. Two kinds of rows stand out. One
  has the scoring void over whole cards whose cutting and PERSIST stand, and the next READY run is broken exactly
  when it scores again: after a forced full run in which SCORE_EVENTS failed or was skipped
  (`ForcedCalls.StoppedScoreBreaksCards`, `ForcedCalls.SkippedScoreBreaksCards`), or a forced re-score that found
  nothing or failed (`ForcedCalls.FruitlessRescoreBreaksCards`). The other has freshly scored cards, and the next
  READY run is broken exactly when PERSIST is cached and CUT_CLIPS is too, or misses a clip: after a forced full
  run that stopped at CUT_CLIPS or died just after SCORE_EVENTS (`ForcedCalls.StoppedCutBreaksCards`,
  `ForcedCalls.DeathAfterScoringBreaksCards`), or a forced re-score that found moments
  (`ForcedCalls.FruitfulRescoreBreaksCards`).
- Confirming a further segment after VALIDATE has joined the recording changes every fingerprint and re-runs every
  step, but the old join stays the master: it is the join of the current segments exactly when none was added since
  (`Master.JoinIsCurrentExactly`), until the upload is completed again (`Master.CompletionIsJoinedAsItStands`).
- Rounding a window's ends to milliseconds can empty the clip of a recording's last second when the pre-roll is
  within half a millisecond of half a second; `Peaks.WindowsHaveLength` says exactly when.
- A stride times all kept frames within a period exactly when the thinned rate is at least 0.01 frames a second
  (`Sampling.RateDecidesTiming`); below it they are reported too early, by any number of periods.
- An upload accepted as complete can be processed exactly when it is a master or has a segment
  (`Recording.CompletedUploadIsProcessable`); only the request schema rules out the empty case.

## Model

| member | source | states |
|---|---|---|
| Manifest.PairsDetermineManifest | packages/shared/matchly_shared/pipeline/runner.py:156-165 | the sorted (index, size) pairs read back the manifest: equal exactly for the same indexes with the same sizes |
| Manifest.FingerprintCoversInputs | packages/shared/matchly_shared/pipeline/runner.py:143-165 | two videos fingerprint alike exactly when id, indexes, sizes and (without segments) the master agree; nothing a step writes matters |
| Manifest.FingerprintsDifferByAnything | packages/shared/matchly_shared/pipeline/runner.py:143-165 | fingerprints of any two steps under any settings agree exactly when step, buckets, id, indexes, sizes and (without segments) the master do |
| Runner.WalkSplit | packages/shared/matchly_shared/pipeline/runner.py:207-280 | walking a list of steps is walking its front and then, unless that stopped, its back |
| Runner.WalkStep | packages/shared/matchly_shared/pipeline/runner.py:207-280 | a walk of one more step is the walk so far followed by a visit, unless it had stopped |
| Runner.Session.Commit | packages/shared/matchly_shared/pipeline/runner.py:104-134 | publishes the working rows: they become the committed ones and are recorded as visible |
| Runner.Session.Rollback | packages/shared/matchly_shared/pipeline/runner.py:243-251 | restores the last committed rows and publishes nothing |
| Runner.Session.GetOrCreateJob | packages/shared/matchly_shared/pipeline/runner.py:78-101 | the row of the step, a fresh PENDING one exactly when there was none; no other row changes |
| Runner.Session.MarkRunning | packages/shared/matchly_shared/pipeline/runner.py:104-112 | the started row, with one more attempt and this fingerprint, is published before the step runs |
| Runner.Session.MarkEnded | packages/shared/matchly_shared/pipeline/runner.py:115-134 | the row of a success, skip or failure is written and published, with its result, reason or error |
| Runner.Session.FailVideo | packages/shared/matchly_shared/pipeline/runner.py:293-302 | video and match become FAILED with the same reason, published |
| Runner.Session.Settle | packages/shared/matchly_shared/pipeline/runner.py:305-331 | READY for video and match unless a required step is outstanding; a single-step run keeps the status |
| Runner.Session.VisitStep | packages/shared/matchly_shared/pipeline/runner.py:207-280 | one turn of the loop leaves the rows, report and published states of `Visit`: a skip or failure keeps none of the step's writes |
| Runner.Session.WalkSteps | packages/shared/matchly_shared/pipeline/runner.py:206-280 | the loop leaves exactly what `Walk` says, whatever the steps do, including every state visible on the way |
| Runner.Session.RunPipeline | packages/shared/matchly_shared/pipeline/runner.py:168-290 | a whole call leaves the rows, the four lists, the status and the published states of `Run` |
| Runner.Session.ReapStuckJobs | packages/shared/matchly_shared/pipeline/runner.py:335-356 | stuck RUNNING rows return to PENDING with attempts and fingerprint kept, and are counted |
| Execution.VisitShape | packages/shared/matchly_shared/pipeline/runner.py:211-278 | one visit in the terms of its step's row: what is cached, what runs, what is kept of the step's writes |
| Execution.WalkAccounts | packages/shared/matchly_shared/pipeline/runner.py:207-278 | after a walk every visited step's row follows from its report, nothing else moved, and only the last visit may have stopped it |
| Execution.ListsPartitionVisits | packages/shared/matchly_shared/pipeline/runner.py:192-290 | every visited step is in exactly one of executed, skipped, failed and pending, once |
| Degradation.ListsTell | packages/shared/matchly_shared/pipeline/runner.py:192-278 | which list a step is in: executed with a result, skipped when cached or declined, failed when it raised, pending when absent |
| Execution.ExecutionSet | packages/shared/matchly_shared/pipeline/runner.py:207-278 | an unforced walk runs, in pipeline order, exactly the registered steps not SUCCEEDED at the current fingerprint, up to the first required failure, and attempts count exactly the runs |
| Execution.Verdict | packages/shared/matchly_shared/pipeline/runner.py:293-331 | FAILED iff a required step failed, READY iff none did and all are registered, else PROCESSING; READY means each required row is a success at the current fingerprint or skipped |
| Execution.OptionalStepsCannotAffectTheVerdict | packages/shared/matchly_shared/pipeline/runner.py:262-331 | two runs, by any workers over any rows, whose required steps are registered and fail alike end in the same video status |
| Execution.SecondRunRunsNothing | packages/shared/matchly_shared/pipeline/runner.py:137-165 | after an all-success run the next unforced run executes nothing and changes no row, although VALIDATE wrote `original_url` |
| Execution.ReuploadRunsEverything | packages/shared/matchly_shared/pipeline/runner.py:137-165 | after a change of the manifest the next run executes every registered step it visits |
| Degradation.SixStepsDecide | packages/shared/matchly_shared/domain/enums.py:77-102 | a full run is READY exactly when VALIDATE, PROBE, TRANSCODE, SCORE_EVENTS, CUT_CLIPS and PERSIST are registered and none of them fails, whatever the other five do, and then it visits all eleven in the written order; FAILED exactly when one of the six fails, which it visits last |
| Degradation.OneStepStatus | packages/shared/matchly_shared/pipeline/runner.py:262-311 | a call of one step fails video and match exactly when one of the six raised, and otherwise leaves what the visit left |
| Degradation.VisitedRowTells | packages/shared/matchly_shared/pipeline/runner.py:78-134 | the row of every visited step tells how it ended: status, attempts, result or reason or the kept part of the error, start and finish |
| Degradation.OtherRowsStay | packages/shared/matchly_shared/pipeline/runner.py:207-278 | rows of steps a run does not visit stay as they were |
| Degradation.RunIsShown | packages/shared/matchly_shared/pipeline/runner.py:198-302 | a run shows PROCESSING before any step starts, and a failure gives video and match the same reason, naming the step and quoting its error |
| Resume.WholeStepsArePublished | packages/shared/matchly_shared/pipeline/runner.py:239-280 | every state ever visible shows the video and match as some number of whole steps left them |
| Resume.CrashResume | packages/shared/matchly_shared/pipeline/runner.py:104-134 | a worker dead at any commit, then an unforced re-run, reaches the video, rows and (when READY) match of the uninterrupted run, attempts differing by one for the step in flight only |
| Resume.ReaperChangesNoRun | packages/shared/matchly_shared/pipeline/runner.py:335-356 | the reaper firing before a run changes neither its visits, result, video, match nor the rows of registered steps it visits |
| Degradation.ReaperResetsExactly | packages/shared/matchly_shared/pipeline/runner.py:335-356 | exactly the rows RUNNING for more than ninety minutes go back to PENDING, keeping attempts, fingerprint and start |
| HighlightSteps.StepContext.ScoreEvents | services/video-worker/video_worker/steps/highlights.py:27-118 | replaces the highlights by one clipless row per window, or skips or fails as the source does |
| HighlightSteps.StepContext.CutClips | services/video-worker/video_worker/steps/highlights.py:175-248 | each window of positive length whose cut works gets its clip, others keep what they had; fails exactly when none worked |
| HighlightSteps.StepContext.Persist | services/video-worker/video_worker/steps/highlights.py:288-328 | keeps exactly the rows with a clip; READY for video and match, or a failure when none is left |
| HighlightSteps.PlayerFor | services/video-worker/video_worker/steps/highlights.py:155-172 | names someone exactly when somebody is on camera for a second of the clip, and then the first of those nobody is on camera longer than |
| HighlightSteps.OnCameraFor | services/video-worker/video_worker/steps/highlights.py:165-167 | a player is on camera for d seconds exactly when clip and presence last that long and neither starts later than d before the other ends |
| HighlightAnswers.ScoringTells | services/video-worker/video_worker/steps/highlights.py:27-118 | when SCORE_EVENTS succeeds, skips and fails; on success one fresh row per window with its times and score, otherwise nothing changes |
| HighlightAnswers.CuttingTells | services/video-worker/video_worker/steps/highlights.py:175-248 | when CUT_CLIPS succeeds, skips and fails; each attempt that works gives its row the clip and no other row changes |
| HighlightAnswers.PersistTells | services/video-worker/video_worker/steps/highlights.py:288-328 | PERSIST keeps the rows with a clip, in order, and makes video and match READY exactly when there is one |
| Cards.VisitKeepsCards | packages/shared/matchly_shared/pipeline/runner.py:211-278 | any visit that is not a forced scoring keeps the account of which rows imply which cards, at each of its commits |
| Cards.RunKeepsCards | packages/shared/matchly_shared/pipeline/runner.py:168-290 | so does every state published by a call, full or single-step, forced or not, that does not score again by force |
| Cards.NoBrokenCards | services/video-worker/video_worker/steps/highlights.py:298-317 | over any such calls, deaths and reapings of one upload, READY means at least one highlight and a clip on each |
| BrokenCards.OneStepBreaksExactly | packages/shared/matchly_shared/pipeline/runner.py:179-331 | a single-step call, forced or not, over any rows ends READY with broken cards exactly as `StepBreaksCards` tells from the rows and media before the call; SCORE_EVENTS that has to run on a READY video and finds moments always does |
| BrokenCards.ForcedRunEndsWhole | packages/shared/matchly_shared/pipeline/runner.py:207-290 | a forced full run that ends READY has whole cards |
| BrokenCards.CardsAreShown | packages/shared/matchly_shared/pipeline/runner.py:222-226 | an unforced READY run scores unless the scoring stands, cuts unless the cutting stands, and leaves PERSIST the row it found |
| BrokenCards.ReadyRunBreaksExactly | packages/shared/matchly_shared/pipeline/runner.py:222-226 | an unforced READY run over any rows is broken exactly when PERSIST is cached and the cards it is shown are not whole; a PERSIST that runs makes them whole |
| BrokenCards.CallBreaksCardsExactly | packages/shared/matchly_shared/pipeline/runner.py:168-331 | any call, full or single-step, forced or not, over any rows: exactly when it ends READY with broken cards |
| BrokenCards.AccountedCallBreaksCardsExactly | packages/shared/matchly_shared/pipeline/runner.py:179-180 | from rows that account for their cards, exactly when it is the forced single-step re-score of a READY video in which the detector finds moments |
| ForcedCalls.VoidedScoringBreaksCards | packages/shared/matchly_shared/pipeline/runner.py:222-226 | with the scoring void over a standing cutting and PERSIST, an unforced READY run is broken exactly when it scores again |
| ForcedCalls.VoidedScoringBreaksAlone | packages/shared/matchly_shared/pipeline/runner.py:222-226 | and an unforced SCORE_EVENTS alone exactly when the video is READY and it finds moments |
| ForcedCalls.FreshScoringBreaksCards | packages/shared/matchly_shared/pipeline/runner.py:222-226 | over freshly scored cards an unforced READY run is broken exactly when PERSIST is cached and CUT_CLIPS is too, or misses a clip |
| ForcedCalls.StoppedScoreBreaksCards | packages/shared/matchly_shared/pipeline/runner.py:262-271 | after a forced full run that failed at SCORE_EVENTS, the next unforced READY run is broken exactly when it scores again |
| ForcedCalls.SkippedScoreBreaksCards | packages/shared/matchly_shared/pipeline/runner.py:243-251 | a forced full run that ends READY with SCORE_EVENTS skipped has whole cards, and the next unforced READY run is broken exactly when it scores again |
| ForcedCalls.StoppedCutBreaksCards | packages/shared/matchly_shared/pipeline/runner.py:262-271 | after a forced full run that scored again and stopped at CUT_CLIPS, the next unforced READY run is broken exactly when PERSIST had stood before and some clip fails to cut |
| ForcedCalls.DeathAfterScoringBreaksCards | packages/shared/matchly_shared/pipeline/runner.py:276-278 | a worker that dies in a forced full run just after SCORE_EVENTS leaves rows over which the next unforced READY run is broken exactly when PERSIST is cached and CUT_CLIPS is too, or misses a clip |
| ForcedCalls.FruitlessRescoreBreaksCards | services/video-worker/video_worker/steps/highlights.py:68-69 | after a forced re-score that finds nothing or fails, exactly when the next unforced SCORE_EVENTS alone, and the next unforced READY run, are broken |
| ForcedCalls.FruitfulRescoreBreaksCards | packages/shared/matchly_shared/pipeline/runner.py:179-180 | after a forced re-score that finds moments, exactly when the next unforced READY run is broken |
| ForcedCalls.ForcedRescoreBreaksCards | packages/shared/matchly_shared/pipeline/runner.py:137-140 | after an all-success READY run a forced re-score leaves clipless cards, and the next full run finds every row a success and leaves them so |
| Cards.RealStepsQualify | services/video-worker/video_worker/steps/highlights.py:27-328 | the modelled steps satisfy what the run theorems ask of steps |
| Recording.VideoService.StartMatch | apps/api/app/services/video_service.py:74-110 | the start button: idempotent while recording, refused after or without a camera, as `Apply` |
| Recording.VideoService.StopMatch | apps/api/app/services/video_service.py:113-132 | the stop button, as `Apply` |
| Recording.VideoService.RequestUploadTarget | apps/api/app/services/video_service.py:135-178 | refuses outside an upload and without a segment index, and reopens a finished upload |
| Recording.VideoService.CompleteSegment | apps/api/app/services/video_service.py:181-234 | upserts the segment's row only if its object has landed |
| Recording.VideoService.FinishUpload | apps/api/app/services/video_service.py:237-305 | refuses a gap among the expected segments, a missing or a tiny master; otherwise records what was uploaded |
| Recording.VideoService.MarkProcessing | apps/api/app/services/video_service.py:315-344 | hands the recording to the pipeline, or says what is missing |
| Recording.UrisDiffer | packages/shared/matchly_shared/storage/keys.py:31-36 | the master and each segment index have a location of their own |
| Recording.ConfirmedRow | apps/api/app/services/video_service.py:197-224 | after any consistent confirmations an index's row is what its confirmation says, and unconfirmed indexes are untouched |
| Recording.DeliveryOrderDoesNotMatter | apps/api/app/services/video_service.py:197-224 | any order and repetition of the same confirmations gives the same rows, the same join and the same fingerprint of every step |
| Recording.CompleteUploadAgreesWithValidate | apps/api/app/services/video_service.py:254-269 | `complete_upload(n)` passes exactly when 0..n-1 were confirmed; and if nothing from n on was, VALIDATE finds no gap |
| Recording.GapIsNamed | services/video-worker/video_worker/steps/ingest.py:49-57 | when VALIDATE rejects for a gap it names, in order, exactly the missing indexes below a confirmed one, and there is one |
| Recording.ValidateKeepsUpload | services/video-worker/video_worker/steps/ingest.py:59-65 | VALIDATE leaves the manifest, statuses and highlights alone |
| Recording.RecordingIsNeverLost | apps/api/app/services/video_service.py:74-344 | over any requests no confirmed segment disappears, a begun match never goes back, and a completed upload can always be processed |
| Recording.DoubleTap | apps/api/app/services/video_service.py:74-132 | start and stop, once accepted, are accepted again and change nothing |
| Recording.CompletedUploadIsProcessable | apps/api/app/services/video_service.py:254-344 | an upload accepted as complete can be processed exactly when it is a master or some segment was confirmed |
| Recording.EmptyCompletionIsStuck | apps/api/app/services/video_service.py:254-269 | for instance, completing zero segments, which the schema refuses, leaves an upload that cannot be processed |
| RecordingAnswers.StartAnswers | apps/api/app/services/video_service.py:74-110 | every answer of the start button and when it is given; an accepted start records, with a blank video row if there was none |
| RecordingAnswers.StopAnswers | apps/api/app/services/video_service.py:113-132 | every answer of the stop button; an accepted stop leaves match and video UPLOADING |
| RecordingAnswers.TargetAnswers | apps/api/app/services/video_service.py:135-178 | every answer to asking where to upload; a pending or finished upload is reopened and nothing else changes |
| RecordingAnswers.ConfirmAnswers | apps/api/app/services/video_service.py:181-234 | a segment is confirmed exactly when its object has landed; its row has the location, the size given or found and the duration, and no other row changes |
| RecordingAnswers.CompleteBySegmentsAnswers | apps/api/app/services/video_service.py:254-300 | accepted exactly when no expected segment is missing; leaves the video UPLOADED without a master, sized as the sum of its segments |
| RecordingAnswers.CompleteMasterAnswers | apps/api/app/services/video_service.py:275-300 | accepted exactly when the file has landed with at least 1024 bytes; leaves the video UPLOADED with it as master |
| RecordingAnswers.ProcessAnswers | apps/api/app/services/video_service.py:315-344 | every answer to processing and when it is given; accepted, match and video are PROCESSING with no failure reason |
| RecordingAnswers.ValidateAnswers | services/video-worker/video_worker/steps/ingest.py:20-71 | exactly when VALIDATE succeeds, and what it leaves: a checked master, or the join of a gap-free list of segments |
| RecordingAnswers.JoinIsInOrder | services/video-worker/video_worker/steps/ingest.py:45-61 | the i-th part of the join is the segment with index i |
| Ingest.ValidateStep.HasGap | services/video-worker/video_worker/steps/ingest.py:49-51 | says exactly whether the indexes differ from 0..n-1 |
| Ingest.ValidateStep.CollectSegments | services/video-worker/video_worker/steps/ingest.py:59-61 | the urls to join are those of the segments by increasing index |
| Ingest.ValidateStep.Validate | services/video-worker/video_worker/steps/ingest.py:20-71 | VALIDATE in place ends and leaves the video as `ValidateOutcome` says |
| Master.JoinIsCurrentExactly | services/video-worker/video_worker/steps/ingest.py:34-65 | over any requests, VALIDATE runs and other writes without a completion, the master VALIDATE joined stays, and is the join of the current segments exactly when none was added since |
| Master.LateSegmentIsNotJoined | apps/api/app/services/video_service.py:181-234 | a segment added after the join changes the fingerprint of every step, but VALIDATE neither joins it nor rejects a gap it leaves |
| Master.CompletionIsJoinedAsItStands | apps/api/app/services/video_service.py:254-269 | after an accepted completion by segments the next VALIDATE that succeeds joins the segments there are by then |
| Sorting.SortInOrder | services/ai-worker/ai_worker/tracking/bytetrack.py:89 | the stable sort used throughout puts any list in order under a total preorder |
| Sorting.OrderIsUnique | packages/shared/matchly_shared/highlights/selection.py:75 | without ties there is one order only |
| Sorting.SortIsStable | services/ai-worker/ai_worker/jersey/voting.py:114-116 | elements that tie stand in the order they came in |
| Sorting.FirstOfTheBest | services/ai-worker/ai_worker/jersey/voting.py:114-116 | what a sort puts first is the first of the best |
| Boxes.IouIsARatio | services/ai-worker/ai_worker/detection/base.py:41-49 | IoU lies in 0..1, is symmetric, and is 1 of a real box with itself |
| Boxes.IouOneMeansSameCorners | services/ai-worker/ai_worker/detection/base.py:41-49 | boxes of positive area reach 1 exactly when their corners agree |
| Boxes.IouIsSharedOverCovered | services/ai-worker/ai_worker/detection/base.py:41-49 | IoU times the area either box covers is the area they share, and it is positive exactly when they share any |
| Boxes.IouOfNested | services/ai-worker/ai_worker/detection/base.py:41-49 | a box inside another overlaps it by its share of the area |
| Boxes.IouOfShifted | services/ai-worker/ai_worker/detection/base.py:41-49 | equal boxes shifted by part of their width w overlap by (w - shift) / (w + shift) |
| Association.GreedyIsAMatching | services/ai-worker/ai_worker/tracking/bytetrack.py:91-101 | the pairs taken use each candidate and box at most once and clear the threshold |
| Association.GreedyIsStable | services/ai-worker/ai_worker/tracking/bytetrack.py:91-101 | an admissible pair loses only to a conflicting taken pair standing before it |
| Association.GreedyIsHalfOptimal | services/ai-worker/ai_worker/tracking/bytetrack.py:91-101 | any other matching has at most twice the pairs and twice the total score |
| Association.AssociationQuality | services/ai-worker/ai_worker/tracking/bytetrack.py:76-105 | all of these at once for the association by IoU over predicted boxes; a pair is passed over only for one of its candidate or box at least as large in (IoU, candidate, box) |
| Tracks.MatchedGains | services/ai-worker/ai_worker/tracking/bytetrack.py:145-149 | matching adds to the points of the candidates exactly one point per pair |
| Tracks.FrameConserves | services/ai-worker/ai_worker/tracking/bytetrack.py:137-173 | a frame adds every confident detection once and beyond those at most each weak one once |
| Tracks.DetectionsAreConserved | services/ai-worker/ai_worker/tracking/bytetrack.py:133-175 | over any frames the points of all candidates are every confident detection exactly once, and otherwise only weak ones, each at most once |
| Tracks.EachDetectionHasOneOwner | services/ai-worker/ai_worker/tracking/bytetrack.py:133-175 | a detection occurring once belongs to exactly one candidate if confident, at most one if weak, none otherwise |
| Tracks.FateOfLive | services/ai-worker/ai_worker/tracking/bytetrack.py:142-163 | in a frame a live candidate gains one point from a strong or weak box or misses the frame, never both or two |
| Tracks.FateOfNewborn | services/ai-worker/ai_worker/tracking/bytetrack.py:165-170 | a new candidate starts on a confident box with the next ref |
| Tracks.RefsStayUnique | services/ai-worker/ai_worker/tracking/bytetrack.py:131-170 | the refs of all candidates are 1..n, each once, over any frames |
| Tracks.TracksAreContinuous | services/ai-worker/ai_worker/tracking/bytetrack.py:147-175 | points run in frame order at most `max_age + 1` frames apart from a confident start; `misses` is the frames since the last point |
| Tracks.ReturnedTracks | services/ai-worker/ai_worker/tracking/bytetrack.py:176-182 | the result is exactly the candidates with enough points, in order of the timestamp of their first point |
| Tracks.EveryTrackIsContinuous | services/ai-worker/ai_worker/tracking/bytetrack.py:147-182 | every returned track is continuous and long enough |
| Tracks.PredictionShiftsTheBox | services/ai-worker/ai_worker/tracking/bytetrack.py:52-61 | a prediction keeps the size and moves the centre by the velocity |
| Tracks.PredictionConverges | services/ai-worker/ai_worker/tracking/bytetrack.py:63-73 | under steady motion the prediction's error halves every frame |
| Lifetimes.LivesExactlyThatLong | services/ai-worker/ai_worker/tracking/bytetrack.py:160-171 | over numbered frames a candidate is live exactly when its last point is at most `max_age` frames old, and finished exactly otherwise |
| Lifetimes.NoFaintPoints | services/ai-worker/ai_worker/tracking/bytetrack.py:134-140 | no point of a track is below the low threshold and the first is confident |
| Lifetimes.EachIsMatchedOrMisses | services/ai-worker/ai_worker/tracking/bytetrack.py:142-163 | in a frame a live candidate moves to a confident box its prediction overlaps by `match_iou`, or to a weak one by `rescue_iou`, or misses the frame |
| Lifetimes.NoClaimIsMissed | services/ai-worker/ai_worker/tracking/bytetrack.py:142-146 | where a prediction overlaps a confident box enough, that candidate or that box is in a match of the frame at least as good |
| Lifetimes.NoRescueIsMissed | services/ai-worker/ai_worker/tracking/bytetrack.py:149-158 | and the same for weak boxes among the candidates that claimed no confident one |
| Lifetimes.AStillPlayerIsOneTrack | services/ai-worker/ai_worker/tracking/bytetrack.py:128-189 | a player standing still, later sometimes faint or hidden but never longer than `max_age` frames, is exactly one track with every sighting |
| ByteTracker.Candidate.Update | services/ai-worker/ai_worker/tracking/bytetrack.py:63-73 | the object afterwards looks like `Updated` of what it was |
| ByteTracker.ScorePairs | services/ai-worker/ai_worker/tracking/bytetrack.py:84-88 | the nested loops score every candidate-box pair once |
| ByteTracker.TakeGreedily | services/ai-worker/ai_worker/tracking/bytetrack.py:91-101 | the loop with its two used sets and early break takes the greedy pairs |
| ByteTracker.Associate | services/ai-worker/ai_worker/tracking/bytetrack.py:76-105 | the chosen pairs, and exactly the rest of each side in ascending order |
| ByteTracker.Claim | services/ai-worker/ai_worker/tracking/bytetrack.py:145-149 | each pair's object gains its box and no other changes; the refs returned are those of the claimed |
| ByteTracker.Rescue | services/ai-worker/ai_worker/tracking/bytetrack.py:151-163 | weak boxes rescue leftovers, and exactly the unrescued miss the frame |
| ByteTracker.ProcessFrame | services/ai-worker/ai_worker/tracking/bytetrack.py:133-175 | one frame on the objects is `Frame` on the values, finished objects untouched |
| ByteTracker.TrackFrames | services/ai-worker/ai_worker/tracking/bytetrack.py:128-189 | the tracker returns `TracksOf` the frames, the subject of the theorems above |
| Rounding.Round3Near | packages/shared/matchly_shared/highlights/selection.py:46 | rounding moves a value by at most half a thousandth |
| Rounding.Round3Monotone | packages/shared/matchly_shared/highlights/selection.py:46 | rounding keeps order |
| Rounding.Round3Fixes | packages/shared/matchly_shared/highlights/selection.py:46 | exactly the whole thousandths round to themselves |
| Rounding.TiesGoToEven | packages/shared/matchly_shared/highlights/selection.py:46 | half-way values go to the even neighbour |
| Selection.OverlapIsAFraction | packages/shared/matchly_shared/highlights/selection.py:27-33 | the fraction is in 0..1 and 1 for a clip inside another, so a long clip cannot hide a short one |
| Selection.WindowHoldsItsMoment | packages/shared/matchly_shared/highlights/selection.py:36-46 | before rounding the window holds its moment, within the rolls and the recording |
| Selection.IsCrowded | packages/shared/matchly_shared/highlights/selection.py:67-70 | the inner loop finds an over-overlapping kept clip exactly when there is one |
| Selection.SelectClips | packages/shared/matchly_shared/highlights/selection.py:49-75 | the loop computes `Select` |
| Selection.SelectionMeetsItsSpecification | packages/shared/matchly_shared/highlights/selection.py:49-75 | survivors are eligible windows in match order, pairwise within the threshold, within the cap; every other eligible candidate crowds one scoring at least as high or the cap is full of such |
| Selection.TheBestIsShown | packages/shared/matchly_shared/highlights/selection.py:56-75 | the best eligible candidate, and of those that tie the first in the list, always has its clip |
| Selection.StartsStrictlyIncrease | packages/shared/matchly_shared/highlights/selection.py:74-75 | with threshold below 1 and positive lengths, starts strictly increase |
| Selection.ReselectingIsTheIdentity | packages/shared/matchly_shared/highlights/selection.py:49-75 | selecting among the survivors again returns them unchanged, even with tied scores |
| Selection.InputOrderDoesNotMatter | packages/shared/matchly_shared/highlights/selection.py:56-60 | with distinct eligible scores the result ignores the order of the input |
| Selection.StartsAreSpread | packages/shared/matchly_shared/highlights/selection.py:67-71 | neighbours that may overlap by a fraction t start at least (1 - t) of the shorter length apart |
| Selection.ClipsFit | packages/shared/matchly_shared/highlights/selection.py:62-75 | n clips of a length need (n - 1)(1 - t) lengths and one more, so their number is bounded whatever the candidates |
| Selection.RoomIs | packages/shared/matchly_shared/highlights/selection.py:62-75 | the room of n clips in closed form |
| Selection.UnclampedClipsFit | packages/shared/matchly_shared/highlights/selection.py:36-75 | for unclamped windows the packing bound holds at pre + post less the millisecond of rounding |
| Selection.WholeMillisecondClipsFit | packages/shared/matchly_shared/highlights/selection.py:36-75 | on whole milliseconds the packing bound is exact |
| Selection.WindowEdges | packages/shared/matchly_shared/highlights/selection.py:36-46 | exactly where a window opens and closes: the rolls around the moment, the edges of the recording, or a second for an empty one |
| Selection.OverlapOfShifted | packages/shared/matchly_shared/highlights/selection.py:27-33 | windows of one length shifted by part of it overlap by the part left |
| Selection.OverlapExactly | packages/shared/matchly_shared/highlights/selection.py:27-33 | windows overlap at all exactly when each starts before the other ends |
| Signals.ScaledKeepsOrder | services/ai-worker/ai_worker/highlights/signals.py:84 | scaled values lie in 0..1, keep their order and reach both ends |
| Signals.Extremes | services/ai-worker/ai_worker/highlights/signals.py:80-81 | the loop finds the lowest and highest value |
| Signals.Normalise | services/ai-worker/ai_worker/highlights/signals.py:68-84 | keys are kept and values lie in 0..1: 0.5 throughout for a series as good as constant, otherwise scaled |
| Signals.Fuse | services/ai-worker/ai_worker/highlights/signals.py:210-237 | the loop computes `Fused` |
| Signals.FusedIsExact | services/ai-worker/ai_worker/highlights/signals.py:225-237 | moments are exactly those of buckets with something to show, in order, with scores in 0..0.99 |
| Signals.ScoreIsAMean | services/ai-worker/ai_worker/highlights/signals.py:229 | a score lies between the least and the greatest contribution of its bucket |
| Signals.WeightsAreRelative | services/ai-worker/ai_worker/highlights/signals.py:219-229 | scaling all weights changes nothing |
| Signals.WeightsApportion | services/ai-worker/ai_worker/highlights/signals.py:229-234 | a signal showing more raises the uncapped score by that much times its share of the total weight, silence scores nothing, and the score is the uncapped one, at most 0.99, rounded |
| Signals.ALoneSignalDecides | services/ai-worker/ai_worker/highlights/signals.py:213-234 | with one signal the score is its value, whatever its weight |
| Signals.BucketsCover | services/ai-worker/ai_worker/highlights/signals.py:48-49 | every time in the recording falls into a bucket and none starts after its end |
| Peaks.FindPeaks | services/ai-worker/ai_worker/highlights/heuristic.py:75-93 | the loop computes `PeaksOf` |
| Peaks.LocalMaximaOnly | services/ai-worker/ai_worker/highlights/heuristic.py:75-93 | the result is exactly the local maxima, no two neighbours, or everything when there are none |
| Peaks.PeaksStayInOrder | services/ai-worker/ai_worker/highlights/heuristic.py:84-93 | the peaks keep the order of the moments, each once |
| Peaks.PeaksWrittenOut | services/ai-worker/ai_worker/highlights/heuristic.py:84-93 | a peak is at least 0.02 above the moment before and not below the one after; fewer than three moments, or none that peak, are all kept |
| Peaks.CandidatesAreNeverRejected | packages/shared/matchly_shared/highlights/base.py:82-86 | no detected moment fails the candidate's checks |
| Peaks.ExactWindowsFit | packages/shared/matchly_shared/highlights/selection.py:36-46 | for pre-roll of half a second or more, 0 <= start < end <= duration before rounding |
| Peaks.WindowsHaveLength | packages/shared/matchly_shared/highlights/selection.py:42-46 | for pre-roll of half a second or more, the rounded clip has positive length exactly when the recording lasts more than half a millisecond, or, up to a pre-roll of 0.5005, that much past the start of the clip's second |
| Peaks.RoundingMayEmptyAClip | packages/shared/matchly_shared/highlights/selection.py:46 | for instance, with a pre-roll of half a second a non-empty window rounds to an empty one |
| Peaks.ClipsShowPeaks | services/ai-worker/ai_worker/highlights/heuristic.py:39-72 | every clip is the window of a peak that scores high enough |
| Peaks.TheBestPeakIsShown | services/ai-worker/ai_worker/highlights/heuristic.py:39-72 | the highest peak, the first of those that tie, always has its clip |
| Peaks.ReelIsWellFormed | services/ai-worker/ai_worker/highlights/heuristic.py:39-72 | from any signals to clips, on a recording that outlasts what its last second needs: positive lengths, strictly increasing starts, stable under selecting again |
| Sampling.ThinningIsEven | services/ai-worker/ai_worker/steps/cv.py:90-96 | thinning keeps exactly `limit` elements at strictly increasing places from the first |
| Sampling.ReportedWithinAPeriod | services/ai-worker/ai_worker/detection/yolo.py:84-92 | a kept frame is reported less than one original period after its true time, never before, while the effective rate is at least 0.01 |
| Sampling.SlowRatesAreMisreported | services/ai-worker/ai_worker/detection/yolo.py:89 | below that rate a frame far enough in is reported too early by any number of periods |
| Sampling.RateDecidesTiming | services/ai-worker/ai_worker/steps/cv.py:90-96 | a stride times every kept frame of every recording it thins within a period exactly when the rate is at least 0.01 |
| Sampling.Detect | services/ai-worker/ai_worker/detection/yolo.py:68-92 | batching numbers the frames in a row and times each by its number |
| Sampling.DetectionsAreNumbered | services/ai-worker/ai_worker/detection/yolo.py:84-92 | a detection run hands on what the model saw, numbered in a row and timed by number, so the tracker's continuity holds of it |
| Moments.IsTooNear | services/ai-worker/ai_worker/jersey/recognizer.py:44 | the inner loop finds a chosen point within the gap exactly when there is one |
| Moments.ChooseMoments | services/ai-worker/ai_worker/jersey/recognizer.py:26-52 | the loop computes `Chosen` |
| Moments.MomentsAreWellChosen | services/ai-worker/ai_worker/jersey/recognizer.py:37-48 | at most `limit` points, each as often as it occurs, in time order and pairwise the gap apart; every other point is within the gap of a chosen one at least as large, or `limit` are chosen and all are at least as large |
| Moments.GapWrittenOut | services/ai-worker/ai_worker/jersey/recognizer.py:39 | the gap is half a second or the track's span over twice the limit, whichever is longer, and none for a single instant |
| Voting.CountReads | services/ai-worker/ai_worker/jersey/voting.py:108-112 | the dictionaries hold each number's confidence and votes, in order of first appearance, and sum to all confidence |
| Voting.RunVote | services/ai-worker/ai_worker/jersey/voting.py:70-145 | the procedure returns `Vote` |
| Verdicts.AcceptedIffWins | services/ai-worker/ai_worker/jersey/voting.py:124-137 | a number is accepted exactly when it has the votes, the share, and the margin over every other number |
| Verdicts.AcceptedIsTheStrictMaximum | services/ai-worker/ai_worker/jersey/voting.py:117-137 | an accepted number is allowed, was read, and strictly outweighs every other |
| Verdicts.OrderAndUnusableReadsDoNotMatter | services/ai-worker/ai_worker/jersey/voting.py:90-112 | shuffling reads and adding or dropping unusable ones leaves number and confidence as they are |
| Verdicts.MoreEvidenceNeverHurts | services/ai-worker/ai_worker/jersey/voting.py:117-137 | another usable read for an accepted number keeps it accepted and never lowers its confidence |
| Verdicts.VerdictTells | services/ai-worker/ai_worker/jersey/voting.py:107-145 | the verdict tells the votes and share of the heaviest number, everyone's share, and the first bar it fails; a number is given exactly when it fails none |
| Verdicts.NothingToVoteOn | services/ai-worker/ai_worker/jersey/voting.py:90-104 | without a usable read there is no number and the verdict says so |
| Roster.CheckIn.InsertPlayer | apps/api/app/services/match_service.py:251-284 | inserts unless a unique index objects, and says which |
| Roster.CheckIn.JoinMatch | apps/api/app/services/match_service.py:287-325 | the pre-checks on the loaded roster, then the constrained insert, as `Apply` |
| Roster.CheckIn.AddPlayerAsOperator | apps/api/app/services/match_service.py:328-365 | the operator's check-in with its override, as `Apply` |
| Roster.CheckIn.UpdatePlayer | apps/api/app/services/match_service.py:368-404 | the operator's edit: only changed columns are written, under the index |
| Roster.CheckIn.LeaveMatch | apps/api/app/services/match_service.py:407-418 | leaves while check-in is open, as `Apply` |
| Roster.CheckIn.RemovePlayer | apps/api/app/services/match_service.py:421-423 | removes the row if it is still there |
| Roster.RequestKeepsSafe | apps/api/app/services/match_service.py:251-423 | whatever a request saw when it began, its write keeps one row per user and one un-overridden row per number and team |
| Roster.RostersStaySafe | packages/shared/matchly_shared/domain/models.py:353-368 | so every interleaving with every staleness leaves a safe roster |
| Roster.FreshChecksSuffice | apps/api/app/services/match_service.py:301-309 | on the current roster, what the pre-checks let through no index rejects |
| Roster.FreshJoinSucceedsExactly | apps/api/app/services/match_service.py:287-318 | on the current roster a join succeeds exactly when open, consented, new, and the number unworn on the team |
| Roster.StaleJoinIsDecidedByTheIndexes | apps/api/app/services/match_service.py:266-283 | once a stale pre-check has passed, the join stands or falls with the rows themselves |
| RosterEffects.JoinIsStored | apps/api/app/services/match_service.py:250-318 | a join answered with success, on any snapshot, adds exactly one row with what was asked |
| RosterEffects.AddIsStored | apps/api/app/services/match_service.py:328-365 | so does an operator's add, with its override |
| RosterEffects.UpdateIsStored | apps/api/app/services/match_service.py:366-404 | on a fresh snapshot an edit leaves exactly the row asked for and no other row changes |
| RosterEffects.StaleUpdateIsStored | apps/api/app/services/match_service.py:366-404 | on a stale one each column is the one asked for if that differs from what was loaded, and otherwise the current one |
| RosterEffects.LeavingIsStored | apps/api/app/services/match_service.py:406-418 | a player who left is gone and nobody else is |
| RosterEffects.RemovalIsStored | apps/api/app/services/match_service.py:421-423 | a removed player is gone and nobody else is |
| RosterEffects.JoinAnswers | apps/api/app/services/match_service.py:287-318 | every answer a join gets on the current roster, and when |
| RosterEffects.AddAnswers | apps/api/app/services/match_service.py:328-365 | every answer an operator's add gets, and when |
| RosterEffects.UpdateAnswers | apps/api/app/services/match_service.py:366-404 | every answer an edit gets, and when |
| RosterEffects.GoingAnswers | apps/api/app/services/match_service.py:406-423 | every answer leaving and removing get, and when |
| Roster.TakenJerseys | apps/api/app/services/match_service.py:217-221 | per team, the sorted numbers worn: exactly those the pre-check refuses |
| Roster.RegisteredNumbers | services/ai-worker/ai_worker/steps/cv.py:319-335 | exactly the numbers one row in the match wears, each leading to that row |
| Roster.OneNumberOnBothTeams | services/ai-worker/ai_worker/steps/cv.py:326-335 | in a safe roster, a number no overridden row wears is worn and unregistered exactly when both teams wear it |
| Attribution.AcceptedIsRegistered | services/ai-worker/ai_worker/steps/cv.py:281-300 | an accepted number is always registered, so the lookup never fails, and the vote never divides by zero |
| Attribution.ReadsOfATrack | services/ai-worker/ai_worker/steps/cv.py:268-278 | a track's reads are those of its readings, all of them and in order |
| Attribution.GroupByTrack | services/ai-worker/ai_worker/steps/cv.py:268-278 | each track gets its own reads, in order |
| Attribution.ReadJerseys | services/ai-worker/ai_worker/steps/cv.py:252-302 | every stored track takes its own verdict and no other row changes |
| Attribution.AttributionIsUnambiguous | services/ai-worker/ai_worker/steps/cv.py:319-335 | whoever a track is attributed to is the only player wearing the number |
| Attribution.TracksAreAttributed | services/ai-worker/ai_worker/steps/cv.py:281-302 | with an accepted number a track's row has that number, the verdict's confidence and the one player wearing it; without one it stays |
| Otp.AuthService.CountRecent | apps/api/app/services/auth_service.py:73-78 | the query counts the phone's challenges since the window's start |
| Otp.AuthService.RequestCode | apps/api/app/services/auth_service.py:64-106 | a challenge is stored unless the window is full or sending fails |
| Otp.AuthService.VerifyCode | apps/api/app/services/auth_service.py:109-162 | the attempt is counted before the code is compared, as `Verify` |
| Otp.RequestsPerWindow | apps/api/app/services/auth_service.py:73-84 | any closed window of the configured length holds at most the configured number of challenges per phone |
| Otp.GuessesPerChallenge | apps/api/app/services/auth_service.py:134-154 | each challenge gets at most the configured number of checks, its attempts count them, and it signs in at most once |
| Otp.GuessesPerInterval | apps/api/app/services/auth_service.py:73-154 | over an interval no longer than window minus lifetime a phone's codes are checked at most the product of the two limits |
| Otp.MatchesExactly | apps/api/app/services/auth_service.py:119-145 | a verification matches the newest live challenge, in time, with attempts left, by its code, and no other |
| Otp.MatchedCodeMatchesAgainExactly | apps/api/app/services/auth_service.py:134-159 | a matched code matches again exactly when its sign-in failed, an attempt is left and it has not expired |
| Otp.MatchesPerChallenge | apps/api/app/services/auth_service.py:134-159 | over any events nothing is compared with a challenge after it signed in, so it is matched at most once more than its sign-ins failed |
| Otp.FailedSignInLeavesTheCodeUsable | apps/api/app/services/auth_service.py:145-159 | for instance, a code whose first match signed nobody in is then used to sign in |
| OtpAnswers.VerifyAnswers | apps/api/app/services/auth_service.py:109-162 | each of the six answers to a verification, exactly when the newest live challenge and the submitted code call for it |
| OtpAnswers.VerifyLeaves | apps/api/app/services/auth_service.py:127-159 | only the newest live challenge changes: one more attempt whenever the code was compared, used up by a sign-in or by asking once too often |
| OtpAnswers.NothingToVerify | apps/api/app/services/auth_service.py:119-127 | without a live challenge nothing changes |
| OtpAnswers.RequestAnswers | apps/api/app/services/auth_service.py:73-98 | each answer to a request, by the number of challenges of the phone in the window; only a sent code leaves a challenge |
| RefreshTokens.TokenService.NewSignIn | apps/api/app/services/auth_service.py:183-193 | issues the first token of a new chain |
| RefreshTokens.TokenService.Rotate | apps/api/app/services/auth_service.py:196-220 | revokes the presented token and issues its successor, or refuses |
| RefreshTokens.TokenService.RevokeOne | apps/api/app/services/auth_service.py:223-233 | revokes the user's own live token and is otherwise silent |
| RefreshTokens.TokenService.RevokeEverything | apps/api/app/services/auth_service.py:236-246 | revokes exactly the user's live tokens and counts them |
| RefreshTokens.ChainsNeverFork | apps/api/app/services/auth_service.py:196-220 | over any requests a sign-in never has two unrevoked tokens |
| RefreshTokens.RotatesOnce | apps/api/app/services/auth_service.py:204-213 | a token buys one rotation: presented again, at any later time, it is refused |
| RefreshTokens.RefreshAnswers | apps/api/app/services/auth_service.py:196-220 | a refresh is granted exactly to a known, unrevoked, unexpired token of an active user; it revokes that token and issues the next of its chain |
| RefreshTokens.SignInAnswers | apps/api/app/services/auth_service.py:183-193 | a sign-in issues the first token of a chain of its own |
| RefreshTokens.SignOutAnswers | apps/api/app/services/auth_service.py:223-233 | signing out revokes exactly the user's own unrevoked token |
| RefreshTokens.SignOutEverywhereAnswers | apps/api/app/services/auth_service.py:236-246 | signing out everywhere leaves the user no working token, counts them and touches nothing else |
| RefreshProtocol.ApiClient.StartRequest | apps/web/src/lib/api.ts:58-72 | a call goes out once |
| RefreshProtocol.ApiClient.TryRefresh | apps/web/src/lib/api.ts:103-126 | joins the refresh in flight, or starts one if there is a token, or answers at once |
| RefreshProtocol.ApiClient.OnResponse | apps/web/src/lib/api.ts:72-98 | a 401 on a first try waits for a refresh; anything else ends the call |
| RefreshProtocol.ApiClient.OnRefreshSettled | apps/web/src/lib/api.ts:109-123 | stores the new tokens, ends the flight and wakes exactly the waiting calls |
| RefreshProtocol.ApiClient.Resume | apps/web/src/lib/api.ts:79-84 | a woken call replays once, or forgets the tokens |
| RefreshProtocol.StepKeepsInvariant | apps/web/src/lib/api.ts:58-126 | every step of client, network and server keeps the protocol's invariant |
| RefreshProtocol.ProtocolIsSafe | apps/web/src/lib/api.ts:58-126 | in every interleaving without a lost reply: one refresh at a time, no rotated token presented, no call sent more than twice, no waiting call without a refresh, no forked chain |
| RefreshProtocol.PromptnessSurvivesLostReplies | apps/web/src/lib/api.ts:75-123 | the same with lost replies, when woken calls go on before the next response is handled, as they do in a browser |
| RefreshProtocol.LateWakePresentsARotatedToken | apps/web/src/lib/api.ts:103-123 | promptness is needed: from every signed-in state the abstract schedule that handles a 401 between a lost refresh settling and its caller waking (in a browser one turn) presents the same token again, a rotated one exactly when the server had accepted it |
| Replay.WaitingCallsAreReplayed | apps/web/src/lib/api.ts:75-80 | from any reachable world, once a refresh succeeds a waiting call goes out a second time with the new token stored |
| Replay.WaitingCallsGiveUp | apps/web/src/lib/api.ts:75-82 | once it fails a waiting call ends after its one send and the tokens are forgotten |
| Replay.StartSendsOnce | apps/web/src/lib/api.ts:53-74 | a new call is sent once, as a first try, and nothing else changes |
| Replay.ResponseDoes | apps/web/src/lib/api.ts:75-126 | what a response does: a first 401 waits, starting a refresh with exactly the stored token if none is in flight; anything else ends the call |
| Replay.SettlingWakesExactlyTheWaiting | apps/web/src/lib/api.ts:109-123 | a settling refresh wakes every waiting call and touches no other |
| Replay.ARefusedCallGoesOutAgain | apps/web/src/lib/api.ts:58-123 | from any signed-in state a call that meets a 401 while the server takes the stored token is sent again with the new token |

## Left out

- ffmpeg, the detector, the recognizer and storage: their answers are parameters.
- Hashing, signatures and random tokens: fingerprints are their own preimages, codes are compared directly and secrets are fresh.
- A missing video (`LookupError` in `run_pipeline`) and the insert race in `get_or_create_job`: one worker per video is assumed.
- Several workers on one video at once: the code gives no mutual exclusion.
- The pool of columns no rule reads (probe output, retention date, segment counts, playback urls) is one opaque field.
- The individual signals (motion, acceleration, density, direction, clustering, audio): `fuse` is given any series with values in 0..1; buckets are taken to be non-negative.
- The contributions a candidate carries and the kind of highlight named from them: they decide nothing downstream.
- Floating-point rounding error: arithmetic is on reals, and only `round(_, 3)` is modelled.
- The letter `t` in front of a track's number.
- Normalising and scaling positions when tracks are stored, and the vote distribution stored beside them.
- Concurrent one-time-code requests: requests are taken one after another on one clock, and of challenges made at the same instant the later one counts as newer.
- Limits of zero for thinning, moments and batches, where the source divides by zero or refuses the range.
- Creating user accounts, and which of two violated constraints the database reports first (the user's is taken to be).
- Sign-in, sign-out, other tabs and blocked storage during the refresh protocol; access tokens are only accepted or not.
- Listing, visibility, pagination, scheduling, notifications, retention and the web pages.
- Verdicts.AcceptedIffWins: assumes positive confidences and a positive margin, as configured; with a margin of zero a tie goes to the number seen first.
