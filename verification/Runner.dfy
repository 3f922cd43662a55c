/**
 * The pipeline runner. Part one says what a walk does to the rows, as functions;
 * part two is the runner itself, a session whose methods update rows, commit and
 * roll back, proved to do exactly that.
 */
module Runner {
  import opened Domain
  import opened Manifest

  // ----- Steps and workers -----

  /** How a step function ends: a result, StepSkipped, or any other exception. */
  datatype Ending = Done(result: string) | NothingToDo(reason: string) | Raised(error: string)

  /** The rows as the step left them in its transaction, and how it ended. */
  datatype Outcome = Outcome(video: Video, game: Option<Match>, ending: Ending)

  type StepFn = (Video, Option<Match>) -> Outcome

  /** One process: the steps registered in it, its settings and what its clock will say. */
  datatype Worker = Worker(
    registry: map<JobStep, StepFn>,
    settings: Settings,
    startedAt: JobStep -> int,
    finishedAt: JobStep -> int)

  // ----- Row updates -----

  const NEW_JOB := Job(JobStatus.Pending, 0, None, "", None, None, None)

  const STUCK_JOB_TIMEOUT_SECONDS := 90 * 60

  function Clip(s: string, limit: nat): string {
    if |s| <= limit then s else s[..limit]
  }

  function StepName(step: JobStep): string {
    match step
    case Validate => "VALIDATE"
    case Probe => "PROBE"
    case Transcode => "TRANSCODE"
    case SampleFrames => "SAMPLE_FRAMES"
    case DetectPlayers => "DETECT_PLAYERS"
    case Track => "TRACK"
    case JerseyOcr => "JERSEY_OCR"
    case ScoreEvents => "SCORE_EVENTS"
    case CutClips => "CUT_CLIPS"
    case Thumbnails => "THUMBNAILS"
    case Persist => "PERSIST"
  }

  function WithJob(db: Db, step: JobStep): Db {
    if step in db.jobs then db else db.(jobs := db.jobs[step := NEW_JOB])
  }

  function Begin(db: Db): Db {
    db.(video := db.video.(status := VideoStatus.Processing),
        game := match db.game case None => None case Some(m) => Some(m.(status := MatchStatus.Processing)))
  }

  function RunningRow(job: Job, mark: Fingerprint, now: int): Job {
    job.(status := JobStatus.Running, attempts := job.attempts + 1, startedAt := Some(now),
         finishedAt := None, lastError := None, fingerprint := Some(mark))
  }

  function EndedRow(job: Job, ending: Ending, now: int): Job {
    match ending
    case Done(result) =>
      job.(status := JobStatus.Succeeded, result := result, lastError := None, finishedAt := Some(now))
    case NothingToDo(reason) => job.(status := JobStatus.Skipped, result := reason, finishedAt := Some(now))
    case Raised(error) =>
      job.(status := JobStatus.Failed, lastError := Some(Clip(error, 4000)), finishedAt := Some(now))
  }

  predicate ShouldSkip(job: Job, mark: Fingerprint, force: bool) {
    !force && job.status == JobStatus.Succeeded && job.fingerprint == Some(mark)
  }

  function ReapRow(job: Job, now: int): Job {
    if Stuck(job, now) then
      job.(status := JobStatus.Pending, finishedAt := None,
           lastError := Some("Reset by the reaper: the worker running this step disappeared."))
    else job
  }

  predicate Stuck(job: Job, now: int) {
    job.status == JobStatus.Running && job.startedAt.Some? && job.startedAt.value < now - STUCK_JOB_TIMEOUT_SECONDS
  }

  function Reaped(db: Db, now: int): Db {
    db.(jobs := map s | s in db.jobs :: ReapRow(db.jobs[s], now))
  }

  function FailedVideo(db: Db, step: JobStep, error: string): Db {
    var reason := Clip(StepName(step) + " failed: " + error, 1000);
    db.(video := db.video.(status := VideoStatus.Failed, failureReason := Some(reason)),
        game := if db.game.None? then None else Some(Match(MatchStatus.Failed, Some(reason))))
  }

  function Settled(db: Db, pending: seq<JobStep>): Db {
    if exists s :: s in pending && s in REQUIRED_STEPS then
      db.(video := db.video.(status := VideoStatus.Processing))
    else
      db.(video := db.video.(status := VideoStatus.Ready),
          game := match db.game case None => None case Some(m) => Some(m.(status := MatchStatus.Ready)))
  }

  // ----- What a walk does -----

  /** What became of one step of a walk. */
  datatype Report = Unregistered | Cached | Ran(ending: Ending)

  /** The rows after a visit, what became of the step, and the rows each commit published. */
  datatype Visited = Visited(db: Db, report: Report, published: seq<Db>)

  /** The rows `_mark_running` publishes before the step is called. */
  function Started(w: Worker, step: JobStep, before: Db): Db {
    var db := WithJob(before, step);
    var mark := StepFingerprint(db.video, step, w.settings);
    db.(jobs := db.jobs[step := RunningRow(db.jobs[step], mark, w.startedAt(step))])
  }

  function Visit(w: Worker, force: bool, step: JobStep, before: Db): Visited {
    var db := WithJob(before, step);
    if step !in w.registry then Visited(db, Unregistered, [])
    else if ShouldSkip(db.jobs[step], StepFingerprint(db.video, step, w.settings), force) then Visited(db, Cached, [])
    else
      var running := Started(w, step, before);
      var o := w.registry[step](running.video, running.game);
      var row := EndedRow(running.jobs[step], o.ending, w.finishedAt(step));
      var after :=
        if o.ending.Done?
        then running.(video := o.video, game := o.game, jobs := running.jobs[step := row])
        else running.(jobs := running.jobs[step := row]);
      Visited(after, Ran(o.ending), [running, after])
  }

  datatype Walked = Walked(db: Db, visits: seq<(JobStep, Report)>, published: seq<Db>)

  predicate Stops(step: JobStep, report: Report) {
    step in REQUIRED_STEPS && report.Ran? && report.ending.Raised?
  }

  function Walk(w: Worker, force: bool, steps: seq<JobStep>, db: Db): Walked {
    if steps == [] then Walked(db, [], [])
    else
      var v := Visit(w, force, steps[0], db);
      if Stops(steps[0], v.report) then Walked(v.db, [(steps[0], v.report)], v.published)
      else
        var rest := Walk(w, force, steps[1..], v.db);
        Walked(rest.db, [(steps[0], v.report)] + rest.visits, v.published + rest.published)
  }

  predicate Stopped(visits: seq<(JobStep, Report)>) {
    visits != [] && Stops(visits[|visits|-1].0, visits[|visits|-1].1)
  }

  function StopReason(step: JobStep, report: Report): Option<(JobStep, string)> {
    if Stops(step, report) then Some((step, report.ending.error)) else None
  }

  /** The required failure that ended the walk, if one did. */
  function FailureOf(visits: seq<(JobStep, Report)>): Option<(JobStep, string)> {
    if visits == [] then None else StopReason(visits[|visits|-1].0, visits[|visits|-1].1)
  }

  /** Two walks, one after the other: the second happens only if the first was not stopped. */
  function Then(first: Walked, second: Walked): Walked {
    if Stopped(first.visits) then first
    else Walked(second.db, first.visits + second.visits, first.published + second.published)
  }

  lemma {:induction false} WalkSplit(w: Worker, force: bool, a: seq<JobStep>, b: seq<JobStep>, db: Db)
    ensures var first := Walk(w, force, a, db);
            Walk(w, force, a + b, db) == Then(first, Walk(w, force, b, first.db))
  {
    hide Visit, Stops;
    if a == [] {
      assert a + b == b;
    } else {
      var v := Visit(w, force, a[0], db);
      assert (a + b)[0] == a[0] && (a + b)[1..] == a[1..] + b;
      if !Stops(a[0], v.report) {
        WalkSplit(w, force, a[1..], b, v.db);
        var first, rest := Walk(w, force, a, db), Walk(w, force, a[1..], v.db);
        assert Stopped(first.visits) == Stopped(rest.visits);
        hide Walk;
        hide Stopped;
      }
    }
  }

  lemma WalkStep(w: Worker, force: bool, steps: seq<JobStep>, i: nat, db: Db)
    requires i < |steps| && !Stopped(Walk(w, force, steps[..i], db).visits)
    ensures var before := Walk(w, force, steps[..i], db);
            var v := Visit(w, force, steps[i], before.db);
            Walk(w, force, steps[..i+1], db)
            == Walked(v.db, before.visits + [(steps[i], v.report)], before.published + v.published)
  {
    assert steps[..i+1] == steps[..i] + [steps[i]];
    WalkSplit(w, force, steps[..i], [steps[i]], db);
  }

  // The four lists of a result, as the visits that belong in each.

  predicate IsExecuted(r: Report) { r.Ran? && r.ending.Done? }
  predicate IsSkipped(r: Report) { r.Cached? || (r.Ran? && r.ending.NothingToDo?) }
  predicate IsFailed(r: Report) { r.Ran? && r.ending.Raised? }
  predicate IsPending(r: Report) { r.Unregistered? }

  function Those(visits: seq<(JobStep, Report)>, p: Report -> bool): seq<JobStep> {
    if visits == [] then []
    else
      var last := visits[|visits|-1];
      Those(visits[..|visits|-1], p) + (if p(last.1) then [last.0] else [])
  }

  datatype PipelineResult = PipelineResult(
    executed: seq<JobStep>,
    skipped: seq<JobStep>,
    failed: seq<JobStep>,
    pending: seq<JobStep>,
    status: VideoStatus)

  function ResultOf(visits: seq<(JobStep, Report)>, status: VideoStatus): PipelineResult {
    PipelineResult(Those(visits, IsExecuted), Those(visits, IsSkipped), Those(visits, IsFailed),
                   Those(visits, IsPending), status)
  }

  function StepsOf(only: Option<JobStep>): seq<JobStep> {
    match only case None => PIPELINE_ORDER case Some(step) => [step]
  }

  lemma NoVisits()
    ensures ResultOf([], VideoStatus.Ready) == PipelineResult([], [], [], [], VideoStatus.Ready)
  {
  }

  lemma OneMoreVisit(visits: seq<(JobStep, Report)>, step: JobStep, report: Report)
    ensures ResultOf(visits + [(step, report)], VideoStatus.Ready)
            == Appended(ResultOf(visits, VideoStatus.Ready), step, report)
  {
    var more := visits + [(step, report)];
    assert more[..|more|-1] == visits;
  }

  function Appended(r: PipelineResult, step: JobStep, report: Report): PipelineResult {
    r.(executed := r.executed + (if IsExecuted(report) then [step] else []),
       skipped := r.skipped + (if IsSkipped(report) then [step] else []),
       failed := r.failed + (if IsFailed(report) then [step] else []),
       pending := r.pending + (if IsPending(report) then [step] else []))
  }

  datatype Finished = Finished(db: Db, visits: seq<(JobStep, Report)>, published: seq<Db>)
  {
    function Result(): PipelineResult { ResultOf(visits, db.video.status) }
  }

  /** The end of a run: the video is failed, settled, or (single step) left alone. */
  function Ended(visits: seq<(JobStep, Report)>, only: Option<JobStep>, db: Db): (r: Db)
    ensures r.jobs == db.jobs
    ensures r.video.(status := db.video.status, failureReason := db.video.failureReason) == db.video
  {
    match FailureOf(visits)
    case Some(f) => FailedVideo(db, f.0, f.1)
    case None => if only.Some? then db else Settled(db, Those(visits, IsPending))
  }

  function Run(w: Worker, force: bool, only: Option<JobStep>, db: Db): Finished {
    var start := if only.None? then Begin(db) else db;
    var walked := Walk(w, force, StepsOf(only), start);
    var final := Ended(walked.visits, only, walked.db);
    Finished(final, walked.visits, (if only.None? then [start] else []) + walked.published + [final])
  }

  // ----- The runner -----

  /** A database session: the rows it sees, and the rows everyone else sees. */
  class Session {
    var committed: Db
    var working: Db
    ghost var published: seq<Db>

    constructor (db: Db)
      ensures committed == working == db && published == []
    {
      committed, working, published := db, db, [];
    }

    method Commit()
      modifies this
      ensures committed == working == old(working) && published == old(published) + [working]
    {
      committed := working;
      published := published + [working];
    }

    method Rollback()
      modifies this`working
      ensures working == committed
    {
      working := committed;
    }

    method GetOrCreateJob(step: JobStep) returns (job: Job)
      modifies this`working
      ensures working == WithJob(old(working), step) && step in working.jobs && job == working.jobs[step]
    {
      if step !in working.jobs {
        working := working.(jobs := working.jobs[step := NEW_JOB]);
      }
      job := working.jobs[step];
    }

    method SetJob(step: JobStep, job: Job)
      modifies this`working
      ensures working == old(working).(jobs := old(working).jobs[step := job])
    {
      working := working.(jobs := working.jobs[step := job]);
    }

    method MarkRunning(step: JobStep, mark: Fingerprint, now: int)
      requires step in working.jobs
      modifies this
      ensures committed == working
      ensures working ==
                old(working).(jobs := old(working).jobs[step := RunningRow(old(working).jobs[step], mark, now)])
      ensures published == old(published) + [working]
    {
      var job := working.jobs[step];
      job := job.(status := JobStatus.Running);
      job := job.(attempts := job.attempts + 1);
      job := job.(startedAt := Some(now), finishedAt := None, lastError := None);
      job := job.(fingerprint := Some(mark));
      SetJob(step, job);
      Commit();
    }

    /** `_mark_succeeded`, `_mark_skipped` and `_mark_failed`: one for each way a step ends. */
    method MarkEnded(step: JobStep, ending: Ending, now: int)
      requires step in working.jobs
      modifies this
      ensures committed == working
      ensures working ==
                old(working).(jobs := old(working).jobs[step := EndedRow(old(working).jobs[step], ending, now)])
      ensures published == old(published) + [working]
    {
      var job := working.jobs[step];
      match ending {
        case Done(result) => job := job.(status := JobStatus.Succeeded, result := result, lastError := None);
        case NothingToDo(reason) => job := job.(status := JobStatus.Skipped, result := reason);
        case Raised(error) => job := job.(status := JobStatus.Failed, lastError := Some(Clip(error, 4000)));
      }
      job := job.(finishedAt := Some(now));
      SetJob(step, job);
      Commit();
    }

    method FailVideo(step: JobStep, error: string)
      modifies this
      ensures committed == working == FailedVideo(old(working), step, error)
      ensures published == old(published) + [working]
    {
      var reason := Clip(StepName(step) + " failed: " + error, 1000);
      working := working.(video := working.video.(status := VideoStatus.Failed, failureReason := Some(reason)));
      if working.game.Some? {
        working := working.(game := Some(Match(MatchStatus.Failed, Some(reason))));
      }
      Commit();
    }

    method Settle(pending: seq<JobStep>, only: Option<JobStep>) returns (status: VideoStatus)
      modifies this
      ensures committed == working == if only.Some? then old(working) else Settled(old(working), pending)
      ensures published == old(published) + [working] && status == working.video.status
    {
      if only.None? {
        if exists s :: s in pending && s in REQUIRED_STEPS {
          working := working.(video := working.video.(status := VideoStatus.Processing));
        } else {
          working := working.(video := working.video.(status := VideoStatus.Ready));
          if working.game.Some? {
            working := working.(game := Some(working.game.value.(status := MatchStatus.Ready)));
          }
        }
      }
      Commit();
      status := working.video.status;
    }

    /** The body of the loop over the steps. */
    method VisitStep(w: Worker, force: bool, step: JobStep) returns (report: Report)
      modifies this
      ensures var v := Visit(w, force, step, old(working));
              && working == v.db && report == v.report
              && published == old(published) + v.published
              && committed == if v.published == [] then old(committed) else working
    {
      var job := GetOrCreateJob(step);
      if step !in w.registry {
        return Unregistered;
      }
      var mark := StepFingerprint(working.video, step, w.settings);
      if ShouldSkip(job, mark, force) {
        return Cached;
      }
      MarkRunning(step, mark, w.startedAt(step));
      var outcome := w.registry[step](working.video, working.game);
      working := working.(video := outcome.video, game := outcome.game);
      if !outcome.ending.Done? {
        Rollback();
      }
      MarkEnded(step, outcome.ending, w.finishedAt(step));
      report := Ran(outcome.ending);
    }

    /** The loop over the steps, up to the first required step that fails. */
    method WalkSteps(w: Worker, force: bool, steps: seq<JobStep>)
      returns (executed: seq<JobStep>, skipped: seq<JobStep>, failed: seq<JobStep>, pending: seq<JobStep>,
               failure: Option<(JobStep, string)>)
      requires working == committed
      modifies this
      ensures var walked := Walk(w, force, steps, old(working));
              && working == walked.db
              && published == old(published) + walked.published
              && PipelineResult(executed, skipped, failed, pending, VideoStatus.Ready) ==
                   ResultOf(walked.visits, VideoStatus.Ready)
              && failure == FailureOf(walked.visits)
    {
      hide Visit;
      hide Stops;
      hide ResultOf;
      ghost var start, base := working, published;
      executed, skipped, failed, pending, failure := [], [], [], [], None;
      ghost var walked := Walk(w, force, [], start);
      assert walked.visits == [] && walked.published == [];
      NoVisits();
      hide Walk;
      var i := 0;
      while i < |steps|
        invariant 0 <= i <= |steps| && walked == Walk(w, force, steps[..i], start) && !Stopped(walked.visits)
        invariant working == walked.db && published == base + walked.published
        invariant PipelineResult(executed, skipped, failed, pending, VideoStatus.Ready) ==
                    ResultOf(walked.visits, VideoStatus.Ready)
      {
        var step := steps[i];
        WalkStep(w, force, steps, i, start);
        var report := VisitStep(w, force, step);
        OneMoreVisit(walked.visits, step, report);
        walked := Walk(w, force, steps[..i+1], start);
        executed := executed + (if IsExecuted(report) then [step] else []);
        skipped := skipped + (if IsSkipped(report) then [step] else []);
        failed := failed + (if IsFailed(report) then [step] else []);
        pending := pending + (if IsPending(report) then [step] else []);
        if Stops(step, report) {
          assert steps[..i+1] + steps[i+1..] == steps;
          WalkSplit(w, force, steps[..i+1], steps[i+1..], start);
          failure := StopReason(step, report);
          return;
        }
        i := i + 1;
      }
      assert steps[..i] == steps;
    }

    method RunPipeline(w: Worker, force: bool, only: Option<JobStep>) returns (result: PipelineResult)
      requires working == committed
      modifies this
      ensures var r := Run(w, force, only, old(working));
              && working == committed == r.db
              && published == old(published) + r.published
              && result == r.Result()
    {
      hide Walk;
      hide Those;
      if only.None? {
        working := Begin(working);
        Commit();
      }
      var executed, skipped, failed, pending, failure := WalkSteps(w, force, StepsOf(only));
      var status := VideoStatus.Failed;
      match failure {
        case Some(f) => FailVideo(f.0, f.1);
        case None => status := Settle(pending, only);
      }
      result := PipelineResult(executed, skipped, failed, pending, status);
    }

    /** Returns abandoned jobs to PENDING and counts them. */
    method ReapStuckJobs(now: int) returns (count: nat)
      modifies this
      ensures committed == working == Reaped(old(working), now)
      ensures published == old(published) + [working]
      ensures count == |set s | s in old(working).jobs && Stuck(old(working).jobs[s], now)|
    {
      var was := working.jobs;
      var stuck := set s | s in was && Stuck(was[s], now);
      var todo := stuck;
      while todo != {}
        invariant todo <= stuck && working == old(working).(jobs := working.jobs)
        invariant committed == old(committed) && published == old(published)
        invariant working.jobs.Keys == was.Keys
        invariant forall s | s in was :: working.jobs[s] == if s in todo then was[s] else ReapRow(was[s], now)
        decreases todo
      {
        var s :| s in todo;
        SetJob(s, ReapRow(working.jobs[s], now));
        todo := todo - {s};
      }
      assert working.jobs == Reaped(old(working), now).jobs;
      Commit();
      count := |stuck|;
    }
  }
}
