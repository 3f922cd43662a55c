/** Which steps a walk runs, what it leaves in their rows, and when the next walk has nothing to do. */
module Execution {
  import opened Domain
  import opened Manifest
  import opened Runner
  import opened Sequences

  // ----- What steps are trusted with -----

  /** Both videos are the same upload: the fingerprints cannot tell them apart. */
  ghost predicate SameUpload(v: Video, u: Video) {
    && v.id == u.id
    && v.segments == u.segments
    && (v.segments == map[] ==> v.originalUrl == u.originalUrl)
  }

  /** A step never changes the manifest, and writes `original_url` only when there are segments to join. */
  ghost predicate KeepsUpload(f: StepFn) {
    forall v: Video, g: Option<Match> {:trigger f(v, g)} :: SameUpload(v, f(v, g).video)
  }

  ghost predicate Trusted(w: Worker) {
    forall s | s in w.registry :: KeepsUpload(w.registry[s])
  }

  function Position(step: JobStep): (i: nat)
    ensures i < |PIPELINE_ORDER| && PIPELINE_ORDER[i] == step
  {
    match step
    case Validate => 0
    case Probe => 1
    case Transcode => 2
    case SampleFrames => 3
    case DetectPlayers => 4
    case Track => 5
    case JerseyOcr => 6
    case ScoreEvents => 7
    case CutClips => 8
    case Thumbnails => 9
    case Persist => 10
  }

  lemma PipelineOrder()
    ensures Distinct(PIPELINE_ORDER) && |PIPELINE_ORDER| == 11
    ensures forall s: JobStep :: s in PIPELINE_ORDER
    ensures PIPELINE_ORDER[10] == Persist
  {
    forall s: JobStep ensures s in PIPELINE_ORDER {
      assert PIPELINE_ORDER[Position(s)] == s;
    }
    assert forall i | 0 <= i < 11 :: Position(PIPELINE_ORDER[i]) == i;
  }

  // ----- The rows a walk leaves -----

  function Row(db: Db, step: JobStep): Job {
    if step in db.jobs then db.jobs[step] else NEW_JOB
  }

  function Mark(w: Worker, step: JobStep, db: Db): Fingerprint {
    StepFingerprint(db.video, step, w.settings)
  }

  predicate UpToDate(w: Worker, step: JobStep, db: Db) {
    Row(db, step).status == JobStatus.Succeeded && Row(db, step).fingerprint == Some(Mark(w, step, db))
  }

  function RowAfter(w: Worker, step: JobStep, report: Report, db: Db): Job {
    match report
    case Ran(ending) =>
      EndedRow(RunningRow(Row(db, step), Mark(w, step, db), w.startedAt(step)), ending, w.finishedAt(step))
    case _ => Row(db, step)
  }

  /** What becomes of a step is decided by the registry and the row the walk found. */
  ghost predicate Expected(w: Worker, force: bool, step: JobStep, report: Report, db: Db) {
    && (report.Unregistered? <==> step !in w.registry)
    && (report.Cached? <==> step in w.registry && !force && UpToDate(w, step, db))
  }

  function ReportOf(w: Worker, force: bool, step: JobStep, db: Db): Report {
    if step !in w.registry then Unregistered
    else if !force && UpToDate(w, step, db) then Cached
    else Ran(w.registry[step](db.video, db.game).ending)
  }

  /** A visit, told row by row: only the step's own row changes, and only a result publishes what the step wrote. */
  lemma VisitShape(w: Worker, force: bool, step: JobStep, db: Db)
    ensures var v, report := Visit(w, force, step, db), ReportOf(w, force, step, db);
            && v.report == report
            && v.db.jobs == db.jobs[step := RowAfter(w, step, report, db)]
            && v.published == (if report.Ran? then [Started(w, step, db), v.db] else [])
            && if report.Ran? && report.ending.Done?
               then var o := w.registry[step](db.video, db.game); v.db.video == o.video && v.db.game == o.game
               else v.db.video == db.video && v.db.game == db.game
  {
    hide StepFingerprint;
    hide EndedRow;
    hide RunningRow;
  }

  lemma StartedShape(w: Worker, step: JobStep, db: Db)
    ensures var running := Started(w, step, db);
            && running.video == db.video && running.game == db.game
            && running.jobs == db.jobs[step := RunningRow(Row(db, step), Mark(w, step, db), w.startedAt(step))]
  {
    hide StepFingerprint;
    hide RunningRow;
  }

  lemma VisitFacts(w: Worker, force: bool, step: JobStep, db: Db)
    requires Trusted(w)
    ensures var v := Visit(w, force, step, db);
            && Expected(w, force, step, v.report, db)
            && v.db.jobs == db.jobs[step := RowAfter(w, step, v.report, db)]
            && SameUpload(db.video, v.db.video)
  {
    VisitShape(w, force, step, db);
    hide Visit;
    if step in w.registry {
      assert KeepsUpload(w.registry[step]);
    }
  }

  lemma SameMark(w: Worker, step: JobStep, a: Db, b: Db)
    requires SameUpload(a.video, b.video)
    ensures Mark(w, step, a) == Mark(w, step, b)
  {
  }

  ghost predicate AccountedFor(w: Worker, force: bool, step: JobStep, report: Report, db: Db, after: Db) {
    && Expected(w, force, step, report, db)
    && step in after.jobs
    && after.jobs[step] == RowAfter(w, step, report, db)
  }

  ghost predicate Untouched(step: JobStep, db: Db, after: Db) {
    (step in after.jobs <==> step in db.jobs) && Row(after, step) == Row(db, step)
  }

  /** Everything about a walk's rows and reports, in terms of the rows it started from. */
  ghost predicate Accounts(w: Worker, force: bool, steps: seq<JobStep>, db: Db, walked: Walked) {
    && |walked.visits| <= |steps|
    && (!Stopped(walked.visits) ==> |walked.visits| == |steps|)
    && SameUpload(db.video, walked.db.video)
    && (forall i | 0 <= i < |walked.visits| ::
          walked.visits[i].0 == steps[i] && AccountedFor(w, force, steps[i], walked.visits[i].1, db, walked.db))
    && (forall i | 0 <= i < |walked.visits| - 1 :: !Stops(steps[i], walked.visits[i].1))
    && (forall s | s !in steps[..|walked.visits|] :: Untouched(s, db, walked.db))
  }

  lemma {:induction false} WalkAccounts(w: Worker, force: bool, steps: seq<JobStep>, db: Db)
    requires Trusted(w) && Distinct(steps)
    ensures Accounts(w, force, steps, db, Walk(w, force, steps, db))
  {
    if steps != [] {
      var v := Visit(w, force, steps[0], db);
      var walked := Walk(w, force, steps, db);
      VisitFacts(w, force, steps[0], db);
      hide Visit;
      if !Stops(steps[0], v.report) {
        var rest := Walk(w, force, steps[1..], v.db);
        WalkAccounts(w, force, steps[1..], v.db);
        AccountsExtends(w, force, steps, db, v, rest);
      }
    }
  }

  lemma AccountedEarlier(w: Worker, force: bool, step: JobStep, report: Report, db: Db, v: Db, after: Db)
    requires SameUpload(db.video, v.video) && Row(v, step) == Row(db, step)
    requires AccountedFor(w, force, step, report, v, after)
    ensures AccountedFor(w, force, step, report, db, after)
  {
    SameMark(w, step, db, v);
  }

  lemma AccountsExtends(w: Worker, force: bool, steps: seq<JobStep>, db: Db, v: Visited, rest: Walked)
    requires Distinct(steps) && steps != []
    requires Expected(w, force, steps[0], v.report, db) && SameUpload(db.video, v.db.video)
    requires v.db.jobs == db.jobs[steps[0] := RowAfter(w, steps[0], v.report, db)]
    requires !Stops(steps[0], v.report) && Accounts(w, force, steps[1..], v.db, rest)
    ensures Accounts(w, force, steps, db,
              Walked(rest.db, [(steps[0], v.report)] + rest.visits, v.published + rest.published))
  {
    hide Expected;
    hide RowAfter;
    hide Stops;
    var visits := [(steps[0], v.report)] + rest.visits;
    var seen := steps[1..][..|rest.visits|];
    assert steps[..|visits|] == [steps[0]] + seen;
    assert forall i | 0 <= i < |seen| :: seen[i] == steps[i+1];
    assert steps[0] !in seen;
    assert Untouched(steps[0], v.db, rest.db);
    forall i | 0 <= i < |visits|
      ensures visits[i].0 == steps[i] && AccountedFor(w, force, steps[i], visits[i].1, db, rest.db)
    {
      if i > 0 {
        assert visits[i] == rest.visits[i-1] && steps[i] == steps[1..][i-1];
        AccountedEarlier(w, force, steps[i], visits[i].1, db, v.db, rest.db);
      }
    }
    forall i | 0 <= i < |visits| - 1 ensures !Stops(steps[i], visits[i].1) {
      if i > 0 {
        assert visits[i] == rest.visits[i-1] && steps[i] == steps[1..][i-1];
      }
    }
    forall s | s !in steps[..|visits|] ensures Untouched(s, db, rest.db) {
      assert s !in seen && s != steps[0];
      assert Untouched(s, v.db, rest.db);
    }
  }

  // ----- The execution set -----

  predicate IsRan(r: Report) { r.Ran? }

  function StepsSeen(visits: seq<(JobStep, Report)>): seq<JobStep> {
    seq(|visits|, i requires 0 <= i < |visits| => visits[i].0)
  }

  /** The registered steps whose row is not a success at the current fingerprint, in order. */
  function Due(w: Worker, steps: seq<JobStep>, db: Db): seq<JobStep> {
    if steps == [] then []
    else
      var last := steps[|steps|-1];
      Due(w, steps[..|steps|-1], db) + (if last in w.registry && !UpToDate(w, last, db) then [last] else [])
  }

  lemma {:induction false} RanAreDue(w: Worker, visits: seq<(JobStep, Report)>, db: Db)
    requires forall i | 0 <= i < |visits| :: Expected(w, false, visits[i].0, visits[i].1, db)
    ensures Those(visits, IsRan) == Due(w, StepsSeen(visits), db)
  {
    hide UpToDate;
    if visits != [] {
      var rest := visits[..|visits|-1];
      RanAreDue(w, rest, db);
      assert StepsSeen(visits)[..|visits|-1] == StepsSeen(rest);
      assert Expected(w, false, visits[|visits|-1].0, visits[|visits|-1].1, db);
    }
  }

  function Listed(r: PipelineResult): multiset<JobStep> {
    multiset(r.executed) + multiset(r.skipped) + multiset(r.failed) + multiset(r.pending)
  }

  lemma OneMoreListed(r: PipelineResult, step: JobStep, report: Report)
    ensures Listed(Appended(r, step, report)) == Listed(r) + multiset{step}
  {
  }

  /** Every visited step is in exactly one of the four lists of the result, exactly once. */
  lemma {:induction false} ListsPartitionVisits(visits: seq<(JobStep, Report)>)
    ensures Listed(ResultOf(visits, VideoStatus.Ready)) == multiset(StepsSeen(visits))
  {
    if visits == [] {
      NoVisits();
    } else {
      var rest := visits[..|visits|-1];
      var (step, report) := visits[|visits|-1];
      ListsPartitionVisits(rest);
      assert visits == rest + [(step, report)];
      assert StepsSeen(visits) == StepsSeen(rest) + [step];
      OneMoreVisit(rest, step, report);
      OneMoreListed(ResultOf(rest, VideoStatus.Ready), step, report);
      hide ResultOf;
      hide Listed;
    }
  }

  lemma {:induction false} InThose(visits: seq<(JobStep, Report)>, p: Report -> bool, step: JobStep)
    ensures step in Those(visits, p) <==> exists i :: 0 <= i < |visits| && visits[i].0 == step && p(visits[i].1)
  {
    if visits != [] {
      var last := |visits| - 1;
      InThose(visits[..last], p, step);
      if i :| 0 <= i < |visits| && visits[i].0 == step && p(visits[i].1) {
        assert i < last ==> visits[..last][i] == visits[i];
      }
      if i :| 0 <= i < last && visits[..last][i].0 == step && p(visits[..last][i].1) {
        assert visits[i].0 == step;
      }
    }
  }

  /**
   * An unforced walk runs, in pipeline order, exactly the due steps of the prefix it
   * visits; the prefix is the whole pipeline, or ends at the first required failure;
   * and `attempts` counts exactly the runs.
   */
  lemma {:induction false} ExecutionSet(w: Worker, db: Db)
    requires Trusted(w)
    ensures var r := Run(w, false, None, db);
            var n := |r.visits|;
            && n <= 11 && StepsSeen(r.visits) == PIPELINE_ORDER[..n]
            && Those(r.visits, IsRan) == Due(w, PIPELINE_ORDER[..n], db)
            && (n < 11 ==> Stopped(r.visits))
            && (forall i | 0 <= i < n - 1 :: !Stops(r.visits[i].0, r.visits[i].1))
            && (forall s :: Row(r.db, s).attempts
                            == Row(db, s).attempts + if s in Due(w, PIPELINE_ORDER[..n], db) then 1 else 0)
  {
    var r := Run(w, false, None, db);
    hide Run;
    RunAccounts(w, false, db);
    RanInAccounts(w, r, db);
    AttemptsFollowRuns(w, r, db);
    hide Those, Due, Row, AccountedFor, Untouched, SameUpload, Stopped;
  }

  lemma RanInAccounts(w: Worker, r: Finished, db: Db)
    requires Accounts(w, false, PIPELINE_ORDER, db, Walked(r.db, r.visits, []))
    ensures var n := |r.visits|;
            && n <= 11 && StepsSeen(r.visits) == PIPELINE_ORDER[..n]
            && Those(r.visits, IsRan) == Due(w, PIPELINE_ORDER[..n], db)
  {
    hide UpToDate, RowAfter;
    assert StepsSeen(r.visits) == PIPELINE_ORDER[..|r.visits|];
    RanAreDue(w, r.visits, db);
  }

  lemma AttemptsFollowRuns(w: Worker, r: Finished, db: Db)
    requires Accounts(w, false, PIPELINE_ORDER, db, Walked(r.db, r.visits, []))
    ensures forall s :: Row(r.db, s).attempts == Row(db, s).attempts + if s in Those(r.visits, IsRan) then 1 else 0
  {
    hide Accounts, Row, Those;
    forall s ensures Row(r.db, s).attempts == Row(db, s).attempts + if s in Those(r.visits, IsRan) then 1 else 0 {
      AttemptsCountRuns(w, r, db, s);
    }
  }

  lemma OneAttemptEach(w: Worker, step: JobStep, report: Report, db: Db)
    ensures RowAfter(w, step, report, db).attempts == Row(db, step).attempts + if report.Ran? then 1 else 0
  {
    hide Mark, Clip;
  }

  lemma AttemptsCountRuns(w: Worker, r: Finished, db: Db, s: JobStep)
    requires Accounts(w, false, PIPELINE_ORDER, db, Walked(r.db, r.visits, []))
    ensures Row(r.db, s).attempts == Row(db, s).attempts + if s in Those(r.visits, IsRan) then 1 else 0
  {
    InThose(r.visits, IsRan, s);
    var i := Position(s);
    PipelineOrder();
    hide Expected, RowAfter, Those;
    if i < |r.visits| {
      assert AccountedFor(w, false, s, r.visits[i].1, db, r.db);
      OneAttemptEach(w, s, r.visits[i].1, db);
      assert forall j | 0 <= j < |r.visits| && r.visits[j].0 == s :: j == i;
    } else {
      assert Untouched(s, db, r.db);
    }
  }

  /** The accounts of a full run, stated over the rows before and after it. */
  lemma RunAccounts(w: Worker, force: bool, db: Db)
    requires Trusted(w)
    ensures var r := Run(w, force, None, db);
            Accounts(w, force, PIPELINE_ORDER, db, Walked(r.db, r.visits, []))
  {
    PipelineOrder();
    var r := Run(w, force, None, db);
    var walked := Walk(w, force, PIPELINE_ORDER, Begin(db));
    assert r.db.jobs == walked.db.jobs && r.visits == walked.visits && SameUpload(walked.db.video, r.db.video);
    hide Run, Walk, PIPELINE_ORDER, Accounts, Distinct;
    WalkAccounts(w, force, PIPELINE_ORDER, Begin(db));
    SameAccounts(w, force, PIPELINE_ORDER, Begin(db), walked, db, r.db);
  }

  /** Accounts look only at the upload and the rows. */
  lemma SameAccounts(w: Worker, force: bool, steps: seq<JobStep>, a: Db, walked: Walked, b: Db, after: Db)
    requires Accounts(w, force, steps, a, walked)
    requires b.jobs == a.jobs && SameUpload(b.video, a.video)
    requires after.jobs == walked.db.jobs && SameUpload(walked.db.video, after.video)
    ensures Accounts(w, force, steps, b, Walked(after, walked.visits, []))
  {
    hide Stops, Expected, RowAfter;
    forall i | 0 <= i < |walked.visits|
      ensures AccountedFor(w, force, steps[i], walked.visits[i].1, b, after)
    {
      AccountedEarlier(w, force, steps[i], walked.visits[i].1, b, a, walked.db);
    }
    forall s | s !in steps[..|walked.visits|] ensures Untouched(s, b, after) {
      assert Untouched(s, a, walked.db);
    }
  }

  // ----- The verdict -----

  predicate VisitedStep(visits: seq<(JobStep, Report)>, step: JobStep) {
    step in StepsSeen(visits)
  }

  predicate FailedStep(visits: seq<(JobStep, Report)>, step: JobStep) {
    step in Those(visits, IsFailed)
  }

  /**
   * The final status of a full run, forced or not: FAILED exactly when a required
   * step failed, READY exactly when none did and all are registered, and otherwise
   * PROCESSING. READY and FAILED are also the match's status, and READY means every
   * required row is a success at the current fingerprint or was skipped by its step.
   */
  lemma Verdict(w: Worker, force: bool, db: Db)
    requires Trusted(w)
    ensures var r := Run(w, force, None, db);
            var failed := exists s | s in REQUIRED_STEPS :: FailedStep(r.visits, s);
            && (r.db.video.status == VideoStatus.Failed <==> failed)
            && (r.db.video.status == VideoStatus.Ready <==> !failed && REQUIRED_STEPS <= w.registry.Keys)
            && (!failed && !(REQUIRED_STEPS <= w.registry.Keys) ==> r.db.video.status == VideoStatus.Processing)
            && (r.db.video.status == VideoStatus.Failed && r.db.game.Some? ==>
                 r.db.game.value.status == MatchStatus.Failed)
            && (r.db.video.status == VideoStatus.Ready && r.db.game.Some? ==>
                 r.db.game.value.status == MatchStatus.Ready)
            && (r.db.video.status == VideoStatus.Ready ==> forall s | s in REQUIRED_STEPS ::
                  UpToDate(w, s, r.db) || Row(r.db, s).status == JobStatus.Skipped)
  {
    var r := Run(w, force, None, db);
    RunAccounts(w, force, db);
    FailedStepStops(r.visits);
    if !Stopped(r.visits) {
      PendingAreUnregistered(w, force, db, r);
      if REQUIRED_STEPS <= w.registry.Keys {
        RequiredRows(w, force, db, r);
      }
    }
    EndedStatus(r.visits, Walk(w, force, PIPELINE_ORDER, Begin(db)).db);
    hide Walk;
    hide Accounts;
    hide FailedStep;
    hide UpToDate;
    hide Ended;
  }

  lemma EndedStatus(visits: seq<(JobStep, Report)>, db: Db)
    ensures var r := Ended(visits, None, db);
            && r.video.status == (if Stopped(visits) then VideoStatus.Failed
                                  else if exists s :: s in Those(visits, IsPending) && s in REQUIRED_STEPS
                                  then VideoStatus.Processing else VideoStatus.Ready)
            && (r.video.status == VideoStatus.Failed && r.game.Some? ==> r.game.value.status == MatchStatus.Failed)
            && (r.video.status == VideoStatus.Ready && r.game.Some? ==> r.game.value.status == MatchStatus.Ready)
  {
    hide Those;
    hide Clip;
  }

  /** The walk was stopped exactly when a required step failed. */
  lemma FailedStepStops(visits: seq<(JobStep, Report)>)
    requires forall i | 0 <= i < |visits| - 1 :: !Stops(visits[i].0, visits[i].1)
    ensures Stopped(visits) <==> exists s | s in REQUIRED_STEPS :: FailedStep(visits, s)
  {
    if Stopped(visits) {
      InThose(visits, IsFailed, visits[|visits|-1].0);
      assert FailedStep(visits, visits[|visits|-1].0);
    }
    forall s | s in REQUIRED_STEPS && FailedStep(visits, s) ensures Stopped(visits) {
      InThose(visits, IsFailed, s);
      var i :| 0 <= i < |visits| && visits[i].0 == s && IsFailed(visits[i].1);
      assert Stops(visits[i].0, visits[i].1);
    }
  }

  lemma PendingAreUnregistered(w: Worker, force: bool, db: Db, r: Finished)
    requires Accounts(w, force, PIPELINE_ORDER, db, Walked(r.db, r.visits, [])) && !Stopped(r.visits)
    ensures forall s: JobStep :: s in Those(r.visits, IsPending) <==> s !in w.registry
  {
    hide UpToDate;
    hide RowAfter;
    forall s: JobStep ensures s in Those(r.visits, IsPending) <==> s !in w.registry {
      InThose(r.visits, IsPending, s);
      var i := Position(s);
      assert AccountedFor(w, force, s, r.visits[i].1, db, r.db);
      if j :| 0 <= j < |r.visits| && r.visits[j].0 == s && IsPending(r.visits[j].1) {
        assert AccountedFor(w, force, s, r.visits[j].1, db, r.db);
      }
    }
  }

  lemma RequiredRows(w: Worker, force: bool, db: Db, r: Finished)
    requires Accounts(w, force, PIPELINE_ORDER, db, Walked(r.db, r.visits, [])) && !Stopped(r.visits)
    requires REQUIRED_STEPS <= w.registry.Keys
    ensures forall s | s in REQUIRED_STEPS :: UpToDate(w, s, r.db) || Row(r.db, s).status == JobStatus.Skipped
  {
    hide UpToDate;
    hide RowAfter;
    forall s | s in REQUIRED_STEPS ensures UpToDate(w, s, r.db) || Row(r.db, s).status == JobStatus.Skipped {
      var i := Position(s);
      assert AccountedFor(w, force, s, r.visits[i].1, db, r.db);
      UpToDateAfter(w, force, s, r.visits[i].1, db, r.db);
    }
  }

  lemma UpToDateAfter(w: Worker, force: bool, step: JobStep, report: Report, db: Db, after: Db)
    requires AccountedFor(w, force, step, report, db, after) && SameUpload(db.video, after.video)
    ensures report.Cached? || (report.Ran? && report.ending.Done?) ==> UpToDate(w, step, after)
    ensures report.Ran? && report.ending.NothingToDo? ==> Row(after, step).status == JobStatus.Skipped
  {
    SameMark(w, step, db, after);
  }

  /**
   * AI is an enhancement, never a dependency. Take any two full runs, by different
   * workers over different rows. If they have the same required steps registered and
   * every required step that both reach fails in both or in neither, the final video
   * status is the same: optional steps may succeed, skip, fail or be absent.
   */
  lemma OptionalStepsCannotAffectTheVerdict(w1: Worker, w2: Worker, force1: bool, force2: bool, db1: Db, db2: Db)
    requires Trusted(w1) && Trusted(w2)
    requires forall s | s in REQUIRED_STEPS :: s in w1.registry <==> s in w2.registry
    requires var v1, v2 := Run(w1, force1, None, db1).visits, Run(w2, force2, None, db2).visits;
             forall s | s in REQUIRED_STEPS && VisitedStep(v1, s) && VisitedStep(v2, s) ::
               FailedStep(v1, s) <==> FailedStep(v2, s)
    ensures Run(w1, force1, None, db1).db.video.status == Run(w2, force2, None, db2).db.video.status
  {
    Verdict(w1, force1, db1);
    Verdict(w2, force2, db2);
    RunVisitsPrefix(w1, force1, db1);
    RunVisitsPrefix(w2, force2, db2);
    hide Run;
    var v1, v2 := Run(w1, force1, None, db1).visits, Run(w2, force2, None, db2).visits;
    SharedFailure(v1, v2);
    SharedFailure(v2, v1);
  }

  lemma RunVisitsPrefix(w: Worker, force: bool, db: Db)
    requires Trusted(w)
    ensures var visits := Run(w, force, None, db).visits;
            StepsSeen(visits) <= PIPELINE_ORDER && (|visits| < |PIPELINE_ORDER| ==> Stopped(visits))
  {
    RunAccounts(w, force, db);
  }

  /** The other walk either reaches the failing step, or stopped before it, at a step the first one reached. */
  lemma SharedFailure(v1: seq<(JobStep, Report)>, v2: seq<(JobStep, Report)>)
    requires StepsSeen(v1) <= PIPELINE_ORDER && StepsSeen(v2) <= PIPELINE_ORDER
    requires |v2| < |PIPELINE_ORDER| ==> Stopped(v2)
    requires forall s | s in REQUIRED_STEPS && VisitedStep(v1, s) && VisitedStep(v2, s) ::
               FailedStep(v1, s) <==> FailedStep(v2, s)
    ensures (exists s | s in REQUIRED_STEPS :: FailedStep(v1, s)) ==>
              exists s | s in REQUIRED_STEPS :: FailedStep(v2, s)
  {
    if s :| s in REQUIRED_STEPS && FailedStep(v1, s) {
      InThose(v1, IsFailed, s);
      var i :| 0 <= i < |v1| && v1[i].0 == s && IsFailed(v1[i].1);
      assert StepsSeen(v1)[i] == s && PIPELINE_ORDER[i] == s;
      if |v2| <= i {
        InThose(v2, IsFailed, v2[|v2|-1].0);
        assert FailedStep(v2, v2[|v2|-1].0);
      } else {
        assert StepsSeen(v2)[i] == s;
      }
    }
  }

  // ----- Resume rather than redo -----

  /** Nothing failed and no step declined: each visited step ran to a result, was cached or is unregistered. */
  predicate AllSucceeded(visits: seq<(JobStep, Report)>) {
    forall i | 0 <= i < |visits| :: visits[i].1.Ran? ==> visits[i].1.ending.Done?
  }

  /** A worker with the same steps and settings; its clock and its step functions may differ. */
  predicate SameShape(w: Worker, w2: Worker) {
    w2.registry.Keys == w.registry.Keys && w2.settings == w.settings
  }

  /** A walk that finds every registered row up to date runs nothing and only fills in missing rows. */
  lemma {:induction false} UpToDateWalk(w: Worker, steps: seq<JobStep>, db: Db)
    requires forall s | s in steps :: s in db.jobs && (s in w.registry ==> UpToDate(w, s, db))
    ensures var walked := Walk(w, false, steps, db);
            && walked.db == db
            && StepsSeen(walked.visits) == steps
            && (forall i | 0 <= i < |walked.visits| :: !walked.visits[i].1.Ran?)
  {
    if steps != [] {
      hide StepFingerprint;
      var v := Visit(w, false, steps[0], db);
      assert steps[0] in steps && v.db == db && !v.report.Ran?;
      hide Visit;
      hide UpToDate;
      UpToDateWalk(w, steps[1..], db);
    }
  }

  lemma {:induction false} NothingRan(visits: seq<(JobStep, Report)>)
    requires forall i | 0 <= i < |visits| :: !visits[i].1.Ran?
    ensures Those(visits, IsRan) == []
  {
    if visits != [] {
      NothingRan(visits[..|visits|-1]);
    }
  }

  /**
   * A fixed point: after a run in which everything succeeded, the next unforced run
   * executes nothing and leaves the video and every job row as they are, although
   * VALIDATE wrote `original_url` in between; if the run was READY, so is the match.
   */
  lemma SecondRunRunsNothing(w: Worker, force: bool, db: Db, w2: Worker)
    requires Trusted(w) && SameShape(w, w2) && AllSucceeded(Run(w, force, None, db).visits)
    ensures var r := Run(w, force, None, db);
            var again := Run(w2, false, None, r.db);
            && Those(again.visits, IsRan) == []
            && again.db.video == r.db.video && again.db.jobs == r.db.jobs
            && (r.db.video.status == VideoStatus.Ready ==> again.db == r.db)
  {
    var r := Run(w, force, None, db);
    RunAccounts(w, force, db);
    FailedStepStops(r.visits);
    Verdict(w, force, db);
    AllUpToDate(w, force, db);
    QuietRun(w, w2, r.db);
  }

  lemma QuietRun(w: Worker, w2: Worker, db: Db)
    requires SameShape(w, w2)
    requires forall s: JobStep :: s in db.jobs && (s in w.registry ==> UpToDate(w, s, db))
    requires db.video.status ==
               (if REQUIRED_STEPS <= w.registry.Keys then VideoStatus.Ready else VideoStatus.Processing)
    requires db.video.status == VideoStatus.Ready && db.game.Some? ==> db.game.value.status == MatchStatus.Ready
    ensures var again := Run(w2, false, None, db);
            && Those(again.visits, IsRan) == []
            && again.db.video == db.video && again.db.jobs == db.jobs
            && (db.video.status == VideoStatus.Ready ==> again.db == db)
  {
    var start := Begin(db);
    StillUpToDate(w, w2, db);
    UpToDateWalk(w2, PIPELINE_ORDER, start);
    hide UpToDate;
    var again := Walk(w2, false, PIPELINE_ORDER, start);
    NothingRan(again.visits);
    assert FailureOf(again.visits) == None;
    hide Walk;
    QuietPending(w2, start, again.visits);
    hide Those;
    hide StepsSeen;
  }

  lemma StillUpToDate(w: Worker, w2: Worker, db: Db)
    requires SameShape(w, w2)
    requires forall s: JobStep :: s in db.jobs && (s in w.registry ==> UpToDate(w, s, db))
    ensures forall s: JobStep :: s in Begin(db).jobs && (s in w2.registry ==> UpToDate(w2, s, Begin(db)))
  {
    assert forall s: JobStep :: s in w2.registry ==> UpToDate(w, s, db);
  }

  lemma QuietPending(w: Worker, db: Db, visits: seq<(JobStep, Report)>)
    requires visits == Walk(w, false, PIPELINE_ORDER, db).visits && StepsSeen(visits) == PIPELINE_ORDER
    ensures forall s: JobStep :: s in Those(visits, IsPending) <==> s !in w.registry
  {
    forall s: JobStep ensures s in Those(visits, IsPending) <==> s !in w.registry {
      InThose(visits, IsPending, s);
      WalkPending(w, PIPELINE_ORDER, db, Position(s));
      assert visits[Position(s)].0 == StepsSeen(visits)[Position(s)];
      forall i | 0 <= i < |visits| && visits[i].0 == s && IsPending(visits[i].1) ensures s !in w.registry {
        WalkPending(w, PIPELINE_ORDER, db, i);
      }
    }
  }

  lemma {:induction false} WalkPending(w: Worker, steps: seq<JobStep>, db: Db, i: nat)
    requires i < |Walk(w, false, steps, db).visits|
    ensures var v := Walk(w, false, steps, db).visits[i]; v.1.Unregistered? <==> v.0 !in w.registry
  {
    VisitShape(w, false, steps[0], db);
    hide Visit;
    if i > 0 {
      WalkPending(w, steps[1..], Visit(w, false, steps[0], db).db, i - 1);
    }
  }

  lemma AllUpToDate(w: Worker, force: bool, db: Db)
    requires Trusted(w)
    requires AllSucceeded(Run(w, force, None, db).visits)
    ensures var r := Run(w, force, None, db);
            && !Stopped(r.visits) && |r.visits| == 11
            && forall s: JobStep :: s in r.db.jobs && (s in w.registry ==> UpToDate(w, s, r.db))
  {
    var r := Run(w, force, None, db);
    RunAccounts(w, force, db);
    PipelineOrder();
    hide UpToDate;
    forall s: JobStep ensures s in r.db.jobs && (s in w.registry ==> UpToDate(w, s, r.db)) {
      var i := Position(s);
      assert AccountedFor(w, force, s, r.visits[i].1, db, r.db);
      UpToDateAfter(w, force, s, r.visits[i].1, db, r.db);
    }
  }

  /**
   * A genuine re-upload re-runs everything: after an all-success run, a change of the
   * upload manifest that the fingerprint covers leaves no registered step cached.
   */
  lemma ReuploadRunsEverything(w: Worker, force: bool, db: Db, video: Video)
    requires Trusted(w)
    requires var r := Run(w, force, None, db);
             && AllSucceeded(r.visits)
             && StepFingerprint(video, Validate, w.settings) != StepFingerprint(r.db.video, Validate, w.settings)
    ensures var next := Run(w, false, None, Run(w, force, None, db).db.(video := video));
            forall i | 0 <= i < |next.visits| :: next.visits[i].1.Ran? <==> next.visits[i].0 in w.registry
  {
    var r := Run(w, force, None, db);
    var changed := r.db.(video := video);
    AllUpToDate(w, force, db);
    RunAccounts(w, false, changed);
    var next := Run(w, false, None, changed);
    forall i | 0 <= i < |next.visits| ensures next.visits[i].1.Ran? <==> next.visits[i].0 in w.registry {
      var s := next.visits[i].0;
      assert AccountedFor(w, false, s, next.visits[i].1, changed, next.db);
      FingerprintCoversInputs(video, r.db.video, Validate, w.settings);
      FingerprintCoversInputs(video, r.db.video, s, w.settings);
      assert Row(changed, s) == Row(r.db, s);
    }
  }
}
