/** A worker may die at any commit: what it leaves behind, and why running again completes the job. */
module Resume {
  import opened Domain
  import opened Manifest
  import opened Runner
  import opened Execution
  import opened Sequences

  // ----- What a dead worker leaves -----

  predicate SameCommit(a: Db, b: Db) { a.video == b.video && a.game == b.game }

  /** The video and match stand as some number of whole steps left them. */
  predicate AfterWholeSteps(w: Worker, force: bool, steps: seq<JobStep>, db: Db, c: Db) {
    exists i: nat :: i <= |steps| && SameCommit(c, Walk(w, force, steps[..i], db).db)
  }

  /**
   * A step publishes all of its writes or none: every state published during a walk
   * shows the video and match exactly as some number of whole steps left them.
   */
  lemma {:induction false} WholeStepsArePublished(w: Worker, force: bool, steps: seq<JobStep>, db: Db, c: Db)
    requires c in Walk(w, force, steps, db).published
    ensures AfterWholeSteps(w, force, steps, db, c)
  {
    var v := Visit(w, force, steps[0], db);
    if c in v.published {
      PublishedByAStep(w, force, steps, db, c);
    } else {
      hide Visit;
      WholeStepsArePublished(w, force, steps[1..], v.db, c);
      LaterSteps(w, force, steps, db, c);
    }
  }

  /** What the first step publishes is the rows before it or after it. */
  lemma PublishedByAStep(w: Worker, force: bool, steps: seq<JobStep>, db: Db, c: Db)
    requires steps != [] && c in Visit(w, force, steps[0], db).published
    ensures AfterWholeSteps(w, force, steps, db, c)
  {
    var v := Visit(w, force, steps[0], db);
    var running := v.published[0];
    assert running.video == db.video && running.game == db.game;
    hide Visit;
    if c == running {
      assert steps[..0] == [];
      assert Walk(w, force, steps[..0], db).db == db;
    } else {
      OneStepWalk(w, force, steps[0], db);
      assert steps[..1] == [steps[0]];
    }
  }

  /** Whole steps after the first are whole steps from the first. */
  lemma LaterSteps(w: Worker, force: bool, steps: seq<JobStep>, db: Db, c: Db)
    requires steps != [] && !Stops(steps[0], Visit(w, force, steps[0], db).report)
    requires AfterWholeSteps(w, force, steps[1..], Visit(w, force, steps[0], db).db, c)
    ensures AfterWholeSteps(w, force, steps, db, c)
  {
    hide Visit;
    var v := Visit(w, force, steps[0], db);
    var i: nat :| i <= |steps[1..]| && SameCommit(c, Walk(w, force, steps[1..][..i], v.db).db);
    assert steps[..i+1][0] == steps[0] && steps[..i+1][1..] == steps[1..][..i];
    assert Walk(w, force, steps[..i+1], db).db == Walk(w, force, steps[1..][..i], v.db).db;
  }

  lemma OneStepWalk(w: Worker, force: bool, step: JobStep, db: Db)
    ensures Walk(w, force, [step], db).db == Visit(w, force, step, db).db
  {
    hide Visit;
    assert [step][1..] == [];
  }

  lemma OtherRow(a: Db, b: Db, step: JobStep, row: Job, s: JobStep)
    requires b.jobs == a.jobs[step := row] && s != step
    ensures Untouched(s, a, b)
  {
  }

  lemma VisitKeepsOtherRow(w: Worker, step: JobStep, db: Db, c: Db, s: JobStep)
    requires Trusted(w) && s != step
    requires var v := Visit(w, false, step, db); c == v.db || c in v.published
    ensures SameUpload(db.video, c.video) && Untouched(s, db, c)
  {
    VisitShape(w, false, step, db);
    var v := Visit(w, false, step, db);
    if c == v.db {
      VisitFacts(w, false, step, db);
      OtherRow(db, c, step, RowAfter(w, step, v.report, db), s);
    } else {
      StartedShape(w, step, db);
      hide Visit;
      hide Started;
      OtherRow(db, c, step, RunningRow(Row(db, step), Mark(w, step, db), w.startedAt(step)), s);
    }
  }

  lemma {:induction false} PublishedKeepsOtherRow(w: Worker, steps: seq<JobStep>, db: Db, c: Db, s: JobStep)
    requires Trusted(w) && c in Walk(w, false, steps, db).published && s !in steps
    ensures SameUpload(db.video, c.video) && Untouched(s, db, c)
  {
    var step, rest := steps[0], steps[1..];
    var v := Visit(w, false, step, db);
    VisitKeepsOtherRow(w, step, db, v.db, s);
    if c in v.published {
      VisitKeepsOtherRow(w, step, db, c, s);
    } else {
      hide Visit;
      PublishedKeepsOtherRow(w, rest, v.db, c, s);
    }
  }

  // ----- Two runs in step -----

  /** Only PERSIST, the last step, writes the statuses of the video and the match. */
  ghost predicate LeavesStatus(f: StepFn) {
    forall v: Video, g: Option<Match> {:trigger f(v, g)} ::
      var o := f(v, g);
      && o.video.status == v.status
      && (o.game.Some? <==> g.Some?)
      && (g.Some? ==> o.game.value.status == g.value.status)
  }

  ghost predicate StatusesAreSettledLast(w: Worker) {
    forall s | s in w.registry && s != Persist :: LeavesStatus(w.registry[s])
  }

  /** The same steps and settings, read by another clock. */
  ghost predicate SameWorker(w: Worker, w2: Worker) {
    w2.registry == w.registry && w2.settings == w.settings
  }

  /** The same job row up to clock readings, `extra` attempts later. */
  predicate SameRow(a: Job, b: Job, extra: nat) {
    && b.status == a.status && b.fingerprint == a.fingerprint && b.result == a.result
    && b.lastError == a.lastError && b.attempts == a.attempts + extra
  }

  predicate SameRows(a: Db, b: Db, flight: Option<JobStep>) {
    && a.jobs.Keys == b.jobs.Keys
    && forall s | s in a.jobs :: SameRow(a.jobs[s], b.jobs[s], if flight == Some(s) then 1 else 0)
  }

  predicate Alike(a: Db, b: Db, flight: Option<JobStep>) {
    a.video == b.video && a.game == b.game && SameRows(a, b, flight)
  }

  function WithStatus(game: Option<Match>, status: MatchStatus): Option<Match> {
    match game
    case None => None
    case Some(m) => Some(m.(status := status))
  }

  /** The same video and match except for their statuses, which the end of the run decides. */
  predicate SameRecording(a: Db, b: Db) {
    && a.video.(status := b.video.status) == b.video
    && WithStatus(a.game, MatchStatus.Ready) == WithStatus(b.game, MatchStatus.Ready)
  }

  lemma AlikeWithRow(a: Db, b: Db, va: Db, vb: Db, step: JobStep, x: Job, y: Job, flight: Option<JobStep>)
    requires Alike(a, b, flight) && flight != Some(step) && SameRow(x, y, 0)
    requires va.jobs == a.jobs[step := x] && vb.jobs == b.jobs[step := y]
    requires va.video == vb.video && va.game == vb.game
    ensures Alike(va, vb, flight)
  {
    hide SameRow;
  }

  lemma VisitInStep(w: Worker, w2: Worker, step: JobStep, a: Db, b: Db, flight: Option<JobStep>)
    requires SameWorker(w, w2) && Alike(a, b, flight) && flight != Some(step)
    ensures var va, vb := Visit(w, false, step, a), Visit(w2, false, step, b);
            va.report == vb.report && Alike(va.db, vb.db, flight)
  {
    VisitShape(w, false, step, a);
    VisitShape(w2, false, step, b);
    var va, vb := Visit(w, false, step, a), Visit(w2, false, step, b);
    hide Visit;
    hide StepFingerprint;
    hide Clip;
    assert SameRow(Row(a, step), Row(b, step), 0);
    assert Mark(w, step, a) == Mark(w2, step, b);
    hide Alike;
    AlikeWithRow(a, b, va.db, vb.db, step, RowAfter(w, step, va.report, a), RowAfter(w2, step, vb.report, b), flight);
  }

  lemma {:induction false} WalkInStep(w: Worker, w2: Worker, steps: seq<JobStep>, a: Db, b: Db, flight: Option<JobStep>)
    requires SameWorker(w, w2) && Alike(a, b, flight)
    requires flight.Some? ==> flight.value !in steps
    ensures var wa, wb := Walk(w, false, steps, a), Walk(w2, false, steps, b);
            wa.visits == wb.visits && Alike(wa.db, wb.db, flight)
  {
    if steps != [] {
      VisitInStep(w, w2, steps[0], a, b, flight);
      hide Visit;
      var va, vb := Visit(w, false, steps[0], a), Visit(w2, false, steps[0], b);
      if !Stops(steps[0], va.report) {
        WalkInStep(w, w2, steps[1..], va.db, vb.db, flight);
      }
    }
  }

  // ----- Crash and resume -----

  /** The statuses read PROCESSING, as they do from the start of a run until PERSIST. */
  predicate Begun(db: Db) { db == Begin(db) }

  predicate PersistLast(steps: seq<JobStep>) {
    forall i | 0 <= i < |steps| - 1 :: steps[i] != Persist
  }

  /** What a resumed walk owes to the walk it resumes. */
  ghost predicate Completes(full: Walked, again: Walked, flight: Option<JobStep>, c: Db, w: Worker) {
    && !Stopped(again.visits)
    && SameRecording(full.db, again.db)
    && SameRows(full.db, again.db, flight)
    && (flight.Some? ==> Row(c, flight.value).status == JobStatus.Running && flight.value in w.registry)
  }

  lemma {:induction false} ResumeWalk(w: Worker, w2: Worker, steps: seq<JobStep>, a: Db, c: Db)
    returns (flight: Option<JobStep>)
    requires Trusted(w) && StatusesAreSettledLast(w) && SameWorker(w, w2)
    requires Distinct(steps) && PersistLast(steps) && Begun(a)
    requires AllSucceeded(Walk(w, false, steps, a).visits)
    requires c in Walk(w, false, steps, a).published
    ensures Completes(Walk(w, false, steps, a), Walk(w2, false, steps, Begin(c)), flight, c, w)
    decreases |steps|
  {
    var step, rest := steps[0], steps[1..];
    var v := Visit(w, false, step, a);
    FirstThenRest(w, steps, a);
    if v.published != [] && c == v.published[0] {
      flight := Some(step);
      ResumeInFlight(w, w2, steps, a, c);
    } else if v.published != [] && c == v.published[1] {
      flight := None;
      ResumeAfterStep(w, w2, steps, a, c);
    } else {
      assert rest != [];
      BegunUntilPersist(w, step, a);
      flight := ResumeWalk(w, w2, rest, v.db, c);
      PublishedKeepsOtherRow(w, rest, v.db, c, step);
      VisitFacts(w, false, step, a);
      hide Visit;
      assert Untouched(step, v.db, c);
      DoneStepIsQuiet(w, w2, step, a, v, c);
      CachedFirst(w, w2, steps, a, v, c, flight);
    }
  }

  lemma FirstThenRest(w: Worker, steps: seq<JobStep>, a: Db)
    requires steps != [] && AllSucceeded(Walk(w, false, steps, a).visits)
    ensures var v := Visit(w, false, steps[0], a);
            && (v.report.Ran? ==> v.report.ending.Done?)
            && !Stops(steps[0], v.report) && AllSucceeded(Walk(w, false, steps[1..], v.db).visits)
  {
    hide Visit;
    var walked, v := Walk(w, false, steps, a), Visit(w, false, steps[0], a);
    assert walked.visits[0] == (steps[0], v.report);
    var rest := Walk(w, false, steps[1..], v.db).visits;
    assert forall i | 0 <= i < |rest| :: rest[i] == walked.visits[i+1];
  }

  lemma BegunUntilPersist(w: Worker, step: JobStep, a: Db)
    requires StatusesAreSettledLast(w) && step != Persist && Begun(a)
    ensures Begun(Visit(w, false, step, a).db)
  {
    hide StepFingerprint;
    if step in w.registry {
      assert LeavesStatus(w.registry[step]);
    }
  }

  /** A finished (or unregistered) step is passed over without a trace by the resumed walk. */
  lemma DoneStepIsQuiet(w: Worker, w2: Worker, step: JobStep, a: Db, v: Visited, c: Db)
    requires SameWorker(w, w2) && Expected(w, false, step, v.report, a)
    requires v.db.jobs == a.jobs[step := RowAfter(w, step, v.report, a)]
    requires SameUpload(a.video, c.video) && Untouched(step, v.db, c)
    requires v.report.Ran? ==> v.report.ending.Done?
    ensures var again := Visit(w2, false, step, Begin(c));
            again == Visited(Begin(c), if v.report.Unregistered? then Unregistered else Cached, [])
  {
    SameMark(w, step, a, c);
    SameMark(w, step, a, Begin(c));
    hide StepFingerprint;
    assert Row(c, step) == RowAfter(w, step, v.report, a);
    assert Row(Begin(c), step) == Row(c, step);
  }

  lemma CachedFirst(w: Worker, w2: Worker, steps: seq<JobStep>, a: Db, v: Visited, c: Db, flight: Option<JobStep>)
    requires steps != [] && v == Visit(w, false, steps[0], a) && !Stops(steps[0], v.report)
    requires var again := Visit(w2, false, steps[0], Begin(c)); again.db == Begin(c) && !again.report.Ran?
    requires Completes(Walk(w, false, steps[1..], v.db), Walk(w2, false, steps[1..], Begin(c)), flight, c, w)
    ensures Completes(Walk(w, false, steps, a), Walk(w2, false, steps, Begin(c)), flight, c, w)
  {
    hide Visit;
    hide SameRecording;
    hide SameRows;
    var again, rest := Walk(w2, false, steps, Begin(c)), Walk(w2, false, steps[1..], Begin(c));
    assert again.visits[1..] == rest.visits;
    assert rest.visits != [] ==> again.visits[|again.visits|-1] == rest.visits[|rest.visits|-1];
  }

  /** The worker died inside the first step: it published the RUNNING row and nothing else. */
  lemma ResumeInFlight(w: Worker, w2: Worker, steps: seq<JobStep>, a: Db, c: Db)
    requires SameWorker(w, w2) && Distinct(steps) && Begun(a) && steps != []
    requires var v := Visit(w, false, steps[0], a); v.published != [] && c == v.published[0] && v.report.ending.Done?
    requires AllSucceeded(Walk(w, false, steps, a).visits)
    ensures Completes(Walk(w, false, steps, a), Walk(w2, false, steps, Begin(c)), Some(steps[0]), c, w)
  {
    var step, flight := steps[0], Some(steps[0]);
    var v, again := Visit(w, false, step, a), Visit(w2, false, step, Begin(c));
    RerunInFlight(w, w2, step, a, c);
    WalkInStep(w, w2, steps[1..], v.db, again.db, flight);
    hide Visit;
    NotStopped(w, steps, a);
    assert Walk(w2, false, steps, Begin(c)).visits == Walk(w, false, steps, a).visits;
  }

  lemma RerunInFlight(w: Worker, w2: Worker, step: JobStep, a: Db, c: Db)
    requires SameWorker(w, w2) && Begun(a)
    requires var v := Visit(w, false, step, a); v.published != [] && c == v.published[0] && v.report.ending.Done?
    ensures var v, again := Visit(w, false, step, a), Visit(w2, false, step, Begin(c));
            && again.report == v.report && Alike(v.db, again.db, Some(step))
            && Row(c, step).status == JobStatus.Running && step in w.registry
  {
    hide StepFingerprint;
    assert c.video == a.video && c.game == a.game && Begin(c) == c;
  }

  lemma NotStopped(w: Worker, steps: seq<JobStep>, a: Db)
    requires AllSucceeded(Walk(w, false, steps, a).visits)
    ensures !Stopped(Walk(w, false, steps, a).visits)
  {
  }

  /** The worker died between the first step's commit and the next one. */
  lemma ResumeAfterStep(w: Worker, w2: Worker, steps: seq<JobStep>, a: Db, c: Db)
    requires Trusted(w) && StatusesAreSettledLast(w) && SameWorker(w, w2)
    requires Distinct(steps) && PersistLast(steps) && Begun(a) && steps != []
    requires var v := Visit(w, false, steps[0], a); v.published != [] && c == v.published[1] && v.report.ending.Done?
    requires AllSucceeded(Walk(w, false, steps, a).visits) && AllSucceeded(Walk(w, false, steps[1..], c).visits)
    ensures Completes(Walk(w, false, steps, a), Walk(w2, false, steps, Begin(c)), None, c, w)
  {
    var step, rest := steps[0], steps[1..];
    var v := Visit(w, false, step, a);
    VisitFacts(w, false, step, a);
    NotStopped(w, steps, a);
    if step != Persist {
      BegunUntilPersist(w, step, a);
    }
    hide Visit;
    DoneStepIsQuiet(w, w2, step, a, v, c);
    RestAfterStep(w, w2, step, rest, c);
    CachedFirst(w, w2, steps, a, v, c, None);
  }

  lemma RestAfterStep(w: Worker, w2: Worker, step: JobStep, rest: seq<JobStep>, c: Db)
    requires SameWorker(w, w2) && (if step == Persist then rest == [] else Begun(c))
    requires AllSucceeded(Walk(w, false, rest, c).visits)
    ensures Completes(Walk(w, false, rest, c), Walk(w2, false, rest, Begin(c)), None, c, w)
  {
    if step != Persist {
      WalkInStep(w, w2, rest, c, Begin(c), None);
      NotStopped(w, rest, c);
      hide Walk;
    }
  }

  /** Where a worker can die in a full run: before its first commit or after any of them. */
  ghost predicate CrashState(w: Worker, db: Db, c: Db) {
    c == db || c in Run(w, false, None, db).published
  }

  /**
   * Crash-resume equivalence. Let an uninterrupted unforced run succeed at every step
   * it runs, and let the worker die anywhere in it. Running again, with the same steps
   * and a later clock, ends with the same video, the same job rows (status, fingerprint,
   * result, error) and, when READY, the same match; `attempts` differ by one, and only
   * for the step that was in flight.
   */
  lemma CrashResume(w: Worker, w2: Worker, db: Db, c: Db) returns (flight: Option<JobStep>)
    requires Trusted(w) && StatusesAreSettledLast(w) && SameWorker(w, w2)
    requires AllSucceeded(Run(w, false, None, db).visits)
    requires CrashState(w, db, c)
    ensures var full, again := Run(w, false, None, db), Run(w2, false, None, c);
            && again.db.video == full.db.video
            && SameRows(full.db, again.db, flight)
            && (full.db.video.status == VideoStatus.Ready ==> again.db.game == full.db.game)
    ensures flight.Some? ==> Row(c, flight.value).status == JobStatus.Running && flight.value in w.registry
  {
    flight := None;
    var full, again := Run(w, false, None, db), Run(w2, false, None, c);
    var start := Begin(db);
    var walked := Walk(w, false, PIPELINE_ORDER, start);
    PipelineOrder();
    NotStopped(w, PIPELINE_ORDER, start);
    if c == full.db {
      SecondRunRunsNothing(w, false, db, w2);
    } else {
      if c == db || c == start {
        WalkInStep(w, w2, PIPELINE_ORDER, start, Begin(c), None);
      } else {
        hide Walk;
        hide StatusesAreSettledLast;
        hide Settled;
        hide FailedVideo;
        flight := ResumeWalk(w, w2, PIPELINE_ORDER, start, c);
      }
      hide Walk;
      SameEnding(w, w2, db, c, flight);
    }
  }

  /** How `_settle` ends a run that was not stopped, in terms of the registry alone. */
  function Concluded(w: Worker, db: Db): Db {
    if REQUIRED_STEPS <= w.registry.Keys then
      db.(video := db.video.(status := VideoStatus.Ready), game := WithStatus(db.game, MatchStatus.Ready))
    else
      db.(video := db.video.(status := VideoStatus.Processing))
  }

  lemma RunConcludes(w: Worker, db: Db)
    requires Trusted(w) && !Stopped(Run(w, false, None, db).visits)
    ensures Run(w, false, None, db).db == Concluded(w, Walk(w, false, PIPELINE_ORDER, Begin(db)).db)
  {
    var r := Run(w, false, None, db);
    RunAccounts(w, false, db);
    PendingAreUnregistered(w, false, db, r);
    hide Walk;
    hide Accounts;
    hide Those;
  }

  lemma SameEnding(w: Worker, w2: Worker, db: Db, c: Db, flight: Option<JobStep>)
    requires Trusted(w) && SameWorker(w, w2)
    requires !Stopped(Run(w, false, None, db).visits)
    requires Completes(Walk(w, false, PIPELINE_ORDER, Begin(db)),
               Walk(w2, false, PIPELINE_ORDER, Begin(c)), flight, c, w)
    ensures var full, again := Run(w, false, None, db), Run(w2, false, None, c);
            && again.db.video == full.db.video && SameRows(full.db, again.db, flight)
            && (full.db.video.status == VideoStatus.Ready ==> again.db.game == full.db.game)
  {
    assert !Stopped(Run(w2, false, None, c).visits);
    RunConcludes(w, db);
    RunConcludes(w2, c);
    hide Walk;
    hide Run;
    hide SameRow;
  }

  // ----- The reaper -----

  /** The rows a reaper may have touched: each is as it was, or as the reaper leaves it. */
  predicate MaybeReaped(a: Db, b: Db, now: int) {
    && a.video == b.video && a.game == b.game && a.jobs.Keys == b.jobs.Keys
    && forall s | s in a.jobs :: b.jobs[s] == a.jobs[s] || b.jobs[s] == ReapRow(a.jobs[s], now)
  }

  /** A run overwrites whatever the reaper wrote into a row, and the reaper spares finished rows. */
  lemma RunErasesReaping(job: Job, mark: Fingerprint, now: int, started: int)
    ensures RunningRow(ReapRow(job, now), mark, started) == RunningRow(job, mark, started)
    ensures job.status == JobStatus.Succeeded || ReapRow(job, now).status == JobStatus.Succeeded ==>
              ReapRow(job, now) == job
  {
  }

  lemma MaybeReapedRow(a: Db, b: Db, step: JobStep, x: Job, y: Job, va: Db, vb: Db, now: int)
    requires MaybeReaped(a, b, now) && (y == x || y == ReapRow(x, now))
    requires va.jobs == a.jobs[step := x] && vb.jobs == b.jobs[step := y]
    requires va.video == vb.video && va.game == vb.game
    ensures MaybeReaped(va, vb, now) && Row(va, step) == x && Row(vb, step) == y
  {
    hide ReapRow;
    forall s | s in va.jobs ensures vb.jobs[s] == va.jobs[s] || vb.jobs[s] == ReapRow(va.jobs[s], now) {
      if s != step {
        assert va.jobs[s] == a.jobs[s] && vb.jobs[s] == b.jobs[s];
      }
    }
  }

  lemma ReapedReport(w: Worker, force: bool, step: JobStep, a: Db, b: Db, now: int)
    requires MaybeReaped(a, b, now)
    ensures ReportOf(w, force, step, b) == ReportOf(w, force, step, a)
  {
    hide StepFingerprint;
    ReapedRow(a, b, step, now);
    RunErasesReaping(Row(a, step), Mark(w, step, a), now, 0);
    hide Row, ReapRow;
  }

  lemma ReapedRowAfter(w: Worker, step: JobStep, report: Report, a: Db, b: Db, now: int)
    requires MaybeReaped(a, b, now) && (report.Unregistered? <==> step !in w.registry)
    requires report.Cached? ==> Row(a, step).status == JobStatus.Succeeded
    ensures var x, y := RowAfter(w, step, report, a), RowAfter(w, step, report, b);
            (y == x || y == ReapRow(x, now)) && (step in w.registry ==> x == y)
  {
    ReapedRow(a, b, step, now);
    RunErasesReaping(Row(a, step), Mark(w, step, a), now, w.startedAt(step));
    hide Row, ReapRow, EndedRow, RunningRow, StepFingerprint;
    assert Mark(w, step, a) == Mark(w, step, b);
    hide MaybeReaped, Mark;
  }

  /** What becomes of a step, and of its row, does not depend on whether the reaper has passed. */
  lemma ReapedAlike(w: Worker, force: bool, step: JobStep, a: Db, b: Db, now: int)
    requires MaybeReaped(a, b, now)
    ensures a.video == b.video && a.game == b.game
    ensures var report := ReportOf(w, force, step, a);
            var x, y := RowAfter(w, step, report, a), RowAfter(w, step, report, b);
            && ReportOf(w, force, step, b) == report
            && (y == x || y == ReapRow(x, now)) && (step in w.registry ==> x == y)
  {
    ReapedReport(w, force, step, a, b, now);
    hide StepFingerprint, Row;
    ReapedRowAfter(w, step, ReportOf(w, force, step, a), a, b, now);
    hide RowAfter, ReapRow, Mark;
  }

  lemma ReapedRow(a: Db, b: Db, step: JobStep, now: int)
    requires MaybeReaped(a, b, now)
    ensures Row(b, step) == Row(a, step) || Row(b, step) == ReapRow(Row(a, step), now)
  {
  }

  lemma VisitAfterReaper(w: Worker, force: bool, step: JobStep, a: Db, b: Db, now: int)
    requires MaybeReaped(a, b, now)
    ensures var va, vb := Visit(w, force, step, a), Visit(w, force, step, b);
            && va.report == vb.report && MaybeReaped(va.db, vb.db, now)
            && (step in w.registry ==> Row(va.db, step) == Row(vb.db, step))
            && forall s | s != step :: Untouched(s, a, va.db) && Untouched(s, b, vb.db)
  {
    VisitShape(w, force, step, a);
    VisitShape(w, force, step, b);
    ReapedAlike(w, force, step, a, b, now);
    var va, vb := Visit(w, force, step, a), Visit(w, force, step, b);
    hide Visit, StepFingerprint, ReapRow, RunningRow, EndedRow, Mark, MaybeReaped, ReportOf, RowAfter;
    var x, y := RowAfter(w, step, va.report, a), RowAfter(w, step, vb.report, b);
    MaybeReapedRow(a, b, step, x, y, va.db, vb.db, now);
    forall s | s != step ensures Untouched(s, a, va.db) && Untouched(s, b, vb.db) {
      OtherRow(a, va.db, step, x, s);
      OtherRow(b, vb.db, step, y, s);
    }
  }

  lemma {:induction false} WalkAfterReaper(w: Worker, force: bool, steps: seq<JobStep>, a: Db, b: Db, now: int)
    requires MaybeReaped(a, b, now) && Distinct(steps)
    ensures var wa, wb := Walk(w, force, steps, a), Walk(w, force, steps, b);
            && wa.visits == wb.visits && MaybeReaped(wa.db, wb.db, now)
            && (forall i | 0 <= i < |wa.visits| && wa.visits[i].0 in w.registry ::
                  Row(wa.db, wa.visits[i].0) == Row(wb.db, wa.visits[i].0))
            && (forall s | s !in steps :: Untouched(s, a, wa.db) && Untouched(s, b, wb.db))
  {
    if steps != [] {
      var step, rest := steps[0], steps[1..];
      VisitAfterReaper(w, force, step, a, b, now);
      var va, vb := Visit(w, force, step, a), Visit(w, force, step, b);
      hide Visit;
      hide MaybeReaped;
      hide ReapRow;
      if !Stops(step, va.report) {
        WalkAfterReaper(w, force, rest, va.db, vb.db, now);
        var wa, wb := Walk(w, force, steps, a), Walk(w, force, steps, b);
        assert step !in rest;
        assert Untouched(step, va.db, wa.db) && Untouched(step, vb.db, wb.db);
        assert wa.visits == [(step, va.report)] + Walk(w, force, rest, va.db).visits;
        hide Walk;
        hide Stops;
        forall s | s !in steps ensures Untouched(s, a, wa.db) && Untouched(s, b, wb.db) {
          assert s !in rest && s != step;
          assert Untouched(s, a, va.db) && Untouched(s, b, vb.db);
        }
      }
    }
  }

  /**
   * The reaper is invisible to the next run: whenever it fires before a run, the run
   * visits the same steps with the same outcomes, leaves the same video and match, and
   * the same row for every registered step it visits.
   */
  lemma ReaperChangesNoRun(w: Worker, force: bool, db: Db, now: int)
    ensures var plain, reaped := Run(w, force, None, db), Run(w, force, None, Reaped(db, now));
            && reaped.visits == plain.visits
            && reaped.Result() == plain.Result()
            && reaped.db.video == plain.db.video && reaped.db.game == plain.db.game
            && forall i | 0 <= i < |plain.visits| && plain.visits[i].0 in w.registry ::
                 Row(reaped.db, plain.visits[i].0) == Row(plain.db, plain.visits[i].0)
  {
    PipelineOrder();
    assert MaybeReaped(Begin(db), Begin(Reaped(db, now)), now);
    WalkAfterReaper(w, force, PIPELINE_ORDER, Begin(db), Begin(Reaped(db, now)), now);
    var walked := Walk(w, force, PIPELINE_ORDER, Begin(db));
    var again := Walk(w, force, PIPELINE_ORDER, Begin(Reaped(db, now)));
    hide Walk;
    hide ReapRow;
    EndedAlike(walked.visits, walked.db, again.db);
    hide Ended;
    hide ResultOf;
  }

  lemma EndedAlike(visits: seq<(JobStep, Report)>, a: Db, b: Db)
    requires a.video == b.video && a.game == b.game
    ensures Ended(visits, None, a).video == Ended(visits, None, b).video
    ensures Ended(visits, None, a).game == Ended(visits, None, b).game
  {
    hide Those;
    hide FailureOf;
    hide Clip;
  }
}
