/** Which steps a match depends on, and what a run leaves in the rows for people to read. */
module Degradation {
  import opened Domain
  import opened Runner
  import opened Execution

  /** The walk ran the step and the step raised. */
  predicate Fails(visits: seq<(JobStep, Report)>, step: JobStep) {
    exists i :: 0 <= i < |visits| && visits[i].0 == step && visits[i].1.Ran? && visits[i].1.ending.Raised?
  }

  lemma FailsIsListed(visits: seq<(JobStep, Report)>, step: JobStep)
    ensures Fails(visits, step) <==> FailedStep(visits, step)
  {
    InThose(visits, IsFailed, step);
  }

  /** A walk visits the pipeline's steps in order, with the required failure (if any) at the end. */
  lemma OnlyTheLastStops(w: Worker, force: bool, db: Db)
    requires Trusted(w)
    ensures var visits := Run(w, force, None, db).visits;
            && |visits| <= |PIPELINE_ORDER| && StepsSeen(visits) == PIPELINE_ORDER[..|visits|]
            && (|visits| < |PIPELINE_ORDER| ==> Stopped(visits))
            && forall i | 0 <= i < |visits| - 1 :: !Stops(visits[i].0, visits[i].1)
  {
    RunAccounts(w, force, db);
    PipelineOrder();
    hide Run;
  }

  /**
   * The recording, the scoring and the cutting decide; everything else may succeed, skip,
   * raise or be absent. A full run visits the steps in this order; it is READY exactly when
   * the six are registered and none of them fails, and then it visits all eleven; it is FAILED
   * exactly when one of the six fails, and that one is the last it visits.
   */
  lemma SixStepsDecide(w: Worker, force: bool, db: Db)
    requires Trusted(w)
    ensures var r := Run(w, force, None, db);
            var six := {Validate, Probe, Transcode, ScoreEvents, CutClips, Persist};
            var order := [Validate, Probe, Transcode, SampleFrames, DetectPlayers, Track, JerseyOcr, ScoreEvents,
                          CutClips, Thumbnails, Persist];
            && |r.visits| <= 11 && StepsSeen(r.visits) == order[..|r.visits|]
            && (r.db.video.status == VideoStatus.Ready <==>
                  six <= w.registry.Keys && forall s | s in six :: !Fails(r.visits, s))
            && (r.db.video.status == VideoStatus.Failed <==> exists s :: s in six && Fails(r.visits, s))
            && ((forall s | s in six :: !Fails(r.visits, s)) ==> |r.visits| == 11)
            && (forall s, i | s in six && 0 <= i < |r.visits| && r.visits[i].0 == s
                              && r.visits[i].1.Ran? && r.visits[i].1.ending.Raised? :: i == |r.visits| - 1)
  {
    var r := Run(w, force, None, db);
    Verdict(w, force, db);
    OnlyTheLastStops(w, force, db);
    FailedStepStops(r.visits);
    RunVisitsPrefix(w, force, db);
    hide Run, FailedStep, Fails, StepsSeen;
    forall s ensures Fails(r.visits, s) <==> FailedStep(r.visits, s) {
      FailsIsListed(r.visits, s);
    }
  }

  /** In a call of one step a failure of one of the six fails the video, and nothing else does. */
  lemma OneStepStatus(w: Worker, force: bool, step: JobStep, db: Db)
    ensures var r, v := Run(w, force, Some(step), db), Visit(w, force, step, db);
            && r.visits == [(step, v.report)]
            && if step in {Validate, Probe, Transcode, ScoreEvents, CutClips, Persist} && Fails(r.visits, step)
               then r.db.video.status == VideoStatus.Failed
                    && (r.db.game.Some? ==> r.db.game.value.status == MatchStatus.Failed)
               else r.db == v.db
  {
    var v := Visit(w, force, step, db);
    hide Visit, Clip;
    assert [step][1..] == [];
    assert Walk(w, force, [step][1..], v.db) == Walked(v.db, [], []);
    assert Walk(w, force, [step], db).visits == [(step, v.report)] && Walk(w, force, [step], db).db == v.db;
    assert Fails([(step, v.report)], step) <==> v.report.Ran? && v.report.ending.Raised? by {
      assert [(step, v.report)][0] == (step, v.report);
    }
    hide Walk, Fails;
  }

  // ----- What people read in the rows -----

  /** The text kept of a message that may be too long for its column. */
  predicate KeptOf(kept: string, text: string, limit: nat) {
    kept <= text && |kept| == if |text| <= limit then |text| else limit
  }

  /** The row of a visited step tells what became of it. */
  predicate Tells(w: Worker, step: JobStep, report: Report, was: Job, row: Job) {
    match report
    case Unregistered => row == was
    case Cached => row == was
    case Ran(ending) =>
      && row.attempts == was.attempts + 1
      && row.startedAt == Some(w.startedAt(step)) && row.finishedAt == Some(w.finishedAt(step))
      && match ending
         case Done(result) => row.status == JobStatus.Succeeded && row.result == result && row.lastError == None
         case NothingToDo(reason) => row.status == JobStatus.Skipped && row.result == reason && row.lastError == None
         case Raised(error) =>
           && row.status == JobStatus.Failed && row.result == was.result
           && row.lastError.Some? && KeptOf(row.lastError.value, error, 4000)
  }

  /** A row that was not there yet is pending and untried. */
  predicate WasRow(db: Db, step: JobStep, was: Job) {
    if step in db.jobs then was == db.jobs[step] else was.status == JobStatus.Pending && was.attempts == 0
  }

  lemma RowTells(w: Worker, step: JobStep, report: Report, db: Db)
    ensures WasRow(db, step, Row(db, step)) && Tells(w, step, report, Row(db, step), RowAfter(w, step, report, db))
  {
    hide Mark;
  }

  /** After a full run the row of a visited step tells what became of it. */
  lemma VisitedRowTells(w: Worker, force: bool, db: Db, i: nat) returns (was: Job)
    requires Trusted(w) && i < |Run(w, force, None, db).visits|
    ensures var r := Run(w, force, None, db);
            var (step, report) := r.visits[i];
            WasRow(db, step, was) && step in r.db.jobs && Tells(w, step, report, was, r.db.jobs[step])
  {
    var r := Run(w, force, None, db);
    RunAccounts(w, force, db);
    hide Run;
    var (step, report) := r.visits[i];
    was := Row(db, step);
    assert AccountedFor(w, force, step, report, db, r.db);
    hide Accounts;
    RowTells(w, step, report, db);
    hide Tells, WasRow, RowAfter, Expected;
  }

  /** And no other row has moved. */
  lemma OtherRowsStay(w: Worker, force: bool, db: Db, s: JobStep)
    requires Trusted(w) && forall i | 0 <= i < |Run(w, force, None, db).visits| ::
               Run(w, force, None, db).visits[i].0 != s
    ensures var r := Run(w, force, None, db);
            (s in r.db.jobs <==> s in db.jobs) && (s in db.jobs ==> r.db.jobs[s] == db.jobs[s])
  {
    var r := Run(w, force, None, db);
    RunAccounts(w, force, db);
    hide Run, AccountedFor, Stops;
    assert s !in PIPELINE_ORDER[..|r.visits|];
    assert Untouched(s, db, r.db);
  }

  /**
   * What is read of a run's status. It shows PROCESSING before any step starts; when a
   * required step fails the video and the match carry the same reason, which names the
   * step and quotes its error.
   */
  lemma RunIsShown(w: Worker, force: bool, db: Db)
    ensures var r := Run(w, force, None, db);
            && r.published != []
            && r.published[0].jobs == db.jobs
            && r.published[0].video == db.video.(status := VideoStatus.Processing)
            && (r.published[0].game.Some? <==> db.game.Some?)
            && (db.game.Some? ==> r.published[0].game == Some(db.game.value.(status := MatchStatus.Processing)))
            && r.published[|r.published|-1] == r.db
            && (Stopped(r.visits) ==>
                  && r.db.video.failureReason.Some?
                  && (var (step, report) := r.visits[|r.visits|-1];
                      var text := StepName(step) + " failed: " + report.ending.error;
                      KeptOf(r.db.video.failureReason.value, text, 1000))
                  && (r.db.game.Some? ==> r.db.game.value.failureReason == r.db.video.failureReason))
  {
    hide Walk, Settled;
  }

  // ----- The reaper -----

  /**
   * The reaper resets exactly the rows that have been RUNNING for more than ninety minutes:
   * they go back to PENDING with a note, keeping attempts, fingerprint and start time.
   */
  lemma ReaperResetsExactly(db: Db, now: int, s: JobStep)
    requires s in db.jobs
    ensures Reaped(db, now).video == db.video && Reaped(db, now).game == db.game
    ensures Reaped(db, now).jobs.Keys == db.jobs.Keys
    ensures var was, row := db.jobs[s], Reaped(db, now).jobs[s];
            if was.status == JobStatus.Running && was.startedAt.Some? && now - was.startedAt.value > 5400
            then && row.status == JobStatus.Pending && row.finishedAt == None && row.lastError.Some?
                 && row.attempts == was.attempts && row.fingerprint == was.fingerprint
                 && row.startedAt == was.startedAt && row.result == was.result
            else row == was
  {
  }

  // ----- The four lists -----

  /** Which list of the result a step is in: by what became of it, once for each visit. */
  lemma ListsTell(visits: seq<(JobStep, Report)>, status: VideoStatus, step: JobStep)
    ensures var r := ResultOf(visits, status);
            && r.status == status
            && (step in r.executed <==>
                  exists i :: 0 <= i < |visits| && visits[i].0 == step && visits[i].1.Ran? && visits[i].1.ending.Done?)
            && (step in r.skipped <==>
                  exists i :: 0 <= i < |visits| && visits[i].0 == step
                              && (visits[i].1.Cached? || (visits[i].1.Ran? && visits[i].1.ending.NothingToDo?)))
            && (step in r.failed <==> Fails(visits, step))
            && (step in r.pending <==>
                  exists i :: 0 <= i < |visits| && visits[i].0 == step && visits[i].1.Unregistered?)
  {
    InThose(visits, IsExecuted, step);
    InThose(visits, IsSkipped, step);
    InThose(visits, IsFailed, step);
    InThose(visits, IsPending, step);
    hide Those;
  }
}
