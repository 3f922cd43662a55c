/** What forced calls leave in the rows, and what becomes of the cards in the calls that follow. */
module ForcedCalls {
  import opened Domain
  import opened Manifest
  import opened Runner
  import opened Execution
  import opened Resume
  import opened HighlightSteps
  import opened Cards
  import opened CardVisits
  import opened BrokenCards

  // ----- Two kinds of rows from which an unforced run breaks cards -----

  /** The scoring does not stand, while the cutting and PERSIST stand over whole cards. */
  predicate ScoringVoided(db: Db, settings: Settings) {
    && !Holds(ScoreEvents, db, settings) && Holds(CutClips, db, settings) && Holds(Persist, db, settings)
    && GoodCards(db.video)
  }

  /** Over such rows an unforced run that ends READY is broken exactly when it scores again. */
  lemma VoidedScoringBreaksCards(w: Worker, media: Media, db: Db)
    requires CardWorker(w, media) && ScoringVoided(db, w.settings)
    requires Run(w, false, None, db).db.video.status == VideoStatus.Ready
    ensures var next := Run(w, false, None, db);
            && |next.visits| == 11
            && (Broken(next.db) <==> ScoresAgain(w, media, db))
            && (ScoresAgain(w, media, db) <==> next.visits[7].1.Ran? && next.visits[7].1.ending.Done?)
  {
    CardsAreShown(w, media, db);
    ReadyRunBreaksExactly(w, media, db);
    hide Run, CardWorker, Holds, After;
    if ScoresAgain(w, media, db) {
      assert Shown(w, media, db)[0].clip.None?;
    }
  }

  /** And so is an unforced call of SCORE_EVENTS alone on a READY video. */
  lemma VoidedScoringBreaksAlone(w: Worker, media: Media, db: Db)
    requires CardWorker(w, media) && ScoringVoided(db, w.settings)
    ensures Broken(Run(w, false, Some(ScoreEvents), db).db) <==>
              ScoreEvents in w.registry && db.video.status == VideoStatus.Ready && FindsMoments(media, db.video)
  {
    OneStepBreaksExactly(w, media, false, ScoreEvents, db);
    hide Run, CardWorker, Holds, FindsMoments, FindsNothing, WholeCards;
  }

  /** The scoring stands, and none of the highlights it left has a clip. */
  predicate FreshlyScored(db: Db, settings: Settings) {
    Holds(ScoreEvents, db, settings) && db.video.highlights != [] && !SomeClip(db.video.highlights)
  }

  /**
   * Over such rows an unforced run that ends READY is broken exactly when PERSIST is
   * cached, and CUT_CLIPS is too or misses a clip.
   */
  lemma FreshScoringBreaksCards(w: Worker, media: Media, db: Db)
    requires CardWorker(w, media) && FreshlyScored(db, w.settings)
    requires Run(w, false, None, db).db.video.status == VideoStatus.Ready
    ensures Broken(Run(w, false, None, db).db) <==>
              && Holds(Persist, db, w.settings)
              && (Holds(CutClips, db, w.settings) || StaysClipless(media, db.video.highlights))
  {
    ReadyRunBreaksExactly(w, media, db);
    CutsMakeCards(media, db.video.highlights);
    Clipless(db.video);
    hide Run, CardWorker, Holds, CutAll, SomeClip, StaysClipless, AllClips;
  }

  lemma StopIsAFailure(visits: seq<(JobStep, Report)>)
    requires Stopped(visits)
    ensures visits != [] && visits[|visits|-1].1.Ran? && visits[|visits|-1].1.ending.Raised?
  {
  }

  // ----- A forced full run in which SCORE_EVENTS fails or is skipped -----

  lemma ScoringFails(w: Worker, media: Media, start: Db)
    requires CardWorker(w, media) && |Reports(w, true, start)| == 8 && Stopped(Reports(w, true, start))
    ensures var after := After(w, true, start, 8);
            && after.video.highlights == start.video.highlights && SameUpload(start.video, after.video)
            && Row(after, ScoreEvents).status == JobStatus.Failed
            && Row(after, CutClips) == Row(start, CutClips) && Row(after, Persist) == Row(start, Persist)
  {
    assert Trusted(w);
    StopIsAFailure(Reports(w, true, start));
    hide After, Reports, Visit, CardWorker, StepFingerprint, PIPELINE_ORDER;
    ScoringTurn(w, true, start);
    EarlySteps(w, media, true, start);
    VisitTold(w, media, true, ScoreEvents, After(w, true, start, 7));
  }

  /** The rows a forced full run leaves when SCORE_EVENTS fails. */
  lemma StoppedAtScoring(w: Worker, media: Media, db: Db)
    requires CardWorker(w, media) && |Run(w, true, None, db).visits| == 8 && Stopped(Run(w, true, None, db).visits)
    ensures var r := Run(w, true, None, db).db;
            && r.video.highlights == db.video.highlights && SameUpload(db.video, r.video)
            && !Holds(ScoreEvents, r, w.settings)
            && Row(r, CutClips) == Row(db, CutClips) && Row(r, Persist) == Row(db, Persist)
  {
    FullRun(w, true, db);
    hide Run, After, Reports, Row, CardWorker, Stopped;
    ScoringFails(w, media, Begin(db));
  }

  /** The next unforced READY run is broken exactly when it scores again. */
  lemma StoppedScoreBreaksCards(w: Worker, media: Media, db: Db, w2: Worker, media2: Media)
    requires CardWorker(w, media) && CardWorker(w2, media2) && w2.settings == w.settings
    requires Holds(CutClips, db, w.settings) && Holds(Persist, db, w.settings) && GoodCards(db.video)
    requires |Run(w, true, None, db).visits| == 8 && Stopped(Run(w, true, None, db).visits)
    requires Run(w2, false, None, Run(w, true, None, db).db).db.video.status == VideoStatus.Ready
    ensures var r := Run(w, true, None, db).db;
            var next := Run(w2, false, None, r);
            && ScoringVoided(r, w.settings) && |next.visits| == 11
            && (Broken(next.db) <==> ScoresAgain(w2, media2, r))
            && (ScoresAgain(w2, media2, r) <==> next.visits[7].1.Ran? && next.visits[7].1.ending.Done?)
  {
    var r := Run(w, true, None, db).db;
    StoppedAtScoring(w, media, db);
    StandsAlike(db, r, Persist, w.settings);
    StandsAlike(db, r, CutClips, w.settings);
    hide Run, CardWorker, Holds, ScoresAgain;
    VoidedScoringBreaksCards(w2, media2, r);
  }

  /** In a forced full walk that gets to its end PERSIST succeeds, so CUT_CLIPS did too. */
  lemma ForcedWalkSucceeds(w: Worker, media: Media, start: Db)
    requires CardWorker(w, media) && CutClips in w.registry && Persist in w.registry
    requires |Reports(w, true, start)| == 11
    requires !Stops(CutClips, Reports(w, true, start)[8].1) && !Stops(Persist, Reports(w, true, start)[10].1)
    ensures Reports(w, true, start)[8].1.Ran? && Reports(w, true, start)[8].1.ending.Done?
    ensures Reports(w, true, start)[10].1.Ran? && Reports(w, true, start)[10].1.ending.Done?
  {
    assert Trusted(w);
    var scored, cut := After(w, true, start, 8), After(w, true, start, 9);
    CuttingTurn(w, true, start);
    LastTwoTurns(w, true, start);
    hide After, Reports, Visit, CardWorker;
    ThumbnailsLeaveCards(w, media, true, cut);
    PersistSucceeds(w, media, After(w, true, start, 10));
    CuttingSucceeds(w, media, scored);
  }

  lemma PersistSucceeds(w: Worker, media: Media, shown: Db)
    requires CardWorker(w, media) && Persist in w.registry
    requires !Stops(Persist, Visit(w, true, Persist, shown).report)
    ensures var report := Visit(w, true, Persist, shown).report; report.Ran? && report.ending.Done?
    ensures shown.video.highlights != []
  {
    VisitShape(w, true, Persist, shown);
    hide Visit, StepFingerprint, RowAfter;
    assert Persists(w.registry[Persist]);
  }

  lemma CuttingSucceeds(w: Worker, media: Media, scored: Db)
    requires CardWorker(w, media) && CutClips in w.registry
    requires !Stops(CutClips, Visit(w, true, CutClips, scored).report)
    requires Visit(w, true, CutClips, scored).db.video.highlights != []
    ensures var report := Visit(w, true, CutClips, scored).report; report.Ran? && report.ending.Done?
  {
    VisitShape(w, true, CutClips, scored);
    CuttingDeclines(w, media, scored.video, scored.game);
    hide Visit, StepFingerprint, RowAfter, CardWorker;
  }

  /** A forced full run that ends READY although SCORE_EVENTS was skipped leaves the scoring void. */
  lemma SkippedAtScoring(w: Worker, media: Media, db: Db)
    requires CardWorker(w, media) && Run(w, true, None, db).db.video.status == VideoStatus.Ready
    requires |Run(w, true, None, db).visits| > 7
    requires var scoring := Run(w, true, None, db).visits[7].1; scoring.Ran? && scoring.ending.NothingToDo?
    ensures ScoringVoided(Run(w, true, None, db).db, w.settings)
  {
    var r := Run(w, true, None, db);
    ReadyRunsVisitAll(w, true, db);
    ForcedRunEndsWhole(w, media, db);
    FullRun(w, true, db);
    RunAccounts(w, true, db);
    assert PIPELINE_ORDER[7] == ScoreEvents && PIPELINE_ORDER[8] == CutClips && PIPELINE_ORDER[10] == Persist;
    hide Run, Reports, After, WholeCards, SameUpload, RowAfter;
    ForcedWalkSucceeds(w, media, Begin(db));
    hide CardWorker;
    UpToDateAfter(w, true, ScoreEvents, r.visits[7].1, db, r.db);
    UpToDateAfter(w, true, CutClips, r.visits[8].1, db, r.db);
    UpToDateAfter(w, true, Persist, r.visits[10].1, db, r.db);
    hide StepFingerprint, Row;
  }

  /** The next unforced READY run is broken exactly when it scores again. */
  lemma SkippedScoreBreaksCards(w: Worker, media: Media, db: Db, w2: Worker, media2: Media)
    requires CardWorker(w, media) && CardWorker(w2, media2) && w2.settings == w.settings
    requires Run(w, true, None, db).db.video.status == VideoStatus.Ready && |Run(w, true, None, db).visits| > 7
    requires var scoring := Run(w, true, None, db).visits[7].1; scoring.Ran? && scoring.ending.NothingToDo?
    requires Run(w2, false, None, Run(w, true, None, db).db).db.video.status == VideoStatus.Ready
    ensures var r := Run(w, true, None, db).db;
            && GoodCards(r.video)
            && (Broken(Run(w2, false, None, r).db) <==> ScoresAgain(w2, media2, r))
  {
    SkippedAtScoring(w, media, db);
    hide Run, CardWorker, ScoresAgain, Broken;
    VoidedScoringBreaksCards(w2, media2, Run(w, true, None, db).db);
  }

  // ----- A forced full run that scores again, and stops or dies before it has cut -----

  lemma ScoredThenFailsToCut(w: Worker, media: Media, start: Db)
    requires CardWorker(w, media) && |Reports(w, true, start)| == 9 && Stopped(Reports(w, true, start))
    requires var scoring := Reports(w, true, start)[7].1; scoring.Ran? && scoring.ending.Done?
    ensures var after := After(w, true, start, 9);
            && after.video.highlights != [] && !SomeClip(after.video.highlights) && SameUpload(start.video, after.video)
            && Holds(ScoreEvents, after, w.settings) && !Holds(CutClips, after, w.settings)
            && Row(after, Persist) == Row(start, Persist)
  {
    assert Trusted(w);
    StopIsAFailure(Reports(w, true, start));
    hide *;
    ScoringTurn(w, true, start);
    CuttingTurn(w, true, start);
    EarlySteps(w, media, true, start);
    ScoreThenFail(w, media, start, After(w, true, start, 7));
  }

  lemma ScoreThenFail(w: Worker, media: Media, start: Db, before: Db)
    requires CardWorker(w, media) && SameStanding(start, before)
    requires before.video.highlights == start.video.highlights
    requires var scoring := Visit(w, true, ScoreEvents, before);
             && scoring.report.Ran? && scoring.report.ending.Done?
             && Visit(w, true, CutClips, scoring.db).report.Ran?
             && Visit(w, true, CutClips, scoring.db).report.ending.Raised?
    ensures var after := Visit(w, true, CutClips, Visit(w, true, ScoreEvents, before).db).db;
            && after.video.highlights != [] && !SomeClip(after.video.highlights) && SameUpload(start.video, after.video)
            && Holds(ScoreEvents, after, w.settings) && !Holds(CutClips, after, w.settings)
            && Row(after, Persist) == Row(start, Persist)
  {
    RanIsRegistered(w, true, ScoreEvents, before);
    hide Visit, SomeClip, Holds, Row, StepFingerprint;
    ScoringTold(w, media, true, start, before);
    FailedCutting(w, media, Visit(w, true, ScoreEvents, before).db);
    hide CardWorker;
  }

  /** The rows a forced full run leaves when it scores again and then stops at CUT_CLIPS. */
  lemma StoppedAtCutting(w: Worker, media: Media, db: Db)
    requires CardWorker(w, media) && |Run(w, true, None, db).visits| == 9 && Stopped(Run(w, true, None, db).visits)
    requires var scoring := Run(w, true, None, db).visits[7].1; scoring.Ran? && scoring.ending.Done?
    ensures var r := Run(w, true, None, db).db;
            && r.video.highlights != [] && !SomeClip(r.video.highlights) && SameUpload(db.video, r.video)
            && Holds(ScoreEvents, r, w.settings) && !Holds(CutClips, r, w.settings)
            && Row(r, Persist) == Row(db, Persist)
  {
    FullRun(w, true, db);
    var r, cut := Run(w, true, None, db).db, After(w, true, Begin(db), 9);
    hide Run, After, Reports, CardWorker, Stopped, SomeClip;
    ScoredThenFailsToCut(w, media, Begin(db));
    StandsAlike(cut, r, ScoreEvents, w.settings);
    StandsAlike(cut, r, CutClips, w.settings);
    hide Holds, Row;
  }

  lemma RanIsRegistered(w: Worker, force: bool, step: JobStep, db: Db)
    requires Visit(w, force, step, db).report.Ran?
    ensures step in w.registry
  {
  }

  lemma FailedCutting(w: Worker, media: Media, scored: Db)
    requires CardWorker(w, media)
    requires Visit(w, true, CutClips, scored).report.Ran? && Visit(w, true, CutClips, scored).report.ending.Raised?
    ensures var cut := Visit(w, true, CutClips, scored).db;
            && cut.video.highlights == scored.video.highlights && SameUpload(scored.video, cut.video)
            && (Holds(ScoreEvents, scored, w.settings) ==> Holds(ScoreEvents, cut, w.settings))
            && !Holds(CutClips, cut, w.settings) && Row(cut, Persist) == Row(scored, Persist)
  {
    VisitTold(w, media, true, CutClips, scored);
    StandsAlike(scored, Visit(w, true, CutClips, scored).db, ScoreEvents, w.settings);
    hide Visit, CardWorker, StepFingerprint;
  }

  /**
   * A forced full run that scores again and stops at CUT_CLIPS over an earlier PERSIST:
   * the next unforced READY run keeps the scoring, cuts, and finds PERSIST cached, so it
   * is broken exactly when some clip fails to cut.
   */
  lemma StoppedCutBreaksCards(w: Worker, media: Media, db: Db, w2: Worker, media2: Media)
    requires CardWorker(w, media) && CardWorker(w2, media2) && w2.settings == w.settings
    requires var r := Run(w, true, None, db);
             && |r.visits| == 9 && Stopped(r.visits) && r.visits[7].1.Ran? && r.visits[7].1.ending.Done?
    requires Run(w2, false, None, Run(w, true, None, db).db).db.video.status == VideoStatus.Ready
    ensures var r := Run(w, true, None, db).db;
            && FreshlyScored(r, w.settings)
            && (Broken(Run(w2, false, None, r).db) <==>
                  Holds(Persist, db, w.settings) && StaysClipless(media2, r.video.highlights))
  {
    var r := Run(w, true, None, db).db;
    StoppedAtCutting(w, media, db);
    StandsAlike(db, r, Persist, w.settings);
    hide Run, CardWorker, Holds, StaysClipless;
    FreshScoringBreaksCards(w2, media2, r);
  }

  /** What a walk's first steps leave is published when the last of them ran: a worker may die there. */
  lemma RanIsPublished(w: Worker, force: bool, steps: seq<JobStep>, i: nat, db: Db)
    requires i < |steps| && !Stopped(Walk(w, force, steps[..i], db).visits)
    requires Visit(w, force, steps[i], Walk(w, force, steps[..i], db).db).report.Ran?
    ensures Walk(w, force, steps[..i+1], db).db in Walk(w, force, steps, db).published
  {
    VisitShape(w, force, steps[i], Walk(w, force, steps[..i], db).db);
    var first := Walk(w, force, steps[..i+1], db);
    var v := Visit(w, force, steps[i], Walk(w, force, steps[..i], db).db);
    hide Visit, Walk, RowAfter, Started, Stopped;
    assert v.published[1] == v.db;
    WalkStep(w, force, steps, i, db);
    assert steps == steps[..i+1] + steps[i+1..];
    WalkSplit(w, force, steps[..i+1], steps[i+1..], db);
  }

  lemma PublishedAfter(w: Worker, force: bool, start: Db, step: JobStep)
    requires Trusted(w) && Position(step) < |Reports(w, force, start)|
    requires Reports(w, force, start)[Position(step)].1.Ran?
    ensures After(w, force, start, Position(step) + 1) in Walk(w, force, PIPELINE_ORDER, start).published
  {
    hide Walk, Visit, Stopped;
    PipelineOrder();
    ReachesStep(w, force, PIPELINE_ORDER, Position(step), start);
    RanIsPublished(w, force, PIPELINE_ORDER, Position(step), start);
  }

  /** A full run publishes what its walk does. */
  lemma RunPublishes(w: Worker, force: bool, db: Db, c: Db)
    requires c in Walk(w, force, PIPELINE_ORDER, Begin(db)).published
    ensures c in Run(w, force, None, db).published
  {
    hide Walk, Ended;
  }

  /** The rows a forced full run shows when it has just scored. */
  lemma ScoredByForce(w: Worker, media: Media, start: Db)
    requires CardWorker(w, media) && ScoreEvents in w.registry && 7 < |Reports(w, true, start)|
    requires Reports(w, true, start)[7].1.Ran? && Reports(w, true, start)[7].1.ending.Done?
    ensures var c := After(w, true, start, 8);
            && FreshlyScored(c, w.settings) && SameUpload(start.video, c.video)
            && Row(c, CutClips) == Row(start, CutClips) && Row(c, Persist) == Row(start, Persist)
  {
    assert Trusted(w);
    ScoringTurn(w, true, start);
    EarlySteps(w, media, true, start);
    hide After, Reports, Visit, Holds, Row, SomeClip;
    ScoringTold(w, media, true, start, After(w, true, start, 7));
    hide CardWorker;
  }

  /** The rows of a worker that died in a forced full run just after SCORE_EVENTS. */
  lemma DeadAfterScoring(w: Worker, media: Media, db: Db)
    requires CardWorker(w, media) && ScoreEvents in w.registry && 7 < |Run(w, true, None, db).visits|
    requires var scoring := Run(w, true, None, db).visits[7].1; scoring.Ran? && scoring.ending.Done?
    ensures var c := After(w, true, Begin(db), 8);
            && c in Run(w, true, None, db).published && FreshlyScored(c, w.settings)
            && SameUpload(db.video, c.video)
            && Row(c, CutClips) == Row(db, CutClips) && Row(c, Persist) == Row(db, Persist)
  {
    assert Trusted(w);
    FullRun(w, true, db);
    var c := After(w, true, Begin(db), 8);
    assert Position(ScoreEvents) == 7;
    hide Run, Walk, After, Reports, Row, FreshlyScored, CardWorker, PIPELINE_ORDER, Begin;
    assert c in Run(w, true, None, db).published by {
      PublishedAfter(w, true, Begin(db), ScoreEvents);
      RunPublishes(w, true, db, c);
    }
    ScoredByForce(w, media, Begin(db));
  }

  /**
   * A worker that dies in a forced full run just after SCORE_EVENTS: the next unforced
   * READY run is broken exactly when PERSIST is cached, and CUT_CLIPS is too or misses a clip.
   */
  lemma DeathAfterScoringBreaksCards(w: Worker, media: Media, db: Db, w2: Worker, media2: Media)
    requires CardWorker(w, media) && CardWorker(w2, media2) && w2.settings == w.settings
    requires ScoreEvents in w.registry && 7 < |Run(w, true, None, db).visits|
    requires var scoring := Run(w, true, None, db).visits[7].1; scoring.Ran? && scoring.ending.Done?
    requires Run(w2, false, None, After(w, true, Begin(db), 8)).db.video.status == VideoStatus.Ready
    ensures var c := After(w, true, Begin(db), 8);
            && c in Run(w, true, None, db).published && FreshlyScored(c, w.settings)
            && (Broken(Run(w2, false, None, c).db) <==>
                  && Holds(Persist, db, w.settings)
                  && (Holds(CutClips, db, w.settings) || StaysClipless(media2, c.video.highlights)))
  {
    var c := After(w, true, Begin(db), 8);
    hide Run, After, CardWorker, Holds, StaysClipless, FreshlyScored, Row, SameUpload;
    DeadAfterScoring(w, media, db);
    StandsAlike(db, c, Persist, w.settings);
    StandsAlike(db, c, CutClips, w.settings);
    FreshScoringBreaksCards(w2, media2, c);
  }

  // ----- A forced single-step re-score -----

  /** What a visit to SCORE_EVENTS that has no row to respect leaves in the rows. */
  lemma RescoreRows(w: Worker, media: Media, db: Db)
    requires CardWorker(w, media) && ScoreEvents in w.registry
    ensures var v := Visit(w, true, ScoreEvents, db);
            && v.report == Ran(ScoreEventsOutcome(media, db.video, db.game).ending)
            && SameUpload(db.video, v.db.video)
            && Row(v.db, CutClips) == Row(db, CutClips) && Row(v.db, Persist) == Row(db, Persist)
            && (FindsMoments(media, db.video) ==> FreshlyScored(v.db, w.settings))
            && (!FindsMoments(media, db.video) ==> v.db.video == db.video && !Holds(ScoreEvents, v.db, w.settings))
  {
    assert Trusted(w);
    ScoringTold(w, media, true, db, db);
    VisitReports(w, true, ScoreEvents, db);
    VisitRows(w, true, ScoreEvents, db);
    ScoringOf(w, media, db.video, db.game);
    ScoringSucceeds(media, db.video, db.game);
    hide Visit, CardWorker, StepFingerprint, SomeClip, Clip, ScoreEventsOutcome, FindsMoments, SameUpload;
  }

  /** What a forced re-score leaves in the rows, whether or not it finds moments. */
  lemma RescoreLeaves(w: Worker, media: Media, db: Db)
    requires CardWorker(w, media) && ScoreEvents in w.registry
    ensures var r := Run(w, true, Some(ScoreEvents), db).db;
            && SameUpload(db.video, r.video)
            && Row(r, CutClips) == Row(db, CutClips) && Row(r, Persist) == Row(db, Persist)
            && (FindsMoments(media, db.video) ==> FreshlyScored(r, w.settings))
            && (FindsNothing(media, db.video) ==> r.video == db.video && !Holds(ScoreEvents, r, w.settings))
            && (!FindsMoments(media, db.video) && !FindsNothing(media, db.video) ==>
                  && r.video.status == VideoStatus.Failed && r.video.highlights == db.video.highlights
                  && !Holds(ScoreEvents, r, w.settings))
  {
    OneStep(w, true, ScoreEvents, db);
    var v, r := Visit(w, true, ScoreEvents, db), Run(w, true, Some(ScoreEvents), db).db;
    hide Visit, Run, CardWorker, SomeClip, Clip;
    RescoreRows(w, media, db);
    StandsAlike(v.db, r, ScoreEvents, w.settings);
    hide Holds;
  }

  /**
   * A forced re-score that finds no moments changes no card, but voids the scoring. The
   * next unforced READY run is broken exactly when it scores again, and an unforced call of
   * SCORE_EVENTS alone exactly when the first found nothing, instead of failing, and
   * this one finds moments.
   */
  lemma FruitlessRescoreBreaksCards(w: Worker, media: Media, db: Db, w2: Worker, media2: Media)
    requires CardWorker(w, media) && CardWorker(w2, media2) && w2.settings == w.settings
    requires Holds(CutClips, db, w.settings) && Holds(Persist, db, w.settings) && GoodCards(db.video)
    requires ScoreEvents in w.registry && !FindsMoments(media, db.video)
    ensures var r := Run(w, true, Some(ScoreEvents), db).db;
            && ScoringVoided(r, w.settings)
            && (Broken(Run(w2, false, Some(ScoreEvents), r).db) <==>
                  && ScoreEvents in w2.registry && db.video.status == VideoStatus.Ready
                  && FindsNothing(media, db.video) && FindsMoments(media2, db.video))
            && (Run(w2, false, None, r).db.video.status == VideoStatus.Ready ==>
                  (Broken(Run(w2, false, None, r).db) <==> ScoresAgain(w2, media2, r)))
  {
    var r := Run(w, true, Some(ScoreEvents), db).db;
    RescoreLeaves(w, media, db);
    StandsAlike(db, r, Persist, w.settings);
    StandsAlike(db, r, CutClips, w.settings);
    hide Run, CardWorker, Holds, ScoresAgain, FindsMoments, FindsNothing, Broken;
    VoidedScoringBreaksAlone(w2, media2, r);
    if Run(w2, false, None, r).db.video.status == VideoStatus.Ready {
      VoidedScoringBreaksCards(w2, media2, r);
    }
  }

  /** A forced re-score that finds moments, whatever the video's status: the next unforced READY run. */
  lemma FruitfulRescoreBreaksCards(w: Worker, media: Media, db: Db, w2: Worker, media2: Media)
    requires CardWorker(w, media) && CardWorker(w2, media2) && w2.settings == w.settings
    requires ScoreEvents in w.registry && FindsMoments(media, db.video)
    requires Run(w2, false, None, Run(w, true, Some(ScoreEvents), db).db).db.video.status == VideoStatus.Ready
    ensures var r := Run(w, true, Some(ScoreEvents), db).db;
            Broken(Run(w2, false, None, r).db) <==>
              && Holds(Persist, db, w.settings)
              && (Holds(CutClips, db, w.settings) || StaysClipless(media2, r.video.highlights))
  {
    var r := Run(w, true, Some(ScoreEvents), db).db;
    RescoreLeaves(w, media, db);
    StandsAlike(db, r, Persist, w.settings);
    StandsAlike(db, r, CutClips, w.settings);
    hide Run, CardWorker, Holds, StaysClipless, FindsMoments;
    FreshScoringBreaksCards(w2, media2, r);
  }

  /**
   * After any READY run in which everything succeeded, re-scoring alone (the admin's
   * "retry this job", forced) leaves a READY video whose cards all lack a clip, and the
   * next full run, finding every row a success, runs nothing and leaves it so.
   */
  lemma ForcedRescoreBreaksCards(w: Worker, media: Media, force: bool, db: Db)
    requires CardWorker(w, media) && ScoreEvents in w.registry
    requires var r := Run(w, force, None, db);
             && r.db.video.status == VideoStatus.Ready && AllSucceeded(r.visits)
             && w.registry[ScoreEvents](r.db.video, r.db.game).ending.Done?
    ensures var rescored := Run(w, true, Some(ScoreEvents), Run(w, force, None, db).db);
            var next := Run(w, false, None, rescored.db);
            && next.db == rescored.db && Those(next.visits, IsRan) == []
            && next.db.video.status == VideoStatus.Ready
            && next.db.video.highlights != [] && !SomeClip(next.db.video.highlights)
  {
    var r := Run(w, force, None, db);
    AllUpToDate(w, force, db);
    Verdict(w, force, db);
    hide Accounts;
    var was := r.db;
    hide Run;
    Rescored(w, media, was);
    QuietRun(w, w, Run(w, true, Some(ScoreEvents), was).db);
  }

  lemma Rescored(w: Worker, media: Media, db: Db)
    requires CardWorker(w, media) && ScoreEvents in w.registry
    requires forall s: JobStep :: s in db.jobs && (s in w.registry ==> UpToDate(w, s, db))
    requires w.registry[ScoreEvents](db.video, db.game).ending.Done?
    ensures var after := Run(w, true, Some(ScoreEvents), db).db;
            && (forall s: JobStep :: s in after.jobs && (s in w.registry ==> UpToDate(w, s, after)))
            && after.video == db.video.(highlights := after.video.highlights) && after.game == db.game
            && after.video.highlights != [] && !SomeClip(after.video.highlights)
  {
    VisitFacts(w, true, ScoreEvents, db);
    VisitShape(w, true, ScoreEvents, db);
    OneStep(w, true, ScoreEvents, db);
    hide Visit, Run, Walk, StepFingerprint, UpToDate;
    assert Scores(w.registry[ScoreEvents], media);
    NoClipsAfterScoring(media, db.video, db.game);
    RescoredRows(w, db, Visit(w, true, ScoreEvents, db).db);
  }

  lemma RescoredRows(w: Worker, a: Db, b: Db)
    requires forall s: JobStep :: s in a.jobs && (s in w.registry ==> UpToDate(w, s, a))
    requires SameUpload(a.video, b.video)
    requires exists result :: b.jobs == a.jobs[ScoreEvents := RowAfter(w, ScoreEvents, Ran(Done(result)), a)]
    ensures forall s: JobStep :: s in b.jobs && (s in w.registry ==> UpToDate(w, s, b))
  {
    forall s: JobStep ensures s in b.jobs && (s in w.registry ==> UpToDate(w, s, b)) {
      SameMark(w, s, a, b);
      hide StepFingerprint;
      assert s in a.jobs;
    }
  }
}
