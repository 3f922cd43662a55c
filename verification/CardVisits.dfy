/** What each visit of a walk does to the highlights, and how a call is made of its visits. */
module CardVisits {
  import opened Domain
  import opened Manifest
  import opened Runner
  import opened Execution
  import opened Resume
  import opened HighlightSteps
  import opened Cards
  import opened Sequences

  // ----- Scoring and cutting -----

  /** The detector works on this probed video and finds windows, none of them empty. */
  predicate FindsMoments(media: Media, video: Video) {
    && !NotProbed(video) && media.windows(video).Some? && media.windows(video).value != []
    && forall i | 0 <= i < |media.windows(video).value| ::
         media.windows(video).value[i].start < media.windows(video).value[i].end
  }

  lemma ScoringSucceeds(media: Media, video: Video, game: Option<Match>)
    ensures ScoreEventsOutcome(media, video, game).ending.Done? <==> FindsMoments(media, video)
  {
  }

  lemma ScoringOf(w: Worker, media: Media, video: Video, game: Option<Match>)
    requires CardWorker(w, media) && ScoreEvents in w.registry
    ensures w.registry[ScoreEvents](video, game) == ScoreEventsOutcome(media, video, game)
    ensures ScoreEventsOutcome(media, video, game).video.status == video.status
  {
    assert Scores(w.registry[ScoreEvents], media);
  }

  lemma CuttingDeclines(w: Worker, media: Media, video: Video, game: Option<Match>)
    requires CardWorker(w, media) && CutClips in w.registry
    ensures w.registry[CutClips](video, game).ending.NothingToDo? <==> video.highlights == []
  {
    assert Cuts(w.registry[CutClips], media);
    hide CutAll, WasCut;
  }

  lemma Clipless(video: Video)
    requires video.highlights != [] && !SomeClip(video.highlights)
    ensures !GoodCards(video)
  {
    assert video.highlights[0].clip.None?;
  }

  // ----- Places in a walk -----

  /** A walk that visits its i-th step got through the steps before it, and visited it on the rows they left. */
  lemma ReachesStep(w: Worker, force: bool, steps: seq<JobStep>, i: nat, db: Db)
    requires Trusted(w) && Distinct(steps) && i < |Walk(w, force, steps, db).visits|
    ensures i < |steps| && !Stopped(Walk(w, force, steps[..i], db).visits)
    ensures var v := Visit(w, force, steps[i], Walk(w, force, steps[..i], db).db);
            && Walk(w, force, steps, db).visits[i] == (steps[i], v.report)
            && Walk(w, force, steps[..i+1], db).db == v.db
  {
    WalkAccounts(w, force, steps, db);
    assert steps == steps[..i] + steps[i..];
    WalkSplit(w, force, steps[..i], steps[i..], db);
    var first := Walk(w, force, steps[..i], db);
    WalkAccounts(w, force, steps[..i], db);
    hide Visit;
    assert !Stopped(first.visits) && |first.visits| == i;
    WalkStep(w, force, steps, i, db);
    hide Accounts;
    var second := Walk(w, force, steps[i..], first.db);
    assert steps[i..][0] == steps[i] && second.visits[0] == (steps[i], Visit(w, force, steps[i], first.db).report);
    assert Walk(w, force, steps, db).visits == first.visits + second.visits;
  }

  /** A walk ends on the rows its visited steps left. */
  lemma EndsWhereItStops(w: Worker, force: bool, steps: seq<JobStep>, n: nat, db: Db)
    requires Trusted(w) && Distinct(steps) && n == |Walk(w, force, steps, db).visits|
    ensures n <= |steps| && Walk(w, force, steps, db).db == Walk(w, force, steps[..n], db).db
  {
    WalkAccounts(w, force, steps, db);
    hide Accounts;
    hide Visit;
    if n == |steps| {
      assert steps[..n] == steps;
    } else {
      assert steps == steps[..n] + steps[n..] && steps[n..] != [];
      WalkSplit(w, force, steps[..n], steps[n..], db);
      var first := Walk(w, force, steps[..n], db);
      assert |Walk(w, force, steps[n..], first.db).visits| > 0;
      if !Stopped(first.visits) {
        WalkAccounts(w, force, steps[..n], db);
        FullLength(w, force, steps[..n], db, first);
        assert false;
      }
    }
  }

  /** The rows of a full walk after its first n steps, and what became of the steps it visited. */
  function After(w: Worker, force: bool, start: Db, n: nat): Db
    requires n <= 11
  {
    PipelineOrder();
    Walk(w, force, PIPELINE_ORDER[..n], start).db
  }

  function Reports(w: Worker, force: bool, start: Db): seq<(JobStep, Report)> {
    Walk(w, force, PIPELINE_ORDER, start).visits
  }

  /** The turn of one step. */
  lemma Turn(w: Worker, force: bool, start: Db, step: JobStep)
    requires Trusted(w) && Position(step) < |Reports(w, force, start)|
    ensures var i := Position(step);
            var v := Visit(w, force, step, After(w, force, start, i));
            Reports(w, force, start)[i] == (step, v.report) && After(w, force, start, i + 1) == v.db
  {
    PipelineOrder();
    hide Visit, Walk;
    ReachesStep(w, force, PIPELINE_ORDER, Position(step), start);
  }

  lemma ScoringTurn(w: Worker, force: bool, start: Db)
    requires Trusted(w) && 7 < |Reports(w, force, start)|
    ensures var v := Visit(w, force, ScoreEvents, After(w, force, start, 7));
            Reports(w, force, start)[7].1 == v.report && After(w, force, start, 8) == v.db
  {
    Turn(w, force, start, ScoreEvents);
    hide Reports, After, Visit;
  }

  lemma CuttingTurn(w: Worker, force: bool, start: Db)
    requires Trusted(w) && 8 < |Reports(w, force, start)|
    ensures var v := Visit(w, force, CutClips, After(w, force, start, 8));
            Reports(w, force, start)[8].1 == v.report && After(w, force, start, 9) == v.db
  {
    Turn(w, force, start, CutClips);
    hide Reports, After, Visit;
  }

  lemma LastTwoTurns(w: Worker, force: bool, start: Db)
    requires Trusted(w) && |Reports(w, force, start)| == 11
    ensures After(w, force, start, 10) == Visit(w, force, Thumbnails, After(w, force, start, 9)).db
    ensures After(w, force, start, 11) == Visit(w, force, Persist, After(w, force, start, 10)).db
    ensures Reports(w, force, start)[10].1 == Visit(w, force, Persist, After(w, force, start, 10)).report
  {
    hide PIPELINE_ORDER, Reports, After, Visit;
    Turn(w, force, start, Thumbnails);
    Turn(w, force, start, Persist);
  }

  lemma LastTurn(w: Worker, force: bool, start: Db)
    requires Trusted(w)
    ensures var n := |Reports(w, force, start)|;
            n <= 11 && Walk(w, force, PIPELINE_ORDER, start).db == After(w, force, start, n)
  {
    PipelineOrder();
    EndsWhereItStops(w, force, PIPELINE_ORDER, |Reports(w, force, start)|, start);
    hide Walk;
  }

  lemma FullLength(w: Worker, force: bool, steps: seq<JobStep>, db: Db, walked: Walked)
    requires Accounts(w, force, steps, db, walked) && !Stopped(walked.visits)
    ensures |walked.visits| == |steps|
  {
  }

  // ----- What each visit does to the highlights -----

  lemma VisitKeepsHighlights(w: Worker, media: Media, force: bool, step: JobStep, db: Db)
    requires CardWorker(w, media)
    requires var report := Visit(w, force, step, db).report;
             step in {ScoreEvents, CutClips, Persist} ==> !report.Ran? || !report.ending.Done?
    ensures Visit(w, force, step, db).db.video.highlights == db.video.highlights
  {
    VisitShape(w, force, step, db);
    hide Visit;
    if step in w.registry && step !in {ScoreEvents, CutClips, Persist} {
      assert KeepsHighlights(w.registry[step]);
    }
  }

  lemma {:induction false} OthersKeepHighlights(w: Worker, media: Media, force: bool, steps: seq<JobStep>, db: Db)
    requires CardWorker(w, media)
    requires ScoreEvents !in steps && CutClips !in steps && Persist !in steps
    ensures Walk(w, force, steps, db).db.video.highlights == db.video.highlights
  {
    if steps != [] {
      VisitKeepsHighlights(w, media, force, steps[0], db);
      var v := Visit(w, force, steps[0], db);
      hide Visit;
      hide CardWorker;
      if !Stops(steps[0], v.report) {
        OthersKeepHighlights(w, media, force, steps[1..], v.db);
      }
    }
  }

  /** The same upload, with the same rows of the three highlight steps. */
  ghost predicate SameStanding(a: Db, b: Db) {
    && SameUpload(a.video, b.video)
    && Row(b, ScoreEvents) == Row(a, ScoreEvents) && Row(b, CutClips) == Row(a, CutClips)
    && Row(b, Persist) == Row(a, Persist)
  }

  /** The seven steps before SCORE_EVENTS leave highlights and rows alone. */
  lemma EarlySteps(w: Worker, media: Media, force: bool, start: Db)
    requires CardWorker(w, media)
    ensures var before := After(w, force, start, 7);
            before.video.highlights == start.video.highlights && SameStanding(start, before)
  {
    EarlyOnes();
    var early := PIPELINE_ORDER[..7];
    var walked := Walk(w, force, early, start);
    assert After(w, force, start, 7) == walked.db;
    hide Walk, CardWorker, PIPELINE_ORDER, After;
    WalkAccounts(w, force, early, start);
    OthersKeepHighlights(w, media, force, early, start);
    hide Distinct, Accounts;
    StandingKept(w, force, early, start, walked);
  }

  lemma EarlyOnes()
    ensures |PIPELINE_ORDER| == 11 && Distinct(PIPELINE_ORDER[..7])
    ensures var early := PIPELINE_ORDER[..7]; ScoreEvents !in early && CutClips !in early && Persist !in early
  {
    PipelineOrder();
    assert PIPELINE_ORDER[..7] == [Validate, Probe, Transcode, SampleFrames, DetectPlayers, Track, JerseyOcr];
  }

  lemma StandingKept(w: Worker, force: bool, steps: seq<JobStep>, start: Db, walked: Walked)
    requires Accounts(w, force, steps, start, walked)
    requires ScoreEvents !in steps && CutClips !in steps && Persist !in steps
    ensures SameStanding(start, walked.db)
  {
    hide AccountedFor, Stops, SameUpload;
    assert forall s | s in steps[..|walked.visits|] :: s in steps;
    assert Untouched(ScoreEvents, start, walked.db) && Untouched(CutClips, start, walked.db);
    assert Untouched(Persist, start, walked.db);
  }

  /** One visit to a step, as its row and the highlights tell it. */
  ghost predicate Visits(w: Worker, media: Media, force: bool, step: JobStep, a: Db, b: Db, report: Report) {
    && Expected(w, force, step, report, a) && SameUpload(a.video, b.video)
    && (forall s | s != step :: Row(b, s) == Row(a, s)) && Row(b, step) == RowAfter(w, step, report, a)
    && (!report.Ran? || !report.ending.Done? || step !in {ScoreEvents, CutClips, Persist} ==>
          b.video.highlights == a.video.highlights)
    && (report.Ran? && report.ending.Done? ==> (
          && (step == ScoreEvents ==> b.video.highlights != [] && !SomeClip(b.video.highlights))
          && (step == CutClips ==> b.video.highlights == CutAll(media, a.video.highlights))
          && (step == Persist ==> GoodCards(b.video))))
  }

  lemma VisitTold(w: Worker, media: Media, force: bool, step: JobStep, db: Db)
    requires CardWorker(w, media)
    ensures var v := Visit(w, force, step, db);
            && Visits(w, media, force, step, db, v.db, v.report)
            && (step == Persist && v.report.Ran? ==> !v.report.ending.NothingToDo?)
  {
    VisitRows(w, force, step, db);
    VisitShape(w, force, step, db);
    var v := Visit(w, force, step, db);
    if !v.report.Ran? || !v.report.ending.Done? || step !in {ScoreEvents, CutClips, Persist} {
      VisitKeepsHighlights(w, media, force, step, db);
    }
    if v.report.Ran? {
      PersistNeverDeclines(w, media, step, db.video, db.game);
      if v.report.ending.Done? {
        DoneHighlights(w, media, step, db.video, db.game);
      }
    }
    hide Visit, RowAfter, UpToDate, CardWorker, SameUpload, SomeClip, CutAll, Row, Expected;
  }

  lemma VisitRows(w: Worker, force: bool, step: JobStep, db: Db)
    requires Trusted(w)
    ensures var v := Visit(w, force, step, db);
            && Expected(w, force, step, v.report, db) && SameUpload(db.video, v.db.video)
            && (forall s | s != step :: Row(v.db, s) == Row(db, s))
            && Row(v.db, step) == RowAfter(w, step, v.report, db)
  {
    VisitFacts(w, force, step, db);
    hide Visit, RowAfter, Expected, SameUpload;
  }

  lemma DoneHighlights(w: Worker, media: Media, step: JobStep, video: Video, game: Option<Match>)
    requires CardWorker(w, media) && step in w.registry && w.registry[step](video, game).ending.Done?
    ensures var after := w.registry[step](video, game).video;
            && (step == ScoreEvents ==> after.highlights != [] && !SomeClip(after.highlights))
            && (step == CutClips ==> after.highlights == CutAll(media, video.highlights))
            && (step == Persist ==> GoodCards(after))
  {
    if step == ScoreEvents {
      assert Scores(w.registry[step], media);
      NoClipsAfterScoring(media, video, game);
    } else if step == CutClips {
      assert Cuts(w.registry[step], media);
      ClipsAfterCutting(media, video, game);
    } else if step == Persist {
      assert Persists(w.registry[step]);
      GoodCardsAfterPersist(video, game);
    }
  }
  // ----- Whole calls -----

  lemma OneStep(w: Worker, force: bool, step: JobStep, db: Db)
    ensures var v := Visit(w, force, step, db);
            Run(w, force, Some(step), db).db == Ended([(step, v.report)], Some(step), v.db)
  {
    hide Visit;
    var v := Visit(w, force, step, db);
    assert [step][1..] == [];
    assert Walk(w, force, [step][1..], v.db) == Walked(v.db, [], []);
    assert Walk(w, force, [step], db).visits == [(step, v.report)] && Walk(w, force, [step], db).db == v.db;
    hide Walk;
  }

  /** A full run is its walk, with a status put on top. */
  lemma FullRun(w: Worker, force: bool, db: Db)
    requires Trusted(w)
    ensures var r, start := Run(w, force, None, db), Begin(db);
            && r.visits == Reports(w, force, start) && |r.visits| <= 11
            && r.db.video.highlights == After(w, force, start, |r.visits|).video.highlights
            && SameStanding(After(w, force, start, |r.visits|), r.db)
            && start.video.highlights == db.video.highlights && SameStanding(db, start)
  {
    LastTurn(w, force, Begin(db));
    hide Walk, After;
  }

  lemma ReadyRunsVisitAll(w: Worker, force: bool, db: Db)
    requires Trusted(w) && Run(w, force, None, db).db.video.status == VideoStatus.Ready
    ensures var visits := Run(w, force, None, db).visits;
            && |visits| == 11 && REQUIRED_STEPS <= w.registry.Keys
            && forall i | 0 <= i < 11 :: !Stops(PIPELINE_ORDER[i], visits[i].1)
  {
    var r := Run(w, force, None, db);
    RunAccounts(w, force, db);
    Verdict(w, force, db);
    FailedStepStops(r.visits);
    hide Run;
  }

  lemma StandsAlike(a: Db, b: Db, step: JobStep, settings: Settings)
    requires SameUpload(a.video, b.video) && Row(b, step) == Row(a, step)
    ensures Holds(step, b, settings) <==> Holds(step, a, settings)
  {
  }

  // ----- The turns of the highlight steps -----

  /** A visit to SCORE_EVENTS, told from the rows before the steps that lead up to it. */
  lemma ScoringTold(w: Worker, media: Media, force: bool, start: Db, before: Db)
    requires CardWorker(w, media) && ScoreEvents in w.registry
    requires SameStanding(start, before) && before.video.highlights == start.video.highlights
    ensures var v := Visit(w, force, ScoreEvents, before);
            && SameUpload(start.video, v.db.video) && !v.report.Unregistered?
            && Row(v.db, CutClips) == Row(start, CutClips) && Row(v.db, Persist) == Row(start, Persist)
            && (v.report.Cached? <==> !force && Holds(ScoreEvents, start, w.settings))
            && (if v.report.Ran? && v.report.ending.Done?
                then Holds(ScoreEvents, v.db, w.settings)
                     && v.db.video.highlights != [] && !SomeClip(v.db.video.highlights)
                else v.db.video.highlights == start.video.highlights)
  {
    VisitTold(w, media, force, ScoreEvents, before);
    StandsAlike(start, before, ScoreEvents, w.settings);
    var v := Visit(w, force, ScoreEvents, before);
    hide Visit, CardWorker;
    SameMark(w, ScoreEvents, before, v.db);
    hide StepFingerprint, Row, SomeClip;
  }

  /** A visit to SCORE_EVENTS makes the moments it finds the cards, if it has to run and finds any. */
  lemma ScoringFinds(w: Worker, media: Media, force: bool, before: Db)
    requires CardWorker(w, media) && ScoreEvents in w.registry
    ensures var v := Visit(w, force, ScoreEvents, before);
            var again := (force || !Holds(ScoreEvents, before, w.settings)) && FindsMoments(media, before.video);
            && (v.report.Ran? && v.report.ending.Done? <==> again)
            && v.db.video.status == before.video.status
            && v.db.video.highlights ==
               if again then NewHighlights(media.windows(before.video).value) else before.video.highlights
  {
    VisitShape(w, force, ScoreEvents, before);
    ScoringOf(w, media, before.video, before.game);
    ScoringSucceeds(media, before.video, before.game);
    hide Visit, CardWorker, StepFingerprint, RowAfter;
  }

  /** A visit to CUT_CLIPS that does not fail. */
  lemma CuttingTold(w: Worker, media: Media, scored: Db)
    requires CardWorker(w, media) && CutClips in w.registry
    requires !Stops(CutClips, Visit(w, false, CutClips, scored).report)
    ensures var cut := Visit(w, false, CutClips, scored).db;
            && SameUpload(scored.video, cut.video) && Row(cut, Persist) == Row(scored, Persist)
            && cut.video.highlights ==
               if Holds(CutClips, scored, w.settings) then scored.video.highlights
               else CutAll(media, scored.video.highlights)
  {
    VisitTold(w, media, false, CutClips, scored);
    VisitShape(w, false, CutClips, scored);
    CuttingDeclines(w, media, scored.video, scored.game);
    hide Visit, CardWorker, StepFingerprint, RowAfter, Row, SomeClip;
  }

  lemma ThumbnailsLeaveCards(w: Worker, media: Media, force: bool, cut: Db)
    requires CardWorker(w, media)
    ensures var shown := Visit(w, force, Thumbnails, cut).db;
            && shown.video.highlights == cut.video.highlights
            && (Holds(Persist, cut, w.settings) <==> Holds(Persist, shown, w.settings))
  {
    VisitTold(w, media, force, Thumbnails, cut);
    hide Visit, CardWorker;
    StandsAlike(cut, Visit(w, force, Thumbnails, cut).db, Persist, w.settings);
    hide Holds, Row, RowAfter;
  }

  /** A PERSIST that runs and does not fail leaves whole cards. */
  lemma RunningPersistLeavesWholeCards(w: Worker, media: Media, force: bool, shown: Db)
    requires CardWorker(w, media) && Persist in w.registry && (force || !Holds(Persist, shown, w.settings))
    requires !Stops(Persist, Visit(w, force, Persist, shown).report)
    ensures GoodCards(Visit(w, force, Persist, shown).db.video)
  {
    VisitTold(w, media, force, Persist, shown);
    hide Visit, CardWorker, Row, RowAfter, SameUpload, GoodCards;
  }

  lemma CachedPersistLeavesCards(w: Worker, media: Media, shown: Db)
    requires CardWorker(w, media) && Persist in w.registry && Holds(Persist, shown, w.settings)
    ensures Visit(w, false, Persist, shown).db.video.highlights == shown.video.highlights
  {
    VisitTold(w, media, false, Persist, shown);
    hide Visit, CardWorker;
  }

  /** A PERSIST that is not cached ends a full walk with whole cards. */
  lemma RunningPersist(w: Worker, media: Media, force: bool, start: Db)
    requires CardWorker(w, media) && Persist in w.registry && |Reports(w, force, start)| == 11
    requires force || !Holds(Persist, After(w, force, start, 9), w.settings)
    requires !Stops(Persist, Reports(w, force, start)[10].1)
    ensures GoodCards(After(w, force, start, 11).video)
  {
    assert Trusted(w);
    hide After, Reports, Visit, Holds, CardWorker, Stops, GoodCards;
    LastTwoTurns(w, force, start);
    ThumbnailsLeaveCards(w, media, force, After(w, force, start, 9));
    RunningPersistLeavesWholeCards(w, media, force, After(w, force, start, 10));
  }

  /** THUMBNAILS and a cached PERSIST leave the cards as they were cut. */
  lemma CachedPersist(w: Worker, media: Media, start: Db)
    requires CardWorker(w, media) && Persist in w.registry && |Reports(w, false, start)| == 11
    requires Holds(Persist, After(w, false, start, 9), w.settings)
    ensures After(w, false, start, 11).video.highlights == After(w, false, start, 9).video.highlights
  {
    assert Trusted(w);
    hide After, Reports, Visit, Holds, CardWorker;
    LastTwoTurns(w, false, start);
    ThumbnailsLeaveCards(w, media, false, After(w, false, start, 9));
    CachedPersistLeavesCards(w, media, After(w, false, start, 10));
  }
}
