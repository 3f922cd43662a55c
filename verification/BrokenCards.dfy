/** Exactly when a call ends READY with broken cards, whatever rows it meets. */
module BrokenCards {
  import opened Domain
  import opened Manifest
  import opened Runner
  import opened Execution
  import opened Resume
  import opened HighlightSteps
  import opened Cards
  import opened CardVisits

  /** READY, with no highlight or with one that has no clip. */
  predicate Broken(db: Db) {
    db.video.status == VideoStatus.Ready && !GoodCards(db.video)
  }

  // ----- A call of one step -----

  /** The detector works on this probed video and finds nothing. */
  predicate FindsNothing(media: Media, video: Video) {
    !NotProbed(video) && media.windows(video) == Some([])
  }

  predicate SomeCut(media: Media, hs: seq<Highlight>) {
    exists i :: 0 <= i < |hs| && WasCut(media, hs[i])
  }

  /** Some highlight has no clip, and cutting gives it none. */
  predicate StaysClipless(media: Media, hs: seq<Highlight>) {
    exists i :: 0 <= i < |hs| && hs[i].clip.None? && !WasCut(media, hs[i])
  }

  lemma CutsMakeCards(media: Media, hs: seq<Highlight>)
    ensures WholeCards(CutAll(media, hs)) <==> hs != [] && !StaysClipless(media, hs)
  {
    var cut := CutAll(media, hs);
    forall i | 0 <= i < |hs| ensures cut[i].clip.Some? <==> hs[i].clip.Some? || WasCut(media, hs[i]) {
    }
    if StaysClipless(media, hs) {
      var i :| 0 <= i < |hs| && hs[i].clip.None? && !WasCut(media, hs[i]);
      assert cut[i].clip.None?;
    }
  }

  /** A step whose row does not stand runs, and one that is forced. */
  predicate HasToRun(w: Worker, force: bool, step: JobStep, db: Db) {
    step in w.registry && (force || !Holds(step, db, w.settings))
  }

  /** What a caller of one step can tell from the rows and the media before the call. */
  predicate StepBreaksCards(w: Worker, media: Media, force: bool, step: JobStep, db: Db) {
    var hs := db.video.highlights;
    && db.video.status == VideoStatus.Ready
    && if !HasToRun(w, force, step, db) then !GoodCards(db.video)
       else
         match step
         case ScoreEvents =>
           FindsMoments(media, db.video) || (FindsNothing(media, db.video) && !GoodCards(db.video))
         case CutClips => hs == [] || (media.readable && SomeCut(media, hs) && StaysClipless(media, hs))
         case Persist => false
         case _ => !Stops(step, Ran(w.registry[step](db.video, db.game).ending)) && !GoodCards(db.video)
  }

  lemma StepEnds(w: Worker, force: bool, step: JobStep, db: Db)
    ensures var v := Visit(w, force, step, db);
            Broken(Run(w, force, Some(step), db).db) <==>
              !Stops(step, v.report) && v.db.video.status == VideoStatus.Ready && !GoodCards(v.db.video)
  {
    OneStep(w, force, step, db);
    var v := Visit(w, force, step, db);
    hide Visit, Run, Clip, WholeCards;
  }

  lemma VisitReports(w: Worker, force: bool, step: JobStep, db: Db)
    ensures var v := Visit(w, force, step, db);
            && (HasToRun(w, force, step, db) ==> v.report == Ran(w.registry[step](db.video, db.game).ending))
            && (!HasToRun(w, force, step, db) ==> !v.report.Ran?)
            && v.db.video == if v.report.Ran? && v.report.ending.Done? then w.registry[step](db.video, db.game).video
                             else db.video
  {
    VisitShape(w, force, step, db);
    hide Visit, StepFingerprint, RowAfter;
  }

  lemma ScoringBreaks(w: Worker, media: Media, force: bool, db: Db)
    requires CardWorker(w, media) && HasToRun(w, force, ScoreEvents, db)
    ensures Broken(Run(w, force, Some(ScoreEvents), db).db) <==> StepBreaksCards(w, media, force, ScoreEvents, db)
  {
    StepEnds(w, force, ScoreEvents, db);
    VisitReports(w, force, ScoreEvents, db);
    ScoringOf(w, media, db.video, db.game);
    ScoringSucceeds(media, db.video, db.game);
    hide Visit, Run, CardWorker, Holds;
    if FindsMoments(media, db.video) {
      NoClipsAfterScoring(media, db.video, db.game);
    }
  }

  lemma CuttingBreaks(w: Worker, media: Media, force: bool, db: Db)
    requires CardWorker(w, media) && HasToRun(w, force, CutClips, db)
    ensures Broken(Run(w, force, Some(CutClips), db).db) <==> StepBreaksCards(w, media, force, CutClips, db)
  {
    StepEnds(w, force, CutClips, db);
    VisitReports(w, force, CutClips, db);
    assert Cuts(w.registry[CutClips], media);
    CutsMakeCards(media, db.video.highlights);
    hide Visit, Run, CardWorker, Holds, CutAll, StaysClipless, WasCut;
  }

  lemma PersistingBreaks(w: Worker, media: Media, force: bool, db: Db)
    requires CardWorker(w, media) && HasToRun(w, force, Persist, db)
    ensures !Broken(Run(w, force, Some(Persist), db).db)
  {
    StepEnds(w, force, Persist, db);
    if !Stops(Persist, Visit(w, force, Persist, db).report) {
      RunningPersistLeavesWholeCards(w, media, force, db);
    }
    hide *;
  }

  lemma OtherBreaks(w: Worker, media: Media, force: bool, step: JobStep, db: Db)
    requires CardWorker(w, media) && HasToRun(w, force, step, db) && step !in {ScoreEvents, CutClips, Persist}
    ensures Broken(Run(w, force, Some(step), db).db) <==> StepBreaksCards(w, media, force, step, db)
  {
    StepEnds(w, force, step, db);
    VisitReports(w, force, step, db);
    assert KeepsHighlights(w.registry[step]) && LeavesStatus(w.registry[step]);
    hide Visit, Run, CardWorker, Holds;
  }

  /** A call of a single step, forced or not, over any rows. */
  lemma OneStepBreaksExactly(w: Worker, media: Media, force: bool, step: JobStep, db: Db)
    requires CardWorker(w, media)
    ensures Broken(Run(w, force, Some(step), db).db) <==> StepBreaksCards(w, media, force, step, db)
  {
    if !HasToRun(w, force, step, db) {
      StepEnds(w, force, step, db);
      VisitReports(w, force, step, db);
      hide Visit, Run, CardWorker, Holds, WholeCards;
    } else {
      match step {
        case ScoreEvents => ScoringBreaks(w, media, force, db);
        case CutClips => CuttingBreaks(w, media, force, db);
        case Persist => PersistingBreaks(w, media, force, db);
        case _ => OtherBreaks(w, media, force, step, db);
      }
      hide Run, CardWorker, Holds, Broken;
    }
  }

  // ----- A full run -----

  /** A forced full run that ends READY has run PERSIST, and with it has whole cards. */
  lemma ForcedRunEndsWhole(w: Worker, media: Media, db: Db)
    requires CardWorker(w, media) && Run(w, true, None, db).db.video.status == VideoStatus.Ready
    ensures GoodCards(Run(w, true, None, db).db.video)
  {
    ReadyRunsVisitAll(w, true, db);
    FullRun(w, true, db);
    hide After, Reports, Run, CardWorker, WholeCards;
    assert PIPELINE_ORDER[10] == Persist;
    RunningPersist(w, media, true, Begin(db));
  }

  /** In an unforced full run SCORE_EVENTS has to run, and finds moments in the video the steps before it leave. */
  predicate ScoresAgain(w: Worker, media: Media, db: Db) {
    !Holds(ScoreEvents, db, w.settings) && FindsMoments(media, After(w, false, Begin(db), 7).video)
  }

  /** The cards an unforced full run shows PERSIST: scored again or not, then cut unless the cutting stands. */
  function Shown(w: Worker, media: Media, db: Db): seq<Highlight> {
    var scored :=
      if ScoresAgain(w, media, db) then NewHighlights(media.windows(After(w, false, Begin(db), 7).video).value)
      else db.video.highlights;
    if Holds(CutClips, db, w.settings) then scored else CutAll(media, scored)
  }

  /** The rows and cards of an unforced READY run before THUMBNAILS and PERSIST. */
  lemma CardsAreShown(w: Worker, media: Media, db: Db)
    requires CardWorker(w, media) && Run(w, false, None, db).db.video.status == VideoStatus.Ready
    ensures var r, cut := Run(w, false, None, db), After(w, false, Begin(db), 9);
            && |r.visits| == 11 && (r.visits[7].1.Cached? <==> Holds(ScoreEvents, db, w.settings))
            && (r.visits[7].1.Ran? && r.visits[7].1.ending.Done? <==> ScoresAgain(w, media, db))
            && cut.video.highlights == Shown(w, media, db)
            && (Holds(Persist, cut, w.settings) <==> Holds(Persist, db, w.settings))
  {
    ReadyRunsVisitAll(w, false, db);
    FullRun(w, false, db);
    var start := Begin(db);
    assert PIPELINE_ORDER[8] == CutClips;
    hide Run, PIPELINE_ORDER;
    EarlySteps(w, media, false, start);
    ScoringTurn(w, false, start);
    CuttingTurn(w, false, start);
    var before, found := After(w, false, start, 7), After(w, false, start, 8);
    hide After, Reports;
    ScoringTold(w, media, false, start, before);
    ScoringFinds(w, media, false, before);
    CuttingTold(w, media, found);
    hide Visit, SomeClip, CutAll, NewHighlights, FindsMoments, CardWorker;
    StandsAlike(db, before, ScoreEvents, w.settings);
    StandsAlike(db, found, CutClips, w.settings);
    StandsAlike(db, After(w, false, start, 9), Persist, w.settings);
    hide Holds, Row;
  }

  /**
   * An unforced full run that ends READY: PERSIST leaves whole cards if it runs, and the
   * cards as they are shown to it if it is cached.
   */
  lemma ReadyRunBreaksExactly(w: Worker, media: Media, db: Db)
    requires CardWorker(w, media) && Run(w, false, None, db).db.video.status == VideoStatus.Ready
    ensures var r := Run(w, false, None, db);
            && (Holds(Persist, db, w.settings) ==> r.db.video.highlights == Shown(w, media, db))
            && (Broken(r.db) <==> Holds(Persist, db, w.settings) && !WholeCards(Shown(w, media, db)))
  {
    CardsAreShown(w, media, db);
    ReadyRunsVisitAll(w, false, db);
    FullRun(w, false, db);
    assert PIPELINE_ORDER[10] == Persist;
    hide After, Reports, Run, CardWorker, WholeCards, Holds, Shown;
    if Holds(Persist, db, w.settings) {
      CachedPersist(w, media, Begin(db));
    } else {
      RunningPersist(w, media, false, Begin(db));
    }
  }

  // ----- Any call -----

  /**
   * Every way for a call to end READY with broken cards, over any rows: a single step
   * as `StepBreaksCards` says, or an unforced full run whose PERSIST is cached and is shown
   * cards that are not whole. A forced full run never does.
   */
  lemma CallBreaksCardsExactly(w: Worker, media: Media, force: bool, only: Option<JobStep>, db: Db)
    requires CardWorker(w, media)
    ensures Broken(Run(w, force, only, db).db) <==>
              match only
              case Some(step) => StepBreaksCards(w, media, force, step, db)
              case None =>
                && !force && Run(w, force, only, db).db.video.status == VideoStatus.Ready
                && Holds(Persist, db, w.settings) && !WholeCards(Shown(w, media, db))
  {
    hide Run, CardWorker, Holds, WholeCards, Shown, StepBreaksCards;
    match only {
      case Some(step) => OneStepBreaksExactly(w, media, force, step, db);
      case None =>
        if Run(w, force, only, db).db.video.status == VideoStatus.Ready {
          if force {
            ForcedRunEndsWhole(w, media, db);
          } else {
            ReadyRunBreaksExactly(w, media, db);
          }
        }
    }
  }

  /** From rows that account for their cards, only the forced single-step re-score of a READY video breaks them. */
  lemma AccountedCallBreaksCardsExactly(w: Worker, media: Media, force: bool, only: Option<JobStep>, db: Db)
    requires CardWorker(w, media) && CardsAccountedFor(db, w.settings)
    ensures Broken(Run(w, force, only, db).db) <==>
              && force && only == Some(ScoreEvents) && ScoreEvents in w.registry
              && db.video.status == VideoStatus.Ready && FindsMoments(media, db.video)
  {
    var r := Run(w, force, only, db);
    if !Rescores(force, only) {
      assert r.published[|r.published|-1] == r.db;
      RunKeepsCards(w, media, force, only, db, r.db);
    } else {
      CallBreaksCardsExactly(w, media, force, only, db);
    }
    hide Run, CardWorker, Holds, FindsMoments, WholeCards;
  }
}
