/**
 * No broken cards: along any history of one upload, a READY video has highlights and
 * each of them has a clip.
 */
module Cards {
  import opened Domain
  import opened Manifest
  import opened Runner
  import opened Execution
  import opened Resume
  import opened HighlightSteps
  import opened Recording

  ghost predicate Scores(f: StepFn, media: Media) {
    forall v: Video, m: Option<Match> {:trigger f(v, m)} :: f(v, m) == ScoreEventsOutcome(media, v, m)
  }

  ghost predicate Cuts(f: StepFn, media: Media) {
    forall v: Video, m: Option<Match> {:trigger f(v, m)} :: f(v, m) == CutClipsOutcome(media, v, m)
  }

  ghost predicate Persists(f: StepFn) {
    forall v: Video, m: Option<Match> {:trigger f(v, m)} :: f(v, m) == PersistOutcome(v, m)
  }

  ghost predicate KeepsHighlights(f: StepFn) {
    forall v: Video, m: Option<Match> {:trigger f(v, m)} :: f(v, m).video.highlights == v.highlights
  }

  /** A worker running the real highlight steps over this media, and any other steps that leave the cards alone. */
  ghost predicate CardWorker(w: Worker, media: Media) {
    && Trusted(w) && StatusesAreSettledLast(w)
    && forall s | s in w.registry ::
         match s
         case ScoreEvents => Scores(w.registry[s], media)
         case CutClips => Cuts(w.registry[s], media)
         case Persist => Persists(w.registry[s])
         case _ => KeepsHighlights(w.registry[s])
  }

  predicate SomeClip(hs: seq<Highlight>) {
    exists i :: 0 <= i < |hs| && hs[i].clip.Some?
  }

  predicate AllClips(hs: seq<Highlight>) {
    forall i :: 0 <= i < |hs| ==> hs[i].clip.Some?
  }

  predicate WholeCards(hs: seq<Highlight>) {
    hs != [] && AllClips(hs)
  }

  predicate GoodCards(video: Video) {
    WholeCards(video.highlights)
  }

  /** Success of a step at the fingerprint of the current upload, whoever ran it. */
  predicate Holds(step: JobStep, db: Db, settings: Settings) {
    Row(db, step).status == JobStatus.Succeeded
    && Row(db, step).fingerprint == Some(StepFingerprint(db.video, step, settings))
  }

  /**
   * The rows of the three highlight steps account for the cards: highlights exist only
   * under a standing scoring, a cutting left some clip, and both PERSIST's success and
   * READY mean whole cards.
   */
  ghost predicate CardsAccountedFor(db: Db, settings: Settings) {
    var hs := db.video.highlights;
    && (hs != [] ==> Holds(ScoreEvents, db, settings))
    && (Holds(CutClips, db, settings) ==> SomeClip(hs))
    && (Holds(Persist, db, settings) ==> GoodCards(db.video))
    && (db.video.status == VideoStatus.Ready ==> GoodCards(db.video))
    && Row(db, Persist).status != JobStatus.Skipped
  }

  /** Everything the invariant reads, except the row of one step. */
  predicate SameElsewhere(a: Db, b: Db, step: JobStep) {
    && b.video.id == a.video.id && b.video.segments == a.video.segments
    && (a.video.segments == map[] ==> b.video.originalUrl == a.video.originalUrl)
    && (step != ScoreEvents ==> Row(b, ScoreEvents) == Row(a, ScoreEvents))
    && (step != CutClips ==> Row(b, CutClips) == Row(a, CutClips))
    && (step != Persist ==> Row(b, Persist) == Row(a, Persist))
  }

  lemma HoldsElsewhere(a: Db, b: Db, step: JobStep, s: JobStep, settings: Settings)
    requires SameElsewhere(a, b, step) && s != step && s in {ScoreEvents, CutClips, Persist}
    ensures Holds(s, b, settings) <==> Holds(s, a, settings)
  {
  }

  lemma Elsewhere(step: JobStep, a: Db, b: Db, row: Job)
    requires b.jobs == a.jobs[step := row] && SameUpload(a.video, b.video)
    ensures SameElsewhere(a, b, step) && Row(b, step) == row
  {
  }

  /** A row that is not a success takes nothing away from the cards, unless it replaces a standing scoring. */
  lemma UnfinishedRow(a: Db, b: Db, step: JobStep, settings: Settings)
    requires CardsAccountedFor(a, settings) && (step == ScoreEvents ==> !Holds(step, a, settings))
    requires SameElsewhere(a, b, step) && b.video == a.video && Row(b, step).status != JobStatus.Succeeded
    requires step == Persist ==> Row(b, step).status != JobStatus.Skipped
    ensures CardsAccountedFor(b, settings)
  {
    HoldsAll(a, b, step, settings);
    hide StepFingerprint;
  }

  lemma HoldsAll(a: Db, b: Db, step: JobStep, settings: Settings)
    requires SameElsewhere(a, b, step)
    ensures forall s | s in {ScoreEvents, CutClips, Persist} && s != step ::
              Holds(s, b, settings) <==> Holds(s, a, settings)
  {
    forall s | s in {ScoreEvents, CutClips, Persist} && s != step
      ensures Holds(s, b, settings) <==> Holds(s, a, settings)
    {
      HoldsElsewhere(a, b, step, s, settings);
    }
  }

  /** A step's success keeps the cards accounted for: the heart of the argument, step by step. */
  lemma FinishedRow(w: Worker, media: Media, step: JobStep, a: Db, b: Db)
    requires CardWorker(w, media) && step in w.registry
    requires CardsAccountedFor(a, w.settings) && (step == ScoreEvents ==> !Holds(step, a, w.settings))
    requires var o := w.registry[step](a.video, a.game); o.ending.Done? && b.video == o.video
    requires SameElsewhere(a, b, step) && Holds(step, b, w.settings)
    ensures CardsAccountedFor(b, w.settings)
  {
    HoldsAll(a, b, step, w.settings);
    hide StepFingerprint;
    hide Holds;
    match step {
      case ScoreEvents =>
        assert Scores(w.registry[step], media);
        NoClipsAfterScoring(media, a.video, a.game);
      case CutClips =>
        assert Cuts(w.registry[step], media);
        ClipsAfterCutting(media, a.video, a.game);
      case Persist =>
        assert Persists(w.registry[step]);
        GoodCardsAfterPersist(a.video, a.game);
      case _ =>
        assert KeepsHighlights(w.registry[step]) && LeavesStatus(w.registry[step]);
    }
  }

  // What a success of each highlight step means for the cards.

  lemma NoClipsAfterScoring(media: Media, video: Video, game: Option<Match>)
    requires ScoreEventsOutcome(media, video, game).ending.Done?
    ensures var after := ScoreEventsOutcome(media, video, game).video;
            && after == video.(highlights := after.highlights)
            && after.highlights != [] && !SomeClip(after.highlights) && !GoodCards(after)
    ensures video.highlights == [] ==> !SomeClip(video.highlights) && !GoodCards(video)
  {
    var after := ScoreEventsOutcome(media, video, game).video;
    assert after.highlights[0].clip.None?;
  }

  lemma ClipsAfterCutting(media: Media, video: Video, game: Option<Match>)
    requires CutClipsOutcome(media, video, game).ending.Done?
    ensures var after := CutClipsOutcome(media, video, game).video;
            && after == video.(highlights := CutAll(media, video.highlights))
            && video.highlights != [] && SomeClip(after.highlights)
            && (GoodCards(video) ==> GoodCards(after))
  {
    var i :| 0 <= i < |video.highlights| && WasCut(media, video.highlights[i]);
    assert CutAll(media, video.highlights)[i].clip.Some?;
  }

  lemma GoodCardsAfterPersist(video: Video, game: Option<Match>)
    requires PersistOutcome(video, game).ending.Done?
    ensures var after := PersistOutcome(video, game).video;
            && GoodCards(after) && SomeClip(after.highlights)
            && video.highlights != [] && SomeClip(video.highlights)
  {
    var after := WithClip(video.highlights);
    assert after[0] in video.highlights && after[0].clip.Some?;
    forall i | 0 <= i < |after| ensures after[i].clip.Some? {
      assert after[i] in after;
    }
  }

  /** Any visit, forced or not, that is not a forced scoring. */
  lemma VisitKeepsCards(w: Worker, media: Media, force: bool, step: JobStep, db: Db)
    requires CardWorker(w, media) && CardsAccountedFor(db, w.settings) && !(force && step == ScoreEvents)
    ensures var v := Visit(w, force, step, db);
            && CardsAccountedFor(v.db, w.settings)
            && forall c | c in v.published :: CardsAccountedFor(c, w.settings)
  {
    var v := Visit(w, force, step, db);
    VisitFacts(w, force, step, db);
    VisitShape(w, force, step, db);
    StartedShape(w, step, db);
    var started := Started(w, step, db);
    hide Visit;
    hide Started;
    hide StepFingerprint;
    if v.report.Ran? {
      RanKeepsCards(w, media, step, db, started, v.db);
    } else {
      Elsewhere(step, db, v.db, Row(db, step));
      SameRowsSameCards(db, v.db, step, w.settings);
    }
  }

  lemma SameRowsSameCards(a: Db, b: Db, step: JobStep, settings: Settings)
    requires CardsAccountedFor(a, settings) && SameElsewhere(a, b, step)
    requires b.video == a.video && Row(b, step) == Row(a, step)
    ensures CardsAccountedFor(b, settings)
  {
    HoldsAll(a, b, step, settings);
  }

  lemma RanKeepsCards(w: Worker, media: Media, step: JobStep, db: Db, started: Db, after: Db)
    requires CardWorker(w, media) && CardsAccountedFor(db, w.settings)
    requires step in w.registry && (step == ScoreEvents ==> !UpToDate(w, step, db))
    requires started.video == db.video
    requires started.jobs == db.jobs[step := RunningRow(Row(db, step), Mark(w, step, db), w.startedAt(step))]
    requires var o := w.registry[step](db.video, db.game);
             && after.jobs == db.jobs[step := RowAfter(w, step, Ran(o.ending), db)]
             && after.video == if o.ending.Done? then o.video else db.video
    ensures CardsAccountedFor(started, w.settings) && CardsAccountedFor(after, w.settings)
  {
    var o := w.registry[step](db.video, db.game);
    assert KeepsUpload(w.registry[step]);
    Elsewhere(step, db, started, RunningRow(Row(db, step), Mark(w, step, db), w.startedAt(step)));
    Elsewhere(step, db, after, RowAfter(w, step, Ran(o.ending), db));
    SameMark(w, step, db, after);
    assert Row(after, step).fingerprint == Some(Mark(w, step, db));
    hide StepFingerprint;
    UnfinishedRow(db, started, step, w.settings);
    if o.ending.Done? {
      FinishedRow(w, media, step, db, after);
    } else {
      PersistNeverDeclines(w, media, step, db.video, db.game);
      UnfinishedRow(db, after, step, w.settings);
    }
  }

  lemma PersistNeverDeclines(w: Worker, media: Media, step: JobStep, video: Video, game: Option<Match>)
    requires CardWorker(w, media) && step in w.registry
    ensures step == Persist ==> !w.registry[step](video, game).ending.NothingToDo?
  {
    if step == Persist {
      assert Persists(w.registry[step]);
    }
  }

  lemma {:induction false} WalkKeepsCards(w: Worker, media: Media, force: bool, steps: seq<JobStep>, db: Db)
    requires CardWorker(w, media) && CardsAccountedFor(db, w.settings) && !(force && ScoreEvents in steps)
    ensures var walked := Walk(w, force, steps, db);
            && CardsAccountedFor(walked.db, w.settings)
            && forall c | c in walked.published :: CardsAccountedFor(c, w.settings)
  {
    if steps != [] {
      VisitKeepsCards(w, media, force, steps[0], db);
      var v := Visit(w, force, steps[0], db);
      hide Visit;
      hide CardWorker;
      hide CardsAccountedFor;
      if !Stops(steps[0], v.report) {
        WalkKeepsCards(w, media, force, steps[1..], v.db);
      }
    }
  }

  /** The calls that score again over a scoring that stands. */
  predicate Rescores(force: bool, only: Option<JobStep>) {
    force && (only == None || only == Some(ScoreEvents))
  }

  /** Every state that any other call publishes accounts for its cards. */
  lemma RunKeepsCards(w: Worker, media: Media, force: bool, only: Option<JobStep>, db: Db, c: Db)
    requires CardWorker(w, media) && CardsAccountedFor(db, w.settings) && !Rescores(force, only)
    requires c in Run(w, force, only, db).published
    ensures CardsAccountedFor(c, w.settings)
  {
    PipelineOrder();
    var r := Run(w, force, only, db);
    var start := if only.None? then Begin(db) else db;
    var walked := Walk(w, force, StepsOf(only), start);
    if only.None? {
      StatusOnly(db, start, w.settings);
    }
    WalkKeepsCards(w, media, force, StepsOf(only), start);
    if c == r.db {
      if only.None? {
        Verdict(w, force, db);
      }
      hide Walk;
      StatusOnly(walked.db, r.db, w.settings);
    }
  }

  lemma StatusOnly(a: Db, b: Db, settings: Settings)
    requires CardsAccountedFor(a, settings)
    requires b.jobs == a.jobs
    requires b.video.(status := a.video.status, failureReason := a.video.failureReason) == a.video
    requires b.video.status == VideoStatus.Ready ==> a.video.status == VideoStatus.Ready || Holds(Persist, b, settings)
    ensures CardsAccountedFor(b, settings)
  {
    assert forall s: JobStep :: StepFingerprint(a.video, s, settings) == StepFingerprint(b.video, s, settings);
  }

  /**
   * What may happen to the rows next: a call by some worker, full or single-step, forced
   * or not, as long as it does not score again by force, seen at any of its commits (it
   * may have died there); or a pass of the reaper.
   */
  ghost predicate Next(a: Db, b: Db, settings: Settings) {
    || (exists w: Worker, media: Media, force: bool, only: Option<JobStep> ::
          CardWorker(w, media) && w.settings == settings && !Rescores(force, only)
          && b in Run(w, force, only, a).published)
    || (exists now: int :: b == Reaped(a, now))
  }

  ghost predicate History(h: seq<Db>, settings: Settings) {
    && h != []
    && h[0].jobs == map[] && h[0].video.highlights == [] && h[0].video.status != VideoStatus.Ready
    && forall i | 0 <= i < |h| - 1 :: Next(h[i], h[i+1], settings)
  }

  lemma ReaperKeepsCards(db: Db, now: int, settings: Settings)
    requires CardsAccountedFor(db, settings)
    ensures CardsAccountedFor(Reaped(db, now), settings)
  {
    var after := Reaped(db, now);
    forall s: JobStep ensures Holds(s, after, settings) <==> Holds(s, db, settings) {
      hide StepFingerprint;
      assert s in db.jobs ==> after.jobs[s] == ReapRow(db.jobs[s], now);
    }
    hide StepFingerprint;
    assert Row(after, Persist) == Row(db, Persist) || Row(after, Persist) == ReapRow(Row(db, Persist), now);
  }

  /**
   * No broken cards. Start an upload with no job rows and no highlights; let any calls
   * follow except those that score again by force, by any workers, with any detections
   * and any ffmpeg failures, each completing or dying at any commit, and the reaper
   * firing at will. Whenever the video reads READY it has a highlight, and every
   * highlight has a clip.
   */
  lemma {:induction false} NoBrokenCards(h: seq<Db>, settings: Settings, i: nat)
    requires History(h, settings) && i < |h|
    ensures CardsAccountedFor(h[i], settings)
    ensures h[i].video.status == VideoStatus.Ready ==> GoodCards(h[i].video)
  {
    hide StepFingerprint;
    if i > 0 {
      NoBrokenCards(h, settings, i - 1);
      var before, after := h[i-1], h[i-1+1];
      assert Next(before, after, settings);
      if now: int :| after == Reaped(before, now) {
        ReaperKeepsCards(before, now, settings);
      } else {
        var w: Worker, media: Media, force: bool, only: Option<JobStep> :|
          CardWorker(w, media) && w.settings == settings && !Rescores(force, only)
          && after in Run(w, force, only, before).published;
        RunKeepsCards(w, media, force, only, before, after);
      }
    }
  }

  /** A process with the modelled steps registered. */
  function RealWorker(originals: Originals, media: Media, settings: Settings): Worker {
    Worker(
      map[Validate := (v: Video, g: Option<Match>) => ValidateOutcome(originals, v, g),
          ScoreEvents := (v: Video, g: Option<Match>) => ScoreEventsOutcome(media, v, g),
          CutClips := (v: Video, g: Option<Match>) => CutClipsOutcome(media, v, g),
          Persist := (v: Video, g: Option<Match>) => PersistOutcome(v, g)],
      settings, s => 0, s => 0)
  }

  /** The modelled steps keep the promises the theorems about runs ask of every step. */
  lemma RealStepsQualify(originals: Originals, media: Media, settings: Settings)
    ensures CardWorker(RealWorker(originals, media, settings), media)
  {
    forall v: Video, g: Option<Match>
      ensures var o := ValidateOutcome(originals, v, g);
              && SameUpload(v, o.video) && o.video.status == v.status && o.game == g
              && o.video.highlights == v.highlights
    {
      ValidateKeepsUpload(originals, v, g);
    }
    forall v: Video, g: Option<Match>
      ensures SameUpload(v, PersistOutcome(v, g).video)
      ensures SameUpload(v, ScoreEventsOutcome(media, v, g).video) && SameUpload(v, CutClipsOutcome(media, v, g).video)
      ensures ScoreEventsOutcome(media, v, g).video.status == v.status && ScoreEventsOutcome(media, v, g).game == g
      ensures CutClipsOutcome(media, v, g).video.status == v.status && CutClipsOutcome(media, v, g).game == g
    {
      ScoringKeepsUpload(media, v, g);
      CuttingKeepsUpload(media, v, g);
      PersistingKeepsUpload(v, g);
    }
    hide ValidateOutcome, ScoreEventsOutcome, CutClipsOutcome, PersistOutcome, SameUpload;
  }

  lemma ScoringKeepsUpload(media: Media, v: Video, g: Option<Match>)
    ensures SameUpload(v, ScoreEventsOutcome(media, v, g).video)
    ensures ScoreEventsOutcome(media, v, g).video.status == v.status && ScoreEventsOutcome(media, v, g).game == g
  {
    hide NewHighlights;
  }

  lemma CuttingKeepsUpload(media: Media, v: Video, g: Option<Match>)
    ensures SameUpload(v, CutClipsOutcome(media, v, g).video)
    ensures CutClipsOutcome(media, v, g).video.status == v.status && CutClipsOutcome(media, v, g).game == g
  {
    hide CutAll, WasCut;
  }

  lemma PersistingKeepsUpload(v: Video, g: Option<Match>)
    ensures SameUpload(v, PersistOutcome(v, g).video)
  {
    hide WithClip;
  }
}
