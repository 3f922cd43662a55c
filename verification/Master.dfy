/** Which segments the master was joined from, over any requests, VALIDATE runs and other writes of the pipeline. */
module Master {
  import opened Domain
  import opened Manifest
  import opened Runner
  import opened Execution
  import opened Recording

  /**
   * A request with the storage it meets, a run of VALIDATE, or anything else the pipeline
   * writes: no other step touches the segments or `original_url`.
   */
  datatype Event =
    | Asked(storage: Storage, request: Request)
    | Validated(originals: Originals)
    | Wrote(video: Video, game: Match)

  /** VALIDATE over the current rows; the runner keeps what it wrote only if it succeeded. */
  function Ingested(o: Originals, s: State): State {
    var out := ValidateOutcome(o, VideoOf(s), Some(s.game));
    if s.video.Some? && out.ending.Done? then s.(video := Some(out.video)) else s
  }

  function Happens(e: Event, s: State): State {
    match e
    case Asked(storage, request) => Apply(storage, request, s).0
    case Validated(o) => Ingested(o, s)
    case Wrote(video, game) =>
      var v := VideoOf(s);
      if s.video.None? then s
      else s.(game := game, video := Some(video.(segments := v.segments, originalUrl := v.originalUrl)))
  }

  function HappenAll(es: seq<Event>, s: State): State {
    if es == [] then s else Happens(es[|es|-1], HappenAll(es[..|es|-1], s))
  }

  predicate HasMaster(s: State) {
    VideoOf(s).originalUrl.Some? && VideoOf(s).originalUrl.value != ""
  }

  /** VALIDATE finds no master and joins the segments. */
  predicate Joins(o: Originals, s: State) {
    s.video.Some? && ValidateOutcome(o, VideoOf(s), Some(s.game)).ending == Done("segments")
  }

  function JoinOf(o: Originals, s: State): string
    requires Joins(o, s)
  {
    o.join(JoinOrder(VideoOf(s).segments)).value.0
  }

  /** An accepted completion: it names a new master, or clears the old one for VALIDATE to join again. */
  predicate Completes(e: Event, s: State) {
    e.Asked? && e.request.CompleteUpload? && Apply(e.storage, e.request, s).1 == Ok
  }

  /** A segment that was not there before is confirmed. */
  predicate AddsSegment(e: Event, s: State) {
    && e.Asked? && e.request.ConfirmSegment?
    && SegmentKey(e.request.index) in e.storage && e.request.index !in VideoOf(s).segments
  }

  predicate JoinsNow(e: Event, s: State) {
    e.Validated? && Joins(e.originals, s)
  }

  /** No event of the history is of this kind in the state it meets. */
  predicate Never(kind: (Event, State) -> bool, es: seq<Event>, s: State) {
    es != [] ==> Never(kind, es[..|es|-1], s) && !kind(es[|es|-1], HappenAll(es[..|es|-1], s))
  }

  /** Segments are stored under their own keys, as every confirmation leaves them. */
  predicate OwnKeys(segments: map<nat, Segment>) {
    forall i | i in segments :: segments[i].url == Uri(SegmentKey(i))
  }

  // ----- One event -----

  lemma RequestSegments(storage: Storage, r: Request, s: State)
    ensures VideoOf(Apply(storage, r, s).0).segments ==
              if r.ConfirmSegment? then Confirmed(VideoOf(s).segments, storage, r.index, r.size, r.duration)
              else VideoOf(s).segments
    ensures !(r.CompleteUpload? && Apply(storage, r, s).1 == Ok) ==>
              VideoOf(Apply(storage, r, s).0).originalUrl == VideoOf(s).originalUrl
  {
    hide Sorted, TotalSize, Uri, HasAll, Uploadable;
  }

  lemma IngestedUpload(o: Originals, s: State)
    ensures VideoOf(Ingested(o, s)).segments == VideoOf(s).segments
    ensures VideoOf(Ingested(o, s)).originalUrl == if Joins(o, s) then Some(JoinOf(o, s)) else VideoOf(s).originalUrl
    ensures HasMaster(s) ==> !Joins(o, s)
  {
    hide Sorted, JoinOrder, Indexes;
  }

  /** Only a completion and a join change the master's url. */
  lemma EventKeepsMaster(e: Event, s: State)
    requires !Completes(e, s) && !JoinsNow(e, s)
    ensures VideoOf(Happens(e, s)).originalUrl == VideoOf(s).originalUrl
  {
    match e {
      case Asked(storage, request) => RequestSegments(storage, request, s);
      case Validated(o) => IngestedUpload(o, s);
      case Wrote(_, _) =>
    }
    hide Apply, Ingested, Joins;
  }

  lemma ConfirmedKeys(segments: map<nat, Segment>, storage: Storage, r: Request)
    requires r.ConfirmSegment? && OwnKeys(segments)
    ensures var after := Confirmed(segments, storage, r.index, r.size, r.duration);
            && OwnKeys(after) && segments.Keys <= after.Keys
            && (after.Keys == segments.Keys <==> SegmentKey(r.index) !in storage || r.index in segments)
  {
    hide Uri;
  }

  /** Only a new confirmation changes which segments there are. */
  lemma EventKeepsKeys(e: Event, s: State)
    requires OwnKeys(VideoOf(s).segments)
    ensures var before, after := VideoOf(s).segments, VideoOf(Happens(e, s)).segments;
            && OwnKeys(after) && before.Keys <= after.Keys
            && (after.Keys == before.Keys <==> !AddsSegment(e, s))
  {
    match e {
      case Asked(storage, request) =>
        RequestSegments(storage, request, s);
        hide Apply, Confirmed, OwnKeys;
        if request.ConfirmSegment? {
          ConfirmedKeys(VideoOf(s).segments, storage, request);
        }
      case Validated(o) =>
        IngestedUpload(o, s);
        hide Ingested, OwnKeys, Joins;
      case Wrote(_, _) =>
        hide OwnKeys;
    }
  }

  // ----- Histories -----

  lemma {:induction false} HistoryKeepsKeys(es: seq<Event>, s: State)
    requires OwnKeys(VideoOf(s).segments)
    ensures var before, after := VideoOf(s).segments, VideoOf(HappenAll(es, s)).segments;
            && OwnKeys(after) && before.Keys <= after.Keys
            && (after.Keys == before.Keys <==> Never(AddsSegment, es, s))
  {
    if es != [] {
      var rest, last := es[..|es|-1], es[|es|-1];
      HistoryKeepsKeys(rest, s);
      EventKeepsKeys(last, HappenAll(rest, s));
      hide Happens, OwnKeys, AddsSegment, VideoOf;
    }
  }

  /** While nothing completes the upload, a master there is stays, and without one there is none until a join. */
  lemma {:induction false} HistoryKeepsMaster(es: seq<Event>, s: State)
    requires Never(Completes, es, s) && (HasMaster(s) || Never(JoinsNow, es, s))
    ensures VideoOf(HappenAll(es, s)).originalUrl == VideoOf(s).originalUrl
  {
    if es != [] {
      var rest, last := es[..|es|-1], es[|es|-1];
      hide Completes, Joins, Happens;
      HistoryKeepsMaster(rest, s);
      if last.Validated? {
        IngestedUpload(last.originals, HappenAll(rest, s));
      }
      EventKeepsMaster(last, HappenAll(rest, s));
    }
  }

  lemma SameJoin(a: map<nat, Segment>, b: map<nat, Segment>)
    requires OwnKeys(a) && OwnKeys(b) && a.Keys <= b.Keys
    ensures JoinOrder(a) == JoinOrder(b) <==> a.Keys == b.Keys
  {
    hide Uri;
    if JoinOrder(a) == JoinOrder(b) {
      assert |a.Keys| == |JoinOrder(a)| == |b.Keys|;
      assert |b.Keys - a.Keys| == |b.Keys| - |a.Keys|;
    }
  }

  // ----- Whose join the master is -----

  /**
   * The master VALIDATE joined (its url is never empty) stays the master until the upload
   * is completed again, and is the join of the current segments exactly when none was
   * added since.
   */
  lemma {:induction false} JoinIsCurrentExactly(o: Originals, s: State, since: seq<Event>)
    requires OwnKeys(VideoOf(s).segments) && Joins(o, s) && JoinOf(o, s) != ""
    requires Never(Completes, since, Ingested(o, s))
    ensures var now := VideoOf(HappenAll(since, Ingested(o, s)));
            && now.originalUrl == Some(JoinOf(o, s))
            && (JoinOrder(now.segments) == JoinOrder(VideoOf(s).segments) <==>
                  Never(AddsSegment, since, Ingested(o, s)))
  {
    var joined := Ingested(o, s);
    IngestedUpload(o, s);
    hide Ingested, Joins, JoinOf, OwnKeys, HappenAll, Never, JoinOrder, VideoOf;
    HistoryKeepsMaster(since, joined);
    HistoryKeepsKeys(since, joined);
    SameJoin(VideoOf(s).segments, VideoOf(HappenAll(since, joined)).segments);
  }

  /**
   * So a late segment is lost to the pipeline: it changes the fingerprint of every step,
   * whence all of them run again, but VALIDATE neither joins it nor misses it.
   */
  lemma {:induction false} LateSegmentIsNotJoined(o: Originals, s: State, since: seq<Event>, o2: Originals,
                                                  settings: Settings, step: JobStep)
    requires OwnKeys(VideoOf(s).segments) && Joins(o, s) && JoinOf(o, s) != ""
    requires Never(Completes, since, Ingested(o, s)) && !Never(AddsSegment, since, Ingested(o, s))
    ensures var now := HappenAll(since, Ingested(o, s));
            && StepFingerprint(VideoOf(now), step, settings) != StepFingerprint(VideoOf(s), step, settings)
            && !RejectedForGap(VideoOf(now))
            && VideoOf(Ingested(o2, now)).originalUrl == Some(JoinOf(o, s))
  {
    var joined := Ingested(o, s);
    var now := HappenAll(since, joined);
    JoinIsCurrentExactly(o, s, since);
    IngestedUpload(o, s);
    IngestedUpload(o2, now);
    FingerprintCoversInputs(VideoOf(now), VideoOf(s), step, settings);
    hide Ingested, Joins, JoinOf, OwnKeys, HappenAll, Never, JoinOrder, VideoOf, StepFingerprint;
    HistoryKeepsKeys(since, joined);
  }

  /**
   * Completing the upload by segments clears the master: as long as it is not completed
   * again, the next VALIDATE that succeeds joins the segments there are by then.
   */
  lemma {:induction false} CompletionIsJoinedAsItStands(storage: Storage, n: nat, at: int, s: State,
                                                        since: seq<Event>, o: Originals)
    requires Apply(storage, CompleteUpload(Some(n), at), s).1 == Ok
    requires var completed := Apply(storage, CompleteUpload(Some(n), at), s).0;
             Never(Completes, since, completed) && Never(JoinsNow, since, completed)
    ensures var now := HappenAll(since, Apply(storage, CompleteUpload(Some(n), at), s).0);
            ValidateOutcome(o, VideoOf(now), Some(now.game)).ending.Done? ==>
              Joins(o, now) && VideoOf(Ingested(o, now)).originalUrl == Some(JoinOf(o, now))
  {
    var completed := Apply(storage, CompleteUpload(Some(n), at), s).0;
    assert VideoOf(completed).originalUrl == None;
    hide Apply, Never;
    HistoryKeepsMaster(since, completed);
    var now := HappenAll(since, completed);
    hide HappenAll;
    IngestedUpload(o, now);
    OnlySegmentsToJoin(o, now);
    hide Ingested, ValidateOutcome, Joins;
  }

  lemma OnlySegmentsToJoin(o: Originals, s: State)
    requires !HasMaster(s)
    ensures ValidateOutcome(o, VideoOf(s), Some(s.game)).ending.Done? ==> Joins(o, s)
  {
    hide Sorted, JoinOrder, Indexes;
  }
}
