/**
 * The recording lifecycle and the upload, from the venue's start button to VALIDATE:
 * segments are confirmed in any order, with repeats, and joined in another process.
 */
module Recording {
  import opened Domain
  import opened Manifest
  import opened Runner
  import opened Execution
  import opened Sequences

  const MIN_PLAUSIBLE_BYTES := 1024

  /** Object keys are deterministic per match and video: the master, and one per segment index. */
  datatype Key = MasterKey | SegmentKey(index: nat)

  /** Object storage: the size of what has landed under each key. */
  type Storage = map<Key, nat>

  function Uri(key: Key): string {
    match key case MasterKey => "master" case SegmentKey(i) => "segment-" + Digits(i)
  }

  function Digits(n: nat): string {
    if n < 10 then [(n as char) + '0'] else Digits(n / 10) + [((n % 10) as char) + '0']
  }

  lemma {:induction false} DigitsDiffer(m: nat, n: nat)
    ensures Digits(m) == Digits(n) <==> m == n
  {
    var a, b := Digits(m), Digits(n);
    if a == b {
      assert a[|a|-1] == b[|b|-1];
      assert m % 10 == n % 10;
      if m >= 10 && n >= 10 {
        assert a[..|a|-1] == Digits(m / 10) && b[..|b|-1] == Digits(n / 10);
        DigitsDiffer(m / 10, n / 10);
      }
    }
  }

  /** Every object has a location of its own. */
  lemma UrisDiffer(a: Key, b: Key)
    ensures Uri(a) == Uri(b) <==> a == b
  {
    assert Uri(MasterKey)[0] == 'm';
    if a.SegmentKey? && b.SegmentKey? && Uri(a) == Uri(b) {
      assert Uri(a)[8..] == Digits(a.index) && Uri(b)[8..] == Digits(b.index);
      DigitsDiffer(a.index, b.index);
    }
  }

  datatype Reply = Ok | NotFound | Conflict(code: string)

  /** The match and its video row, with the two timestamps the buttons leave. */
  datatype State = State(game: Match, video: Option<Video>, startedAt: Option<int>, stoppedAt: Option<int>)

  const NEW_VIDEO := Video("video", VideoStatus.Pending, None, None, None, map[], None, [], map[])

  function VideoOf(s: State): Video {
    match s.video case None => NEW_VIDEO case Some(v) => v
  }

  // ----- What each request does -----

  datatype Request =
    | Start(now: int, hasCamera: bool)
    | Stop(now: int)
    | Target(kind: string, at: Option<int>)
    | ConfirmSegment(index: nat, size: Option<nat>, duration: Option<real>)
    | CompleteUpload(expected: Option<nat>, now: int)
    | Process

  predicate Uploadable(status: MatchStatus) {
    status == MatchStatus.Recording || status == MatchStatus.Uploading
  }

  function Confirmed(segments: map<nat, Segment>, storage: Storage, index: nat, size: Option<nat>,
                     duration: Option<real>)
    : map<nat, Segment>
  {
    if SegmentKey(index) !in storage then segments
    else
      var bytes := if size.None? || size.value == 0 then storage[SegmentKey(index)] else size.value;
      segments[index := Segment(Uri(SegmentKey(index)), bytes, duration)]
  }

  predicate HasAll(segments: map<nat, Segment>, n: nat) {
    forall i: nat | i < n :: i in segments
  }

  function TotalSize(segments: map<nat, Segment>, order: seq<nat>): int
    requires forall i | i in order :: i in segments
  {
    if order == [] then 0 else (assert order[0] in order; segments[order[0]].size) + TotalSize(segments, order[1..])
  }

  function Apply(storage: Storage, r: Request, s: State): (State, Reply) {
    match r
    case Start(now, hasCamera) =>
      if s.game.status == MatchStatus.Recording then (s, Ok)
      else if s.game.status != MatchStatus.Scheduled && s.game.status != MatchStatus.CheckIn then
        (s, Conflict("MATCH_NOT_STARTABLE"))
      else if !hasCamera then (s, Conflict("NO_CAMERA"))
      else (s.(game := Match(MatchStatus.Recording, None), startedAt := Some(now), video := Some(VideoOf(s))), Ok)
    case Stop(now) =>
      if s.game.status in {MatchStatus.Uploading, MatchStatus.Processing, MatchStatus.Ready} then (s, Ok)
      else if s.game.status != MatchStatus.Recording then (s, Conflict("MATCH_NOT_RECORDING"))
      else
        var v := VideoOf(s);
        var v' := if v.status == VideoStatus.Pending then v.(status := VideoStatus.Uploading) else v;
        (s.(game := s.game.(status := MatchStatus.Uploading), stoppedAt := Some(now), video := Some(v')), Ok)
    case Target(kind, index) =>
      if !Uploadable(s.game.status) then (s, Conflict("MATCH_NOT_UPLOADABLE"))
      else if kind == "segment" && (index.None? || index.value < 0) then (s, Conflict("INVALID_SEGMENT_INDEX"))
      else
        var v := VideoOf(s);
        var v' := if v.status == VideoStatus.Pending || v.status == VideoStatus.Uploaded
                  then v.(status := VideoStatus.Uploading) else v;
        (s.(video := Some(v')), Ok)
    case ConfirmSegment(index, size, duration) =>
      if SegmentKey(index) !in storage then (s, Conflict("SEGMENT_MISSING"))
      else
        var v := VideoOf(s);
        (s.(video := Some(v.(segments := Confirmed(v.segments, storage, index, size, duration)))), Ok)
    case CompleteUpload(expected, now) =>
      var v := VideoOf(s);
      match expected {
        case Some(n) =>
          if !HasAll(v.segments, n) then (s, Conflict("SEGMENTS_INCOMPLETE"))
          else
            var size := TotalSize(v.segments, Sorted(v.segments.Keys));
            (Complete(s, v.(originalUrl := None, sizeBytes := Some(size)), now), Ok)
        case None =>
          if MasterKey !in storage then (s, Conflict("RECORDING_MISSING"))
          else if storage[MasterKey] < MIN_PLAUSIBLE_BYTES then (s, Conflict("RECORDING_TOO_SMALL"))
          else (Complete(s, v.(originalUrl := Some(Uri(MasterKey)), sizeBytes := Some(storage[MasterKey])), now), Ok)
      }
    case Process =>
      match s.video {
        case None => (s, NotFound)
        case Some(v) =>
          if v.status == VideoStatus.Pending || v.status == VideoStatus.Uploading then
            (s, Conflict("VIDEO_NOT_UPLOADED"))
          else if v.originalUrl.None? && v.segments == map[] then (s, Conflict("RECORDING_MISSING"))
          else
            (s.(game := Match(MatchStatus.Processing, None),
                video := Some(v.(status := VideoStatus.Processing, failureReason := None))), Ok)
      }
  }

  function Complete(s: State, v: Video, now: int): State {
    var s' := s.(video := Some(v.(status := VideoStatus.Uploaded, failureReason := None)));
    if s.game.status == MatchStatus.Recording then
      s'.(game := s.game.(status := MatchStatus.Uploading),
          stoppedAt := if s.stoppedAt.Some? then s.stoppedAt else Some(now))
    else s'
  }

  /** The service: one match's rows, updated in place by each request. A refused request is rolled back. */
  class VideoService {
    var game: Match
    var video: Option<Video>
    var startedAt: Option<int>
    var stoppedAt: Option<int>

    ghost function View(): State reads this {
      State(game, video, startedAt, stoppedAt)
    }

    constructor ()
      ensures View() == State(Match(MatchStatus.Scheduled, None), None, None, None)
    {
      game := Match(MatchStatus.Scheduled, None);
      video, startedAt, stoppedAt := None, None, None;
    }

    method GetOrCreateVideo() returns (v: Video)
      modifies this`video
      ensures v == VideoOf(old(View())) && video == Some(v)
    {
      if video.None? {
        video := Some(NEW_VIDEO);
      }
      v := video.value;
    }

    method StartMatch(storage: Storage, now: int, hasCamera: bool) returns (reply: Reply)
      modifies this
      ensures (View(), reply) == Apply(storage, Start(now, hasCamera), old(View()))
    {
      if game.status == MatchStatus.Recording {
        return Ok;
      }
      if game.status != MatchStatus.Scheduled && game.status != MatchStatus.CheckIn {
        return Conflict("MATCH_NOT_STARTABLE");
      }
      if !hasCamera {
        return Conflict("NO_CAMERA");
      }
      game := game.(status := MatchStatus.Recording);
      startedAt := Some(now);
      game := game.(failureReason := None);
      var _ := GetOrCreateVideo();
      reply := Ok;
    }

    method StopMatch(storage: Storage, now: int) returns (reply: Reply)
      modifies this
      ensures (View(), reply) == Apply(storage, Stop(now), old(View()))
    {
      if game.status in {MatchStatus.Uploading, MatchStatus.Processing, MatchStatus.Ready} {
        return Ok;
      }
      if game.status != MatchStatus.Recording {
        return Conflict("MATCH_NOT_RECORDING");
      }
      game := game.(status := MatchStatus.Uploading);
      stoppedAt := Some(now);
      var v := GetOrCreateVideo();
      if v.status == VideoStatus.Pending {
        video := Some(v.(status := VideoStatus.Uploading));
      }
      reply := Ok;
    }

    method RequestUploadTarget(storage: Storage, kind: string, index: Option<int>) returns (reply: Reply)
      modifies this
      ensures (View(), reply) == Apply(storage, Target(kind, index), old(View()))
    {
      if !Uploadable(game.status) {
        return Conflict("MATCH_NOT_UPLOADABLE");
      }
      if kind == "segment" && (index.None? || index.value < 0) {
        return Conflict("INVALID_SEGMENT_INDEX");
      }
      var v := GetOrCreateVideo();
      if v.status == VideoStatus.Pending || v.status == VideoStatus.Uploaded {
        video := Some(v.(status := VideoStatus.Uploading));
      }
      reply := Ok;
    }

    method CompleteSegment(storage: Storage, index: nat, size: Option<nat>, duration: Option<real>)
      returns (reply: Reply)
      modifies this
      ensures (View(), reply) == Apply(storage, ConfirmSegment(index, size, duration), old(View()))
    {
      if SegmentKey(index) !in storage {
        return Conflict("SEGMENT_MISSING");
      }
      var v := GetOrCreateVideo();
      var info := storage[SegmentKey(index)];
      var segment := if index in v.segments then v.segments[index] else Segment(Uri(SegmentKey(index)), 0, None);
      segment := segment.(url := Uri(SegmentKey(index)));
      segment := segment.(size := if size.None? || size.value == 0 then info else size.value);
      segment := segment.(duration := duration);
      video := Some(v.(segments := v.segments[index := segment]));
      reply := Ok;
    }

    method FinishUpload(storage: Storage, expected: Option<nat>, now: int) returns (reply: Reply)
      modifies this
      ensures (View(), reply) == Apply(storage, CompleteUpload(expected, now), old(View()))
    {
      var v := VideoOf(State(game, video, startedAt, stoppedAt));
      match expected {
        case Some(n) =>
          if !HasAll(v.segments, n) {
            return Conflict("SEGMENTS_INCOMPLETE");
          }
          v := v.(sizeBytes := Some(TotalSize(v.segments, Sorted(v.segments.Keys))));
          v := v.(originalUrl := None);
        case None =>
          if MasterKey !in storage {
            return Conflict("RECORDING_MISSING");
          }
          if storage[MasterKey] < MIN_PLAUSIBLE_BYTES {
            return Conflict("RECORDING_TOO_SMALL");
          }
          v := v.(originalUrl := Some(Uri(MasterKey)), sizeBytes := Some(storage[MasterKey]));
      }
      video := Some(v.(status := VideoStatus.Uploaded, failureReason := None));
      if game.status == MatchStatus.Recording {
        game := game.(status := MatchStatus.Uploading);
        stoppedAt := if stoppedAt.Some? then stoppedAt else Some(now);
      }
      reply := Ok;
    }

    method MarkProcessing(storage: Storage) returns (reply: Reply)
      modifies this
      ensures (View(), reply) == Apply(storage, Process, old(View()))
    {
      if video.None? {
        return NotFound;
      }
      var v := video.value;
      if v.status == VideoStatus.Pending || v.status == VideoStatus.Uploading {
        return Conflict("VIDEO_NOT_UPLOADED");
      }
      if v.originalUrl.None? && v.segments == map[] {
        return Conflict("RECORDING_MISSING");
      }
      video := Some(v.(status := VideoStatus.Processing, failureReason := None));
      game := Match(MatchStatus.Processing, None);
      reply := Ok;
    }
  }

  // ----- Confirmations, in any order -----

  datatype Confirmation = Confirmation(index: nat, size: Option<nat>, duration: Option<real>)

  function ConfirmAll(storage: Storage, segments: map<nat, Segment>, cs: seq<Confirmation>): map<nat, Segment> {
    if cs == [] then segments
    else
      var last := cs[|cs|-1];
      Confirmed(ConfirmAll(storage, segments, cs[..|cs|-1]), storage, last.index, last.size, last.duration)
  }

  /** A given index is always confirmed with the same payload. */
  predicate Consistent(cs: seq<Confirmation>) {
    forall a, b | a in cs && b in cs && a.index == b.index :: a == b
  }

  /** The row of an index: what its confirmation says, if it was confirmed and its object has landed. */
  lemma {:induction false} ConfirmedRow(storage: Storage, segments: map<nat, Segment>, cs: seq<Confirmation>, i: nat)
    requires Consistent(cs)
    ensures var after := ConfirmAll(storage, segments, cs);
            if exists c :: c in cs && c.index == i && SegmentKey(i) in storage
            then forall c | c in cs && c.index == i ::
                   i in after && after[i] == Confirmed(map[], storage, i, c.size, c.duration)[i]
            else (i in after <==> i in segments) && (i in after ==> after[i] == segments[i])
  {
    if cs != [] {
      var last := |cs| - 1;
      var rest := cs[..last];
      assert forall c :: c in cs <==> c in rest || c == cs[last];
      ConfirmedRow(storage, segments, rest, i);
    }
  }

  /**
   * Order and repetition do not matter: two deliveries of the same confirmations leave
   * the same rows, hence the same fingerprint for every step and the same join.
   */
  lemma {:induction false} DeliveryOrderDoesNotMatter(storage: Storage, video: Video, a: seq<Confirmation>,
                                                      b: seq<Confirmation>, settings: Settings)
    requires Consistent(a) && forall c :: c in a <==> c in b
    ensures var va := video.(segments := ConfirmAll(storage, video.segments, a));
            var vb := video.(segments := ConfirmAll(storage, video.segments, b));
            && va.segments == vb.segments
            && JoinOrder(va.segments) == JoinOrder(vb.segments)
            && forall step :: StepFingerprint(va, step, settings) == StepFingerprint(vb, step, settings)
  {
    var x, y := ConfirmAll(storage, video.segments, a), ConfirmAll(storage, video.segments, b);
    forall i: nat ensures (i in x <==> i in y) && (i in x ==> x[i] == y[i]) {
      ConfirmedRow(storage, video.segments, a, i);
      ConfirmedRow(storage, video.segments, b, i);
    }
    assert x == y;
  }

  // ----- VALIDATE -----

  function Indexes(n: nat): seq<nat> {
    seq(n, i => i)
  }

  /** `sorted(set(range(max(indexes) + 1)) - set(indexes))` for the indexes of a non-empty manifest. */
  function Missing(segments: map<nat, Segment>): seq<nat> {
    var order := Sorted(segments.Keys);
    if order == [] then [] else Sorted(set i: nat | i < order[|order|-1] + 1 && i !in segments)
  }

  /** What VALIDATE meets outside the database: storage, and the join of the downloaded segments. */
  datatype Originals = Originals(stat: string -> Option<nat>, join: seq<string> -> Option<(string, nat)>)

  function ValidateOutcome(o: Originals, video: Video, game: Option<Match>): Outcome {
    if video.originalUrl.Some? && video.originalUrl.value != "" then
      match o.stat(video.originalUrl.value)
      case None => Outcome(video, game, Raised("the recording is not in storage"))
      case Some(size) =>
        if size < MIN_PLAUSIBLE_BYTES then Outcome(video, game, Raised("the recording is truncated"))
        else Outcome(video.(sizeBytes := Some(size)), game, Done("master"))
    else if video.segments == map[] then
      Outcome(video, game, Raised("no recording was uploaded for this match"))
    else if Sorted(video.segments.Keys) != Indexes(|video.segments|) then
      Outcome(video, game, Raised("segments are missing"))
    else
      match o.join(JoinOrder(video.segments))
      case None => Outcome(video, game, Raised("the segments could not be joined"))
      case Some(joined) =>
        Outcome(video.(originalUrl := Some(joined.0), sizeBytes := Some(joined.1)), game, Done("segments"))
  }

  predicate RejectedForGap(video: Video) {
    && (video.originalUrl.None? || video.originalUrl.value == "")
    && video.segments != map[]
    && Sorted(video.segments.Keys) != Indexes(|video.segments|)
  }

  /** VALIDATE is a step the runner may trust: it leaves the upload and the statuses alone. */
  lemma ValidateKeepsUpload(o: Originals, video: Video, game: Option<Match>)
    ensures var out := ValidateOutcome(o, video, game);
            && SameUpload(video, out.video)
            && out.video.status == video.status && out.game == game
            && out.video.highlights == video.highlights
  {
    hide Sorted;
    hide JoinOrder;
  }

  lemma {:induction false} BelowPosition(s: seq<nat>, k: nat)
    requires StrictlyIncreasing(s) && k < |s|
    ensures s[k] >= k
  {
    if k > 0 {
      BelowPosition(s, k - 1);
    }
  }

  /** A position whose value is too large comes after an absent index. */
  lemma {:induction false} SkippedIsAbsent(s: seq<nat>, k: nat) returns (i: nat)
    requires StrictlyIncreasing(s) && k < |s| && s[k] > k
    ensures i < s[k] && i !in s
  {
    if k > 0 && s[k-1] > k - 1 {
      i := SkippedIsAbsent(s, k - 1);
    } else {
      i := k;
      assert forall j | 0 <= j < |s| :: j < k ==> s[j] <= s[k-1];
    }
  }

  /** The first missing index of a manifest that is not 0..n-1; it lies below a present one. */
  lemma FindGap(keys: set<nat>) returns (i: nat, k: nat)
    requires Sorted(keys) != Indexes(|keys|)
    ensures k < |keys| && i < Sorted(keys)[k] && i !in keys && Sorted(keys)[k] in keys
  {
    var order := Sorted(keys);
    SortedIsIncreasing(keys);
    k :| 0 <= k < |order| && order[k] != k;
    BelowPosition(order, k);
    i := SkippedIsAbsent(order, k);
    assert order[k] in order;
  }

  /**
   * The two processes agree. `complete_upload(n)` succeeds exactly when every index in
   * 0..n-1 was confirmed; and then, if no index from n on was confirmed, VALIDATE does
   * not reject the recording for a gap.
   */
  lemma CompleteUploadAgreesWithValidate(storage: Storage, s: State, n: nat, now: int)
    ensures var (after, reply) := Apply(storage, CompleteUpload(Some(n), now), s);
            && (reply == Ok <==> forall i: nat | i < n :: i in VideoOf(s).segments)
            && (reply == Ok && (forall i | i in VideoOf(s).segments :: i < n) ==> !RejectedForGap(VideoOf(after)))
  {
    var segments := VideoOf(s).segments;
    var (after, reply) := Apply(storage, CompleteUpload(Some(n), now), s);
    if reply == Ok {
      assert VideoOf(after).segments == segments;
    }
    hide Apply;
    if reply == Ok && (forall i | i in segments :: i < n) && Sorted(segments.Keys) != Indexes(|segments.Keys|) {
      var i, k := FindGap(segments.Keys);
      assert false;
    }
  }

  /**
   * When VALIDATE rejects for a gap it lists, in order and each once, exactly the missing
   * indexes: those that lie below a confirmed one. There always is one.
   */
  lemma GapIsNamed(video: Video)
    requires RejectedForGap(video)
    ensures Missing(video.segments) != [] && StrictlyIncreasing(Missing(video.segments))
    ensures forall i: nat :: i in Missing(video.segments) <==> Skipped(video.segments, i)
  {
    assert |video.segments| == |video.segments.Keys|;
    var i, k := FindGap(video.segments.Keys);
    MissingAreBelow(video.segments);
    assert i in Missing(video.segments);
  }

  predicate Skipped(segments: map<nat, Segment>, i: nat) {
    i !in segments && exists j :: j in segments && i < j
  }

  lemma MissingAreBelow(segments: map<nat, Segment>)
    requires Sorted(segments.Keys) != []
    ensures StrictlyIncreasing(Missing(segments))
    ensures forall i: nat :: i in Missing(segments) <==> Skipped(segments, i)
  {
    var largest := LargestOf(segments);
    MissingUpTo(segments, largest);
    hide Sorted, Missing, StrictlyIncreasing;
    forall i: nat ensures i in Missing(segments) <==> Skipped(segments, i) {
      BelowTheLargest(segments, largest, i);
      hide Skipped;
    }
  }

  lemma BelowTheLargest(segments: map<nat, Segment>, largest: nat, i: nat)
    requires largest in segments && forall j | j in segments :: j <= largest
    ensures Skipped(segments, i) <==> i < largest + 1 && i !in segments
  {
  }

  lemma MissingUpTo(segments: map<nat, Segment>, largest: nat)
    requires Sorted(segments.Keys) != [] && largest == Sorted(segments.Keys)[|Sorted(segments.Keys)|-1]
    ensures StrictlyIncreasing(Missing(segments))
    ensures forall i: nat :: i in Missing(segments) <==> i < largest + 1 && i !in segments
  {
    SortedIsIncreasing(set i: nat | i < largest + 1 && i !in segments);
    hide Sorted, StrictlyIncreasing;
  }

  lemma LargestOf(segments: map<nat, Segment>) returns (largest: nat)
    requires Sorted(segments.Keys) != []
    ensures largest == Sorted(segments.Keys)[|Sorted(segments.Keys)|-1] && largest in segments
    ensures forall j | j in segments :: j <= largest
  {
    var order := Sorted(segments.Keys);
    SortedIsIncreasing(segments.Keys);
    largest := order[|order|-1];
    assert largest in order;
    hide Sorted;
    forall j | j in segments ensures j <= largest {
      assert j in order;
      var k :| 0 <= k < |order| && order[k] == j;
    }
  }

  // ----- Whole runs of the service -----

  function ApplyAll(storage: Storage, rs: seq<Request>, s: State): State {
    if rs == [] then s else Apply(storage, rs[|rs|-1], ApplyAll(storage, rs[..|rs|-1], s)).0
  }

  /** What the request schema demands: an expected number of segments is at least one. */
  predicate WellFormed(r: Request) {
    r.CompleteUpload? && r.expected.Some? ==> r.expected.value >= 1
  }

  predicate Begun(status: MatchStatus) {
    status != MatchStatus.Scheduled && status != MatchStatus.CheckIn
  }

  /** A completed upload has something to process, and a started match has a video row. */
  predicate Recoverable(s: State) {
    && (s.video.Some? && s.video.value.status == VideoStatus.Uploaded ==>
          s.video.value.originalUrl.Some? || s.video.value.segments != map[])
    && (Begun(s.game.status) ==> s.video.Some?)
  }

  lemma ApplyIsSafe(storage: Storage, r: Request, s: State)
    requires WellFormed(r) && Recoverable(s)
    ensures var (after, reply) := Apply(storage, r, s);
            && Recoverable(after)
            && VideoOf(s).segments.Keys <= VideoOf(after).segments.Keys
            && (Begun(s.game.status) ==> Begun(after.game.status))
            && (!reply.Ok? ==> after == s)
  {
    if r.CompleteUpload? && r.expected.Some? && HasAll(VideoOf(s).segments, r.expected.value) {
      assert 0 in VideoOf(s).segments;
    }
    hide Sorted, TotalSize, HasAll, Uri, Uploadable;
  }

  lemma RecoverableIsProcessable(storage: Storage, s: State)
    requires Recoverable(s) && s.video.Some? && s.video.value.status == VideoStatus.Uploaded
    ensures Apply(storage, Process, s).1 == Ok
  {
  }

  /**
   * A match recording is never lost: whatever requests follow, in any order, no
   * confirmed segment disappears, a match that began never goes back, and an upload
   * that was declared complete can always be processed.
   */
  lemma {:induction false} RecordingIsNeverLost(storage: Storage, rs: seq<Request>, s: State)
    requires Recoverable(s) && forall r | r in rs :: WellFormed(r)
    ensures var after := ApplyAll(storage, rs, s);
            && Recoverable(after)
            && VideoOf(s).segments.Keys <= VideoOf(after).segments.Keys
            && (Begun(s.game.status) ==> Begun(after.game.status))
            && (after.video.Some? && after.video.value.status == VideoStatus.Uploaded ==>
                  Apply(storage, Process, after).1 == Ok)
  {
    if rs != [] {
      var last := |rs| - 1;
      hide Apply, Recoverable, Begun, WellFormed;
      RecordingIsNeverLost(storage, rs[..last], s);
      ApplyIsSafe(storage, rs[last], ApplyAll(storage, rs[..last], s));
    }
    var after := ApplyAll(storage, rs, s);
    hide *;
    if after.video.Some? && after.video.value.status == VideoStatus.Uploaded {
      RecoverableIsProcessable(storage, after);
    }
  }

  /** A double tap is never an error: start and stop, once accepted, are accepted again and change nothing. */
  lemma DoubleTap(storage: Storage, s: State, r: Request, again: Request)
    requires (r.Start? && again.Start?) || (r.Stop? && again.Stop?)
    requires Apply(storage, r, s).1 == Ok
    ensures Apply(storage, again, Apply(storage, r, s).0) == (Apply(storage, r, s).0, Ok)
  {
  }

  /**
   * What completion is worth: an upload accepted as complete can be processed exactly when
   * a single master was uploaded or some segment was confirmed.
   */
  lemma CompletedUploadIsProcessable(storage: Storage, s: State, expected: Option<nat>, now: int)
    requires Apply(storage, CompleteUpload(expected, now), s).1 == Ok
    ensures Apply(storage, Process, Apply(storage, CompleteUpload(expected, now), s).0).1 == Ok <==>
              expected.None? || VideoOf(s).segments != map[]
  {
    hide Sorted, TotalSize;
  }

  /** The schema's lower bound matters: completing an upload of zero segments leaves nothing to process. */
  lemma EmptyCompletionIsStuck(storage: Storage, s: State, now: int)
    requires s.video.None?
    ensures var (after, reply) := Apply(storage, CompleteUpload(Some(0), now), s);
            && reply == Ok && after.video.value.status == VideoStatus.Uploaded
            && Apply(storage, Process, after).1 == Conflict("RECORDING_MISSING")
  {
  }
}
