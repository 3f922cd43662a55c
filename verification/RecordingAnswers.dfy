/** What each request of the recording service answers, and what it leaves of the match and its video. */
module RecordingAnswers {
  import opened Domain
  import opened Manifest
  import opened Runner
  import opened Recording

  /** A video row that nothing has been uploaded to yet. */
  predicate Blank(v: Video) {
    && v.status == VideoStatus.Pending && v.failureReason == None && v.originalUrl == None && v.sizeBytes == None
    && v.segments == map[] && v.highlights == []
  }

  /** The row a request works on: the one there is, or a blank one made for it. */
  predicate WorksOn(s: State, v: Video) {
    if s.video.Some? then v == s.video.value else Blank(v)
  }

  /** The start button. */
  lemma StartAnswers(storage: Storage, s: State, now: int, hasCamera: bool)
    ensures var (after, reply) := Apply(storage, Start(now, hasCamera), s);
            var startable := s.game.status in {MatchStatus.Scheduled, MatchStatus.CheckIn};
            && (reply == Ok <==> s.game.status == MatchStatus.Recording || (startable && hasCamera))
            && (reply == Conflict("NO_CAMERA") <==> startable && !hasCamera)
            && (reply == Conflict("MATCH_NOT_STARTABLE") <==> s.game.status != MatchStatus.Recording && !startable)
            && if reply == Ok && s.game.status != MatchStatus.Recording
               then && after.game.status == MatchStatus.Recording && after.game.failureReason == None
                    && after.startedAt == Some(now) && after.stoppedAt == s.stoppedAt
                    && after.video.Some? && WorksOn(s, after.video.value)
               else after == s
  {
  }

  /** The stop button. */
  lemma StopAnswers(storage: Storage, s: State, now: int) returns (v: Video)
    ensures WorksOn(s, v)
    ensures var (after, reply) := Apply(storage, Stop(now), s);
            var stopped := s.game.status in {MatchStatus.Uploading, MatchStatus.Processing, MatchStatus.Ready};
            && (reply == Ok <==> s.game.status == MatchStatus.Recording || stopped)
            && (reply != Ok ==> reply == Conflict("MATCH_NOT_RECORDING"))
            && if s.game.status == MatchStatus.Recording
               then && after.game == s.game.(status := MatchStatus.Uploading)
                    && after.stoppedAt == Some(now) && after.startedAt == s.startedAt
                    && after.video == Some(if v.status == VideoStatus.Pending then v.(status := VideoStatus.Uploading)
                                           else v)
               else after == s
  {
    v := VideoOf(s);
  }

  /** Asking where to upload: an upload in progress accepts it, and a finished one is reopened. */
  lemma TargetAnswers(storage: Storage, s: State, kind: string, at: Option<int>) returns (v: Video)
    ensures WorksOn(s, v)
    ensures var (after, reply) := Apply(storage, Target(kind, at), s);
            var uploadable := s.game.status in {MatchStatus.Recording, MatchStatus.Uploading};
            var indexed := kind == "segment" ==> at.Some? && at.value >= 0;
            && (reply == Ok <==> uploadable && indexed)
            && (reply == Conflict("MATCH_NOT_UPLOADABLE") <==> !uploadable)
            && (reply == Conflict("INVALID_SEGMENT_INDEX") <==> uploadable && !indexed)
            && if reply == Ok
               then && after.game == s.game && after.startedAt == s.startedAt && after.stoppedAt == s.stoppedAt
                    && after.video == Some(if v.status in {VideoStatus.Pending, VideoStatus.Uploaded}
                                           then v.(status := VideoStatus.Uploading) else v)
               else after == s
  {
    v := VideoOf(s);
  }

  /** Confirming a segment: its row is there with the stored location, the size reported or found, and the duration. */
  lemma ConfirmAnswers(storage: Storage, s: State, index: nat, size: Option<nat>, duration: Option<real>)
    returns (v: Video)
    ensures WorksOn(s, v)
    ensures var (after, reply) := Apply(storage, ConfirmSegment(index, size, duration), s);
            && (reply == Ok <==> SegmentKey(index) in storage)
            && (reply != Ok ==> reply == Conflict("SEGMENT_MISSING") && after == s)
            && (reply == Ok ==>
                  && after.game == s.game && after.startedAt == s.startedAt && after.stoppedAt == s.stoppedAt
                  && after.video.Some? && index in after.video.value.segments
                  && (var row := after.video.value.segments[index];
                      && row.url == Uri(SegmentKey(index)) && row.duration == duration
                      && row.size == if size.Some? && size.value > 0 then size.value else storage[SegmentKey(index)])
                  && after.video.value.(segments := v.segments) == v
                  && after.video.value.segments.Keys == v.segments.Keys + {index}
                  && (forall i | i in v.segments && i != index :: after.video.value.segments[i] == v.segments[i]))
  {
    v := VideoOf(s);
    var after := Apply(storage, ConfirmSegment(index, size, duration), s).0;
    hide Uri;
    if SegmentKey(index) in storage {
      assert after.video.value.(segments := v.segments) == v;
      assert after.video.value.segments.Keys == v.segments.Keys + {index};
    }
  }

  /** The sizes of the segments with these indexes, added up. */
  function SumOf(segments: map<nat, Segment>, indexes: set<nat>): int
    requires indexes <= segments.Keys
  {
    if indexes == {} then 0
    else
      var i := Minimum(indexes);
      segments[i].size + SumOf(segments, indexes - {i})
  }

  lemma {:induction false} TotalIsTheSum(segments: map<nat, Segment>, indexes: set<nat>)
    requires indexes <= segments.Keys
    ensures (forall i | i in Sorted(indexes) :: i in segments)
    ensures TotalSize(segments, Sorted(indexes)) == SumOf(segments, indexes)
  {
    if indexes != {} {
      var i := Minimum(indexes);
      TotalIsTheSum(segments, indexes - {i});
      assert Sorted(indexes)[1..] == Sorted(indexes - {i});
    }
  }

  /** Completing by segments: accepted exactly when none of the expected ones is missing. */
  lemma CompleteBySegmentsAnswers(storage: Storage, s: State, n: nat, now: int) returns (v: Video)
    ensures WorksOn(s, v)
    ensures var (after, reply) := Apply(storage, CompleteUpload(Some(n), now), s);
            && (reply == Ok <==> forall i: nat | i < n :: i in v.segments)
            && (reply != Ok ==> reply == Conflict("SEGMENTS_INCOMPLETE") && after == s)
            && (reply == Ok ==>
                  && Finished(s, after, now)
                  && after.video == Some(v.(status := VideoStatus.Uploaded, failureReason := None, originalUrl := None,
                                            sizeBytes := Some(SumOf(v.segments, v.segments.Keys)))))
  {
    v := VideoOf(s);
    hide Sorted, TotalSize, SumOf, Finished, HasAll, Uri, Uploadable;
    CompletedRow(storage, s, n, now);
    FinishedBy(s, v.(originalUrl := None, sizeBytes := Some(TotalSize(v.segments, Sorted(v.segments.Keys)))), now);
    hide Apply, Recording.Complete;
    TotalIsTheSum(v.segments, v.segments.Keys);
    assert HasAll(v.segments, n) <==> forall i: nat | i < n :: i in v.segments by {
      AllOfThem(v.segments, n);
    }
  }

  lemma AllOfThem(segments: map<nat, Segment>, n: nat)
    ensures HasAll(segments, n) <==> forall i: nat | i < n :: i in segments
  {
  }

  lemma CompletedRow(storage: Storage, s: State, n: nat, now: int)
    ensures var v := VideoOf(s);
            Apply(storage, CompleteUpload(Some(n), now), s) ==
              if !HasAll(v.segments, n) then (s, Conflict("SEGMENTS_INCOMPLETE"))
              else (Recording.Complete(s, v.(originalUrl := None,
                      sizeBytes := Some(TotalSize(v.segments, Sorted(v.segments.Keys)))), now), Ok)
  {
    hide Sorted, TotalSize, HasAll, Uri, Uploadable, Recording.Complete;
  }

  lemma FinishedBy(s: State, v: Video, now: int)
    ensures var after := Recording.Complete(s, v, now);
            && Finished(s, after, now)
            && after.video == Some(v.(status := VideoStatus.Uploaded, failureReason := None))
  {
  }

  /** Completing a single file: accepted exactly when it has landed and is not absurdly small. */
  lemma CompleteMasterAnswers(storage: Storage, s: State, now: int) returns (v: Video)
    ensures WorksOn(s, v)
    ensures var (after, reply) := Apply(storage, CompleteUpload(None, now), s);
            && (reply == Ok <==> MasterKey in storage && storage[MasterKey] >= 1024)
            && (reply == Conflict("RECORDING_MISSING") <==> MasterKey !in storage)
            && (reply == Conflict("RECORDING_TOO_SMALL") <==> MasterKey in storage && storage[MasterKey] < 1024)
            && (reply != Ok ==> after == s)
            && (reply == Ok ==>
                  && Finished(s, after, now)
                  && after.video == Some(v.(status := VideoStatus.Uploaded, failureReason := None,
                                            originalUrl := Some(Uri(MasterKey)),
                                            sizeBytes := Some(storage[MasterKey]))))
  {
    v := VideoOf(s);
    hide Uri;
  }

  /** A completed upload ends a recording that nobody stopped, and changes no other match. */
  predicate Finished(s: State, after: State, now: int) {
    && after.startedAt == s.startedAt
    && if s.game.status == MatchStatus.Recording
       then after.game == s.game.(status := MatchStatus.Uploading)
            && after.stoppedAt == (if s.stoppedAt.Some? then s.stoppedAt else Some(now))
       else after.game == s.game && after.stoppedAt == s.stoppedAt
  }

  /** Handing the recording to the pipeline. */
  lemma ProcessAnswers(storage: Storage, s: State)
    ensures var (after, reply) := Apply(storage, Process, s);
            var early := s.video.Some? && s.video.value.status in {VideoStatus.Pending, VideoStatus.Uploading};
            var empty := s.video.Some? && s.video.value.originalUrl == None && s.video.value.segments == map[];
            && (reply == NotFound <==> s.video == None)
            && (reply == Conflict("VIDEO_NOT_UPLOADED") <==> early)
            && (reply == Conflict("RECORDING_MISSING") <==> s.video.Some? && !early && empty)
            && (reply == Ok <==> s.video.Some? && !early && !empty)
            && if reply == Ok
               then && after.game == Match(MatchStatus.Processing, None)
                    && after.video ==
                         Some(s.video.value.(status := VideoStatus.Processing, failureReason := None))
                    && after.startedAt == s.startedAt && after.stoppedAt == s.stoppedAt
               else after == s
  {
  }

  // ----- VALIDATE -----

  /** Every index below the number of segments is there: nothing is missing and nothing lies beyond. */
  ghost predicate GapFree(segments: map<nat, Segment>) {
    segments != map[] && forall i: nat :: i in segments <==> i < |segments|
  }

  lemma GapFreeIsIndexes(segments: map<nat, Segment>)
    requires segments != map[]
    ensures GapFree(segments) <==> Sorted(segments.Keys) == Indexes(|segments|)
  {
    var order := Sorted(segments.Keys);
    assert |segments| == |segments.Keys|;
    if order == Indexes(|segments|) {
      forall i: nat ensures i in segments <==> i < |segments| {
        if i < |segments| {
          assert order[i] == i && order[i] in order;
        }
        if i in segments {
          var k :| 0 <= k < |order| && order[k] == i;
        }
      }
    }
    if GapFree(segments) && order != Indexes(|segments.Keys|) {
      var i, k := FindGap(segments.Keys);
      assert false;
    }
  }

  /**
   * When VALIDATE succeeds, and what it leaves: with a master, exactly when it is in storage
   * and not truncated; without one, exactly when the segments are complete and can be
   * joined, in the order of their indexes, and the join becomes the master.
   */
  lemma ValidateAnswers(o: Originals, video: Video, game: Option<Match>)
    ensures var out := ValidateOutcome(o, video, game);
            var master := video.originalUrl.Some? && video.originalUrl.value != "";
            && !out.ending.NothingToDo?
            && (out.ending.Done? <==>
                  if master then o.stat(video.originalUrl.value).Some? && o.stat(video.originalUrl.value).value >= 1024
                  else GapFree(video.segments) && o.join(JoinOrder(video.segments)).Some?)
            && out.game == game
            && (!out.ending.Done? ==> out.video == video)
            && (out.ending.Done? && master ==>
                  out.video == video.(sizeBytes := o.stat(video.originalUrl.value)))
            && (out.ending.Done? && !master ==>
                  var joined := o.join(JoinOrder(video.segments)).value;
                  out.video == video.(originalUrl := Some(joined.0), sizeBytes := Some(joined.1)))
  {
    if video.segments != map[] {
      GapFreeIsIndexes(video.segments);
    }
    hide Sorted, JoinOrder, Indexes, GapFree;
  }

  /** The order of the join: the segment's url at each place is that of the segment with that index. */
  lemma JoinIsInOrder(segments: map<nat, Segment>, i: nat)
    requires GapFree(segments) && i < |segments|
    ensures |JoinOrder(segments)| == |segments| && JoinOrder(segments)[i] == segments[i].url
  {
    GapFreeIsIndexes(segments);
    assert |segments| == |segments.Keys|;
    assert Sorted(segments.Keys)[i] == i;
  }
}
