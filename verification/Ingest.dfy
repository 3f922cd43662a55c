/** VALIDATE as it runs: checks the upload, collects the segments in order and updates the video in place. */
module Ingest {
  import opened Domain
  import opened Manifest
  import opened Runner
  import opened Recording

  class ValidateStep {
    var video: Video

    constructor (video: Video)
      ensures this.video == video
    {
      this.video := video;
    }

    /** `indexes != list(range(len(segments)))`. */
    static method HasGap(indexes: seq<nat>) returns (gap: bool)
      ensures gap <==> indexes != Indexes(|indexes|)
    {
      for i := 0 to |indexes|
        invariant forall j | 0 <= j < i :: indexes[j] == j
      {
        if indexes[i] != i {
          return true;
        }
      }
      assert indexes == Indexes(|indexes|);
      return false;
    }

    /** Downloads the segments one by one, in index order. */
    method CollectSegments(indexes: seq<nat>) returns (urls: seq<string>)
      requires indexes == Sorted(video.segments.Keys)
      ensures urls == JoinOrder(video.segments)
    {
      urls := [];
      for i := 0 to |indexes|
        invariant urls == JoinOrder(video.segments)[..i]
      {
        assert indexes[i] in indexes;
        urls := urls + [video.segments[indexes[i]].url];
      }
    }

    method Validate(o: Originals, ghost game: Option<Match>) returns (ending: Ending)
      modifies this
      ensures Outcome(video, game, ending) == ValidateOutcome(o, old(video), game)
    {
      if video.originalUrl.Some? && video.originalUrl.value != "" {
        var size := o.stat(video.originalUrl.value);
        if size.None? {
          return Raised("the recording is not in storage");
        }
        if size.value < MIN_PLAUSIBLE_BYTES {
          return Raised("the recording is truncated");
        }
        video := video.(sizeBytes := Some(size.value));
        return Done("master");
      }
      if video.segments == map[] {
        return Raised("no recording was uploaded for this match");
      }
      var indexes := Sorted(video.segments.Keys);
      var gap := HasGap(indexes);
      if gap {
        return Raised("segments are missing");
      }
      var urls := CollectSegments(indexes);
      var joined := o.join(urls);
      if joined.None? {
        return Raised("the segments could not be joined");
      }
      video := video.(originalUrl := Some(joined.value.0), sizeBytes := Some(joined.value.1));
      ending := Done("segments");
    }
  }
}
