/** What SCORE_EVENTS, CUT_CLIPS and PERSIST answer, and what each leaves of the highlight rows. */
module HighlightAnswers {
  import opened Domain
  import opened Runner
  import opened HighlightSteps

  /** Everything but the highlights stays. */
  predicate OnlyHighlights(before: Video, after: Video) {
    after.(highlights := before.highlights) == before
  }

  /** A fresh row for a window: its times and score, and no clip yet. */
  predicate RowFor(m: Moment, h: Highlight) {
    h.id == m.id && h.start == m.start && h.end == m.end && h.score == m.score && h.clip == None
  }

  /**
   * SCORE_EVENTS needs a probed video and a detector that works. It has nothing to do without
   * windows, fails if one of them is empty, and otherwise leaves one fresh row per window,
   * in their order; unless it succeeds it changes nothing.
   */
  lemma ScoringTells(media: Media, video: Video, game: Option<Match>)
    ensures var out := ScoreEventsOutcome(media, video, game);
            var probed := video.duration.Some? && video.duration.value != 0.0;
            var found := media.windows(video);
            var proper := found.Some? && forall i | 0 <= i < |found.value| :: found.value[i].start < found.value[i].end;
            && (out.ending.NothingToDo? <==> probed && found == Some([]))
            && (out.ending.Done? <==> probed && found.Some? && found.value != [] && proper)
            && out.game == game && OnlyHighlights(video, out.video)
            && (!out.ending.Done? ==> out.video == video)
            && (out.ending.Done? ==>
                  && |out.video.highlights| == |found.value|
                  && forall i | 0 <= i < |found.value| :: RowFor(found.value[i], out.video.highlights[i]))
  {
  }

  /**
   * CUT_CLIPS attempts every window of positive length. It has nothing to do without
   * highlights, needs a source it can read, and fails when no attempt works; each attempt
   * that works gives its row the clip, every other row stays as it was.
   */
  lemma CuttingTells(media: Media, video: Video, game: Option<Match>)
    ensures var out, hs := CutClipsOutcome(media, video, game), video.highlights;
            && (out.ending.NothingToDo? <==> hs == [])
            && (out.ending.Done? <==>
                  media.readable && exists i :: 0 <= i < |hs| && hs[i].start < hs[i].end && media.cut(hs[i]).Some?)
            && out.game == game && OnlyHighlights(video, out.video) && |out.video.highlights| == |hs|
            && (media.readable ==> forall i | 0 <= i < |hs| ::
                  out.video.highlights[i] ==
                    if hs[i].start < hs[i].end && media.cut(hs[i]).Some?
                    then hs[i].(clip := media.cut(hs[i])) else hs[i])
  {
    var hs := video.highlights;
    assert forall i | 0 <= i < |hs| :: WasCut(media, hs[i]) <==> hs[i].start < hs[i].end && media.cut(hs[i]).Some?;
  }

  /** The places of the rows with a clip, in order. */
  predicate PlacesWithClip(hs: seq<Highlight>, places: seq<nat>) {
    && (forall k | 0 <= k < |places| :: places[k] < |hs| && hs[places[k]].clip.Some?)
    && (forall k, l | 0 <= k < l < |places| :: places[k] < places[l])
    && (forall i: nat | i < |hs| && hs[i].clip.Some? :: i in places)
  }

  lemma {:induction false} KeptInOrder(hs: seq<Highlight>) returns (places: seq<nat>)
    ensures PlacesWithClip(hs, places) && |WithClip(hs)| == |places|
    ensures forall k | 0 <= k < |places| :: WithClip(hs)[k] == hs[places[k]]
  {
    if hs == [] {
      places := [];
    } else {
      var rest, last := hs[..|hs|-1], |hs| - 1;
      hide WithClip, PlacesWithClip;
      var before := KeptInOrder(rest);
      places := if hs[last].clip.Some? then before + [last] else before;
      OneMorePlace(hs, before, places);
      OneMoreKept(hs, before, places);
    }
  }

  lemma OneMoreKept(hs: seq<Highlight>, before: seq<nat>, places: seq<nat>)
    requires hs != [] && PlacesWithClip(hs[..|hs|-1], before) && |WithClip(hs[..|hs|-1])| == |before|
    requires forall k | 0 <= k < |before| :: WithClip(hs[..|hs|-1])[k] == hs[..|hs|-1][before[k]]
    requires places == if hs[|hs|-1].clip.Some? then before + [|hs|-1] else before
    ensures PlacesWithClip(hs, places) && |WithClip(hs)| == |places|
    ensures forall k | 0 <= k < |places| :: WithClip(hs)[k] == hs[places[k]]
  {
    var rest, last := hs[..|hs|-1], |hs| - 1;
    assert WithClip(hs) == WithClip(rest) + (if hs[last].clip.Some? then [hs[last]] else []);
    OneMorePlace(hs, before, places);
    hide WithClip;
    forall k | 0 <= k < |places| ensures WithClip(hs)[k] == hs[places[k]] {
      if k < |before| {
        assert rest[before[k]] == hs[before[k]];
      }
    }
  }

  lemma OneMorePlace(hs: seq<Highlight>, before: seq<nat>, places: seq<nat>)
    requires hs != [] && PlacesWithClip(hs[..|hs|-1], before)
    requires places == if hs[|hs|-1].clip.Some? then before + [|hs|-1] else before
    ensures PlacesWithClip(hs, places)
  {
    forall i: nat | i < |hs| && hs[i].clip.Some? ensures i in places {
      if i < |hs| - 1 {
        assert hs[..|hs|-1][i] == hs[i];
      }
    }
  }

  /**
   * PERSIST keeps exactly the rows with a clip, in their order, and makes the video and its
   * match READY; it fails when there is no such row.
   */
  lemma PersistTells(video: Video, game: Option<Match>) returns (places: seq<nat>)
    ensures var out := PersistOutcome(video, game);
            && PlacesWithClip(video.highlights, places)
            && (out.ending.Done? <==> places != []) && (!out.ending.Done? ==> out.ending.Raised?)
            && (out.ending.Done? ==>
                  && |out.video.highlights| == |places|
                  && (forall k | 0 <= k < |places| :: out.video.highlights[k] == video.highlights[places[k]])
                  && out.video == video.(highlights := out.video.highlights, status := VideoStatus.Ready,
                                         failureReason := None)
                  && out.game == if game.Some? then Some(Match(MatchStatus.Ready, None)) else None)
  {
    places := KeptInOrder(video.highlights);
    hide WithClip, PlacesWithClip;
  }
}
