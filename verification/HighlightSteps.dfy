/** SCORE_EVENTS, CUT_CLIPS and PERSIST: what they do to a video's highlight rows. */
module HighlightSteps {
  import opened Domain
  import opened Numbers
  import opened Runner

  /** A selected window, with the id its row will get. */
  datatype Moment = Moment(id: nat, start: real, end: real, score: real)

  /**
   * What the steps find outside the database, different on every run: the windows the
   * detector and the selection produce (or that they fail), whether the source can be
   * read, and the clip ffmpeg cuts for a highlight, if it does not fail.
   */
  datatype Media = Media(
    windows: Video -> Option<seq<Moment>>,
    readable: bool,
    cut: Highlight -> Option<string>)

  function NewHighlight(m: Moment): Highlight {
    Highlight(m.id, m.start, m.end, m.score, None)
  }

  function NewHighlights(moments: seq<Moment>): seq<Highlight> {
    seq(|moments|, i requires 0 <= i < |moments| => NewHighlight(moments[i]))
  }

  predicate NotProbed(video: Video) {
    video.duration.None? || video.duration.value == 0.0
  }

  function ScoreEventsOutcome(media: Media, video: Video, game: Option<Match>): Outcome {
    if NotProbed(video) then
      Outcome(video, game, Raised("cannot score events before the recording has been probed"))
    else
      match media.windows(video)
      case None => Outcome(video, game, Raised("the detector failed"))
      case Some(moments) =>
        if moments == [] then
          Outcome(video, game, NothingToDo("no candidate moments cleared the score threshold"))
        else if exists i :: 0 <= i < |moments| && moments[i].end <= moments[i].start then
          Outcome(video, game, Raised("highlights_time_order"))
        else
          Outcome(video.(highlights := NewHighlights(moments)), game, Done("selected"))
  }

  /** A clip is attempted for windows of positive length, and kept as it was when the cut fails. */
  function AfterCut(media: Media, h: Highlight): Highlight {
    if h.end - h.start <= 0.0 || media.cut(h).None? then h else h.(clip := media.cut(h))
  }

  predicate WasCut(media: Media, h: Highlight) {
    h.end - h.start > 0.0 && media.cut(h).Some?
  }

  function CutAll(media: Media, hs: seq<Highlight>): seq<Highlight> {
    seq(|hs|, i requires 0 <= i < |hs| => AfterCut(media, hs[i]))
  }

  function CutClipsOutcome(media: Media, video: Video, game: Option<Match>): Outcome {
    if video.highlights == [] then Outcome(video, game, NothingToDo("there are no highlights to cut"))
    else if !media.readable then Outcome(video, game, Raised("nothing to read"))
    else if !exists i :: 0 <= i < |video.highlights| && WasCut(media, video.highlights[i]) then
      Outcome(video.(highlights := CutAll(media, video.highlights)), game, Raised("every clip failed to cut"))
    else Outcome(video.(highlights := CutAll(media, video.highlights)), game, Done("cut"))
  }

  function WithClip(hs: seq<Highlight>): (r: seq<Highlight>)
    ensures forall h :: h in r <==> h in hs && h.clip.Some?
  {
    if hs == [] then []
    else WithClip(hs[..|hs|-1]) + (if hs[|hs|-1].clip.Some? then [hs[|hs|-1]] else [])
  }

  function PersistOutcome(video: Video, game: Option<Match>): Outcome {
    var kept := WithClip(video.highlights);
    if kept == [] then Outcome(video.(highlights := kept), game, Raised("no highlight survived clip generation"))
    else
      Outcome(
        video.(highlights := kept, status := VideoStatus.Ready, failureReason := None),
        if game.None? then None else Some(Match(MatchStatus.Ready, None)),
        Done("persisted"))
  }

  /** A player's presence on camera, from a track with a confident number. */
  datatype Presence = Presence(firstSeen: real, lastSeen: real, player: nat)

  function Overlap(m: Moment, p: Presence): real {
    Min(m.end, p.lastSeen) - Max(m.start, p.firstSeen)
  }

  /** On camera for a second, nobody longer, and nobody listed before as long. */
  predicate Longest(m: Moment, attribution: seq<Presence>, i: int)
    requires 0 <= i < |attribution|
  {
    var overlap := Overlap(m, attribution[i]);
    && overlap >= 1.0
    && (forall j | 0 <= j < |attribution| :: Overlap(m, attribution[j]) <= overlap)
    && (forall j | 0 <= j < i :: Overlap(m, attribution[j]) < overlap)
  }

  /** The rows of one step's transaction. */
  class StepContext {
    var video: Video
    var game: Option<Match>

    constructor (video: Video, game: Option<Match>)
      ensures this.video == video && this.game == game
    {
      this.video, this.game := video, game;
    }

    method ScoreEvents(media: Media) returns (ending: Ending)
      modifies this
      ensures Outcome(video, game, ending) == ScoreEventsOutcome(media, old(video), old(game))
    {
      if NotProbed(video) {
        return Raised("cannot score events before the recording has been probed");
      }
      var found := media.windows(video);
      if found.None? {
        return Raised("the detector failed");
      }
      var moments := found.value;
      if moments == [] {
        return NothingToDo("no candidate moments cleared the score threshold");
      }
      var was := video;
      video := video.(highlights := []);
      for i := 0 to |moments|
        invariant video == was.(highlights := NewHighlights(moments[..i])) && game == old(game)
        invariant forall k :: 0 <= k < i ==> moments[k].start < moments[k].end
      {
        if moments[i].end <= moments[i].start {
          video := was;
          return Raised("highlights_time_order");
        }
        assert moments[..i+1] == moments[..i] + [moments[i]];
        video := video.(highlights := video.highlights + [NewHighlight(moments[i])]);
      }
      assert moments[..|moments|] == moments;
      ending := Done("selected");
    }

    method CutClips(media: Media) returns (ending: Ending)
      modifies this
      ensures Outcome(video, game, ending) == CutClipsOutcome(media, old(video), old(game))
    {
      if video.highlights == [] {
        return NothingToDo("there are no highlights to cut");
      }
      if !media.readable {
        return Raised("nothing to read");
      }
      var was := video.highlights;
      var cut := 0;
      for i := 0 to |was|
        invariant game == old(game) && video == old(video).(highlights := video.highlights)
        invariant |video.highlights| == |was|
        invariant forall k :: 0 <= k < |was| ==>
                    video.highlights[k] == if k < i then AfterCut(media, was[k]) else was[k]
        invariant 0 <= cut && (cut > 0 <==> exists k :: 0 <= k < i && WasCut(media, was[k]))
      {
        var h := video.highlights[i];
        if WasCut(media, h) {
          video := video.(highlights := video.highlights[i := h.(clip := media.cut(h))]);
          cut := cut + 1;
        }
      }
      assert video.highlights == CutAll(media, was);
      ending := if cut == 0 then Raised("every clip failed to cut") else Done("cut");
    }

    method Persist() returns (ending: Ending)
      modifies this
      ensures Outcome(video, game, ending) == PersistOutcome(old(video), old(game))
    {
      var was := video.highlights;
      var kept: seq<Highlight> := [];
      for i := 0 to |was|
        invariant kept == WithClip(was[..i])
      {
        assert was[..i+1][..i] == was[..i];
        if was[i].clip.Some? {
          kept := kept + [was[i]];
        }
      }
      assert was[..|was|] == was;
      video := video.(highlights := kept);
      if kept == [] {
        return Raised("no highlight survived clip generation");
      }
      video := video.(status := VideoStatus.Ready, failureReason := None);
      if game.Some? {
        game := Some(Match(MatchStatus.Ready, None));
      }
      ending := Done("persisted");
    }
  }

  /** For how long a player is on camera: at least d when both, and each against the other, leave that much. */
  lemma OnCameraFor(m: Moment, p: Presence, d: real)
    ensures Overlap(m, p) >= d <==> m.end - m.start >= d && p.lastSeen - p.firstSeen >= d
                                    && m.end - p.firstSeen >= d && p.lastSeen - m.start >= d
  {
  }

  /**
   * `_player_for`: whose moment this is. A named player is on camera for at least a
   * second of the clip, no one is for longer and no one listed before for as long; nobody
   * is named exactly when no one is on camera for a second.
   */
  method PlayerFor(m: Moment, attribution: seq<Presence>) returns (player: Option<nat>)
    ensures player.Some? <==> exists p :: p in attribution && Overlap(m, p) >= 1.0
    ensures player.Some? ==> exists i :: 0 <= i < |attribution| && attribution[i].player == player.value &&
                                         Longest(m, attribution, i)
  {
    var best: Option<nat> := None;
    var bestOverlap := 0.0;
    for i := 0 to |attribution|
      invariant best.None? ==> bestOverlap == 0.0
      invariant best.Some? ==> best.value < i && bestOverlap == Overlap(m, attribution[best.value]) &&
                               forall j | 0 <= j < best.value :: Overlap(m, attribution[j]) < bestOverlap
      invariant bestOverlap >= 0.0 && forall j | 0 <= j < i :: Overlap(m, attribution[j]) <= bestOverlap
    {
      var overlap := Overlap(m, attribution[i]);
      if overlap > bestOverlap {
        bestOverlap, best := overlap, Some(i);
      }
    }
    if bestOverlap >= 1.0 {
      assert Longest(m, attribution, best.value);
      player := Some(attribution[best.value].player);
    } else {
      player := None;
    }
  }
}
