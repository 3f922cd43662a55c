/** How long candidates live, what a frame must match, and that a player standing still is one track. */
module Lifetimes {
  import opened Boxes
  import opened Numbers
  import opened Sorting
  import opened Association
  import opened Tracking
  import opened Tracks

  // ----- How long a candidate lives -----

  /** Finished candidates were seen too long ago. */
  predicate LongGone(t: Tuning, c: Cand, now: int) {
    c.points != [] && now - c.points[|c.points|-1].frameIndex > t.maxAge
  }

  lemma ClosedAreGone(t: Tuning, s: TrackerState, frame: FrameDetections)
    requires frame.frameIndex >= 0
    requires forall c | c in s.finished :: LongGone(t, c, frame.frameIndex - 1)
    requires forall c | c in s.live :: Healthy(t, c, frame.frameIndex - 1) && Alive(t, c)
    ensures forall c | c in Frame(t, s, frame).finished :: LongGone(t, c, frame.frameIndex)
  {
    HealthAfter(t, s.live, s.next, frame);
    hide AfterFrame, Continuous, Births;
  }

  lemma {:induction false} FinishedAreGone(t: Tuning, frames: seq<FrameDetections>)
    requires Numbered(frames)
    ensures forall c | c in Frames(t, frames).finished :: LongGone(t, c, |frames| - 1)
  {
    if frames != [] {
      var rest, last := frames[..|frames|-1], frames[|frames|-1];
      FinishedAreGone(t, rest);
      TracksAreContinuous(t, rest);
      hide Frame, LongGone, Healthy, Alive, Continuous;
      ClosedAreGone(t, Frames(t, rest), last);
    }
  }

  /**
   * A candidate is followed exactly as long as it should be: those still live were seen
   * within the last `max_age` frames, those finished were not.
   */
  lemma {:induction false} LivesExactlyThatLong(t: Tuning, frames: seq<FrameDetections>, c: Cand)
    requires Numbered(frames) && c in Candidates(t, frames)
    ensures c.points != []
    ensures c in Frames(t, frames).live <==> |frames| - 1 - c.points[|c.points|-1].frameIndex <= t.maxAge
    ensures c in Frames(t, frames).finished <==> c.points[|c.points|-1].frameIndex + t.maxAge + 1 <= |frames| - 1
  {
    TracksAreContinuous(t, frames);
    FinishedAreGone(t, frames);
    hide Frames, Continuous;
  }

  // ----- Which detections count -----

  /** Nothing below the low threshold is ever part of a track. */
  lemma NoFaintPoints(t: Tuning, frames: seq<FrameDetections>, c: Cand, p: TrackPoint)
    requires Numbered(frames) && c in Candidates(t, frames) && p in c.points && t.lowConfidence <= t.highConfidence
    ensures p.box.confidence >= t.lowConfidence && c.points[0].box.confidence >= t.highConfidence
  {
    TracksAreContinuous(t, frames);
  }

  // ----- What a frame must match -----

  lemma {:induction false} StrongOnes(t: Tuning, boxes: seq<Box>, b: Box)
    ensures b in StrongBoxes(t, boxes) <==> b in boxes && b.confidence >= t.highConfidence
  {
    if boxes != [] {
      StrongOnes(t, boxes[..|boxes|-1], b);
      assert b in boxes <==> b in boxes[..|boxes|-1] || b == boxes[|boxes|-1];
    }
  }

  lemma {:induction false} WeakOnes(t: Tuning, boxes: seq<Box>, b: Box)
    ensures b in WeakBoxes(t, boxes) <==> b in boxes && t.lowConfidence <= b.confidence < t.highConfidence
  {
    if boxes != [] {
      WeakOnes(t, boxes[..|boxes|-1], b);
      assert b in boxes <==> b in boxes[..|boxes|-1] || b == boxes[|boxes|-1];
    }
  }

  /** The picks clear the threshold, and a pair that clears it is passed over only for one at least as good. */
  lemma PicksAreGood(cands: seq<Cand>, boxes: seq<Box>, threshold: real)
    ensures var picks := Picks(cands, boxes, threshold);
            && (forall p | p in picks ::
                  p.c < |cands| && p.b < |boxes| && p.score == Predicted(cands[p.c]).Iou(boxes[p.b]) >= threshold)
            && (forall c: nat, b: nat | c < |cands| && b < |boxes| && Predicted(cands[c]).Iou(boxes[b]) >= threshold ::
                  exists p :: p in picks && (p.c == c || p.b == b) && p.score >= Predicted(cands[c]).Iou(boxes[b]))
  {
    var m: set<Scored> := {};
    AssociationQuality(Predictions(cands), boxes, threshold, m);
    var picks := Picks(cands, boxes, threshold);
    assert picks == Chosen(Predictions(cands), boxes, threshold);
    assert forall c: nat | c < |cands| :: Predictions(cands)[c] == Predicted(cands[c]);
    hide Picks, Chosen, Predictions, Box.Iou, Predicted;
    forall c: nat, b: nat | c < |cands| && b < |boxes| && Predicted(cands[c]).Iou(boxes[b]) >= threshold
      ensures exists p :: p in picks && (p.c == c || p.b == b) && p.score >= Predicted(cands[c]).Iou(boxes[b])
    {
      var p :| p in picks && Displaces(p, Predicted(cands[c]).Iou(boxes[b]), c, b);
    }
  }

  lemma GoodPick(cands: seq<Cand>, boxes: seq<Box>, threshold: real, c: nat, b: nat) returns (p: Scored)
    requires c < |cands| && b < |boxes| && Predicted(cands[c]).Iou(boxes[b]) >= threshold
    ensures p in Picks(cands, boxes, threshold) && (p.c == c || p.b == b)
    ensures p.score >= Predicted(cands[c]).Iou(boxes[b])
  {
    hide *;
    PicksAreGood(cands, boxes, threshold);
    p :| p in Picks(cands, boxes, threshold) && (p.c == c || p.b == b)
         && p.score >= Predicted(cands[c]).Iou(boxes[b]);
  }

  lemma PickIsGood(cands: seq<Cand>, boxes: seq<Box>, threshold: real, p: Scored)
    requires p in Picks(cands, boxes, threshold)
    ensures p.c < |cands| && p.b < |boxes| && p.score == Predicted(cands[p.c]).Iou(boxes[p.b]) >= threshold
  {
    PicksAreGood(cands, boxes, threshold);
    hide Picks, Box.Iou, Predicted;
  }

  lemma {:induction false} MatchedBy(cands: seq<Cand>, boxes: seq<Box>, picks: seq<Scored>, frame: FrameDetections,
                                     p: Scored)
    requires ValidPicks(picks, |cands|, |boxes|) && p in picks
    ensures p.c < |cands| && p.b < |boxes|
    ensures Matched(cands, boxes, picks, frame)[p.c] == Updated(cands[p.c], PointOf(frame, boxes[p.b]))
  {
    var last, rest := picks[|picks|-1], picks[..|picks|-1];
    ValidPrefix(picks, |cands|, |boxes|);
    var before := Matched(cands, boxes, rest, frame);
    hide Updated;
    if p == last {
      MatchedAt(cands, boxes, rest, frame, p.c);
    } else {
      assert p in rest;
      MatchedBy(cands, boxes, rest, frame, p);
      assert p.c in UsedC(rest);
    }
  }

  /** The boxes of the two stages, and what each stage picks. */
  function FirstPicks(t: Tuning, live: seq<Cand>, frame: FrameDetections): seq<Scored> {
    Picks(live, StrongBoxes(t, frame.boxes), t.matchIou)
  }

  function LeftOver(t: Tuning, live: seq<Cand>, frame: FrameDetections): seq<nat> {
    Left(|live|, UsedC(FirstPicks(t, live, frame)))
  }

  function SecondPicks(t: Tuning, live: seq<Cand>, frame: FrameDetections): seq<Scored> {
    Picks(Take(live, LeftOver(t, live, frame)), WeakBoxes(t, frame.boxes), t.rescueIou)
  }

  lemma LeftAsTheyWere(t: Tuning, live: seq<Cand>, frame: FrameDetections)
    ensures var matched := Matched(live, StrongBoxes(t, frame.boxes), FirstPicks(t, live, frame), frame);
            Take(matched, LeftOver(t, live, frame)) == Take(live, LeftOver(t, live, frame))
  {
    var strong, picks, left := StrongBoxes(t, frame.boxes), FirstPicks(t, live, frame), LeftOver(t, live, frame);
    var matched := Matched(live, strong, picks, frame);
    hide Matched, FirstPicks, Updated;
    forall k | 0 <= k < |left| ensures left[k] < |live| && matched[left[k]] == live[left[k]] {
      assert left[k] in left;
      MatchedAt(live, strong, picks, frame, left[k]);
    }
  }

  lemma AfterFirstStage(t: Tuning, live: seq<Cand>, next: nat, frame: FrameDetections, p: Scored)
    requires p in FirstPicks(t, live, frame)
    ensures var strong := StrongBoxes(t, frame.boxes);
            && p.c < |live| <= |AfterFrame(t, live, next, frame)| && p.b < |strong|
            && AfterFrame(t, live, next, frame)[p.c] == Updated(live[p.c], PointOf(frame, strong[p.b]))
  {
    var strong, weak, picks := StrongBoxes(t, frame.boxes), WeakBoxes(t, frame.boxes), FirstPicks(t, live, frame);
    var matched, left := Matched(live, strong, picks, frame), LeftOver(t, live, frame);
    var leftovers := Take(matched, left);
    var rescues := Picks(leftovers, weak, t.rescueIou);
    var aged := Aged(Matched(leftovers, weak, rescues, frame), UsedC(rescues));
    assert p.c in UsedC(picks);
    assert p.c < |live| && AfterFrame(t, live, next, frame)[p.c] == PutBack(matched, left, aged)[p.c];
    SizeAfter(t, live, next, frame);
    hide AfterFrame, PutBack, Matched, FirstPicks, Updated, Aged, Picks;
    MatchedBy(live, strong, picks, frame, p);
    LeftIncreases(|live|, UsedC(picks));
    PutBackAt(matched, left, aged, p.c);
  }

  lemma AfterSecondStage(t: Tuning, live: seq<Cand>, next: nat, frame: FrameDetections, k: nat)
    requires k < |LeftOver(t, live, frame)|
    ensures var left, leftovers := LeftOver(t, live, frame), Take(live, LeftOver(t, live, frame));
            var weak, rescues := WeakBoxes(t, frame.boxes), SecondPicks(t, live, frame);
            && left[k] < |live| <= |AfterFrame(t, live, next, frame)|
            && AfterFrame(t, live, next, frame)[left[k]] ==
                 Aged(Matched(leftovers, weak, rescues, frame), UsedC(rescues))[k]
  {
    var strong, weak, picks := StrongBoxes(t, frame.boxes), WeakBoxes(t, frame.boxes), FirstPicks(t, live, frame);
    var matched, left := Matched(live, strong, picks, frame), LeftOver(t, live, frame);
    LeftAsTheyWere(t, live, frame);
    var leftovers, rescues := Take(live, left), SecondPicks(t, live, frame);
    var aged := Aged(Matched(leftovers, weak, rescues, frame), UsedC(rescues));
    assert left[k] in left;
    assert AfterFrame(t, live, next, frame)[left[k]] == PutBack(matched, left, aged)[left[k]];
    SizeAfter(t, live, next, frame);
    LeftIncreases(|live|, UsedC(picks));
    hide AfterFrame, PutBack, Matched, FirstPicks, Updated, Aged, SecondPicks, Take;
    PutBackAt(matched, left, aged, left[k]);
  }

  /** The candidate moved to this box of the frame. */
  predicate MovedTo(before: Cand, after: Cand, frame: FrameDetections, b: Box) {
    && b in frame.boxes && after.ref == before.ref && after.box == b && after.misses == 0
    && after.points == before.points + [TrackPoint(frame.frameIndex, frame.timestamp, b)]
  }

  /** A live candidate moved to a confident box its prediction overlaps enough. */
  predicate Claimed(t: Tuning, before: Cand, after: Cand, frame: FrameDetections, b: Box) {
    && MovedTo(before, after, frame, b) && b.confidence >= t.highConfidence
    && Predicted(before).Iou(b) >= t.matchIou
  }

  /** A live candidate was rescued by a weak box its prediction overlaps enough. */
  predicate Rescued(t: Tuning, before: Cand, after: Cand, frame: FrameDetections, b: Box) {
    && MovedTo(before, after, frame, b) && t.lowConfidence <= b.confidence < t.highConfidence
    && Predicted(before).Iou(b) >= t.rescueIou
  }

  lemma FirstPickClaims(t: Tuning, live: seq<Cand>, next: nat, frame: FrameDetections, p: Scored)
    requires p in FirstPicks(t, live, frame)
    ensures var strong := StrongBoxes(t, frame.boxes);
            && p.c < |live| <= |AfterFrame(t, live, next, frame)| && p.b < |strong|
            && Claimed(t, live[p.c], AfterFrame(t, live, next, frame)[p.c], frame, strong[p.b])
            && p.score == Predicted(live[p.c]).Iou(strong[p.b])
  {
    var strong := StrongBoxes(t, frame.boxes);
    AfterFirstStage(t, live, next, frame, p);
    PickIsGood(live, strong, t.matchIou, p);
    hide AfterFrame, Picks, Predicted, StrongBoxes, Box.Iou;
    StrongOnes(t, frame.boxes, strong[p.b]);
  }

  lemma SecondPickMoves(t: Tuning, live: seq<Cand>, next: nat, frame: FrameDetections, p: Scored)
    requires p in SecondPicks(t, live, frame)
    ensures var left, weak := LeftOver(t, live, frame), WeakBoxes(t, frame.boxes);
            && p.c < |left| && left[p.c] < |live| <= |AfterFrame(t, live, next, frame)| && p.b < |weak|
            && AfterFrame(t, live, next, frame)[left[p.c]] == Updated(live[left[p.c]], PointOf(frame, weak[p.b]))
  {
    var left, weak, rescues := LeftOver(t, live, frame), WeakBoxes(t, frame.boxes), SecondPicks(t, live, frame);
    var leftovers := Take(live, left);
    hide AfterFrame, Picks, WeakBoxes, Matched, LeftOver, Updated;
    MatchedBy(leftovers, weak, rescues, frame, p);
    assert left[p.c] in left && p.c in UsedC(rescues);
    hide SecondPicks;
    AfterSecondStage(t, live, next, frame, p.c);
  }

  lemma SecondPickFits(t: Tuning, live: seq<Cand>, frame: FrameDetections, p: Scored)
    requires p in SecondPicks(t, live, frame)
    ensures var left, weak := LeftOver(t, live, frame), WeakBoxes(t, frame.boxes);
            && p.c < |left| && left[p.c] < |live| && p.b < |weak|
            && p.score == Predicted(live[left[p.c]]).Iou(weak[p.b]) >= t.rescueIou
  {
    var left, weak := LeftOver(t, live, frame), WeakBoxes(t, frame.boxes);
    PickIsGood(Take(live, left), weak, t.rescueIou, p);
    hide Picks, Predicted, WeakBoxes, Box.Iou;
    assert left[p.c] in left;
    assert Take(live, left)[p.c] == live[left[p.c]];
  }

  lemma SecondPickRescues(t: Tuning, live: seq<Cand>, next: nat, frame: FrameDetections, p: Scored)
    requires p in SecondPicks(t, live, frame)
    ensures var left, weak := LeftOver(t, live, frame), WeakBoxes(t, frame.boxes);
            && p.c < |left| && left[p.c] < |live| <= |AfterFrame(t, live, next, frame)| && p.b < |weak|
            && Rescued(t, live[left[p.c]], AfterFrame(t, live, next, frame)[left[p.c]], frame, weak[p.b])
            && p.score == Predicted(live[left[p.c]]).Iou(weak[p.b])
  {
    hide AfterFrame, Picks, Predicted, WeakBoxes, Box.Iou, LeftOver, SecondPicks;
    SecondPickFits(t, live, frame, p);
    SecondPickMoves(t, live, next, frame, p);
    WeakOnes(t, frame.boxes, WeakBoxes(t, frame.boxes)[p.b]);
  }

  lemma UnpickedMisses(t: Tuning, live: seq<Cand>, next: nat, frame: FrameDetections, k: nat)
    requires k < |LeftOver(t, live, frame)| && k !in UsedC(SecondPicks(t, live, frame))
    ensures var i := LeftOver(t, live, frame)[k];
            && i < |live| <= |AfterFrame(t, live, next, frame)|
            && AfterFrame(t, live, next, frame)[i] == live[i].(misses := live[i].misses + 1)
  {
    var left, weak, rescues := LeftOver(t, live, frame), WeakBoxes(t, frame.boxes), SecondPicks(t, live, frame);
    AfterSecondStage(t, live, next, frame, k);
    hide AfterFrame, Matched, SecondPicks, Picks;
    MatchedAt(Take(live, left), weak, rescues, frame, k);
  }

  /** In a frame a live candidate claims a confident box, is rescued by a weak one, or misses. */
  lemma EachIsMatchedOrMisses(t: Tuning, live: seq<Cand>, next: nat, frame: FrameDetections, i: nat)
    requires i < |live|
    ensures |live| <= |AfterFrame(t, live, next, frame)|
    ensures var after := AfterFrame(t, live, next, frame)[i];
            || (exists b :: Claimed(t, live[i], after, frame, b))
            || (exists b :: Rescued(t, live[i], after, frame, b))
            || after == live[i].(misses := live[i].misses + 1)
  {
    var picks, rescues := FirstPicks(t, live, frame), SecondPicks(t, live, frame);
    SizeAfter(t, live, next, frame);
    hide AfterFrame, Births, FirstPicks, SecondPicks, Claimed, Rescued;
    if i in UsedC(picks) {
      var p :| p in picks && p.c == i;
      FirstPickClaims(t, live, next, frame, p);
    } else {
      var k := LeftHolds(|live|, UsedC(picks), i);
      hide LeftOver;
      if k in UsedC(rescues) {
        var p :| p in rescues && p.c == k;
        SecondPickRescues(t, live, next, frame, p);
      } else {
        UnpickedMisses(t, live, next, frame, k);
      }
    }
  }

  /**
   * No confident match is missed: where a candidate's prediction overlaps a confident box
   * enough, that candidate or that box is in a match of this frame at least as good.
   */
  lemma NoClaimIsMissed(t: Tuning, live: seq<Cand>, next: nat, frame: FrameDetections, i: nat, b: Box)
    requires i < |live| && b in frame.boxes && b.confidence >= t.highConfidence
    requires Predicted(live[i]).Iou(b) >= t.matchIou
    ensures |live| <= |AfterFrame(t, live, next, frame)|
    ensures exists j: nat, c: Box ::
              && j < |live| && (j == i || c == b)
              && Claimed(t, live[j], AfterFrame(t, live, next, frame)[j], frame, c)
              && Predicted(live[j]).Iou(c) >= Predicted(live[i]).Iou(b)
  {
    var strong := StrongBoxes(t, frame.boxes);
    StrongOnes(t, frame.boxes, b);
    hide *;
    var n: nat :| n < |strong| && strong[n] == b;
    ClaimFor(t, live, next, frame, i, n);
  }

  lemma ClaimFor(t: Tuning, live: seq<Cand>, next: nat, frame: FrameDetections, i: nat, n: nat)
    requires i < |live| && n < |StrongBoxes(t, frame.boxes)|
    requires Predicted(live[i]).Iou(StrongBoxes(t, frame.boxes)[n]) >= t.matchIou
    ensures |live| <= |AfterFrame(t, live, next, frame)|
    ensures var b := StrongBoxes(t, frame.boxes)[n];
            exists j: nat, c: Box ::
              && j < |live| && (j == i || c == b)
              && Claimed(t, live[j], AfterFrame(t, live, next, frame)[j], frame, c)
              && Predicted(live[j]).Iou(c) >= Predicted(live[i]).Iou(b)
  {
    var strong := StrongBoxes(t, frame.boxes);
    hide AfterFrame, Picks, Claimed, Predicted, Box.Iou, StrongBoxes;
    var p := GoodPick(live, strong, t.matchIou, i, n);
    hide FirstPicks;
    FirstPickClaims(t, live, next, frame, p);
    assert p.c == i || strong[p.b] == strong[n];
  }

  /** And no rescue is missed: the same for weak boxes, among the candidates that claimed no confident one. */
  lemma NoRescueIsMissed(t: Tuning, live: seq<Cand>, next: nat, frame: FrameDetections, i: nat, b: Box)
    requires i < |live| && b in frame.boxes && t.lowConfidence <= b.confidence < t.highConfidence
    requires Predicted(live[i]).Iou(b) >= t.rescueIou
    ensures |live| <= |AfterFrame(t, live, next, frame)|
    ensures || (exists c :: Claimed(t, live[i], AfterFrame(t, live, next, frame)[i], frame, c))
            || (exists j: nat, c: Box ::
                  && j < |live| && (j == i || c == b)
                  && Rescued(t, live[j], AfterFrame(t, live, next, frame)[j], frame, c)
                  && Predicted(live[j]).Iou(c) >= Predicted(live[i]).Iou(b))
  {
    var picks, left, weak := FirstPicks(t, live, frame), LeftOver(t, live, frame), WeakBoxes(t, frame.boxes);
    SizeAfter(t, live, next, frame);
    WeakOnes(t, frame.boxes, b);
    var n: nat :| n < |weak| && weak[n] == b;
    hide AfterFrame, Births, Picks, Claimed, Rescued, Predicted, Box.Iou, WeakBoxes, FirstPicks;
    if i in UsedC(picks) {
      var p :| p in picks && p.c == i;
      FirstPickClaims(t, live, next, frame, p);
    } else {
      var k := LeftHolds(|live|, UsedC(picks), i);
      RescueFor(t, live, next, frame, k, n);
    }
  }

  lemma GoodRescue(t: Tuning, live: seq<Cand>, frame: FrameDetections, k: nat, n: nat) returns (p: Scored)
    requires k < |LeftOver(t, live, frame)| && n < |WeakBoxes(t, frame.boxes)|
    requires var i := LeftOver(t, live, frame)[k];
             i < |live| && Predicted(live[i]).Iou(WeakBoxes(t, frame.boxes)[n]) >= t.rescueIou
    ensures p in SecondPicks(t, live, frame) && (p.c == k || p.b == n)
    ensures p.score >= Predicted(live[LeftOver(t, live, frame)[k]]).Iou(WeakBoxes(t, frame.boxes)[n])
  {
    var left, weak := LeftOver(t, live, frame), WeakBoxes(t, frame.boxes);
    var leftovers := Take(live, left);
    assert leftovers[k] == live[left[k]];
    hide Picks, Predicted, Box.Iou, WeakBoxes, LeftOver, Take;
    p := GoodPick(leftovers, weak, t.rescueIou, k, n);
  }

  lemma RescueFor(t: Tuning, live: seq<Cand>, next: nat, frame: FrameDetections, k: nat, n: nat)
    requires k < |LeftOver(t, live, frame)| && n < |WeakBoxes(t, frame.boxes)|
    requires var i := LeftOver(t, live, frame)[k];
             i < |live| && Predicted(live[i]).Iou(WeakBoxes(t, frame.boxes)[n]) >= t.rescueIou
    ensures |live| <= |AfterFrame(t, live, next, frame)|
    ensures var i, b := LeftOver(t, live, frame)[k], WeakBoxes(t, frame.boxes)[n];
            exists j: nat, c: Box ::
              && j < |live| && (j == i || c == b)
              && Rescued(t, live[j], AfterFrame(t, live, next, frame)[j], frame, c)
              && Predicted(live[j]).Iou(c) >= Predicted(live[i]).Iou(b)
  {
    hide *;
    var left, weak := LeftOver(t, live, frame), WeakBoxes(t, frame.boxes);
    var p := GoodRescue(t, live, frame, k, n);
    SecondPickRescues(t, live, next, frame, p);
    assert left[p.c] == left[k] || weak[p.b] == weak[n];
  }

  // ----- A player standing still -----

  predicate SamePlace(a: Box, b: Box) {
    a.x1 == b.x1 && a.y1 == b.y1 && a.x2 == b.x2 && a.y2 == b.y2
  }

  /** Each frame shows nothing, or one box at this place, confident enough to be weak at least. */
  predicate ShowsAtMost(t: Tuning, frame: FrameDetections, place: Box) {
    || frame.boxes == []
    || (|frame.boxes| == 1 && SamePlace(frame.boxes[0], place) && frame.boxes[0].confidence >= t.lowConfidence)
  }

  /** The points a lone player would have: one for each frame that shows them. */
  function Sightings(frames: seq<FrameDetections>): seq<TrackPoint> {
    if frames == [] then []
    else
      var last := frames[|frames|-1];
      Sightings(frames[..|frames|-1])
        + if last.boxes == [] then [] else [TrackPoint(last.frameIndex, last.timestamp, last.boxes[0])]
  }

  /** The candidate following the player. */
  predicate Follows(c: Cand, frames: seq<FrameDetections>, place: Box) {
    && c.ref == 1 && SamePlace(c.box, place) && c.vx == 0.0 && c.vy == 0.0 && c.points == Sightings(frames)
    && forall j | 0 <= j < |frames| && frames[j].boxes != [] :: c.misses <= |frames| - 1 - j
  }

  lemma SamePlaceSameIou(a: Box, b: Box)
    requires SamePlace(a, b) && a.Area() > 0.0
    ensures a.Iou(b) == 1.0
  {
    assert b.Area() == a.Area();
    IouOneMeansSameCorners(a, b);
  }

  lemma FullyOverlaps(c: Cand, x: Box)
    requires c.vx == 0.0 && c.vy == 0.0 && SamePlace(c.box, x) && x.Area() > 0.0
    ensures Predicted(c).Iou(x) == 1.0
  {
    assert SamePlace(Predicted(c), x);
    assert Predicted(c).Area() == x.Area();
    SamePlaceSameIou(Predicted(c), x);
  }

  lemma NothingShown(t: Tuning, c: Cand, next: nat, frame: FrameDetections)
    requires frame.boxes == []
    ensures AfterFrame(t, [c], next, frame) == [Missed(c)] && Births(t, [c], frame) == 0
  {
    assert Births(t, [c], frame) == 0;
    hide *;
    FateOfLive(t, [c], next, frame, 0);
    NoBoxNoGain(t, c, AfterFrame(t, [c], next, frame)[0], frame);
  }

  lemma NoBoxNoGain(t: Tuning, c: Cand, after: Cand, frame: FrameDetections)
    requires frame.boxes == [] && Fate(t, c, after, frame)
    ensures after == Missed(c)
  {
    hide Missed, Updated;
  }

  lemma NoBirth(t: Tuning, c: Cand, frame: FrameDetections)
    requires |frame.boxes| == 1 && Predicted(c).Iou(frame.boxes[0]) >= t.matchIou
    ensures Births(t, [c], frame) == 0
  {
    var strong := StrongBoxes(t, frame.boxes);
    var x := frame.boxes[0];
    assert frame.boxes == [x] && frame.boxes[..0] == [] && StrongBoxes(t, frame.boxes[..0]) == [];
    assert strong == if IsStrong(t, x) then [x] else [];
    if IsStrong(t, x) {
      PicksAreGood([c], strong, t.matchIou);
      hide Picks, StrongBoxes, Box.Iou, Predicted;
      assert [c][0] == c && strong[0] == x;
      var p :| p in Picks([c], strong, t.matchIou) && (p.c == 0 || p.b == 0);
      var used := UsedB(Picks([c], strong, t.matchIou));
      assert p.b == 0 && 0 in used;
      assert Left(0, used) == [] && Left(1, used) == [];
    }
  }

  lemma MovedIsNotMissed(c: Cand, after: Cand, frame: FrameDetections, b: Box)
    requires MovedTo(c, after, frame, b)
    ensures after != Missed(c)
  {
  }

  /** A box right where the candidate is expected is not missed. */
  lemma NotMissed(t: Tuning, c: Cand, next: nat, frame: FrameDetections, x: Box)
    requires x in frame.boxes && Predicted(c).Iou(x) == 1.0 && x.confidence >= t.lowConfidence
    requires t.matchIou <= 1.0 && t.rescueIou <= 1.0
    ensures |AfterFrame(t, [c], next, frame)| >= 1 && AfterFrame(t, [c], next, frame)[0] != Missed(c)
  {
    hide AfterFrame, Predicted, Box.Iou, MovedTo;
    assert [c][0] == c;
    if x.confidence >= t.highConfidence {
      NoClaimIsMissed(t, [c], next, frame, 0, x);
      var j: nat, b: Box :| j < 1 && Claimed(t, [c][j], AfterFrame(t, [c], next, frame)[j], frame, b);
      MovedIsNotMissed(c, AfterFrame(t, [c], next, frame)[0], frame, b);
    } else {
      NoRescueIsMissed(t, [c], next, frame, 0, x);
      if b :| Claimed(t, [c][0], AfterFrame(t, [c], next, frame)[0], frame, b) {
        MovedIsNotMissed(c, AfterFrame(t, [c], next, frame)[0], frame, b);
      } else {
        var j: nat, b: Box :| j < 1 && Rescued(t, [c][j], AfterFrame(t, [c], next, frame)[j], frame, b);
        MovedIsNotMissed(c, AfterFrame(t, [c], next, frame)[0], frame, b);
      }
    }
  }

  lemma Seen(t: Tuning, c: Cand, next: nat, frame: FrameDetections)
    requires |frame.boxes| == 1 && Predicted(c).Iou(frame.boxes[0]) == 1.0
    requires t.matchIou <= 1.0 && t.rescueIou <= 1.0 && frame.boxes[0].confidence >= t.lowConfidence
    ensures AfterFrame(t, [c], next, frame) == [Updated(c, PointOf(frame, frame.boxes[0]))]
    ensures Births(t, [c], frame) == 0
  {
    var x := frame.boxes[0];
    NoBirth(t, c, frame);
    NotMissed(t, c, next, frame, x);
    FateOfLive(t, [c], next, frame, 0);
    var all := AfterFrame(t, [c], next, frame);
    hide *;
    assert |all| == 1 && [c][0] == c;
    OnlyThatBox(t, c, all[0], frame);
  }

  lemma OnlyThatBox(t: Tuning, c: Cand, after: Cand, frame: FrameDetections)
    requires |frame.boxes| == 1 && Fate(t, c, after, frame) && after != Missed(c)
    ensures after == Updated(c, PointOf(frame, frame.boxes[0]))
  {
    hide Updated, Missed, PointOf;
  }

  lemma FirstSeenIsBorn(t: Tuning, frame: FrameDetections)
    requires |frame.boxes| == 1 && frame.boxes[0].confidence >= t.highConfidence
    ensures AfterFrame(t, [], 1, frame) == [Born(1, PointOf(frame, frame.boxes[0]))] && Births(t, [], frame) == 1
  {
    var x := frame.boxes[0];
    assert frame.boxes == [x] && frame.boxes[..0] == [] && StrongBoxes(t, frame.boxes[..0]) == [];
    var strong := StrongBoxes(t, frame.boxes);
    assert strong == [x];
    var picks := Picks([], strong, t.matchIou);
    assert forall p :: p !in picks;
    assert UsedB(picks) == {};
    assert 0 in Left(1, UsedB(picks)) && Left(0, UsedB(picks)) == [];
    assert Left(1, UsedB(picks)) == [0];
    FateOfNewborn(t, [], 1, frame, 0);
    hide AfterFrame, Picks, StrongBoxes, Born, PointOf;
    assert Births(t, [], frame) == 1;
    assert forall b | b in frame.boxes :: b == x;
  }

  lemma LivingAlone(t: Tuning, c: Cand)
    ensures Living(t, [c]) == (if Alive(t, c) then [c] else []) && Closed(t, [c]) == (if Alive(t, c) then [] else [c])
  {
    assert [c][..0] == [];
    assert Living(t, [c][..0]) == [] && Closed(t, [c][..0]) == [];
  }

  predicate RecentlySeen(t: Tuning, frames: seq<FrameDetections>, k: nat)
    requires k < |frames|
  {
    exists j :: 0 <= j <= k && frames[j].boxes != [] && k - j <= t.maxAge
  }

  /** What a frame makes of the candidate that follows the player. */
  function Next(c: Cand, frame: FrameDetections): Cand {
    if frame.boxes == [] then Missed(c) else Updated(c, PointOf(frame, frame.boxes[0]))
  }

  lemma NextFollows(t: Tuning, rest: seq<FrameDetections>, frame: FrameDetections, c: Cand, place: Box)
    requires Follows(c, rest, place) && ShowsAtMost(t, frame, place)
    ensures Follows(Next(c, frame), rest + [frame], place)
  {
    var frames, after := rest + [frame], Next(c, frame);
    assert frames[..|rest|] == rest && frames[|rest|] == frame;
    forall j | 0 <= j < |frames| && frames[j].boxes != [] ensures after.misses <= |frames| - 1 - j {
      assert j < |rest| ==> frames[j] == rest[j];
    }
    assert c.points + [] == c.points;
  }

  lemma FollowedIsAlive(t: Tuning, frames: seq<FrameDetections>, c: Cand, place: Box)
    requires frames != [] && Follows(c, frames, place) && RecentlySeen(t, frames, |frames| - 1)
    ensures Alive(t, c)
  {
    var j :| 0 <= j <= |frames| - 1 && frames[j].boxes != [] && |frames| - 1 - j <= t.maxAge;
  }

  lemma OnlyNext(t: Tuning, rest: seq<FrameDetections>, frame: FrameDetections, c: Cand, place: Box)
    requires t.matchIou <= 1.0 && t.rescueIou <= 1.0 && place.Area() > 0.0
    requires Follows(c, rest, place) && ShowsAtMost(t, frame, place)
    ensures AfterFrame(t, [c], 2, frame) == [Next(c, frame)] && Births(t, [c], frame) == 0
  {
    if frame.boxes == [] {
      NothingShown(t, c, 2, frame);
    } else {
      var x := frame.boxes[0];
      assert x.Area() == place.Area();
      FullyOverlaps(c, x);
      Seen(t, c, 2, frame);
    }
  }

  /** One more frame of the player. */
  lemma StillFollowed(t: Tuning, rest: seq<FrameDetections>, frame: FrameDetections, c: Cand, place: Box)
    requires t.matchIou <= 1.0 && t.rescueIou <= 1.0 && place.Area() > 0.0 && ShowsAtMost(t, frame, place)
    requires Frames(t, rest) == TrackerState([c], [], 2) && Follows(c, rest, place)
    requires RecentlySeen(t, rest + [frame], |rest|)
    ensures Frames(t, rest + [frame]) == TrackerState([Next(c, frame)], [], 2)
    ensures Follows(Next(c, frame), rest + [frame], place)
  {
    hide Frames, AfterFrame, Births, Follows, Living, Closed, Alive, Next, RecentlySeen, ShowsAtMost;
    OneMoreFrame(t, rest, frame);
    NextFollows(t, rest, frame, c, place);
    OnlyNext(t, rest, frame, c, place);
    FollowedIsAlive(t, rest + [frame], Next(c, frame), place);
    LivingAlone(t, Next(c, frame));
  }

  lemma OneMoreFrame(t: Tuning, rest: seq<FrameDetections>, frame: FrameDetections)
    ensures Frames(t, rest + [frame]) == Frame(t, Frames(t, rest), frame)
  {
    hide Frame;
    var all := rest + [frame];
    assert all != [] && all[|all|-1] == frame && all[..|all|-1] == rest;
  }

  lemma BornFollows(frame: FrameDetections, place: Box)
    requires frame.boxes != [] && SamePlace(frame.boxes[0], place)
    ensures Follows(Born(1, PointOf(frame, frame.boxes[0])), [frame], place)
  {
    assert [frame][..0] == [] && Sightings([frame][..0]) == [];
  }

  lemma FirstFollows(t: Tuning, frame: FrameDetections, place: Box)
    requires ShowsAtMost(t, frame, place) && frame.boxes != [] && frame.boxes[0].confidence >= t.highConfidence
    requires RecentlySeen(t, [frame], 0)
    ensures var c := Born(1, PointOf(frame, frame.boxes[0]));
            Frames(t, [frame]) == TrackerState([c], [], 2) && Follows(c, [frame], place)
  {
    var c := Born(1, PointOf(frame, frame.boxes[0]));
    hide AfterFrame, Births, Living, Closed, Alive, Follows, Born, PointOf, RecentlySeen, SamePlace;
    assert [] + [frame] == [frame];
    OneMoreFrame(t, [], frame);
    assert Frames(t, []) == START;
    hide Frames;
    BornFollows(frame, place);
    FirstSeenIsBorn(t, frame);
    FollowedIsAlive(t, [frame], c, place);
    LivingAlone(t, c);
  }

  /**
   * A player standing still at one place: seen confidently at first, later sometimes only
   * faintly and sometimes not at all, but never hidden for more than `max_age` frames.
   */
  predicate StandsStill(t: Tuning, frames: seq<FrameDetections>, place: Box) {
    && frames != [] && frames[0].boxes != [] && frames[0].boxes[0].confidence >= t.highConfidence
    && (forall k | 0 <= k < |frames| :: ShowsAtMost(t, frames[k], place))
    && (forall k: nat | k < |frames| :: RecentlySeen(t, frames, k))
  }

  lemma StoodStill(t: Tuning, rest: seq<FrameDetections>, last: FrameDetections, place: Box)
    requires StandsStill(t, rest + [last], place)
    ensures ShowsAtMost(t, last, place) && RecentlySeen(t, rest + [last], |rest|)
    ensures rest != [] ==> StandsStill(t, rest, place)
    ensures rest == [] ==> last.boxes != [] && last.boxes[0].confidence >= t.highConfidence
  {
    var frames := rest + [last];
    assert frames[|rest|] == last && forall k | 0 <= k < |rest| :: rest[k] == frames[k];
    hide ShowsAtMost, RecentlySeen;
    SeenInTheRest(t, rest, last);
  }

  /** One player is one track: whoever stands still is a single candidate with every sighting. */
  lemma {:induction false} AStillPlayerIsOneTrack(t: Tuning, frames: seq<FrameDetections>, place: Box)
    returns (c: Cand)
    requires t.matchIou <= 1.0 && t.rescueIou <= 1.0 && place.Area() > 0.0 && StandsStill(t, frames, place)
    ensures Frames(t, frames) == TrackerState([c], [], 2) && Follows(c, frames, place)
    ensures TracksOf(t, frames) == if |Sightings(frames)| >= t.minTrackLength then [Track(1, Sightings(frames))] else []
  {
    var rest, last := frames[..|frames|-1], frames[|frames|-1];
    assert frames == rest + [last];
    hide *;
    StoodStill(t, rest, last, place);
    if rest == [] {
      assert frames == [last];
      c := Born(1, PointOf(last, last.boxes[0]));
      FirstFollows(t, last, place);
    } else {
      var before := AStillPlayerIsOneTrack(t, rest, place);
      c := Next(before, last);
      StillFollowed(t, rest, last, before, place);
    }
    FollowedPoints(c, frames, place);
    OneTrack(t, frames, c);
  }

  lemma SeenInTheRest(t: Tuning, rest: seq<FrameDetections>, last: FrameDetections)
    requires forall k: nat | k < |rest| + 1 :: RecentlySeen(t, rest + [last], k)
    ensures forall k: nat | k < |rest| :: RecentlySeen(t, rest, k)
  {
    forall k: nat | k < |rest| ensures RecentlySeen(t, rest, k) {
      assert RecentlySeen(t, rest + [last], k);
      var j :| 0 <= j <= k && (rest + [last])[j].boxes != [] && k - j <= t.maxAge;
      assert rest[j].boxes != [];
    }
  }

  lemma FollowedPoints(c: Cand, frames: seq<FrameDetections>, place: Box)
    requires Follows(c, frames, place)
    ensures c.ref == 1 && c.points == Sightings(frames)
  {
  }

  lemma OneTrack(t: Tuning, frames: seq<FrameDetections>, c: Cand)
    requires Frames(t, frames) == TrackerState([c], [], 2) && c.ref == 1
    ensures TracksOf(t, frames) == if |c.points| >= t.minTrackLength then [Track(1, c.points)] else []
  {
    hide Frames;
    assert Candidates(t, frames) == [c] && [c][..0] == [];
    assert LongEnough(t, [c][..0]) == [];
    var long := LongEnough(t, [c]);
    assert long == if |c.points| >= t.minTrackLength then [Track(1, c.points)] else [];
    assert |Sort(long, SeenBefore)| == |long| && multiset(Sort(long, SeenBefore)) == multiset(long) by {
      SameElements(long, SeenBefore);
    }
    if long != [] {
      assert Sort(long, SeenBefore)[0] in multiset(long);
    }
  }
}
