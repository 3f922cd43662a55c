/** What the tracker does with one frame, and with a list of them, as functions on candidate values. */
module Tracking {
  import opened Boxes
  import opened Sorting
  import opened Association

  datatype Tuning = Tuning(
    highConfidence: real, lowConfidence: real, matchIou: real, rescueIou: real, maxAge: int, minTrackLength: int)

  datatype TrackPoint = TrackPoint(frameIndex: int, timestamp: real, box: Box)

  datatype Cand = Cand(ref: nat, box: Box, points: seq<TrackPoint>, misses: int, vx: real, vy: real)

  datatype Track = Track(ref: nat, points: seq<TrackPoint>)

  function PointOf(frame: FrameDetections, box: Box): TrackPoint {
    TrackPoint(frame.frameIndex, frame.timestamp, box)
  }

  /** Where the player probably is now. */
  function Predicted(c: Cand): Box {
    Box(c.box.x1 + c.vx, c.box.y1 + c.vy, c.box.x2 + c.vx, c.box.y2 + c.vy, c.box.confidence)
  }

  function Updated(c: Cand, point: TrackPoint): Cand {
    Cand(c.ref, point.box, c.points + [point], 0,
         0.5 * c.vx + 0.5 * (point.box.CentreX() - c.box.CentreX()),
         0.5 * c.vy + 0.5 * (point.box.CentreY() - c.box.CentreY()))
  }

  function Missed(c: Cand): Cand { c.(misses := c.misses + 1) }

  function Born(ref: nat, point: TrackPoint): Cand {
    Cand(ref, point.box, [point], 0, 0.0, 0.0)
  }

  predicate IsStrong(t: Tuning, b: Box) { b.confidence >= t.highConfidence }

  predicate IsWeak(t: Tuning, b: Box) { t.lowConfidence <= b.confidence < t.highConfidence }

  function StrongBoxes(t: Tuning, boxes: seq<Box>): (r: seq<Box>)
    ensures forall b | b in r :: b in boxes && IsStrong(t, b)
  {
    if boxes == [] then []
    else
      var last := boxes[|boxes|-1];
      StrongBoxes(t, boxes[..|boxes|-1]) + (if IsStrong(t, last) then [last] else [])
  }

  function WeakBoxes(t: Tuning, boxes: seq<Box>): (r: seq<Box>)
    ensures forall b | b in r :: b in boxes && IsWeak(t, b)
  {
    if boxes == [] then []
    else
      var last := boxes[|boxes|-1];
      WeakBoxes(t, boxes[..|boxes|-1]) + (if IsWeak(t, last) then [last] else [])
  }

  function Predictions(cands: seq<Cand>): seq<Box> {
    seq(|cands|, i requires 0 <= i < |cands| => Predicted(cands[i]))
  }

  function UsedC(picks: seq<Scored>): set<nat> { set p | p in picks :: p.c }
  function UsedB(picks: seq<Scored>): set<nat> { set p | p in picks :: p.b }

  /** Picks index into the candidates and boxes they were chosen from, without conflicts. */
  predicate ValidPicks(picks: seq<Scored>, n: nat, m: nat) {
    PairsDistinct(picks) && forall p | p in picks :: p.c < n && p.b < m
  }

  lemma ValidPrefix(picks: seq<Scored>, n: nat, m: nat)
    requires ValidPicks(picks, n, m) && picks != []
    ensures var last := picks[|picks|-1];
            && ValidPicks(picks[..|picks|-1], n, m) && last.c < n && last.b < m
            && last.c !in UsedC(picks[..|picks|-1]) && last.b !in UsedB(picks[..|picks|-1])
  {
    assert picks[|picks|-1] in picks;
  }

  /** `sorted(set(range(n)) - used)`. */
  function Left(n: nat, used: set<nat>): (r: seq<nat>)
    ensures forall i: nat :: i in r <==> i < n && i !in used
  {
    if n == 0 then [] else Left(n - 1, used) + (if n - 1 in used then [] else [n - 1])
  }

  function Take<T>(s: seq<T>, indexes: seq<nat>): seq<T>
    requires forall i | i in indexes :: i < |s|
  {
    seq(|indexes|, k requires 0 <= k < |indexes| => (assert indexes[k] in indexes; s[indexes[k]]))
  }

  /** Each picked candidate gains its box. */
  function Matched(cands: seq<Cand>, boxes: seq<Box>, picks: seq<Scored>, frame: FrameDetections): (r: seq<Cand>)
    requires ValidPicks(picks, |cands|, |boxes|)
    ensures |r| == |cands|
  {
    if picks == [] then cands
    else
      var last := picks[|picks|-1];
      ValidPrefix(picks, |cands|, |boxes|);
      var before := Matched(cands, boxes, picks[..|picks|-1], frame);
      before[last.c := Updated(before[last.c], PointOf(frame, boxes[last.b]))]
  }

  /** Those not rescued are missed for another frame. */
  function Aged(cands: seq<Cand>, rescued: set<nat>): (r: seq<Cand>) {
    seq(|cands|, i requires 0 <= i < |cands| => if i in rescued then cands[i] else Missed(cands[i]))
  }

  /** Writes the leftovers back where they came from. */
  function PutBack(cands: seq<Cand>, left: seq<nat>, now: seq<Cand>): (r: seq<Cand>)
    requires |left| == |now| && forall i | i in left :: i < |cands|
    ensures |r| == |cands|
  {
    if left == [] then cands
    else
      var last := |left| - 1;
      assert left[last] in left;
      assert forall i | i in left[..last] :: i in left;
      PutBack(cands, left[..last], now[..last])[left[last] := now[last]]
  }

  function Newborn(next: nat, boxes: seq<Box>, frame: FrameDetections): seq<Cand> {
    seq(|boxes|, k requires 0 <= k < |boxes| => Born(next + k, PointOf(frame, boxes[k])))
  }

  predicate Alive(t: Tuning, c: Cand) { c.misses <= t.maxAge }

  function Living(t: Tuning, cands: seq<Cand>): (r: seq<Cand>)
    ensures forall c :: c in r <==> c in cands && Alive(t, c)
  {
    if cands == [] then []
    else
      var last := cands[|cands|-1];
      Living(t, cands[..|cands|-1]) + (if Alive(t, last) then [last] else [])
  }

  function Closed(t: Tuning, cands: seq<Cand>): (r: seq<Cand>)
    ensures forall c :: c in r <==> c in cands && !Alive(t, c)
    ensures |r| + |Living(t, cands)| == |cands|
  {
    if cands == [] then []
    else
      var last := cands[|cands|-1];
      Closed(t, cands[..|cands|-1]) + (if Alive(t, last) then [] else [last])
  }

  lemma ChosenAreValid(cands: seq<Cand>, boxes: seq<Box>, threshold: real)
    ensures ValidPicks(Chosen(Predictions(cands), boxes, threshold), |cands|, |boxes|)
  {
    var m: set<Scored> := {};
    AssociationQuality(Predictions(cands), boxes, threshold, m);
  }

  function Picks(cands: seq<Cand>, boxes: seq<Box>, threshold: real): (picks: seq<Scored>)
    ensures ValidPicks(picks, |cands|, |boxes|)
  {
    ChosenAreValid(cands, boxes, threshold);
    Chosen(Predictions(cands), boxes, threshold)
  }

  /** The candidates after both stages and the births of one frame, before the old ones are closed. */
  function AfterFrame(t: Tuning, live: seq<Cand>, next: nat, frame: FrameDetections): seq<Cand> {
    var strong, weak := StrongBoxes(t, frame.boxes), WeakBoxes(t, frame.boxes);
    var picks := Picks(live, strong, t.matchIou);
    var matched := Matched(live, strong, picks, frame);
    var left := Left(|live|, UsedC(picks));
    var leftovers := Take(matched, left);
    var rescues := Picks(leftovers, weak, t.rescueIou);
    var aged := Aged(Matched(leftovers, weak, rescues, frame), UsedC(rescues));
    PutBack(matched, left, aged) + Newborn(next, Take(strong, Left(|strong|, UsedB(picks))), frame)
  }

  function Births(t: Tuning, live: seq<Cand>, frame: FrameDetections): nat {
    var strong := StrongBoxes(t, frame.boxes);
    |Left(|strong|, UsedB(Picks(live, strong, t.matchIou)))|
  }

  datatype TrackerState = TrackerState(live: seq<Cand>, finished: seq<Cand>, next: nat)

  const START := TrackerState([], [], 1)

  function Frame(t: Tuning, s: TrackerState, frame: FrameDetections): TrackerState {
    var all := AfterFrame(t, s.live, s.next, frame);
    TrackerState(Living(t, all), s.finished + Closed(t, all), s.next + Births(t, s.live, frame))
  }

  function Frames(t: Tuning, frames: seq<FrameDetections>): TrackerState {
    if frames == [] then START else Frame(t, Frames(t, frames[..|frames|-1]), frames[|frames|-1])
  }

  /** All candidates, live or finished, before the length filter. */
  function Candidates(t: Tuning, frames: seq<FrameDetections>): seq<Cand> {
    Frames(t, frames).finished + Frames(t, frames).live
  }

  function FirstSeen(track: Track): real {
    if track.points == [] then 0.0 else track.points[0].timestamp
  }

  predicate SeenBefore(a: Track, b: Track) { FirstSeen(a) <= FirstSeen(b) }

  function LongEnough(t: Tuning, cands: seq<Cand>): seq<Track> {
    if cands == [] then []
    else
      var last := cands[|cands|-1];
      LongEnough(t, cands[..|cands|-1])
        + (if |last.points| >= t.minTrackLength then [Track(last.ref, last.points)] else [])
  }

  function TracksOf(t: Tuning, frames: seq<FrameDetections>): seq<Track> {
    Sort(LongEnough(t, Candidates(t, frames)), SeenBefore)
  }
}
