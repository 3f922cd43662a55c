/** The tracker as it runs: candidate objects updated in place, proved against the functions of `Tracking`. */
module ByteTracker {
  import opened Boxes
  import opened Sequences
  import opened Sorting
  import opened Association
  import opened Tracking
  import opened Tracks

  class Candidate {
    const ref: nat
    var box: Box
    var points: seq<TrackPoint>
    var misses: int
    var vx: real
    var vy: real

    constructor (ref: nat, point: TrackPoint)
      ensures View() == Born(ref, point)
    {
      this.ref, box, points, misses, vx, vy := ref, point.box, [point], 0, 0.0, 0.0;
    }

    function View(): (r: Cand)
      reads this
      ensures r.ref == ref
    {
      Cand(ref, box, points, misses, vx, vy)
    }

    function Predict(): (r: Box)
      reads this
      ensures r == Predicted(View())
    {
      Box(box.x1 + vx, box.y1 + vy, box.x2 + vx, box.y2 + vy, box.confidence)
    }

    method Update(box: Box, point: TrackPoint)
      requires box == point.box
      modifies this
      ensures View() == Updated(old(View()), point)
    {
      var previousX, previousY := this.box.CentreX(), this.box.CentreY();
      var currentX, currentY := box.CentreX(), box.CentreY();
      vx, vy := 0.5 * vx + 0.5 * (currentX - previousX), 0.5 * vy + 0.5 * (currentY - previousY);
      this.box := box;
      points := points + [point];
      misses := 0;
    }

    method Miss()
      modifies this
      ensures View() == Missed(old(View()))
    {
      misses := misses + 1;
    }
  }

  /** The objects, in this order, look like these values. */
  predicate Shows(cands: seq<Candidate>, views: seq<Cand>)
    reads cands
  {
    |cands| == |views| && forall i | 0 <= i < |cands| :: cands[i].View() == views[i]
  }

  predicate DistinctRefs(cands: seq<Candidate>) {
    forall i, j | 0 <= i < j < |cands| :: cands[i].ref != cands[j].ref
  }

  predicate Names(pairs: seq<(nat, nat)>, picks: seq<Scored>) {
    |pairs| == |picks| && forall k | 0 <= k < |pairs| :: pairs[k] == (picks[k].c, picks[k].b)
  }

  // ----- Association -----

  method ScorePairs(cands: seq<Candidate>, boxes: seq<Box>, ghost views: seq<Cand>) returns (scored: seq<Scored>)
    requires Shows(cands, views)
    ensures scored == AllPairs(Predictions(views), boxes)
  {
    scored := [];
    ghost var predicted := Predictions(views);
    for c := 0 to |cands|
      invariant scored == AllPairs(predicted[..c], boxes)
    {
      assert cands[c].View() == views[c] && predicted[c] == Predicted(views[c]);
      ghost var row := ScoredRow(predicted[c], c, boxes);
      for b := 0 to |boxes|
        invariant scored == AllPairs(predicted[..c], boxes) + row[..b]
      {
        scored := scored + [Scored(cands[c].Predict().Iou(boxes[b]), c, b)];
      }
      assert predicted[..c+1][..c] == predicted[..c] && row[..|boxes|] == row;
    }
    assert predicted[..|cands|] == predicted;
  }

  lemma UsedByLast(acc: seq<Scored>, x: Scored)
    ensures UsedC(acc + [x]) == UsedC(acc) + {x.c} && UsedB(acc + [x]) == UsedB(acc) + {x.b}
  {
    assert forall p :: p in acc + [x] <==> p in acc || p == x;
  }

  lemma AppendFirst<T>(a: seq<T>, x: T, b: seq<T>)
    ensures a + ([x] + b) == (a + [x]) + b
  {
  }

  lemma NamesOneMore(pairs: seq<(nat, nat)>, picks: seq<Scored>, x: Scored)
    requires Names(pairs, picks)
    ensures Names(pairs + [(x.c, x.b)], picks + [x])
  {
  }

  lemma GreedyStep(scored: seq<Scored>, k: nat, threshold: real, usedC: set<nat>, usedB: set<nat>)
    requires k <= |scored|
    ensures k == |scored| || scored[k].score < threshold ==> Greedy(scored[k..], threshold, usedC, usedB) == []
    ensures k < |scored| && scored[k].score >= threshold ==>
              Greedy(scored[k..], threshold, usedC, usedB)
              == if scored[k].c in usedC || scored[k].b in usedB then Greedy(scored[k+1..], threshold, usedC, usedB)
                 else [scored[k]] + Greedy(scored[k+1..], threshold, usedC + {scored[k].c}, usedB + {scored[k].b})
  {
    if k < |scored| {
      assert scored[k..][0] == scored[k] && scored[k..][1..] == scored[k+1..];
    }
  }

  /** The loop over the sorted pairs: stops at the first score below the threshold, skips what is used. */
  method TakeGreedily(scored: seq<Scored>, threshold: real)
    returns (pairs: seq<(nat, nat)>, usedC: set<nat>, usedB: set<nat>)
    ensures var picks := Greedy(scored, threshold, {}, {});
            Names(pairs, picks) && usedC == UsedC(picks) && usedB == UsedB(picks)
  {
    pairs, usedC, usedB := [], {}, {};
    ghost var acc: seq<Scored> := [];
    assert UsedC(acc) == {} && UsedB(acc) == {} && Names(pairs, acc);
    ghost var picks := Greedy(scored, threshold, {}, {});
    assert scored[0..] == scored;
    hide UsedC, UsedB, Greedy, Names;
    var k := 0;
    while k < |scored| && scored[k].score >= threshold
      invariant 0 <= k <= |scored|
      invariant picks == acc + Greedy(scored[k..], threshold, usedC, usedB)
      invariant usedC == UsedC(acc) && usedB == UsedB(acc)
      invariant Names(pairs, acc)
    {
      GreedyStep(scored, k, threshold, usedC, usedB);
      if !(scored[k].c in usedC || scored[k].b in usedB) {
        NamesOneMore(pairs, acc, scored[k]);
        pairs := pairs + [(scored[k].c, scored[k].b)];
        UsedByLast(acc, scored[k]);
        usedC, usedB := usedC + {scored[k].c}, usedB + {scored[k].b};
        AppendFirst(acc, scored[k], Greedy(scored[k+1..], threshold, usedC, usedB));
        acc := acc + [scored[k]];
      }
      k := k + 1;
    }
    GreedyStep(scored, k, threshold, usedC, usedB);
    assert picks == acc;
  }

  /** Greedy matching: the chosen pairs, and exactly the rest on each side. */
  method Associate(cands: seq<Candidate>, boxes: seq<Box>, threshold: real, ghost views: seq<Cand>)
    returns (pairs: seq<(nat, nat)>, unmatchedC: seq<nat>, unmatchedB: seq<nat>)
    requires Shows(cands, views)
    ensures var picks := Picks(views, boxes, threshold);
            && Names(pairs, picks)
            && unmatchedC == Left(|cands|, UsedC(picks)) && unmatchedB == Left(|boxes|, UsedB(picks))
  {
    var scored := ScorePairs(cands, boxes, views);
    scored := Sort(scored, Before);
    var usedC, usedB;
    pairs, usedC, usedB := TakeGreedily(scored, threshold);
    unmatchedC, unmatchedB := Left(|cands|, usedC), Left(|boxes|, usedB);
    hide Greedy, Sort, AllPairs, UsedC, UsedB, Left, Names;
  }

  // ----- One frame -----

  /** Every pair's candidate takes its box; the refs of those candidates are returned. */
  method Claim(cands: seq<Candidate>, boxes: seq<Box>, pairs: seq<(nat, nat)>, frame: FrameDetections,
               ghost picks: seq<Scored>, ghost views: seq<Cand>)
    returns (refs: set<nat>)
    requires DistinctRefs(cands) && Shows(cands, views)
    requires ValidPicks(picks, |cands|, |boxes|) && Names(pairs, picks)
    modifies cands
    ensures Shows(cands, Matched(views, boxes, picks, frame))
    ensures forall i: nat | i < |cands| :: cands[i].ref in refs <==> i in UsedC(picks)
  {
    refs := {};
    assert picks[..0] == [];
    for k := 0 to |pairs|
      invariant ValidPicks(picks[..k], |cands|, |boxes|)
      invariant Shows(cands, Matched(views, boxes, picks[..k], frame))
      invariant forall i: nat | i < |cands| :: cands[i].ref in refs <==> i in UsedC(picks[..k])
    {
      ghost var next := picks[..k+1];
      assert next[..k] == picks[..k] && next[k] == picks[k] && picks[k] in picks;
      TakenPrefix(picks, |cands|, |boxes|, k + 1);
      UsedByLast(picks[..k], picks[k]);
      assert next == picks[..k] + [picks[k]];
      ghost var before := Matched(views, boxes, picks[..k], frame);
      var c, b := pairs[k].0, pairs[k].1;
      cands[c].Update(boxes[b], PointOf(frame, boxes[b]));
      refs := refs + {cands[c].ref};
      assert Matched(views, boxes, next, frame) == before[c := Updated(before[c], PointOf(frame, boxes[b]))];
    }
    assert picks[..|pairs|] == picks;
  }

  lemma TakenPrefix(picks: seq<Scored>, n: nat, m: nat, k: nat)
    requires ValidPicks(picks, n, m) && k <= |picks|
    ensures ValidPicks(picks[..k], n, m)
  {
  }

  method MissRest(cands: seq<Candidate>, rescuedRefs: set<nat>, ghost views: seq<Cand>, ghost rescued: set<nat>)
    requires DistinctRefs(cands) && Shows(cands, views)
    requires forall i: nat | i < |cands| :: cands[i].ref in rescuedRefs <==> i in rescued
    modifies cands
    ensures Shows(cands, Aged(views, rescued))
  {
    ghost var aged := Aged(views, rescued);
    assert forall j | 0 <= j < |aged| :: aged[j] == if j in rescued then views[j] else Missed(views[j]);
    hide Aged, Missed;
    for i := 0 to |cands|
      invariant forall j | 0 <= j < i :: cands[j].View() == aged[j]
      invariant forall j | i <= j < |cands| :: cands[j].View() == views[j]
    {
      assert forall j | 0 <= j < |cands| && j != i :: cands[j] != cands[i];
      if cands[i].ref !in rescuedRefs {
        cands[i].Miss();
      }
    }
  }

  /** The second chance: weak boxes rescue leftovers, the others miss the frame. */
  method Rescue(t: Tuning, leftovers: seq<Candidate>, weak: seq<Box>, frame: FrameDetections, ghost views: seq<Cand>)
    requires DistinctRefs(leftovers) && Shows(leftovers, views)
    modifies leftovers
    ensures var rescues := Picks(views, weak, t.rescueIou);
            Shows(leftovers, Aged(Matched(views, weak, rescues, frame), UsedC(rescues)))
  {
    var pairs, stillUnmatched, unusedWeak := Associate(leftovers, weak, t.rescueIou, views);
    ghost var rescues := Picks(views, weak, t.rescueIou);
    assert |leftovers| == |views|;
    hide Matched, UsedC, Shows, DistinctRefs, Names, Aged, Picks, ValidPicks;
    var rescuedRefs := Claim(leftovers, weak, pairs, frame, rescues, views);
    MissRest(leftovers, rescuedRefs, Matched(views, weak, rescues, frame), UsedC(rescues));
  }

  /** Confident boxes that matched nothing start new candidates. */
  method Spawn(next: nat, boxes: seq<Box>, frame: FrameDetections) returns (born: seq<Candidate>)
    ensures fresh(born) && Shows(born, Newborn(next, boxes, frame))
  {
    born := [];
    for k := 0 to |boxes|
      invariant |born| == k && fresh(born)
      invariant forall j | 0 <= j < k :: born[j].View() == Born(next + j, PointOf(frame, boxes[j]))
    {
      var c := new Candidate(next + k, PointOf(frame, boxes[k]));
      born := born + [c];
    }
  }

  method StillLive(t: Tuning, cands: seq<Candidate>, ghost views: seq<Cand>) returns (live: seq<Candidate>)
    requires Shows(cands, views)
    ensures Shows(live, Living(t, views)) && forall c | c in live :: c in cands
  {
    live := [];
    assert views[..0] == [];
    for i := 0 to |cands|
      invariant Shows(live, Living(t, views[..i])) && forall c | c in live :: c in cands
    {
      assert views[..i+1][..i] == views[..i] && views[..i+1][i] == views[i] == cands[i].View();
      if cands[i].misses <= t.maxAge {
        live := live + [cands[i]];
      }
    }
    assert views[..|cands|] == views;
  }

  lemma ClosedStep(t: Tuning, views: seq<Cand>, i: nat)
    requires i < |views|
    ensures Alive(t, views[i]) ==> Closed(t, views[..i+1]) == Closed(t, views[..i])
    ensures !Alive(t, views[i]) ==> Closed(t, views[..i+1]) == Closed(t, views[..i]) + [views[i]]
  {
    assert views[..i+1][..i] == views[..i];
  }

  lemma OneMoreShown(cands: seq<Candidate>, views: seq<Cand>, c: Candidate)
    requires Shows(cands, views)
    ensures Shows(cands + [c], views + [c.View()])
  {
  }

  method NowClosed(t: Tuning, cands: seq<Candidate>, ghost views: seq<Cand>) returns (closed: seq<Candidate>)
    requires Shows(cands, views)
    ensures Shows(closed, Closed(t, views)) && forall c | c in closed :: c in cands
  {
    closed := [];
    assert views[..0] == [];
    assert Closed(t, views[..0]) == [];
    for i := 0 to |cands|
      invariant Shows(closed, Closed(t, views[..i])) && forall c | c in closed :: c in cands
    {
      assert views[i] == cands[i].View() && (Alive(t, views[i]) <==> cands[i].misses <= t.maxAge);
      hide Closed, Shows, Alive;
      ClosedStep(t, views, i);
      if cands[i].misses > t.maxAge {
        OneMoreShown(closed, Closed(t, views[..i]), cands[i]);
        closed := closed + [cands[i]];
      }
    }
    assert views[..|cands|] == views;
  }

  lemma Apart(a: seq<Candidate>, b: seq<Candidate>)
    requires DistinctRefs(a + b)
    ensures DistinctRefs(a) && DistinctRefs(b) && forall c | c in a :: c !in b
  {
    forall i, j | 0 <= i < |a| && 0 <= j < |b| ensures a[i].ref != b[j].ref {
      assert (a + b)[i] == a[i] && (a + b)[|a| + j] == b[j];
    }
    forall i, j | 0 <= i < j < |a| ensures a[i].ref != a[j].ref {
      assert (a + b)[i] == a[i] && (a + b)[j] == a[j];
    }
    forall i, j | 0 <= i < j < |b| ensures b[i].ref != b[j].ref {
      assert (a + b)[|a| + i] == b[i] && (a + b)[|a| + j] == b[j];
    }
  }

  lemma TakenDistinct(cands: seq<Candidate>, left: seq<nat>)
    requires DistinctRefs(cands) && StrictlyIncreasing(left) && forall i | i in left :: i < |cands|
    ensures DistinctRefs(Take(cands, left)) && forall c | c in Take(cands, left) :: c in cands
  {
    forall k | 0 <= k < |left| ensures left[k] < |cands| {
      assert left[k] in left;
    }
  }

  lemma WrittenBack(live: seq<Candidate>, left: seq<nat>, matched: seq<Cand>, now: seq<Cand>)
    requires |live| == |matched| && StrictlyIncreasing(left) && forall i | i in left :: i < |live|
    requires Shows(Take(live, left), now)
    requires forall i: nat | i < |live| && i !in left :: live[i].View() == matched[i]
    ensures Shows(live, PutBack(matched, left, now))
  {
    forall i | 0 <= i < |live| ensures live[i].View() == PutBack(matched, left, now)[i] {
      PutBackAt(matched, left, now, i);
      if i in left {
        var k :| 0 <= k < |left| && left[k] == i;
        assert Take(live, left)[k].View() == now[k];
      }
    }
  }

  lemma NotTaken(live: seq<Candidate>, left: seq<nat>, i: nat)
    requires DistinctRefs(live) && i < |live| && i !in left && forall j | j in left :: j < |live|
    ensures live[i] !in Take(live, left)
  {
    forall k | 0 <= k < |left| ensures Take(live, left)[k] != live[i] {
      assert left[k] in left;
    }
  }

  /** Stage two, on the candidates stage one left over. */
  method RescueLeftovers(t: Tuning, live: seq<Candidate>, left: seq<nat>, frame: FrameDetections, weak: seq<Box>,
                         ghost matched: seq<Cand>)
    requires DistinctRefs(live) && Shows(live, matched)
    requires StrictlyIncreasing(left) && forall i | i in left :: i < |live|
    modifies live
    ensures var leftovers := Take(matched, left);
            var rescues := Picks(leftovers, weak, t.rescueIou);
            Shows(live, PutBack(matched, left, Aged(Matched(leftovers, weak, rescues, frame), UsedC(rescues))))
  {
    var leftovers := Take(live, left);
    ghost var views := Take(matched, left);
    TakenDistinct(live, left);
    assert Shows(leftovers, views) by {
      forall k | 0 <= k < |left| ensures leftovers[k].View() == views[k] {
        assert left[k] in left;
      }
    }
    ghost var rescues := Picks(views, weak, t.rescueIou);
    ghost var aged := Aged(Matched(views, weak, rescues, frame), UsedC(rescues));
    hide Matched, UsedC, Picks, Aged, PutBack, DistinctRefs;
    forall i: nat | i < |live| && i !in left ensures live[i] !in leftovers {
      NotTaken(live, left, i);
    }
    forall k | 0 <= k < |leftovers| ensures leftovers[k] in live {
      assert leftovers[k] in leftovers;
    }
    Rescue(t, leftovers, weak, frame, views);
    WrittenBack(live, left, matched, aged);
  }

  /** Stage one and stage two on the live candidates, in place. */
  method MatchAndRescue(t: Tuning, live: seq<Candidate>, frame: FrameDetections, strong: seq<Box>, weak: seq<Box>,
                        ghost views: seq<Cand>)
    returns (unmatchedStrong: seq<nat>)
    requires DistinctRefs(live) && Shows(live, views)
    modifies live
    ensures var picks := Picks(views, strong, t.matchIou);
            var matched := Matched(views, strong, picks, frame);
            var left := Left(|views|, UsedC(picks));
            var leftovers := Take(matched, left);
            var rescues := Picks(leftovers, weak, t.rescueIou);
            && unmatchedStrong == Left(|strong|, UsedB(picks))
            && Shows(live, PutBack(matched, left, Aged(Matched(leftovers, weak, rescues, frame), UsedC(rescues))))
  {
    var pairs, left;
    pairs, left, unmatchedStrong := Associate(live, strong, t.matchIou, views);
    ghost var picks := Picks(views, strong, t.matchIou);
    var refs := Claim(live, strong, pairs, frame, picks, views);
    LeftIncreases(|live|, UsedC(picks));
    hide Matched, UsedC, UsedB, Aged, PutBack, DistinctRefs, Picks, Take;
    RescueLeftovers(t, live, left, frame, weak, Matched(views, strong, picks, frame));
  }

  // ----- The whole run -----

  /** Objects that show candidates with unique refs are different objects. */
  lemma RefsTellApart(cands: seq<Candidate>, views: seq<Cand>, next: nat)
    requires Shows(cands, views) && RefsAreUnique(views, next)
    ensures DistinctRefs(cands)
  {
    forall i, j | 0 <= i < j < |cands| ensures cands[i].ref != cands[j].ref {
      RefsDiffer(views, next, i, j);
      assert cands[i].View() == views[i] && cands[j].View() == views[j];
    }
  }

  lemma Joined(a: seq<Candidate>, va: seq<Cand>, b: seq<Candidate>, vb: seq<Cand>)
    requires Shows(a, va) && Shows(b, vb)
    ensures Shows(a + b, va + vb)
  {
  }

  method LongTracks(t: Tuning, cands: seq<Candidate>, ghost views: seq<Cand>) returns (tracks: seq<Track>)
    requires Shows(cands, views)
    ensures tracks == LongEnough(t, views)
  {
    tracks := [];
    for i := 0 to |cands|
      invariant tracks == LongEnough(t, views[..i])
    {
      assert views[..i+1][..i] == views[..i] && views[i] == cands[i].View();
      if |cands[i].points| >= t.minTrackLength {
        tracks := tracks + [Track(cands[i].ref, cands[i].points)];
      }
    }
    assert views[..|cands|] == views;
  }

  /** Both matching stages and the births of one frame. */
  method MatchAndSpawn(t: Tuning, live: seq<Candidate>, next: nat, frame: FrameDetections, ghost views: seq<Cand>)
    returns (everyone: seq<Candidate>, births: nat)
    requires DistinctRefs(live) && Shows(live, views)
    modifies live
    ensures Shows(everyone, AfterFrame(t, views, next, frame)) && births == Births(t, views, frame)
    ensures forall c | c in everyone :: c in live || fresh(c)
  {
    var strong, weak := StrongBoxes(t, frame.boxes), WeakBoxes(t, frame.boxes);
    AfterFrameParts(t, views, next, frame);
    hide Picks, Matched, Take, Left, UsedC, UsedB, PutBack,
         Aged, Newborn, StrongBoxes, WeakBoxes, AfterFrame, DistinctRefs;
    var unmatchedStrong := MatchAndRescue(t, live, frame, strong, weak, views);
    ghost var kept := AfterFrame(t, views, next, frame)[..|views|];
    assert Shows(live, kept);
    var born := Spawn(next, Take(strong, unmatchedStrong), frame);
    births := |unmatchedStrong|;
    everyone := live + born;
    Joined(live, kept, born, Newborn(next, Take(strong, unmatchedStrong), frame));
  }

  lemma AfterFrameParts(t: Tuning, live: seq<Cand>, next: nat, frame: FrameDetections)
    ensures var strong, weak := StrongBoxes(t, frame.boxes), WeakBoxes(t, frame.boxes);
            var picks := Picks(live, strong, t.matchIou);
            var matched := Matched(live, strong, picks, frame);
            var left := Left(|live|, UsedC(picks));
            var leftovers := Take(matched, left);
            var rescues := Picks(leftovers, weak, t.rescueIou);
            var all := AfterFrame(t, live, next, frame);
            var newborn := Newborn(next, Take(strong, Left(|strong|, UsedB(picks))), frame);
            && |all| >= |live|
            && all[..|live|] == PutBack(matched, left, Aged(Matched(leftovers, weak, rescues, frame), UsedC(rescues)))
            && all == all[..|live|] + newborn
  {
  }

  predicate Within(cands: seq<Candidate>, mine: set<Candidate>) {
    forall k | 0 <= k < |cands| :: cands[k] in mine
  }

  /** One pass of the frame loop. */
  method ProcessFrame(t: Tuning, live: seq<Candidate>, finished: seq<Candidate>, next: nat, frame: FrameDetections,
                      ghost s: TrackerState, ghost mine: set<Candidate>)
    returns (nowLive: seq<Candidate>, nowFinished: seq<Candidate>, nowNext: nat, ghost nowMine: set<Candidate>)
    requires Shows(live, s.live) && Shows(finished, s.finished) && next == s.next
    requires RefsAreUnique(s.finished + s.live, s.next)
    requires Within(live, mine)
    modifies mine
    ensures var after := Frame(t, s, frame);
            Shows(nowLive, after.live) && Shows(nowFinished, after.finished) && nowNext == after.next
    ensures Within(nowLive, nowMine) && mine <= nowMine && fresh(nowMine - mine)
  {
    hide AfterFrame, Births, RefsAreUnique, Living, Closed;
    Joined(finished, s.finished, live, s.live);
    RefsTellApart(finished + live, s.finished + s.live, s.next);
    Apart(finished, live);
    var everyone, births := MatchAndSpawn(t, live, next, frame, s.live);
    ghost var all := AfterFrame(t, s.live, next, frame);
    assert Shows(finished, s.finished) by {
      forall i | 0 <= i < |finished| ensures finished[i].View() == s.finished[i] {
        assert finished[i] in finished;
      }
    }
    hide DistinctRefs;
    nowLive := StillLive(t, everyone, all);
    var closed := NowClosed(t, everyone, all);
    nowFinished, nowNext := finished + closed, next + births;
    Joined(finished, s.finished, closed, Closed(t, all));
    nowMine := mine + set c | c in everyone;
  }

  lemma FramesStep(t: Tuning, frames: seq<FrameDetections>, i: nat)
    requires i < |frames|
    ensures var before := Frames(t, frames[..i]);
            && RefsAreUnique(before.finished + before.live, before.next)
            && Frames(t, frames[..i+1]) == Frame(t, before, frames[i])
  {
    hide Frame, RefsAreUnique;
    RefsStayUnique(t, frames[..i]);
    assert frames[..i+1][..i] == frames[..i];
  }

  /** The frame loop. */
  method Follow(t: Tuning, frames: seq<FrameDetections>) returns (live: seq<Candidate>, finished: seq<Candidate>)
    ensures Shows(live, Frames(t, frames).live) && Shows(finished, Frames(t, frames).finished)
  {
    var next := 1;
    live, finished := [], [];
    ghost var s := START;
    ghost var mine: set<Candidate> := {};
    assert Frames(t, frames[..0]) == START && Shows(live, s.live) && Shows(finished, s.finished);
    hide Frame, Frames, RefsAreUnique, Shows;
    for i := 0 to |frames|
      invariant s == Frames(t, frames[..i]) && next == s.next
      invariant Shows(live, s.live) && Shows(finished, s.finished)
      invariant fresh(mine) && Within(live, mine)
    {
      FramesStep(t, frames, i);
      live, finished, next, mine := ProcessFrame(t, live, finished, next, frames[i], s, mine);
      s := Frame(t, s, frames[i]);
    }
    assert frames[..|frames|] == frames;
  }

  /** The tracks over any frames, in order of first appearance. */
  method TrackFrames(t: Tuning, frames: seq<FrameDetections>) returns (tracks: seq<Track>)
    ensures tracks == TracksOf(t, frames)
  {
    var live, finished := Follow(t, frames);
    ghost var after := Frames(t, frames);
    hide Shows, Frames, LongEnough, Sort;
    Joined(finished, after.finished, live, after.live);
    finished := finished + live;
    tracks := LongTracks(t, finished, Candidates(t, frames));
    tracks := Sort(tracks, SeenBefore);
  }
}
