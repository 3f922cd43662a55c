/** What holds of the tracks over any list of frames: conservation of detections, and continuity. */
module Tracks {
  import opened Boxes
  import opened Sequences
  import opened Sorting
  import opened Association
  import opened Tracking

  // ----- Counting points -----

  /** Every point of every candidate, with multiplicity. */
  function Points(cands: seq<Cand>): multiset<TrackPoint> {
    if cands == [] then multiset{}
    else Points(cands[..|cands|-1]) + multiset(cands[|cands|-1].points)
  }

  /** The points a list of detections would make. */
  function PointsOf(frame: FrameDetections, boxes: seq<Box>): multiset<TrackPoint> {
    if boxes == [] then multiset{}
    else PointsOf(frame, boxes[..|boxes|-1]) + multiset{PointOf(frame, boxes[|boxes|-1])}
  }

  /** The points a list of picks hands out. */
  function Gained(frame: FrameDetections, boxes: seq<Box>, picks: seq<Scored>): multiset<TrackPoint>
    requires forall p | p in picks :: p.b < |boxes|
  {
    if picks == [] then multiset{}
    else
      var last := picks[|picks|-1];
      assert last in picks;
      Gained(frame, boxes, picks[..|picks|-1]) + multiset{PointOf(frame, boxes[last.b])}
  }

  lemma {:induction false} PointsConcat(a: seq<Cand>, b: seq<Cand>)
    ensures Points(a + b) == Points(a) + Points(b)
  {
    if b == [] {
      assert a + b == a;
    } else {
      PointsOfLast(b);
      PointsOfLast(a + b);
      hide Points;
      PointsConcat(a, b[..|b|-1]);
      assert (a + b)[..|a + b|-1] == a + b[..|b|-1];
    }
  }

  lemma {:induction false} PointsReplaced(s: seq<Cand>, i: nat, x: Cand)
    requires i < |s|
    ensures Points(s[i := x]) + multiset(s[i].points) == Points(s) + multiset(x.points)
  {
    var last := |s| - 1;
    assert s[i := x][last] == if i == last then x else s[last];
    if i == last {
      assert s[i := x][..last] == s[..last];
    } else {
      PointsReplaced(s[..last], i, x);
      assert s[i := x][..last] == s[..last][i := x];
      assert s[..last][i] == s[i];
      assert Points(s[i := x]) == Points(s[..last][i := x]) + multiset(s[last].points);
      assert Points(s) == Points(s[..last]) + multiset(s[last].points);
      Both(Points(s[..last][i := x]), multiset(s[i].points),
        Points(s[..last]), multiset(x.points), multiset(s[last].points));
    }
  }

  lemma Both<T>(a: multiset<T>, b: multiset<T>, c: multiset<T>, d: multiset<T>, more: multiset<T>)
    requires a + b == c + d
    ensures a + more + b == c + more + d
  {
    assert a + more + b == a + b + more;
    assert c + more + d == c + d + more;
  }

  lemma OnePointMore(s: seq<Cand>, i: nat, point: TrackPoint)
    requires i < |s|
    ensures Points(s[i := Updated(s[i], point)]) == Points(s) + multiset{point}
  {
    var updated := Updated(s[i], point);
    assert multiset(updated.points) == multiset(s[i].points) + multiset{point};
    hide Updated;
    PointsReplaced(s, i, updated);
    hide Points;
    Cancel(Points(s[i := updated]), multiset(s[i].points), Points(s) + multiset{point});
  }

  lemma Cancel<T>(a: multiset<T>, common: multiset<T>, b: multiset<T>)
    requires a + common == b + common
    ensures a == b
  {
    assert a == a + common - common;
    assert b == b + common - common;
  }

  lemma {:induction false} MatchedGains(cands: seq<Cand>, boxes: seq<Box>, picks: seq<Scored>, frame: FrameDetections)
    requires ValidPicks(picks, |cands|, |boxes|)
    ensures Points(Matched(cands, boxes, picks, frame)) == Points(cands) + Gained(frame, boxes, picks)
  {
    if picks != [] {
      var last, rest := picks[|picks|-1], picks[..|picks|-1];
      ValidPrefix(picks, |cands|, |boxes|);
      MatchedGains(cands, boxes, rest, frame);
      var before := Matched(cands, boxes, rest, frame);
      var point := PointOf(frame, boxes[last.b]);
      OnePointMore(before, last.c, point);
    }
  }

  lemma {:induction false} SamePoints(a: seq<Cand>, b: seq<Cand>)
    requires |a| == |b| && forall i | 0 <= i < |a| :: a[i].points == b[i].points
    ensures Points(a) == Points(b)
  {
    if a != [] {
      SamePoints(a[..|a|-1], b[..|b|-1]);
    }
  }

  lemma {:induction false} LeftIncreases(n: nat, used: set<nat>)
    ensures StrictlyIncreasing(Left(n, used))
  {
    if n > 0 {
      LeftIncreases(n - 1, used);
      var rest, all := Left(n - 1, used), Left(n, used);
      forall i, j | 0 <= i < j < |all| ensures all[i] < all[j] {
        assert all[i] == rest[i] && rest[i] in rest;
      }
    }
  }

  lemma {:induction false} PutBackAt(cands: seq<Cand>, left: seq<nat>, now: seq<Cand>, i: nat)
    requires |left| == |now| && StrictlyIncreasing(left) && (forall j | j in left :: j < |cands|) && i < |cands|
    ensures i !in left ==> PutBack(cands, left, now)[i] == cands[i]
    ensures forall k | 0 <= k < |left| && left[k] == i :: PutBack(cands, left, now)[i] == now[k]
  {
    if left != [] {
      var last := |left| - 1;
      assert left[last] in left && forall j | j in left[..last] :: j in left;
      PutBackAt(cands, left[..last], now[..last], i);
    }
  }

  lemma {:induction false} PutBackPoints(cands: seq<Cand>, left: seq<nat>, now: seq<Cand>)
    requires |left| == |now| && StrictlyIncreasing(left) && (forall j | j in left :: j < |cands|)
    ensures Points(PutBack(cands, left, now)) + Points(Take(cands, left)) == Points(cands) + Points(now)
  {
    if left != [] {
      var last := |left| - 1;
      assert left[last] in left && forall j | j in left[..last] :: j in left;
      PutBackPoints(cands, left[..last], now[..last]);
      var before := PutBack(cands, left[..last], now[..last]);
      PutBackAt(cands, left[..last], now[..last], left[last]);
      assert before[left[last]] == cands[left[last]];
      PointsReplaced(before, left[last], now[last]);
      var after := PutBack(cands, left, now);
      assert after == before[left[last] := now[last]];
      TakeLast(cands, left);
      PointsOfLast(now);
      hide Points;
      hide PutBack;
      hide Take;
      Exchange(Points(before), Points(Take(cands, left[..last])), Points(cands), Points(now[..last]),
               Points(after), multiset(cands[left[last]].points), multiset(now[last].points));
    }
  }

  lemma PointsOfLast(s: seq<Cand>)
    requires s != []
    ensures Points(s) == Points(s[..|s|-1]) + multiset(s[|s|-1].points)
  {
  }

  lemma TakeLast(s: seq<Cand>, left: seq<nat>)
    requires left != [] && forall j | j in left :: j < |s|
    ensures var last := |left| - 1;
            && (forall j | j in left[..last] :: j < |s|) && left[last] in left
            && Points(Take(s, left)) == Points(Take(s, left[..last])) + multiset(s[left[last]].points)
  {
    var last := |left| - 1;
    assert left[last] in left && forall j | j in left[..last] :: j in left;
    assert Take(s, left)[..last] == Take(s, left[..last]);
  }

  lemma Exchange<T>(a: multiset<T>, b: multiset<T>, c: multiset<T>, d: multiset<T>,
      after: multiset<T>, gone: multiset<T>, come: multiset<T>)
    requires a + b == c + d && after + gone == a + come
    ensures after + (b + gone) == c + (d + come)
  {
    assert after + (b + gone) == after + gone + b == a + come + b == a + b + come;
    assert c + (d + come) == c + d + come;
  }

  lemma {:induction false} NewbornPoints(next: nat, boxes: seq<Box>, frame: FrameDetections)
    ensures Points(Newborn(next, boxes, frame)) == PointsOf(frame, boxes)
  {
    if boxes != [] {
      var last := |boxes| - 1;
      NewbornPoints(next, boxes[..last], frame);
      assert Newborn(next, boxes, frame)[..last] == Newborn(next, boxes[..last], frame);
      assert multiset(Born(next + last, PointOf(frame, boxes[last])).points) == multiset{PointOf(frame, boxes[last])};
    }
  }

  /** The points of the first n boxes that are not used. */
  function Unused(frame: FrameDetections, boxes: seq<Box>, n: nat, used: set<nat>): multiset<TrackPoint>
    requires n <= |boxes|
  {
    PointsOf(frame, Take(boxes, Left(n, used)))
  }

  /** Using up one more box moves exactly its point out of the remainder. */
  lemma {:induction false} OneMoreUsed(frame: FrameDetections, boxes: seq<Box>, n: nat, used: set<nat>, b: nat,
                                       x: TrackPoint)
    requires n <= |boxes| && b !in used && b < |boxes|
    ensures Unused(frame, boxes, n, used)[x]
            == Unused(frame, boxes, n, used + {b})[x] + if b < n && x == PointOf(frame, boxes[b]) then 1 else 0
  {
    hide Unused, PointOf;
    if n == 0 {
      NoneUnused(frame, boxes, used);
      NoneUnused(frame, boxes, used + {b});
    } else {
      OneMoreUsed(frame, boxes, n - 1, used, b, x);
      OneMoreUnused(frame, boxes, n - 1, used, x);
      OneMoreUnused(frame, boxes, n - 1, used + {b}, x);
    }
  }

  lemma NoneUnused(frame: FrameDetections, boxes: seq<Box>, used: set<nat>)
    ensures Unused(frame, boxes, 0, used) == multiset{}
  {
  }

  lemma OneMoreUnused(frame: FrameDetections, boxes: seq<Box>, n: nat, used: set<nat>, x: TrackPoint)
    requires n < |boxes|
    ensures Unused(frame, boxes, n + 1, used)[x]
            == Unused(frame, boxes, n, used)[x] + if n !in used && x == PointOf(frame, boxes[n]) then 1 else 0
  {
    var all := Take(boxes, Left(n + 1, used));
    if n in used {
      assert Left(n + 1, used) == Left(n, used) + [];
      assert all == Take(boxes, Left(n, used));
    } else {
      assert Left(n + 1, used) == Left(n, used) + [n];
      assert all[..|all|-1] == Take(boxes, Left(n, used)) && all[|all|-1] == boxes[n];
    }
  }

  lemma {:induction false} NothingUsed(frame: FrameDetections, boxes: seq<Box>, n: nat, x: TrackPoint)
    requires n <= |boxes|
    ensures Unused(frame, boxes, n, {})[x] == PointsOf(frame, boxes[..n])[x]
  {
    hide Unused;
    if n == 0 {
      NoneUnused(frame, boxes, {});
    } else {
      NothingUsed(frame, boxes, n - 1, x);
      OneMoreUnused(frame, boxes, n - 1, {}, x);
      assert boxes[..n][..n-1] == boxes[..n-1];
    }
  }

  /** The picked boxes and the remaining ones are all the boxes, each once. */
  lemma {:induction false} PickedOrLeft(frame: FrameDetections, boxes: seq<Box>, picks: seq<Scored>, n: nat,
                                        x: TrackPoint)
    requires ValidPicks(picks, n, |boxes|)
    ensures Gained(frame, boxes, picks)[x] + Unused(frame, boxes, |boxes|, UsedB(picks))[x] == PointsOf(frame, boxes)[x]
  {
    if picks == [] {
      assert UsedB(picks) == {} && boxes[..|boxes|] == boxes;
      NothingUsed(frame, boxes, |boxes|, x);
    } else {
      var last, rest := picks[|picks|-1], picks[..|picks|-1];
      ValidPrefix(picks, n, |boxes|);
      PickedOrLeft(frame, boxes, rest, n, x);
      UsedByOneMore(picks);
      OneMoreUsed(frame, boxes, |boxes|, UsedB(rest), last.b, x);
      hide Unused, PointsOf, UsedB, PointOf;
    }
  }

  lemma PickedAndLeft(frame: FrameDetections, boxes: seq<Box>, picks: seq<Scored>, n: nat)
    requires ValidPicks(picks, n, |boxes|)
    ensures Gained(frame, boxes, picks) + PointsOf(frame, Take(boxes, Left(|boxes|, UsedB(picks)))) ==
              PointsOf(frame, boxes)
  {
    var sum := Gained(frame, boxes, picks) + Unused(frame, boxes, |boxes|, UsedB(picks));
    forall x: TrackPoint ensures sum[x] == PointsOf(frame, boxes)[x] {
      PickedOrLeft(frame, boxes, picks, n, x);
    }
    assert sum == PointsOf(frame, boxes);
  }

  lemma UsedByOneMore(picks: seq<Scored>)
    requires picks != []
    ensures UsedB(picks) == UsedB(picks[..|picks|-1]) + {picks[|picks|-1].b}
  {
    var last, rest := picks[|picks|-1], picks[..|picks|-1];
    assert forall p :: p in picks <==> p in rest || p == last;
  }

  lemma OnePointList(s: seq<Cand>, last: Cand)
    ensures Points(s + [last]) == Points(s) + multiset(last.points)
  {
    assert (s + [last])[..|s|] == s;
  }

  lemma EitherSide<T>(a: multiset<T>, b: multiset<T>, more: multiset<T>)
    ensures a + more + b == a + b + more && a + (b + more) == a + b + more
  {
  }

  lemma {:induction false} LivingAndClosed(t: Tuning, cands: seq<Cand>)
    ensures Points(Living(t, cands)) + Points(Closed(t, cands)) == Points(cands)
  {
    if cands != [] {
      var rest, last := cands[..|cands|-1], cands[|cands|-1];
      LivingAndClosed(t, rest);
      PointsOfLast(cands);
      OnePointList(Living(t, rest), last);
      OnePointList(Closed(t, rest), last);
      assert Living(t, cands) == if Alive(t, last) then Living(t, rest) + [last] else Living(t, rest);
      assert Closed(t, cands) == if Alive(t, last) then Closed(t, rest) else Closed(t, rest) + [last];
      hide *;
      EitherSide(Points(Living(t, rest)), Points(Closed(t, rest)), multiset(last.points));
    }
  }

  // ----- Conservation -----

  lemma {:induction false} FrameConserves(t: Tuning, live: seq<Cand>, next: nat, frame: FrameDetections)
    ensures var weak := WeakBoxes(t, frame.boxes);
            var before, after := Points(live), Points(AfterFrame(t, live, next, frame));
            before + PointsOf(frame, StrongBoxes(t, frame.boxes)) <= after
            <= before + PointsOf(frame, StrongBoxes(t, frame.boxes)) + PointsOf(frame, weak)
  {
    var strong, weak := StrongBoxes(t, frame.boxes), WeakBoxes(t, frame.boxes);
    var picks := Picks(live, strong, t.matchIou);
    var matched := Matched(live, strong, picks, frame);
    var left := Left(|live|, UsedC(picks));
    var leftovers := Take(matched, left);
    var rescues := Picks(leftovers, weak, t.rescueIou);
    var rescued := Matched(leftovers, weak, rescues, frame);
    var aged := Aged(rescued, UsedC(rescues));
    var rest := Take(strong, Left(|strong|, UsedB(picks)));
    var back := PutBack(matched, left, aged);
    var newborn := Newborn(next, rest, frame);
    assert AfterFrame(t, live, next, frame) == back + newborn;
    hide AfterFrame;
    MatchedGains(live, strong, picks, frame);
    MatchedGains(leftovers, weak, rescues, frame);
    AgedPoints(rescued, UsedC(rescues));
    LeftIncreases(|live|, UsedC(picks));
    PutBackPoints(matched, left, aged);
    NewbornPoints(next, rest, frame);
    PointsConcat(back, newborn);
    PickedAndLeft(frame, strong, picks, |live|);
    PickedAndLeft(frame, weak, rescues, |leftovers|);
    hide *;
    Balance(Points(live), Gained(frame, strong, picks), PointsOf(frame, rest), Points(leftovers),
            Gained(frame, weak, rescues), Points(back), PointsOf(frame, weak),
            PointsOf(frame, Take(weak, Left(|weak|, UsedB(rescues)))));
  }

  lemma AgedPoints(cands: seq<Cand>, rescued: set<nat>)
    ensures Points(Aged(cands, rescued)) == Points(cands)
  {
    SamePoints(Aged(cands, rescued), cands);
  }

  lemma Balance<T>(live: multiset<T>, gained: multiset<T>, rest: multiset<T>, leftovers: multiset<T>,
      rescued: multiset<T>, back: multiset<T>, weak: multiset<T>, unused: multiset<T>)
    requires back + leftovers == (live + gained) + (leftovers + rescued)
    requires rescued + unused == weak
    ensures live + (gained + rest) <= back + rest <= live + (gained + rest) + weak
  {
    assert back + leftovers == live + gained + rescued + leftovers;
    Cancel(back, leftovers, live + gained + rescued);
  }

  function StrongPoints(t: Tuning, frames: seq<FrameDetections>): multiset<TrackPoint> {
    if frames == [] then multiset{}
    else
      var last := frames[|frames|-1];
      StrongPoints(t, frames[..|frames|-1]) + PointsOf(last, StrongBoxes(t, last.boxes))
  }

  function WeakPoints(t: Tuning, frames: seq<FrameDetections>): multiset<TrackPoint> {
    if frames == [] then multiset{}
    else
      var last := frames[|frames|-1];
      WeakPoints(t, frames[..|frames|-1]) + PointsOf(last, WeakBoxes(t, last.boxes))
  }

  /**
   * Conservation of detections, over any frames: counting multiplicities, the points of
   * all candidates are every confident detection exactly once, and beyond those only
   * weak detections, each at most once.
   */
  lemma {:induction false} DetectionsAreConserved(t: Tuning, frames: seq<FrameDetections>)
    ensures StrongPoints(t, frames) <= Points(Candidates(t, frames)) <= StrongPoints(t, frames) + WeakPoints(t, frames)
  {
    var after := Frames(t, frames);
    PointsConcat(after.finished, after.live);
    if frames != [] {
      var last, rest := frames[|frames|-1], frames[..|frames|-1];
      var before := Frames(t, rest);
      DetectionsAreConserved(t, rest);
      FrameConserves(t, before.live, before.next, last);
      var all := AfterFrame(t, before.live, before.next, last);
      LivingAndClosed(t, all);
      PointsConcat(before.finished, before.live);
      PointsConcat(before.finished, Closed(t, all));
      assert after.live == Living(t, all) && after.finished == before.finished + Closed(t, all);
      assert StrongPoints(t, frames) == StrongPoints(t, rest) + PointsOf(last, StrongBoxes(t, last.boxes));
      assert WeakPoints(t, frames) == WeakPoints(t, rest) + PointsOf(last, WeakBoxes(t, last.boxes));
      assert Candidates(t, frames) == after.finished + after.live;
      assert Candidates(t, rest) == before.finished + before.live;
      hide *;
      Squeeze(StrongPoints(t, rest), WeakPoints(t, rest), Points(before.finished), Points(before.live),
              Points(Living(t, all)), Points(Closed(t, all)), PointsOf(last, StrongBoxes(t, last.boxes)),
              PointsOf(last, WeakBoxes(t, last.boxes)));
    }
  }

  lemma Squeeze<T>(strong: multiset<T>, weak: multiset<T>, finished: multiset<T>, live: multiset<T>,
      living: multiset<T>, closed: multiset<T>, moreStrong: multiset<T>, moreWeak: multiset<T>)
    requires strong <= finished + live <= strong + weak
    requires live + moreStrong <= living + closed <= live + moreStrong + moreWeak
    ensures strong + moreStrong <= finished + closed + living <= (strong + moreStrong) + (weak + moreWeak)
  {
    assert finished + closed + living == finished + (living + closed);
    assert finished + (live + moreStrong) == finished + live + moreStrong;
    assert finished + (live + moreStrong + moreWeak) == finished + live + (moreStrong + moreWeak);
    assert strong + weak + (moreStrong + moreWeak) == (strong + moreStrong) + (weak + moreWeak);
  }

  // ----- What one frame does to one candidate -----

  lemma {:induction false} MatchedAt(cands: seq<Cand>, boxes: seq<Box>, picks: seq<Scored>, frame: FrameDetections,
                                     i: nat)
    requires ValidPicks(picks, |cands|, |boxes|) && i < |cands|
    ensures var after := Matched(cands, boxes, picks, frame)[i];
            if i in UsedC(picks) then exists b :: b in boxes && after == Updated(cands[i], PointOf(frame, b))
            else after == cands[i]
  {
    if picks != [] {
      var last, rest := picks[|picks|-1], picks[..|picks|-1];
      ValidPrefix(picks, |cands|, |boxes|);
      MatchedAt(cands, boxes, rest, frame, i);
      assert i in UsedC(picks) <==> i in UsedC(rest) || i == last.c by {
        assert forall p :: p in picks <==> p in rest || p == last;
      }
      var before := Matched(cands, boxes, rest, frame);
      assert Matched(cands, boxes, picks, frame)
          == before[last.c := Updated(before[last.c], PointOf(frame, boxes[last.b]))];
      if i == last.c {
        assert boxes[last.b] in boxes;
      }
    }
  }

  /** A live candidate either gains one point, from a box of this frame strong or weak enough, or misses the frame. */
  ghost predicate Fate(t: Tuning, before: Cand, after: Cand, frame: FrameDetections) {
    || after == Missed(before)
    || exists b :: b in frame.boxes && (IsStrong(t, b) || IsWeak(t, b)) && after == Updated(before, PointOf(frame, b))
  }

  lemma {:induction false} LeftHolds(n: nat, used: set<nat>, i: nat) returns (k: nat)
    requires i < n && i !in used
    ensures k < |Left(n, used)| && Left(n, used)[k] == i
  {
    k :| 0 <= k < |Left(n, used)| && Left(n, used)[k] == i;
  }

  lemma RescueFate(t: Tuning, leftovers: seq<Cand>, frame: FrameDetections, k: nat)
    requires k < |leftovers|
    ensures var weak := WeakBoxes(t, frame.boxes);
            var rescues := Picks(leftovers, weak, t.rescueIou);
            Fate(t, leftovers[k], Aged(Matched(leftovers, weak, rescues, frame), UsedC(rescues))[k], frame)
  {
    var weak := WeakBoxes(t, frame.boxes);
    MatchedAt(leftovers, weak, Picks(leftovers, weak, t.rescueIou), frame, k);
    hide Matched, Updated, Picks;
  }

  lemma FateOfLive(t: Tuning, live: seq<Cand>, next: nat, frame: FrameDetections, i: nat)
    requires i < |live|
    ensures |AfterFrame(t, live, next, frame)| == |live| + Births(t, live, frame)
    ensures Fate(t, live[i], AfterFrame(t, live, next, frame)[i], frame)
  {
    var strong, weak := StrongBoxes(t, frame.boxes), WeakBoxes(t, frame.boxes);
    var picks := Picks(live, strong, t.matchIou);
    var matched := Matched(live, strong, picks, frame);
    var left := Left(|live|, UsedC(picks));
    var leftovers := Take(matched, left);
    var rescues := Picks(leftovers, weak, t.rescueIou);
    var aged := Aged(Matched(leftovers, weak, rescues, frame), UsedC(rescues));
    assert AfterFrame(t, live, next, frame)[i] == PutBack(matched, left, aged)[i];
    MatchedAt(live, strong, picks, frame, i);
    LeftIncreases(|live|, UsedC(picks));
    PutBackAt(matched, left, aged, i);
    if i !in UsedC(picks) {
      var k := LeftHolds(|live|, UsedC(picks), i);
      RescueFate(t, leftovers, frame, k);
      hide AfterFrame, Matched, PutBack, Picks, Aged, Updated;
      assert leftovers[k] == live[i];
    } else {
      hide AfterFrame, Matched, PutBack, Picks, Aged, Updated;
    }
  }

  /** The confident boxes no candidate took. */
  function Unclaimed(t: Tuning, live: seq<Cand>, frame: FrameDetections): seq<Box> {
    var strong := StrongBoxes(t, frame.boxes);
    Take(strong, Left(|strong|, UsedB(Picks(live, strong, t.matchIou))))
  }

  lemma NewbornComeLast(t: Tuning, live: seq<Cand>, next: nat, frame: FrameDetections)
    ensures var whole := AfterFrame(t, live, next, frame);
            && |Unclaimed(t, live, frame)| == Births(t, live, frame)
            && |whole| == |live| + Births(t, live, frame)
            && whole[|live|..] == Newborn(next, Unclaimed(t, live, frame), frame)
  {
    hide Picks, Left, UsedB, UsedC, Born, StrongBoxes, WeakBoxes, Updated;
  }

  lemma UnclaimedAreStrong(t: Tuning, live: seq<Cand>, frame: FrameDetections, k: nat)
    requires k < |Unclaimed(t, live, frame)|
    ensures Unclaimed(t, live, frame)[k] in frame.boxes && IsStrong(t, Unclaimed(t, live, frame)[k])
  {
    var strong := StrongBoxes(t, frame.boxes);
    var unused := Left(|strong|, UsedB(Picks(live, strong, t.matchIou)));
    hide Picks, Left, UsedB, IsStrong;
    assert unused[k] in unused;
    assert strong[unused[k]] in strong;
  }

  lemma FateOfNewborn(t: Tuning, live: seq<Cand>, next: nat, frame: FrameDetections, k: nat)
    requires k < Births(t, live, frame)
    ensures |AfterFrame(t, live, next, frame)| == |live| + Births(t, live, frame)
    ensures exists b :: b in frame.boxes && IsStrong(t, b)
                        && AfterFrame(t, live, next, frame)[|live| + k] == Born(next + k, PointOf(frame, b))
  {
    hide AfterFrame, Unclaimed, Births, Born, PointOf, IsStrong;
    NewbornComeLast(t, live, next, frame);
    UnclaimedAreStrong(t, live, frame, k);
    assert AfterFrame(t, live, next, frame)[|live|..][k] ==
             Born(next + k, PointOf(frame, Unclaimed(t, live, frame)[k]));
  }

  // ----- Continuity -----

  /** The detector numbers the frames it is given from 0. */
  predicate Numbered(frames: seq<FrameDetections>) {
    forall i | 0 <= i < |frames| :: frames[i].frameIndex == i
  }

  /** Starts on a confident box; points are in frame order, each at most `max_age + 1` frames after the one before. */
  predicate Continuous(t: Tuning, points: seq<TrackPoint>) {
    && points != [] && IsStrong(t, points[0].box) && points[0].frameIndex >= 0
    && (forall k, j | 0 <= k < |points| && j == k + 1 < |points| ::
          points[k].frameIndex < points[j].frameIndex <= points[k].frameIndex + t.maxAge + 1)
    && (forall p | p in points :: IsStrong(t, p.box) || IsWeak(t, p.box))
  }

  /** `misses` counts the frames since the last point. */
  predicate CountsMisses(c: Cand, now: int) {
    c.points != [] && c.misses >= 0 && c.points[|c.points|-1].frameIndex + c.misses == now
  }

  predicate Healthy(t: Tuning, c: Cand, now: int) {
    Continuous(t, c.points) && CountsMisses(c, now)
  }

  lemma GainKeepsHealth(t: Tuning, c: Cand, frame: FrameDetections, b: Box)
    requires Healthy(t, c, frame.frameIndex - 1) && Alive(t, c) && (IsStrong(t, b) || IsWeak(t, b))
    ensures Healthy(t, Updated(c, PointOf(frame, b)), frame.frameIndex)
  {
    var after := Updated(c, PointOf(frame, b)).points;
    assert after[..|c.points|] == c.points;
    assert forall p | p in after :: p in c.points || p == PointOf(frame, b);
  }

  lemma HealthAfter(t: Tuning, live: seq<Cand>, next: nat, frame: FrameDetections)
    requires frame.frameIndex >= 0
    requires forall c | c in live :: Healthy(t, c, frame.frameIndex - 1) && Alive(t, c)
    ensures forall c | c in AfterFrame(t, live, next, frame) :: Healthy(t, c, frame.frameIndex)
  {
    var all := AfterFrame(t, live, next, frame);
    hide AfterFrame, Births, Healthy;
    forall i | 0 <= i < |all| ensures Healthy(t, all[i], frame.frameIndex) {
      if i < |live| {
        assert live[i] in live;
        FateOfLive(t, live, next, frame, i);
        if all[i] == Missed(live[i]) {
          MissKeepsHealth(t, live[i], frame.frameIndex);
        } else {
          var b :| b in frame.boxes && (IsStrong(t, b) || IsWeak(t, b))
                   && all[i] == Updated(live[i], PointOf(frame, b));
          GainKeepsHealth(t, live[i], frame, b);
        }
      } else {
        SizeAfter(t, live, next, frame);
        FateOfNewborn(t, live, next, frame, i - |live|);
        NewbornIsHealthy(t, all[i], frame);
      }
    }
  }

  lemma SizeAfter(t: Tuning, live: seq<Cand>, next: nat, frame: FrameDetections)
    ensures |AfterFrame(t, live, next, frame)| == |live| + Births(t, live, frame)
  {
  }

  lemma MissKeepsHealth(t: Tuning, c: Cand, now: int)
    requires Healthy(t, c, now - 1)
    ensures Healthy(t, Missed(c), now)
  {
  }

  lemma NewbornIsHealthy(t: Tuning, c: Cand, frame: FrameDetections)
    requires frame.frameIndex >= 0
    requires exists b, ref :: IsStrong(t, b) && c == Born(ref, PointOf(frame, b))
    ensures Healthy(t, c, frame.frameIndex)
  {
  }

  function RefsOf(cands: seq<Cand>): set<nat> { set c | c in cands :: c.ref }

  /** 1..next-1. */
  function Span(next: nat): (r: set<nat>)
    ensures forall i: nat :: i in r <==> 1 <= i < next
    ensures next >= 1 ==> |r| == next - 1
  {
    if next <= 1 then {} else Span(next - 1) + {next - 1}
  }

  /** The refs handed out so far are 1..next-1, and each candidate has its own. */
  predicate RefsAreUnique(cands: seq<Cand>, next: nat) {
    next >= 1 && |cands| == next - 1 && RefsOf(cands) == Span(next)
  }

  /** As many refs as candidates means no two candidates share one. */
  lemma RefsDiffer(cands: seq<Cand>, next: nat, i: nat, j: nat)
    requires RefsAreUnique(cands, next) && i < j < |cands|
    ensures cands[i].ref != cands[j].ref
  {
    if cands[i].ref == cands[j].ref {
      var fewer := cands[..j] + cands[j+1..];
      RefsAtMost(fewer);
      assert RefsOf(cands) <= RefsOf(fewer) by {
        forall c | c in cands ensures c.ref in RefsOf(fewer) {
          var k :| 0 <= k < |cands| && cands[k] == c;
          var at := if k == j then i else if k < j then k else k - 1;
          assert fewer[at].ref == c.ref;
        }
      }
      SubsetSize(RefsOf(cands), RefsOf(fewer));
      assert false;
    }
  }

  lemma SubsetSize<T>(a: set<T>, b: set<T>)
    requires a <= b
    ensures |a| <= |b|
  {
    if x :| x in a {
      SubsetSize(a - {x}, b - {x});
    }
  }

  lemma {:induction false} RefsAtMost(cands: seq<Cand>)
    ensures |RefsOf(cands)| <= |cands|
  {
    if cands == [] {
      assert RefsOf(cands) == {};
    } else {
      var rest, last := cands[..|cands|-1], cands[|cands|-1];
      RefsAtMost(rest);
      assert RefsOf(cands) == RefsOf(rest) + {last.ref};
    }
  }

  /** A frame keeps every live candidate's ref and gives the newborn the next ones. */
  lemma RefsAfter(t: Tuning, live: seq<Cand>, next: nat, frame: FrameDetections)
    ensures var all := AfterFrame(t, live, next, frame);
            && |all| == |live| + Births(t, live, frame)
            && (forall i | 0 <= i < |live| :: all[i].ref == live[i].ref)
            && (forall i | |live| <= i < |all| :: all[i].ref == next + (i - |live|))
  {
    SizeAfter(t, live, next, frame);
    var all := AfterFrame(t, live, next, frame);
    hide AfterFrame, Births;
    forall i | 0 <= i < |live| ensures all[i].ref == live[i].ref {
      FateOfLive(t, live, next, frame, i);
    }
    forall i | |live| <= i < |all| ensures all[i].ref == next + (i - |live|) {
      FateOfNewborn(t, live, next, frame, i - |live|);
    }
  }

  lemma SameRefs(t: Tuning, live: seq<Cand>, finished: seq<Cand>, all: seq<Cand>, next: nat, births: nat)
    requires RefsAreUnique(finished + live, next) && |all| == |live| + births
    requires forall i | 0 <= i < |live| :: all[i].ref == live[i].ref
    requires forall i | |live| <= i < |all| :: all[i].ref == next + (i - |live|)
    ensures RefsAreUnique(finished + Closed(t, all) + Living(t, all), next + births)
  {
    var before, after := finished + live, finished + Closed(t, all) + Living(t, all);
    hide Closed, Living;
    assert forall c :: c in after <==> c in finished || c in all;
    assert forall c :: c in before <==> c in finished || c in live;
    forall r: nat ensures r in RefsOf(after) <==> 1 <= r < next + births {
      if c :| c in after && c.ref == r {
        if c in finished {
          assert c in before;
          assert r in RefsOf(before);
        } else {
          var i :| 0 <= i < |all| && all[i] == c;
          if i < |live| {
            assert live[i] in before;
            assert r in RefsOf(before);
          } else {
            assert r == next + (i - |live|);
          }
        }
      }
      if 1 <= r < next {
        assert r in RefsOf(before);
        var c :| c in before && c.ref == r;
        if c in finished {
          assert c in after;
        } else {
          var i :| 0 <= i < |live| && live[i] == c;
          assert all[i] in after;
        }
      } else if next <= r < next + births {
        assert all[|live| + (r - next)] in after;
      }
    }
    assert RefsOf(after) == Span(next + births);
  }

  /** Refs stay unique whatever the frames. */
  lemma {:induction false} RefsStayUnique(t: Tuning, frames: seq<FrameDetections>)
    ensures RefsAreUnique(Candidates(t, frames), Frames(t, frames).next)
  {
    if frames == [] {
      assert Candidates(t, frames) == [];
    } else {
      var rest, last := frames[..|frames|-1], frames[|frames|-1];
      RefsStayUnique(t, rest);
      hide Frame, RefsAreUnique;
      FrameKeepsRefs(t, Frames(t, rest), last);
    }
  }

  lemma FrameKeepsRefs(t: Tuning, s: TrackerState, frame: FrameDetections)
    requires RefsAreUnique(s.finished + s.live, s.next)
    ensures RefsAreUnique(Frame(t, s, frame).finished + Frame(t, s, frame).live, Frame(t, s, frame).next)
  {
    hide AfterFrame, Births, RefsAreUnique, Closed, Living;
    RefsAfter(t, s.live, s.next, frame);
    SameRefs(t, s.live, s.finished, AfterFrame(t, s.live, s.next, frame), s.next, Births(t, s.live, frame));
  }

  /** One frame keeps the finished candidates continuous and the live ones healthy. */
  lemma FrameKeepsContinuity(t: Tuning, s: TrackerState, frame: FrameDetections)
    requires frame.frameIndex >= 0
    requires forall c | c in s.finished :: Continuous(t, c.points)
    requires forall c | c in s.live :: Healthy(t, c, frame.frameIndex - 1) && Alive(t, c)
    ensures forall c | c in Frame(t, s, frame).finished :: Continuous(t, c.points)
    ensures forall c | c in Frame(t, s, frame).live :: Healthy(t, c, frame.frameIndex) && Alive(t, c)
  {
    HealthAfter(t, s.live, s.next, frame);
    hide AfterFrame, Continuous, CountsMisses, Births, Alive;
    var all, after := AfterFrame(t, s.live, s.next, frame), Frame(t, s, frame);
    assert after.live == Living(t, all) && after.finished == s.finished + Closed(t, all);
    forall c | c in after.finished ensures Continuous(t, c.points) {
      assert c in s.finished || c in all;
    }
  }

  /**
   * Continuity: every candidate's points run in frame order with at most `max_age`
   * unseen frames between neighbours and begin with a confident box; a live one's
   * `misses` is the number of frames since its last point and is at most `max_age`.
   */
  lemma {:induction false} TracksAreContinuous(t: Tuning, frames: seq<FrameDetections>)
    requires Numbered(frames)
    ensures forall c | c in Candidates(t, frames) :: Continuous(t, c.points)
    ensures forall c | c in Frames(t, frames).live :: Healthy(t, c, |frames| - 1) && Alive(t, c)
  {
    if frames != [] {
      var rest, last := frames[..|frames|-1], frames[|frames|-1];
      TracksAreContinuous(t, rest);
      hide Frame, Continuous, CountsMisses, Alive;
      var before := Frames(t, rest);
      assert forall c | c in before.finished :: c in Candidates(t, rest);
      FrameKeepsContinuity(t, before, last);
    }
  }

  // ----- What is returned -----

  lemma {:induction false} LongOnes(t: Tuning, cands: seq<Cand>, x: Track)
    ensures x in LongEnough(t, cands) <==>
            exists c :: c in cands && |c.points| >= t.minTrackLength && x == Track(c.ref, c.points)
  {
    if cands != [] {
      var rest, last := cands[..|cands|-1], cands[|cands|-1];
      LongOnes(t, rest, x);
      assert forall c :: c in cands <==> c in rest || c == last;
    }
  }

  lemma SeenBeforeIsTotal()
    ensures TotalPreorder(SeenBefore)
  {
  }

  lemma ReturnedInOrder(t: Tuning, frames: seq<FrameDetections>)
    ensures InOrder(TracksOf(t, frames), SeenBefore)
  {
    SeenBeforeIsTotal();
    SortInOrder(LongEnough(t, Candidates(t, frames)), SeenBefore);
  }

  lemma ReturnedAreLong(t: Tuning, frames: seq<FrameDetections>)
    ensures forall x :: x in TracksOf(t, frames) <==>
              exists c :: c in Candidates(t, frames) && |c.points| >= t.minTrackLength && x == Track(c.ref, c.points)
  {
    var long := LongEnough(t, Candidates(t, frames));
    SameElements(long, SeenBefore);
    hide Sort, InOrder, LongEnough, Candidates;
    forall x ensures x in TracksOf(t, frames) <==>
              exists c :: c in Candidates(t, frames) && |c.points| >= t.minTrackLength && x == Track(c.ref, c.points)
    {
      LongOnes(t, Candidates(t, frames), x);
    }
  }

  /** Tracks are in order of their first point's timestamp. */
  predicate InOrderOfAppearance(r: seq<Track>) {
    forall i, j | 0 <= i < j < |r| ::
      r[i].points != [] && r[j].points != [] ==> r[i].points[0].timestamp <= r[j].points[0].timestamp
  }

  /**
   * The returned tracks are exactly the candidates with at least `min_track_length`
   * points, in order of their first point's timestamp.
   */
  lemma ReturnedTracks(t: Tuning, frames: seq<FrameDetections>)
    ensures forall x :: x in TracksOf(t, frames) <==>
              exists c :: c in Candidates(t, frames) && |c.points| >= t.minTrackLength && x == Track(c.ref, c.points)
    ensures InOrderOfAppearance(TracksOf(t, frames))
  {
    ReturnedAreLong(t, frames);
    ReturnedInOrder(t, frames);
    hide TracksOf, Candidates;
    var r := TracksOf(t, frames);
    forall i, j | 0 <= i < j < |r| && r[i].points != [] && r[j].points != []
      ensures r[i].points[0].timestamp <= r[j].points[0].timestamp
    {
      assert SeenBefore(r[i], r[j]);
    }
  }

  /** What a caller may rely on of every returned track. */
  lemma EveryTrackIsContinuous(t: Tuning, frames: seq<FrameDetections>, x: Track)
    requires Numbered(frames) && x in TracksOf(t, frames)
    ensures Continuous(t, x.points) && |x.points| >= t.minTrackLength
  {
    ReturnedTracks(t, frames);
    TracksAreContinuous(t, frames);
    hide TracksOf, Candidates, Continuous;
  }

  /** Where a candidate's point is: at most one place if the multiset holds it once. */
  lemma {:induction false} OneOwner(cands: seq<Cand>, p: TrackPoint)
    ensures Points(cands)[p] >= 1 ==> exists i :: 0 <= i < |cands| && p in cands[i].points
    ensures Points(cands)[p] == 1 ==> forall i, j | 0 <= i < j < |cands| ::
              !(p in cands[i].points && p in cands[j].points)
    ensures forall i | 0 <= i < |cands| && p in cands[i].points :: Points(cands)[p] >= 1
  {
    if cands != [] {
      var rest, last := cands[..|cands|-1], cands[|cands|-1];
      OneOwner(rest, p);
      assert p in last.points <==> multiset(last.points)[p] >= 1;
      forall i | 0 <= i < |cands| && p in cands[i].points ensures Points(cands)[p] >= 1 {
        assert i < |rest| ==> rest[i] == cands[i];
      }
      if Points(rest)[p] >= 1 {
        var i :| 0 <= i < |rest| && p in rest[i].points;
        assert p in cands[i].points;
      } else if p in last.points {
        assert p in cands[|rest|].points;
      }
      if Points(cands)[p] == 1 {
        forall i, j | 0 <= i < j < |cands| ensures !(p in cands[i].points && p in cands[j].points) {
          assert rest[i] == cands[i];
          assert j < |rest| ==> rest[j] == cands[j];
        }
      }
    }
  }

  /**
   * For a detection that occurs once in the recording: if it is confident it is a point
   * of exactly one candidate, if weak of at most one, and otherwise of none.
   */
  lemma {:induction false} EachDetectionHasOneOwner(t: Tuning, frames: seq<FrameDetections>, p: TrackPoint)
    requires StrongPoints(t, frames)[p] + WeakPoints(t, frames)[p] <= 1
    ensures var all := Candidates(t, frames);
            && (forall i, j | 0 <= i < j < |all| :: !(p in all[i].points && p in all[j].points))
            && (StrongPoints(t, frames)[p] == 1 ==> exists i :: 0 <= i < |all| && p in all[i].points)
            && (StrongPoints(t, frames)[p] + WeakPoints(t, frames)[p] == 0 ==>
                  forall i | 0 <= i < |all| :: p !in all[i].points)
  {
    DetectionsAreConserved(t, frames);
    var all := Candidates(t, frames);
    hide Candidates, Points, StrongPoints, WeakPoints;
    var strong, weak, points := StrongPoints(t, frames), WeakPoints(t, frames), Points(all);
    assert strong[p] <= points[p] && points[p] <= (strong + weak)[p] == strong[p] + weak[p];
    OneOwner(all, p);
  }

  // ----- Prediction -----

  /** A prediction moves the box by the velocity and keeps its size. */
  lemma PredictionShiftsTheBox(c: Cand)
    ensures var p := Predicted(c);
            && p.Width() == c.box.Width() && p.Height() == c.box.Height()
            && p.CentreX() == c.box.CentreX() + c.vx && p.CentreY() == c.box.CentreY() + c.vy
  {
  }

  /** The next box of a player moving steadily by (dx, dy). */
  function Moved(b: Box, dx: real, dy: real): Box {
    Box(b.x1 + dx, b.y1 + dy, b.x2 + dx, b.y2 + dy, b.confidence)
  }

  /** A candidate that has followed steady motion for n frames. */
  function Steady(c: Cand, dx: real, dy: real, n: nat): Cand {
    if n == 0 then c
    else
      var before := Steady(c, dx, dy, n - 1);
      Updated(before, TrackPoint(0, 0.0, Moved(before.box, dx, dy)))
  }

  function Halved(x: real, n: nat): real { if n == 0 then x else 0.5 * Halved(x, n - 1) }

  /** While a player moves steadily the prediction's error halves with every frame. */
  lemma {:induction false} PredictionConverges(c: Cand, dx: real, dy: real, n: nat)
    ensures var now := Steady(c, dx, dy, n);
            && Predicted(now).CentreX() - Moved(now.box, dx, dy).CentreX() == Halved(c.vx - dx, n)
            && Predicted(now).CentreY() - Moved(now.box, dx, dy).CentreY() == Halved(c.vy - dy, n)
  {
    if n > 0 {
      PredictionConverges(c, dx, dy, n - 1);
    }
  }
}
