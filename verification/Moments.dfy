/** Which moments of a track are worth reading a shirt number from. */
module Moments {
  import opened Sorting
  import B = Boxes
  import N = Numbers
  import opened Tracking

  function Abs(x: real): real { if x < 0.0 then -x else x }

  function Duration(track: Track): real {
    if track.points == [] then 0.0 else track.points[|track.points|-1].timestamp - track.points[0].timestamp
  }

  function MinimumGap(track: Track, limit: nat): real
    requires limit > 0
  {
    if Duration(track) == 0.0 then 0.0 else N.Max(0.5, Duration(track) / (limit * 2) as real)
  }

  predicate Bigger(a: TrackPoint, b: TrackPoint) { a.box.Area() >= b.box.Area() }

  predicate Sooner(a: TrackPoint, b: TrackPoint) { a.timestamp <= b.timestamp }

  predicate Near(p: TrackPoint, q: TrackPoint, gap: real) { Abs(p.timestamp - q.timestamp) < gap }

  predicate TooNear(p: TrackPoint, chosen: seq<TrackPoint>, gap: real) {
    exists q :: q in chosen && Near(p, q, gap)
  }

  function Choose(ranked: seq<TrackPoint>, chosen: seq<TrackPoint>, gap: real, limit: nat): seq<TrackPoint> {
    if ranked == [] || |chosen| >= limit then chosen
    else Choose(ranked[1..], if TooNear(ranked[0], chosen, gap) then chosen else chosen + [ranked[0]], gap, limit)
  }

  function BySize(track: Track): seq<TrackPoint> { Sort(track.points, Bigger) }

  function Chosen(track: Track, limit: nat): seq<TrackPoint>
    requires limit > 0
  {
    if track.points == [] then [] else Sort(Choose(BySize(track), [], MinimumGap(track, limit), limit), Sooner)
  }

  method IsTooNear(p: TrackPoint, chosen: seq<TrackPoint>, gap: real) returns (near: bool)
    ensures near == TooNear(p, chosen, gap)
  {
    for i := 0 to |chosen|
      invariant forall j | 0 <= j < i :: !Near(p, chosen[j], gap)
    {
      if Abs(p.timestamp - chosen[i].timestamp) < gap {
        assert Near(p, chosen[i], gap) && chosen[i] in chosen;
        return true;
      }
    }
    return false;
  }

  method ChooseMoments(track: Track, limit: nat) returns (moments: seq<TrackPoint>)
    requires limit > 0
    ensures moments == Chosen(track, limit)
  {
    if track.points == [] {
      return [];
    }
    var ranked, gap := BySize(track), MinimumGap(track, limit);
    var chosen: seq<TrackPoint> := [];
    hide TooNear, Sort, BySize, MinimumGap;
    var i := 0;
    while i < |ranked| && |chosen| < limit
      invariant 0 <= i <= |ranked|
      invariant Choose(ranked[i..], chosen, gap, limit) == Choose(ranked, [], gap, limit)
    {
      assert ranked[i..][0] == ranked[i] && ranked[i..][1..] == ranked[i+1..];
      var near := IsTooNear(ranked[i], chosen, gap);
      if !near {
        chosen := chosen + [ranked[i]];
      }
      i := i + 1;
    }
    moments := Sort(chosen, Sooner);
  }

  // ----- What is chosen -----

  predicate Spread(chosen: seq<TrackPoint>, gap: real) {
    forall i, j | 0 <= i < |chosen| && 0 <= j < |chosen| && i != j :: !Near(chosen[i], chosen[j], gap)
  }

  /** The point itself was chosen, or one at least as large that is near it in time. */
  predicate Covered(p: TrackPoint, chosen: seq<TrackPoint>, gap: real) {
    p in chosen || exists q :: q in chosen && Near(p, q, gap) && q.box.Area() >= p.box.Area()
  }

  /** There are as many as allowed, all of them at least as large. */
  predicate Crowded(p: TrackPoint, chosen: seq<TrackPoint>, limit: nat) {
    |chosen| == limit && forall q | q in chosen :: q.box.Area() >= p.box.Area()
  }

  lemma OneMoreSpread(chosen: seq<TrackPoint>, p: TrackPoint, gap: real)
    requires Spread(chosen, gap) && !TooNear(p, chosen, gap)
    ensures Spread(chosen + [p], gap)
  {
    forall i | 0 <= i < |chosen| ensures !Near(p, chosen[i], gap) && !Near(chosen[i], p, gap) {
      assert chosen[i] in chosen;
    }
    hide Near;
  }

  lemma {:induction false} ChosenAreSpread(ranked: seq<TrackPoint>, chosen: seq<TrackPoint>, gap: real, limit: nat)
    requires Spread(chosen, gap) && |chosen| <= limit
    ensures var all := Choose(ranked, chosen, gap, limit);
            && Spread(all, gap) && |all| <= limit && chosen <= all
            && multiset(all) <= multiset(chosen) + multiset(ranked)
  {
    if ranked != [] && |chosen| < limit {
      assert ranked == [ranked[0]] + ranked[1..];
      hide TooNear, Spread;
      if TooNear(ranked[0], chosen, gap) {
        ChosenAreSpread(ranked[1..], chosen, gap, limit);
      } else {
        OneMoreSpread(chosen, ranked[0], gap);
        ChosenAreSpread(ranked[1..], chosen + [ranked[0]], gap, limit);
        assert chosen <= chosen + [ranked[0]];
      }
    }
  }

  lemma {:induction false} AllAreCovered(ranked: seq<TrackPoint>, chosen: seq<TrackPoint>, gap: real, limit: nat,
                                         p: TrackPoint)
    requires InOrder(ranked, Bigger) && p in ranked && Spread(chosen, gap) && |chosen| <= limit
    requires forall q, r | q in chosen && r in ranked :: q.box.Area() >= r.box.Area()
    ensures Covered(p, Choose(ranked, chosen, gap, limit), gap)
            || Crowded(p, Choose(ranked, chosen, gap, limit), limit)
  {
    if |chosen| == limit {
      return;
    }
    var head, tail := ranked[0], ranked[1..];
    var next := if TooNear(head, chosen, gap) then chosen else chosen + [head];
    if !TooNear(head, chosen, gap) {
      OneMoreSpread(chosen, head, gap);
    }
    ChosenAreSpread(tail, next, gap, limit);
    LargestFirst(ranked);
    assert InOrder(tail, Bigger);
    hide Spread, InOrder, B.Box.Area;
    if p == head {
      HeadIsCovered(head, chosen, next, Choose(tail, next, gap, limit), gap);
    } else {
      hide TooNear, Covered;
      AllAreCovered(tail, next, gap, limit, p);
    }
  }

  lemma HeadIsCovered(head: TrackPoint, chosen: seq<TrackPoint>, next: seq<TrackPoint>, all: seq<TrackPoint>, gap: real)
    requires next <= all && forall q | q in chosen :: q.box.Area() >= head.box.Area()
    requires next == if TooNear(head, chosen, gap) then chosen else chosen + [head]
    ensures Covered(head, all, gap)
  {
    if TooNear(head, chosen, gap) {
      var q :| q in chosen && Near(head, q, gap);
      assert q in all;
    } else {
      assert all[|chosen|] == head;
    }
  }

  lemma LargestFirst(ranked: seq<TrackPoint>)
    requires InOrder(ranked, Bigger) && ranked != []
    ensures forall r | r in ranked :: ranked[0].box.Area() >= r.box.Area()
  {
    forall r | r in ranked ensures ranked[0].box.Area() >= r.box.Area() {
      var i :| 0 <= i < |ranked| && ranked[i] == r;
      assert i > 0 ==> Bigger(ranked[0], ranked[i]);
    }
  }

  lemma SpreadInAnyOrder(a: seq<TrackPoint>, b: seq<TrackPoint>, gap: real)
    requires Spread(a, gap) && multiset(a) == multiset(b)
    ensures Spread(b, gap)
  {
    forall i: nat, j: nat | i < |b| && j < |b| && i != j ensures !Near(b[i], b[j], gap) {
      var p, q := TwoPositions(a, b, i, j);
    }
  }

  lemma OrdersAreTotal()
    ensures TotalPreorder(Bigger) && TotalPreorder(Sooner)
  {
    hide B.Box.Area;
  }

  lemma ChosenMeetTheirTerms(track: Track, limit: nat)
    requires limit > 0 && track.points != []
    ensures var moments, gap := Chosen(track, limit), MinimumGap(track, limit);
            && |moments| <= limit && InOrder(moments, Sooner) && Spread(moments, gap)
            && multiset(moments) <= multiset(track.points)
            && forall p | p in track.points :: Covered(p, moments, gap) || Crowded(p, moments, limit)
  {
    var gap := MinimumGap(track, limit);
    var ranked := BySize(track);
    var picked := Choose(ranked, [], gap, limit);
    OrdersAreTotal();
    SortInOrder(track.points, Bigger);
    SameElements(track.points, Bigger);
    ChosenAreSpread(ranked, [], gap, limit);
    SortInOrder(picked, Sooner);
    SameElements(picked, Sooner);
    SpreadInAnyOrder(picked, Chosen(track, limit), gap);
    hide Sort, Choose, Spread, Near, B.Box.Area, MinimumGap, InOrder;
    forall p | p in track.points
      ensures Covered(p, Chosen(track, limit), gap) || Crowded(p, Chosen(track, limit), limit)
    {
      AllAreCovered(ranked, [], gap, limit, p);
    }
  }

  /**
   * At most `limit` points of the track, each as often as it occurs, in time order, pairwise
   * at least the gap apart; and every point of the track was chosen, or is within the gap of
   * a chosen one at least as large, or as many as allowed were chosen and all are at least
   * as large.
   */
  lemma MomentsAreWellChosen(track: Track, limit: nat)
    requires limit > 0
    ensures var moments, gap := Chosen(track, limit), MinimumGap(track, limit);
            && |moments| <= limit && multiset(moments) <= multiset(track.points)
            && (forall i, j | 0 <= i < j < |moments| ::
                  moments[i].timestamp <= moments[j].timestamp && moments[j].timestamp - moments[i].timestamp >= gap)
            && forall p | p in track.points ::
                 || p in moments
                 || (exists q :: q in moments && q.box.Area() >= p.box.Area()
                                 && -gap < p.timestamp - q.timestamp < gap)
                 || (|moments| == limit && forall q | q in moments :: q.box.Area() >= p.box.Area())
  {
    if track.points != [] {
      ChosenMeetTheirTerms(track, limit);
      hide *;
      var moments, gap := Chosen(track, limit), MinimumGap(track, limit);
      TimesApart(moments, gap);
      forall p | p in track.points
        ensures || p in moments
                || (exists q :: q in moments && q.box.Area() >= p.box.Area()
                                && -gap < p.timestamp - q.timestamp < gap)
                || (|moments| == limit && forall q | q in moments :: q.box.Area() >= p.box.Area())
      {
        TermsOf(p, moments, gap, limit);
      }
    }
  }

  lemma TermsOf(p: TrackPoint, moments: seq<TrackPoint>, gap: real, limit: nat)
    requires Covered(p, moments, gap) || Crowded(p, moments, limit)
    ensures || p in moments
            || (exists q :: q in moments && q.box.Area() >= p.box.Area() && -gap < p.timestamp - q.timestamp < gap)
            || (|moments| == limit && forall q | q in moments :: q.box.Area() >= p.box.Area())
  {
    hide B.Box.Area;
  }

  lemma TimesApart(moments: seq<TrackPoint>, gap: real)
    requires InOrder(moments, Sooner) && Spread(moments, gap)
    ensures forall i, j | 0 <= i < j < |moments| ::
              moments[i].timestamp <= moments[j].timestamp && moments[j].timestamp - moments[i].timestamp >= gap
  {
    assert forall i, j | 0 <= i < j < |moments| ::
        Sooner(moments[i], moments[j]) && !Near(moments[i], moments[j], gap);
  }

  /**
   * How far apart the chosen points are: half a second at least, and so far that twice the
   * limit of them would span the track; a track of a single instant asks for no gap.
   */
  lemma GapWrittenOut(track: Track, limit: nat)
    requires limit > 0 && track.points != []
    ensures var gap := MinimumGap(track, limit);
            var span := track.points[|track.points|-1].timestamp - track.points[0].timestamp;
            && (span == 0.0 ==> gap == 0.0)
            && (span != 0.0 ==> gap >= 0.5 && gap * (2 * limit) as real >= span)
            && (span != 0.0 ==> gap == 0.5 || gap * (2 * limit) as real == span)
  {
    var span := track.points[|track.points|-1].timestamp - track.points[0].timestamp;
    var n := (limit * 2) as real;
    assert n == (2 * limit) as real && n > 0.0;
    var share := span / n;
    assert share * n == span;
    if span != 0.0 && share < 0.5 {
      ScaleUp(share, 0.5, n);
    }
  }

  lemma ScaleUp(a: real, b: real, n: real)
    requires a <= b && n > 0.0
    ensures a * n <= b * n
  {
  }
}
