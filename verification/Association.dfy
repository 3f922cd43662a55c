/** Greedy IoU matching, and how good it is. */
module Association {
  import opened Boxes
  import opened Sorting

  /** One candidate-box pair: its IoU and the two indexes. */
  datatype Scored = Scored(score: real, c: nat, b: nat)

  /** `reverse=True` on tuples: by score, then candidate, then box, all descending. */
  predicate Before(x: Scored, y: Scored) {
    || x.score > y.score
    || (x.score == y.score && (x.c > y.c || (x.c == y.c && x.b >= y.b)))
  }

  lemma BeforeIsTotal()
    ensures TotalPreorder(Before)
  {
  }

  // ----- What is computed -----

  function ScoredRow(predicted: Box, c: nat, boxes: seq<Box>): seq<Scored> {
    seq(|boxes|, b requires 0 <= b < |boxes| => Scored(predicted.Iou(boxes[b]), c, b))
  }

  function AllPairs(predicted: seq<Box>, boxes: seq<Box>): seq<Scored> {
    if predicted == [] then []
    else
      var last := |predicted| - 1;
      AllPairs(predicted[..last], boxes) + ScoredRow(predicted[last], last, boxes)
  }

  /** The loop over the sorted pairs, from a given state of the two used sets. */
  function Greedy(scored: seq<Scored>, threshold: real, usedC: set<nat>, usedB: set<nat>): seq<Scored> {
    if scored == [] || scored[0].score < threshold then []
    else if scored[0].c in usedC || scored[0].b in usedB then Greedy(scored[1..], threshold, usedC, usedB)
    else [scored[0]] + Greedy(scored[1..], threshold, usedC + {scored[0].c}, usedB + {scored[0].b})
  }

  function Chosen(predicted: seq<Box>, boxes: seq<Box>, threshold: real): seq<Scored> {
    Greedy(Sort(AllPairs(predicted, boxes), Before), threshold, {}, {})
  }

  lemma {:induction false} InAllPairs(predicted: seq<Box>, boxes: seq<Box>, x: Scored)
    ensures x in AllPairs(predicted, boxes) <==>
            x.c < |predicted| && x.b < |boxes| && x.score == predicted[x.c].Iou(boxes[x.b])
  {
    if predicted != [] {
      var last := |predicted| - 1;
      InAllPairs(predicted[..last], boxes, x);
      var row := ScoredRow(predicted[last], last, boxes);
      assert x in row <==> x.c == last && x.b < |boxes| && x.score == predicted[last].Iou(boxes[x.b]) by {
        if x.c == last && x.b < |boxes| && x.score == predicted[last].Iou(boxes[x.b]) {
          assert row[x.b] == x;
        }
      }
    }
  }

  // ----- What the choice is -----

  predicate Conflicts(x: Scored, y: Scored) {
    x.c == y.c || x.b == y.b
  }

  /** A pair the loop may still take. */
  predicate Open(x: Scored, threshold: real, usedC: set<nat>, usedB: set<nat>) {
    x.score >= threshold && x.c !in usedC && x.b !in usedB
  }

  predicate PairsDistinct(picks: seq<Scored>) {
    forall i, j | 0 <= i < j < |picks| :: picks[i].c != picks[j].c && picks[i].b != picks[j].b
  }

  lemma FrontDistinct(head: Scored, rest: seq<Scored>)
    requires PairsDistinct(rest) && forall j | 0 <= j < |rest| :: rest[j].c != head.c && rest[j].b != head.b
    ensures PairsDistinct([head] + rest)
  {
  }

  /** The picks are open pairs, no two in conflict. */
  lemma {:induction false} GreedyIsAMatching(scored: seq<Scored>, threshold: real, usedC: set<nat>, usedB: set<nat>)
    ensures var picks := Greedy(scored, threshold, usedC, usedB);
            && PairsDistinct(picks)
            && forall p | p in picks :: p in scored && Open(p, threshold, usedC, usedB)
  {
    if scored != [] && scored[0].score >= threshold {
      var head, tail := scored[0], scored[1..];
      if head.c in usedC || head.b in usedB {
        GreedyIsAMatching(tail, threshold, usedC, usedB);
      } else {
        GreedyIsAMatching(tail, threshold, usedC + {head.c}, usedB + {head.b});
        var rest := Greedy(tail, threshold, usedC + {head.c}, usedB + {head.b});
        forall j | 0 <= j < |rest| ensures rest[j].c != head.c && rest[j].b != head.b {
          assert rest[j] in rest;
        }
        FrontDistinct(head, rest);
        hide PairsDistinct;
      }
    }
  }

  /** Stability: an open pair loses only to a pick it conflicts with that stands before it. */
  lemma {:induction false} GreedyIsStable(scored: seq<Scored>, threshold: real, usedC: set<nat>, usedB: set<nat>,
                                          x: Scored)
    returns (p: Scored)
    requires InOrder(scored, Before) && x in scored && Open(x, threshold, usedC, usedB)
    ensures p in Greedy(scored, threshold, usedC, usedB) && Conflicts(p, x) && Before(p, x)
  {
    var head, tail := scored[0], scored[1..];
    assert Before(head, x);
    if head.c in usedC || head.b in usedB {
      p := GreedyIsStable(tail, threshold, usedC, usedB, x);
    } else if Conflicts(head, x) {
      p := head;
    } else {
      p := GreedyIsStable(tail, threshold, usedC + {head.c}, usedB + {head.b}, x);
    }
  }

  // ----- How good the choice is -----

  ghost predicate Matching(m: set<Scored>) {
    forall x, y | x in m && y in m && x != y :: !Conflicts(x, y)
  }

  ghost function Total(m: set<Scored>): real {
    if m == {} then 0.0
    else
      var x :| x in m;
      x.score + Total(m - {x})
  }

  lemma {:induction false} TotalMinus(m: set<Scored>, x: Scored)
    requires x in m
    ensures Total(m) == x.score + Total(m - {x})
  {
    var y :| y in m && Total(m) == y.score + Total(m - {y});
    if x != y {
      TotalMinus(m - {y}, x);
      TotalMinus(m - {x}, y);
      assert m - {y} - {x} == m - {x} - {y};
    }
  }

  function Sum(picks: seq<Scored>): real {
    if picks == [] then 0.0 else picks[0].score + Sum(picks[1..])
  }

  /** Drops the at most one pair of a matching with a given property; it weighs at most `limit`. */
  lemma DropOne(m: set<Scored>, conflicting: set<Scored>, limit: real) returns (rest: set<Scored>)
    requires conflicting <= m && limit >= 0.0
    requires forall x, y | x in conflicting && y in conflicting :: x == y
    requires forall x | x in conflicting :: x.score <= limit
    ensures rest == m - conflicting
    ensures |m| <= |rest| + 1 && Total(m) <= Total(rest) + limit
  {
    rest := m - conflicting;
    if x :| x in conflicting {
      assert conflicting == {x};
      TotalMinus(m, x);
      assert |m| == |rest| + 1;
    } else {
      assert rest == m;
    }
  }

  lemma DropConflicts(m: set<Scored>, head: Scored) returns (rest: set<Scored>)
    requires Matching(m) && head.score >= 0.0
    requires forall x | x in m :: x.score <= head.score
    ensures rest <= m && forall x | x in rest :: !Conflicts(x, head)
    ensures |m| <= |rest| + 2 && Total(m) <= Total(rest) + 2.0 * head.score
  {
    var usesC := set x | x in m && x.c == head.c;
    var withoutC := DropOne(m, usesC, head.score);
    var usesB := set x | x in withoutC && x.b == head.b;
    rest := DropOne(withoutC, usesB, head.score);
  }

  lemma BestIsFirst(scored: seq<Scored>)
    requires InOrder(scored, Before) && scored != []
    ensures forall x | x in scored :: x.score <= scored[0].score
  {
    forall x | x in scored ensures x.score <= scored[0].score {
      var i :| 0 <= i < |scored| && scored[i] == x;
      assert i > 0 ==> Before(scored[0], scored[i]);
    }
  }

  /**
   * Each pick stands for at most two pairs of any other matching, neither better than
   * itself: the one using its candidate and the one using its box.
   */
  lemma {:induction false} GreedyIsHalfOptimal(
      scored: seq<Scored>, threshold: real, usedC: set<nat>, usedB: set<nat>, m: set<Scored>)
    requires InOrder(scored, Before) && Matching(m)
    requires forall x | x in scored :: x.score >= 0.0
    requires forall x | x in m :: x in scored && Open(x, threshold, usedC, usedB)
    ensures var picks := Greedy(scored, threshold, usedC, usedB);
            |m| <= 2 * |picks| && Total(m) <= 2.0 * Sum(picks)
  {
    if scored == [] {
      assert m == {};
    } else if scored[0].score < threshold {
      BestIsFirst(scored);
      assert m == {};
    } else {
      var head, tail := scored[0], scored[1..];
      BestIsFirst(scored);
      if head.c in usedC || head.b in usedB {
        GreedyIsHalfOptimal(tail, threshold, usedC, usedB, m);
      } else {
        var rest := DropConflicts(m, head);
        forall x | x in rest ensures x in tail && Open(x, threshold, usedC + {head.c}, usedB + {head.b}) {
          assert x != head;
        }
        hide Total;
        GreedyIsHalfOptimal(tail, threshold, usedC + {head.c}, usedB + {head.b}, rest);
      }
    }
  }

  /** Takes the candidate or the box of this pair, and is at least as large in (IoU, candidate, box). */
  predicate Displaces(p: Scored, iou: real, c: nat, b: nat) {
    && (p.c == c || p.b == b)
    && (p.score > iou || (p.score == iou && (p.c > c || (p.c == c && p.b >= b))))
  }

  /**
   * The association the tracker uses. Over all pairs with IoU at or above the
   * threshold: it is a matching; every pair it leaves out conflicts with a chosen pair
   * at least as large in (IoU, candidate, box); and no other matching has more than
   * twice its pairs or more than twice its total IoU.
   */
  lemma {:induction false} AssociationQuality(predicted: seq<Box>, boxes: seq<Box>, threshold: real, m: set<Scored>)
    requires Matching(m)
    requires forall x | x in m ::
      x.c < |predicted| && x.b < |boxes| && x.score == predicted[x.c].Iou(boxes[x.b]) && x.score >= threshold
    ensures var picks := Chosen(predicted, boxes, threshold);
            && PairsDistinct(picks)
            && (forall p | p in picks ::
                  p.c < |predicted| && p.b < |boxes|
                  && p.score == predicted[p.c].Iou(boxes[p.b]) && p.score >= threshold)
            && (forall c: nat, b: nat | c < |predicted| && b < |boxes| && predicted[c].Iou(boxes[b]) >= threshold ::
                  exists p :: p in picks && Displaces(p, predicted[c].Iou(boxes[b]), c, b))
            && |m| <= 2 * |picks| && Total(m) <= 2.0 * Sum(picks)
  {
    var pairs := AllPairs(predicted, boxes);
    var scored := Sort(pairs, Before);
    var picks := Chosen(predicted, boxes, threshold);
    SortedPairs(predicted, boxes);
    hide Box.Iou;
    hide Sort;
    hide AllPairs;
    hide Greedy;
    hide InOrder;
    GreedyIsAMatching(scored, threshold, {}, {});
    forall c: nat, b: nat | c < |predicted| && b < |boxes| && predicted[c].Iou(boxes[b]) >= threshold
      ensures exists p :: p in picks && Displaces(p, predicted[c].Iou(boxes[b]), c, b)
    {
      var p := GreedyIsStable(scored, threshold, {}, {}, Scored(predicted[c].Iou(boxes[b]), c, b));
    }
    GreedyIsHalfOptimal(scored, threshold, {}, {}, m);
  }

  lemma SortedPairs(predicted: seq<Box>, boxes: seq<Box>)
    ensures var scored := Sort(AllPairs(predicted, boxes), Before);
            && InOrder(scored, Before)
            && (forall x :: x in scored <==>
                  x.c < |predicted| && x.b < |boxes| && x.score == predicted[x.c].Iou(boxes[x.b]))
            && (forall x | x in scored :: x.score >= 0.0)
  {
    var scored := Sort(AllPairs(predicted, boxes), Before);
    BeforeIsTotal();
    SortInOrder(AllPairs(predicted, boxes), Before);
    SameElements(AllPairs(predicted, boxes), Before);
    forall x: Scored
      ensures x in scored <==> x.c < |predicted| && x.b < |boxes| && x.score == predicted[x.c].Iou(boxes[x.b])
    {
      InAllPairs(predicted, boxes, x);
    }
    forall x | x in scored ensures x.score >= 0.0 {
      IouIsARatio(predicted[x.c], boxes[x.b]);
    }
  }
}
