/** Many unreliable shirt-number reads, one verdict. */
module Voting {
  import opened Domain
  import opened Rounding
  import opened Sequences
  import opened Sorting

  datatype Read = Read(number: nat, confidence: real, timestamp: real)

  datatype Rules = Rules(minVotes: int, minShare: real, minMargin: real, minReadConfidence: real)

  datatype Rejection = NoUsableReads | TooFewReads | TooSmallShare | TooSmallMargin

  datatype Verdict =
    | Verdict(number: Option<nat>, confidence: real, votes: nat, totalReads: nat,
              distribution: map<nat, real>, rejection: Option<Rejection>)
    | DivisionByZero

  /** One entry of the weights dictionary. */
  datatype Tally = Tally(number: nat, weight: real)

  predicate Heavier(a: Tally, b: Tally) { a.weight >= b.weight }

  // ----- What is computed -----

  predicate Allows(allowed: Option<set<nat>>, number: nat) {
    allowed.None? || number in allowed.value
  }

  predicate Usable(read: Read, allowed: Option<set<nat>>, rules: Rules) {
    read.confidence >= rules.minReadConfidence && Allows(allowed, read.number)
  }

  function UsableReads(entries: seq<Read>, allowed: Option<set<nat>>, rules: Rules): (r: seq<Read>)
    ensures forall x :: x in r <==> x in entries && Usable(x, allowed, rules)
  {
    if entries == [] then []
    else
      var last := entries[|entries|-1];
      UsableReads(entries[..|entries|-1], allowed, rules) + (if Usable(last, allowed, rules) then [last] else [])
  }

  /** All confidence cast for a number. */
  function Weight(entries: seq<Read>, number: nat): real {
    if entries == [] then 0.0
    else Weight(entries[..|entries|-1], number) + Cast(entries[|entries|-1], number)
  }

  function Cast(read: Read, number: nat): real { if read.number == number then read.confidence else 0.0 }

  function Votes(entries: seq<Read>, number: nat): nat {
    if entries == [] then 0
    else Votes(entries[..|entries|-1], number) + if entries[|entries|-1].number == number then 1 else 0
  }

  /** All confidence cast. */
  function Total(entries: seq<Read>): real {
    if entries == [] then 0.0 else Total(entries[..|entries|-1]) + entries[|entries|-1].confidence
  }

  /** The keys of the weights dictionary, in insertion order. */
  function FirstSeen(entries: seq<Read>): seq<nat> {
    if entries == [] then []
    else
      var rest, last := FirstSeen(entries[..|entries|-1]), entries[|entries|-1];
      if last.number in rest then rest else rest + [last.number]
  }

  lemma {:induction false} SeenOnce(entries: seq<Read>)
    ensures Distinct(FirstSeen(entries))
  {
    if entries != [] {
      SeenOnce(entries[..|entries|-1]);
    }
  }

  lemma {:induction false} SeenIsRead(entries: seq<Read>, n: nat)
    ensures n in FirstSeen(entries) <==> exists x :: x in entries && x.number == n
  {
    if entries != [] {
      var rest, last := entries[..|entries|-1], entries[|entries|-1];
      SeenIsRead(rest, n);
      assert forall x :: x in entries <==> x in rest || x == last;
    }
  }

  function Tallies(entries: seq<Read>): (r: seq<Tally>)
    ensures |r| == |FirstSeen(entries)|
  {
    var order := FirstSeen(entries);
    seq(|order|, i requires 0 <= i < |order| => Tally(order[i], Weight(entries, order[i])))
  }

  function Ranked(entries: seq<Read>): (r: seq<Tally>)
    ensures |r| == |FirstSeen(entries)|
    ensures entries != [] ==> r != []
  {
    SameElements(Tallies(entries), Heavier);
    assert entries != [] ==> FirstSeen(entries) != [];
    Sort(Tallies(entries), Heavier)
  }

  function RunnerUp(ranked: seq<Tally>): real { if |ranked| > 1 then ranked[1].weight else 0.0 }

  function RejectionOf(votes: nat, share: real, margin: real, rules: Rules): Option<Rejection> {
    if votes < rules.minVotes then Some(TooFewReads)
    else if share < rules.minShare then Some(TooSmallShare)
    else if margin < rules.minMargin then Some(TooSmallMargin)
    else None
  }

  function Distribution(usable: seq<Read>, total: real): map<nat, real>
    requires total != 0.0
  {
    map n | n in FirstSeen(usable) :: Round3(Weight(usable, n) / total)
  }

  function Conclude(total: real, ranked: seq<Tally>, votes: nat, distribution: map<nat, real>,
                    totalReads: nat, rules: Rules): Verdict
    requires total != 0.0 && ranked != []
  {
    var winner := ranked[0];
    var share, margin := winner.weight / total, (winner.weight - RunnerUp(ranked)) / total;
    var rejection := RejectionOf(votes, share, margin, rules);
    var number := if rejection == None then Some(winner.number) else None;
    Verdict(number, Round3(share), votes, totalReads, distribution, rejection)
  }

  function Decide(usable: seq<Read>, totalReads: nat, rules: Rules): Verdict
    requires usable != []
  {
    var total, ranked := Total(usable), Ranked(usable);
    if total == 0.0 then DivisionByZero
    else Conclude(total, ranked, Votes(usable, ranked[0].number), Distribution(usable, total), totalReads, rules)
  }

  function Vote(entries: seq<Read>, allowed: Option<set<nat>>, rules: Rules): Verdict {
    var usable := UsableReads(entries, allowed, rules);
    if usable == [] then Verdict(None, 0.0, 0, |entries|, map[], Some(NoUsableReads))
    else Decide(usable, |entries|, rules)
  }

  // ----- The loops -----

  function SumOver(order: seq<nat>, weights: map<nat, real>): real
    requires forall n | n in order :: n in weights
  {
    if order == [] then 0.0
    else
      assert order[|order|-1] in order;
      SumOver(order[..|order|-1], weights) + weights[order[|order|-1]]
  }

  /** Adding to one entry adds to the sum. */
  lemma {:induction false} SumGains(order: seq<nat>, weights: map<nat, real>, n: nat, more: real)
    requires (forall k | k in order :: k in weights) && n in weights
    requires Distinct(order)
    ensures SumOver(order, weights[n := weights[n] + more]) ==
              SumOver(order, weights) + if n in order then more else 0.0
  {
    if order != [] {
      var last := |order| - 1;
      assert order[last] in order;
      SumGains(order[..last], weights, n, more);
    }
  }

  ghost predicate Keyed(order: seq<nat>, weights: map<nat, real>, counts: map<nat, nat>) {
    weights.Keys == counts.Keys && forall n :: n in weights <==> n in order
  }

  predicate Tallied(weights: map<nat, real>, counts: map<nat, nat>, usable: seq<Read>) {
    forall n | n in weights :: weights[n] == Weight(usable, n) && n in counts && counts[n] == Votes(usable, n)
  }

  /** The dictionaries after these reads. */
  ghost predicate Counted(order: seq<nat>, weights: map<nat, real>, counts: map<nat, nat>, usable: seq<Read>) {
    && order == FirstSeen(usable) && Keyed(order, weights, counts) && Tallied(weights, counts, usable)
    && SumOver(order, weights) == Total(usable)
  }

  lemma TalliedOneMore(weights: map<nat, real>, counts: map<nat, nat>, usable: seq<Read>, i: nat, w: real, v: nat)
    requires i < |usable| && Tallied(weights, counts, usable[..i])
    requires w == Weight(usable[..i], usable[i].number) && v == Votes(usable[..i], usable[i].number)
    ensures var n, c := usable[i].number, usable[i].confidence;
            Tallied(weights[n := w + c], counts[n := v + 1], usable[..i+1])
  {
    var n, c := usable[i].number, usable[i].confidence;
    var weights', counts' := weights[n := w + c], counts[n := v + 1];
    hide Weight, Votes;
    forall m | m in weights'
      ensures weights'[m] == Weight(usable[..i+1], m) && m in counts' && counts'[m] == Votes(usable[..i+1], m)
    {
      OneMoreRead(usable, i, m);
    }
  }

  lemma KeyedAgain(order: seq<nat>, weights: map<nat, real>, counts: map<nat, nat>, n: nat, w: real, v: nat)
    requires Keyed(order, weights, counts) && n in weights
    ensures Keyed(order, weights[n := w], counts[n := v]) && n in counts
  {
    assert weights[n := w].Keys == weights.Keys && counts[n := v].Keys == counts.Keys;
  }

  lemma KeyedFirst(order: seq<nat>, weights: map<nat, real>, counts: map<nat, nat>, n: nat, w: real, v: nat)
    requires Keyed(order, weights, counts) && n !in weights
    ensures Keyed(order + [n], weights[n := w], counts[n := v]) && n !in order
  {
    assert weights[n := w].Keys == weights.Keys + {n} && counts[n := v].Keys == counts.Keys + {n};
  }

  lemma SumsAgain(order: seq<nat>, weights: map<nat, real>, usable: seq<Read>, i: nat)
    requires i < |usable| && order == FirstSeen(usable[..i]) && (forall n :: n in weights <==> n in order)
    requires SumOver(order, weights) == Total(usable[..i]) && usable[i].number in weights
    ensures var n, c := usable[i].number, usable[i].confidence;
            order == FirstSeen(usable[..i+1]) && (forall n :: n in weights <==> n in order)
            && SumOver(order, weights[n := weights[n] + c]) == Total(usable[..i+1])
  {
    hide FirstSeen, Total, SumOver;
    NewTotal(usable, i);
    SeenOnce(usable[..i]);
    SumGains(order, weights, usable[i].number, usable[i].confidence);
  }

  lemma CountedAgain(order: seq<nat>, weights: map<nat, real>, counts: map<nat, nat>, usable: seq<Read>, i: nat)
    requires i < |usable| && Counted(order, weights, counts, usable[..i]) && usable[i].number in weights
    ensures var n, c := usable[i].number, usable[i].confidence;
            n in counts && Counted(order, weights[n := weights[n] + c], counts[n := counts[n] + 1], usable[..i+1])
  {
    var n, c := usable[i].number, usable[i].confidence;
    assert n in counts;
    SumsAgain(order, weights, usable, i);
    TalliedOneMore(weights, counts, usable, i, weights[n], counts[n]);
    KeyedAgain(order, weights, counts, n, weights[n] + c, counts[n] + 1);
    hide FirstSeen, Weight, Votes, Total, SumOver, Tallied, Keyed;
  }

  lemma CountedFirst(order: seq<nat>, weights: map<nat, real>, counts: map<nat, nat>, usable: seq<Read>, i: nat)
    requires i < |usable| && Counted(order, weights, counts, usable[..i]) && usable[i].number !in weights
    ensures var n, c := usable[i].number, usable[i].confidence;
            Counted(order + [n], weights[n := 0.0 + c], counts[n := 0 + 1], usable[..i+1])
  {
    var n, c := usable[i].number, usable[i].confidence;
    NewTotal(usable, i);
    NoneBefore(usable[..i], n);
    SumWithNew(order, weights, n, c);
    TalliedOneMore(weights, counts, usable, i, 0.0, 0);
    KeyedFirst(order, weights, counts, n, 0.0 + c, 0 + 1);
    hide FirstSeen, Weight, Votes, Total, SumOver, Tallied, Keyed;
  }

  lemma SumWithNew(order: seq<nat>, weights: map<nat, real>, n: nat, c: real)
    requires (forall k | k in order :: k in weights) && n !in order
    ensures SumOver(order + [n], weights[n := c]) == SumOver(order, weights) + c
  {
    assert (order + [n])[..|order|] == order;
    KeptSum(order, weights, n, c);
  }

  lemma SetTwice<T>(m: map<nat, T>, n: nat, x: T, y: T)
    ensures m[n := x][n := y] == m[n := y] && m[n := x][n] == x
  {
  }

  method CountReads(usable: seq<Read>)
    returns (order: seq<nat>, weights: map<nat, real>, counts: map<nat, nat>)
    ensures Counted(order, weights, counts, usable)
  {
    order, weights, counts := [], map[], map[];
    assert Counted(order, weights, counts, usable[..0]);
    for i := 0 to |usable|
      invariant Counted(order, weights, counts, usable[..i])
    {
      hide Counted;
      var n, c := usable[i].number, usable[i].confidence;
      if n !in weights {
        CountedFirst(order, weights, counts, usable, i);
        SetTwice(weights, n, 0.0, 0.0 + c);
        SetTwice(counts, n, 0, 0 + 1);
        order, weights, counts := order + [n], weights[n := 0.0], counts[n := 0];
      } else {
        CountedAgain(order, weights, counts, usable, i);
      }
      weights, counts := weights[n := weights[n] + c], counts[n := counts[n] + 1];
    }
    assert usable[..|usable|] == usable;
  }

  lemma OneMoreRead(usable: seq<Read>, i: nat, n: nat)
    requires i < |usable|
    ensures Weight(usable[..i+1], n) == Weight(usable[..i], n) + Cast(usable[i], n)
    ensures Votes(usable[..i+1], n) == Votes(usable[..i], n) + if usable[i].number == n then 1 else 0
  {
    assert usable[..i+1][..i] == usable[..i];
  }

  lemma NewTotal(usable: seq<Read>, i: nat)
    requires i < |usable|
    ensures var n := usable[i].number;
            FirstSeen(usable[..i+1])
            == if n in FirstSeen(usable[..i]) then FirstSeen(usable[..i]) else FirstSeen(usable[..i]) + [n]
    ensures Total(usable[..i+1]) == Total(usable[..i]) + usable[i].confidence
  {
    assert usable[..i+1][..i] == usable[..i];
  }

  lemma {:induction false} NoneBefore(entries: seq<Read>, n: nat)
    requires n !in FirstSeen(entries)
    ensures Weight(entries, n) == 0.0 && Votes(entries, n) == 0
  {
    if entries != [] {
      NoneBefore(entries[..|entries|-1], n);
    }
  }

  lemma {:induction false} KeptSum(order: seq<nat>, weights: map<nat, real>, n: nat, c: real)
    requires (forall k | k in order :: k in weights) && n !in order
    ensures SumOver(order, weights[n := c]) == SumOver(order, weights)
  {
    if order != [] {
      assert order[|order|-1] in order;
      KeptSum(order[..|order|-1], weights, n, c);
    }
  }

  method SumValues(order: seq<nat>, weights: map<nat, real>) returns (total: real)
    requires forall n | n in order :: n in weights
    ensures total == SumOver(order, weights)
  {
    total := 0.0;
    for i := 0 to |order|
      invariant total == SumOver(order[..i], weights)
    {
      assert order[..i+1][..i] == order[..i] && order[i] in order;
      total := total + weights[order[i]];
    }
    assert order[..|order|] == order;
  }

  /** What is left to decide once the dictionaries are filled. */
  method DecideFrom(usable: seq<Read>, order: seq<nat>, weights: map<nat, real>, counts: map<nat, nat>,
                    totalReads: nat, rules: Rules)
    returns (verdict: Verdict)
    requires usable != [] && Counted(order, weights, counts, usable)
    ensures verdict == Decide(usable, totalReads, rules)
  {
    var total := SumValues(order, weights);
    if total == 0.0 {
      return DivisionByZero;
    }
    var ranked := RankItems(usable, order, weights, counts);
    WinnerIsCounted(usable);
    var winner := ranked[0];
    var votes := counts[winner.number];
    var distribution := map n | n in weights :: Round3(weights[n] / total);
    assert distribution == Distribution(usable, total);
    hide Counted, Ranked, Distribution, Conclude;
    verdict := ConcludeVote(total, ranked, votes, distribution, totalReads, rules);
  }

  /** The three bars, in order. */
  method ConcludeVote(total: real, ranked: seq<Tally>, votes: nat, distribution: map<nat, real>, totalReads: nat,
                      rules: Rules)
    returns (verdict: Verdict)
    requires total != 0.0 && ranked != []
    ensures verdict == Conclude(total, ranked, votes, distribution, totalReads, rules)
  {
    var winner := ranked[0];
    var runnerUp := if |ranked| > 1 then ranked[1].weight else 0.0;
    var share, margin := winner.weight / total, (winner.weight - runnerUp) / total;
    var rejection: Option<Rejection> := None;
    if votes < rules.minVotes {
      rejection := Some(TooFewReads);
    } else if share < rules.minShare {
      rejection := Some(TooSmallShare);
    } else if margin < rules.minMargin {
      rejection := Some(TooSmallMargin);
    }
    if rejection != None {
      return Verdict(None, Round3(share), votes, totalReads, distribution, rejection);
    }
    verdict := Verdict(Some(winner.number), Round3(share), votes, totalReads, distribution, None);
  }

  /** The dictionary's items, heaviest first, ties in insertion order. */
  method RankItems(usable: seq<Read>, order: seq<nat>, weights: map<nat, real>, ghost counts: map<nat, nat>)
    returns (ranked: seq<Tally>)
    requires Counted(order, weights, counts, usable)
    ensures ranked == Ranked(usable)
  {
    assert forall i | 0 <= i < |order| :: order[i] in order;
    var items := seq(|order|, i requires 0 <= i < |order| && order[i] in weights => Tally(order[i], weights[order[i]]));
    assert items == Tallies(usable);
    ranked := Sort(items, Heavier);
  }

  method RunVote(entries: seq<Read>, allowed: Option<set<nat>>, rules: Rules) returns (verdict: Verdict)
    ensures verdict == Vote(entries, allowed, rules)
  {
    var usable := UsableReads(entries, allowed, rules);
    if usable == [] {
      return Verdict(None, 0.0, 0, |entries|, map[], Some(NoUsableReads));
    }
    var order, weights, counts := CountReads(usable);
    verdict := DecideFrom(usable, order, weights, counts, |entries|, rules);
  }

  lemma WinnerIsCounted(usable: seq<Read>)
    requires usable != []
    ensures forall x :: x in Ranked(usable) <==> x.number in FirstSeen(usable) && x.weight == Weight(usable, x.number)
    ensures Ranked(usable)[0].number in FirstSeen(usable)
    ensures InOrder(Ranked(usable), Heavier)
  {
    SameElements(Tallies(usable), Heavier);
    HeavierIsTotal();
    SortInOrder(Tallies(usable), Heavier);
    var order, tallies := FirstSeen(usable), Tallies(usable);
    forall x: Tally ensures x in tallies <==> x.number in order && x.weight == Weight(usable, x.number) {
      if x.number in order && x.weight == Weight(usable, x.number) {
        var i :| 0 <= i < |order| && order[i] == x.number;
        assert tallies[i] == x;
      }
    }
    assert Ranked(usable)[0] in Ranked(usable);
  }

  lemma HeavierIsTotal()
    ensures TotalPreorder(Heavier)
  {
  }
}
