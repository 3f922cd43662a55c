/** What an accepted shirt number means, and what it does not depend on. */
module Verdicts {
  import opened Domain
  import opened Numbers
  import opened Rounding
  import opened Sorting
  import opened Voting

  predicate PositiveReads(usable: seq<Read>) {
    forall x | x in usable :: x.confidence > 0.0
  }

  lemma {:induction false} WeightsAreShares(usable: seq<Read>, n: nat)
    requires PositiveReads(usable)
    ensures 0.0 <= Weight(usable, n) <= Total(usable)
    ensures n in FirstSeen(usable) ==> Weight(usable, n) > 0.0
    ensures usable != [] ==> Total(usable) > 0.0
  {
    if usable != [] {
      var last, rest := usable[|usable|-1], usable[..|usable|-1];
      assert last in usable && forall x | x in rest :: x in usable;
      WeightsAreShares(rest, n);
    }
  }

  /** The bars a number must clear, said of the reads alone. */
  ghost predicate Wins(usable: seq<Read>, n: nat, rules: Rules)
    requires Total(usable) > 0.0
  {
    && Votes(usable, n) >= rules.minVotes
    && Weight(usable, n) / Total(usable) >= rules.minShare
    && forall m: nat | m != n :: (Weight(usable, n) - Weight(usable, m)) / Total(usable) >= rules.minMargin
  }

  lemma RankedNumbersDiffer(usable: seq<Read>)
    ensures forall i: nat, j: nat | i < j < |Ranked(usable)| :: Ranked(usable)[i].number != Ranked(usable)[j].number
  {
    var ranked, tallies := Ranked(usable), Tallies(usable);
    SeenOnce(usable);
    forall i: nat, j: nat | i < j < |ranked| ensures ranked[i].number != ranked[j].number {
      var p, q := TwoPositions(tallies, ranked, i, j);
    }
  }

  /** The first rank outweighs every number; the second, every number but the first. */
  lemma TopTwo(usable: seq<Read>, m: nat)
    requires usable != [] && PositiveReads(usable)
    ensures var ranked := Ranked(usable);
            && ranked[0].number in FirstSeen(usable) && ranked[0].weight == Weight(usable, ranked[0].number)
            && Weight(usable, m) <= ranked[0].weight
            && (m != ranked[0].number ==> Weight(usable, m) <= RunnerUp(ranked))
            && 0.0 <= RunnerUp(ranked)
  {
    var ranked := Ranked(usable);
    WinnerIsCounted(usable);
    assert ranked[0] in ranked;
    if |ranked| > 1 {
      assert ranked[1] in ranked;
      WeightsAreShares(usable, ranked[1].number);
    }
    WeightsAreShares(usable, m);
    WeightsAreShares(usable, ranked[0].number);
    if m in FirstSeen(usable) {
      var t := Tally(m, Weight(usable, m));
      assert t in ranked;
      var i :| 0 <= i < |ranked| && ranked[i] == t;
      hide Ranked, FirstSeen, Weight, Total;
      assert i > 0 ==> Heavier(ranked[0], ranked[i]);
      assert i > 1 ==> Heavier(ranked[1], ranked[i]);
    } else {
      NoneBefore(usable, m);
    }
  }

  lemma PositiveQuotient(a: real, b: real)
    requires b > 0.0 && a / b > 0.0
    ensures a > 0.0
  {
    if a <= 0.0 {
      DivideInOrder(a, 0.0, b);
      assert false;
    }
  }

  /** Some number other than the first rank weighs exactly what the runner-up does. */
  lemma RunnerUpIsSomeNumber(usable: seq<Read>) returns (m: nat)
    requires usable != []
    ensures m != Ranked(usable)[0].number && Weight(usable, m) == RunnerUp(Ranked(usable))
  {
    var ranked := Ranked(usable);
    WinnerIsCounted(usable);
    if |ranked| > 1 {
      RankedNumbersDiffer(usable);
      assert ranked[1] in ranked;
      m := ranked[1].number;
    } else {
      m := ranked[0].number + 1;
      assert |FirstSeen(usable)| == 1 && ranked[0].number in FirstSeen(usable);
      NoneBefore(usable, m);
    }
  }

  lemma FirstRankWins(usable: seq<Read>, rules: Rules)
    requires usable != [] && PositiveReads(usable) && Total(usable) > 0.0
    ensures var ranked := Ranked(usable);
            Wins(usable, ranked[0].number, rules) <==>
            RejectionOf(Votes(usable, ranked[0].number), ranked[0].weight / Total(usable),
                        (ranked[0].weight - RunnerUp(ranked)) / Total(usable), rules) == None
  {
    hide Ranked, FirstSeen, Weight, Votes, Total, PositiveReads;
    var ranked, total := Ranked(usable), Total(usable);
    var n := ranked[0].number;
    TopTwo(usable, n);
    var second := RunnerUpIsSomeNumber(usable);
    forall m: nat | m != n
      ensures (Weight(usable, n) - Weight(usable, m)) / total >= (ranked[0].weight - RunnerUp(ranked)) / total
    {
      TopTwo(usable, m);
      DivideInOrder(ranked[0].weight - RunnerUp(ranked), Weight(usable, n) - Weight(usable, m), total);
    }
  }

  lemma OnlyTheFirstRankWins(usable: seq<Read>, n: nat, rules: Rules)
    requires usable != [] && PositiveReads(usable) && Total(usable) > 0.0 && rules.minMargin > 0.0
    requires Wins(usable, n, rules)
    ensures n == Ranked(usable)[0].number
  {
    var first := Ranked(usable)[0].number;
    if n != first {
      TopTwo(usable, n);
      assert (Weight(usable, n) - Weight(usable, first)) / Total(usable) >= rules.minMargin;
      PositiveQuotient(Weight(usable, n) - Weight(usable, first), Total(usable));
      assert false;
    }
  }

  /** A number is accepted exactly when it clears the bars. */
  lemma {:induction false} AcceptedIffWins(entries: seq<Read>, allowed: Option<set<nat>>, rules: Rules, n: nat)
    requires var usable := UsableReads(entries, allowed, rules);
             usable != [] && PositiveReads(usable) && rules.minMargin > 0.0
    ensures var usable := UsableReads(entries, allowed, rules);
            && Total(usable) > 0.0
            && Vote(entries, allowed, rules).Verdict?
            && (Vote(entries, allowed, rules).number == Some(n) <==> Wins(usable, n, rules))
  {
    var usable := UsableReads(entries, allowed, rules);
    WeightsAreShares(usable, n);
    FirstRankWins(usable, rules);
    if Wins(usable, n, rules) {
      OnlyTheFirstRankWins(usable, n, rules);
    }
    hide Wins, Ranked, UsableReads, Total, RejectionOf, Round3;
  }

  /** An accepted number is registered, has the votes, and outweighs every other by more than nothing. */
  lemma {:induction false} AcceptedIsTheStrictMaximum(entries: seq<Read>, allowed: Option<set<nat>>, rules: Rules,
                                                      n: nat, m: nat)
    requires PositiveReads(UsableReads(entries, allowed, rules)) && rules.minMargin > 0.0
    requires Vote(entries, allowed, rules).Verdict? && Vote(entries, allowed, rules).number == Some(n)
    ensures var usable := UsableReads(entries, allowed, rules);
            && Allows(allowed, n) && (exists x :: x in usable && x.number == n)
            && Votes(usable, n) >= rules.minVotes
            && (m != n ==> Weight(usable, m) < Weight(usable, n))
  {
    var usable := UsableReads(entries, allowed, rules);
    AcceptedIffWins(entries, allowed, rules, n);
    OnlyTheFirstRankWins(usable, n, rules);
    TopTwo(usable, n);
    SeenIsRead(usable, n);
    if m != n {
      PositiveQuotient(Weight(usable, n) - Weight(usable, m), Total(usable));
    }
  }

  // ----- What the verdict does not depend on -----

  lemma {:induction false} SumsWithout(entries: seq<Read>, k: nat, n: nat)
    requires k < |entries|
    ensures Weight(entries, n) == Weight(Without(entries, k), n) + Cast(entries[k], n)
    ensures Votes(entries, n) == Votes(Without(entries, k), n) + if entries[k].number == n then 1 else 0
    ensures Total(entries) == Total(Without(entries, k)) + entries[k].confidence
  {
    RestAndLast(entries, k);
    hide Without;
    if k < |entries| - 1 {
      SumsWithout(entries[..|entries|-1], k, n);
    }
  }

  lemma RestAndLast(entries: seq<Read>, k: nat)
    requires k < |entries|
    ensures var rest, last := Without(entries, k), |entries| - 1;
            if k == last then rest == entries[..last]
            else rest != [] && rest[..|rest|-1] == Without(entries[..last], k) && rest[|rest|-1] == entries[last]
  {
  }

  lemma {:induction false} SumsRearranged(a: seq<Read>, b: seq<Read>, n: nat)
    requires multiset(a) == multiset(b)
    ensures Weight(a, n) == Weight(b, n) && Votes(a, n) == Votes(b, n) && Total(a) == Total(b)
  {
    hide Weight, Votes, Total;
    assert |multiset(a)| == |a| && |multiset(b)| == |b|;
    if a != [] {
      assert a[0] in multiset(b);
      var k: nat :| k < |b| && b[k] == a[0];
      assert |Without(a, 0)| == |a| - 1;
      hide Without;
      SumsWithout(a, 0, n);
      SumsWithout(b, k, n);
      assert multiset(Without(a, 0)) == multiset(a) - multiset{a[0]};
      assert multiset(Without(b, k)) == multiset(b) - multiset{a[0]};
      SumsRearranged(Without(a, 0), Without(b, k), n);
    }
  }

  lemma SameWinners(a: seq<Read>, b: seq<Read>, n: nat, rules: Rules)
    requires multiset(a) == multiset(b) && Total(a) > 0.0
    ensures Total(b) > 0.0 && (Wins(a, n, rules) <==> Wins(b, n, rules))
  {
    hide Weight, Votes, Total;
    SumsRearranged(a, b, n);
    forall m: nat ensures Weight(a, m) == Weight(b, m) {
      SumsRearranged(a, b, m);
    }
  }

  lemma ConfidenceOf(entries: seq<Read>, allowed: Option<set<nat>>, rules: Rules)
    requires var usable := UsableReads(entries, allowed, rules);
             usable != [] && PositiveReads(usable)
    ensures var usable := UsableReads(entries, allowed, rules);
            && Total(usable) > 0.0 && Vote(entries, allowed, rules).Verdict?
            && Vote(entries, allowed, rules).confidence == Round3(Ranked(usable)[0].weight / Total(usable))
  {
    WeightsAreShares(UsableReads(entries, allowed, rules), 0);
  }

  lemma SameTopWeight(a: seq<Read>, b: seq<Read>)
    requires multiset(a) == multiset(b) && a != [] && b != [] && PositiveReads(a) && PositiveReads(b)
    ensures Ranked(a)[0].weight == Ranked(b)[0].weight && Total(a) == Total(b)
  {
    var i, j := Ranked(a)[0].number, Ranked(b)[0].number;
    TopTwo(a, j);
    TopTwo(b, i);
    SumsRearranged(a, b, i);
    SumsRearranged(a, b, j);
  }

  /** Only the usable reads matter, and not their order: number and confidence stay the same. */
  lemma OnlyUsableReadsMatter(a: seq<Read>, b: seq<Read>, allowed: Option<set<nat>>, rules: Rules)
    requires multiset(UsableReads(a, allowed, rules)) == multiset(UsableReads(b, allowed, rules))
    requires PositiveReads(UsableReads(a, allowed, rules)) && rules.minMargin > 0.0
    ensures var va, vb := Vote(a, allowed, rules), Vote(b, allowed, rules);
            va.Verdict? && vb.Verdict? && va.number == vb.number && va.confidence == vb.confidence
  {
    var ua, ub := UsableReads(a, allowed, rules), UsableReads(b, allowed, rules);
    assert |multiset(ua)| == |ua| && |multiset(ub)| == |ub|;
    if ua != [] {
      assert PositiveReads(ub) by {
        forall x | x in ub ensures x.confidence > 0.0 {
          assert x in multiset(ua);
        }
      }
      ConfidenceOf(a, allowed, rules);
      ConfidenceOf(b, allowed, rules);
      SameTopWeight(ua, ub);
      var va, vb := Vote(a, allowed, rules), Vote(b, allowed, rules);
      hide Vote, Ranked, UsableReads, Total, Round3;
      if va.number.Some? {
        CarryOver(a, b, va.number.value, allowed, rules);
      }
      if vb.number.Some? {
        CarryOver(b, a, vb.number.value, allowed, rules);
      }
    }
  }

  lemma CarryOver(a: seq<Read>, b: seq<Read>, n: nat, allowed: Option<set<nat>>, rules: Rules)
    requires var ua, ub := UsableReads(a, allowed, rules), UsableReads(b, allowed, rules);
             multiset(ua) == multiset(ub) && ua != [] && ub != [] && PositiveReads(ua) && PositiveReads(ub)
    requires rules.minMargin > 0.0 && Vote(a, allowed, rules).Verdict? && Vote(a, allowed, rules).number == Some(n)
    ensures Vote(b, allowed, rules).Verdict? && Vote(b, allowed, rules).number == Some(n)
  {
    AcceptedIffWins(a, allowed, rules, n);
    AcceptedIffWins(b, allowed, rules, n);
    SameWinners(UsableReads(a, allowed, rules), UsableReads(b, allowed, rules), n, rules);
  }

  /** The usable reads of a list: how often each occurs. */
  lemma {:induction false} UsableCount(entries: seq<Read>, allowed: Option<set<nat>>, rules: Rules, x: Read)
    ensures multiset(UsableReads(entries, allowed, rules))[x] ==
              if Usable(x, allowed, rules) then multiset(entries)[x] else 0
  {
    if entries != [] {
      UsableCount(entries[..|entries|-1], allowed, rules, x);
      assert entries == entries[..|entries|-1] + [entries[|entries|-1]];
    }
  }

  /** Shuffled reads, with any unusable ones added or dropped, give the same number and confidence. */
  lemma {:induction false} OrderAndUnusableReadsDoNotMatter(a: seq<Read>, b: seq<Read>, allowed: Option<set<nat>>,
                                                            rules: Rules)
    requires forall x | Usable(x, allowed, rules) :: multiset(a)[x] == multiset(b)[x]
    requires PositiveReads(UsableReads(a, allowed, rules)) && rules.minMargin > 0.0
    ensures var va, vb := Vote(a, allowed, rules), Vote(b, allowed, rules);
            va.Verdict? && vb.Verdict? && va.number == vb.number && va.confidence == vb.confidence
  {
    var ua, ub := UsableReads(a, allowed, rules), UsableReads(b, allowed, rules);
    forall x ensures multiset(ua)[x] == multiset(ub)[x] {
      UsableCount(a, allowed, rules, x);
      UsableCount(b, allowed, rules, x);
    }
    assert multiset(ua) == multiset(ub);
    OnlyUsableReadsMatter(a, b, allowed, rules);
  }

  // ----- One more read for the winner -----

  lemma MixIn(part: real, whole: real, c: real)
    requires part <= whole && whole > 0.0 && c > 0.0
    ensures part / whole <= (part + c) / (whole + c)
  {
    var r := part / whole;
    assert part == r * whole;
    DivideInOrder(part, whole, whole);
    assert whole / whole == 1.0;
    assert r * c <= c;
    assert r * (whole + c) <= part + c;
    DivideInOrder(r * (whole + c), part + c, whole + c);
    TimesOver(r, whole + c);
  }

  lemma WinsMore(usable: seq<Read>, read: Read, n: nat, rules: Rules)
    requires PositiveReads(usable) && Total(usable) > 0.0 && Wins(usable, n, rules)
    requires read.number == n && read.confidence > 0.0
    ensures Total(usable + [read]) > 0.0 && Wins(usable + [read], n, rules)
    ensures Weight(usable, n) / Total(usable) <= Weight(usable + [read], n) / Total(usable + [read])
  {
    var more, c, total := usable + [read], read.confidence, Total(usable);
    AppendRead(usable, read, n);
    WeightsAreShares(usable, n);
    MixIn(Weight(usable, n), total, c);
    forall m: nat | m != n ensures (Weight(more, n) - Weight(more, m)) / Total(more) >= rules.minMargin {
      AppendRead(usable, read, m);
      WeightsAreShares(usable, m);
      var lead := Weight(usable, n) - Weight(usable, m);
      assert lead / total >= rules.minMargin;
      MixIn(lead, total, c);
      assert Weight(more, n) - Weight(more, m) == lead + c;
    }
  }

  lemma AppendRead(usable: seq<Read>, read: Read, m: nat)
    ensures Weight(usable + [read], m) == Weight(usable, m) + Cast(read, m)
    ensures Votes(usable + [read], m) == Votes(usable, m) + if read.number == m then 1 else 0
    ensures Total(usable + [read]) == Total(usable) + read.confidence
  {
    assert (usable + [read])[..|usable|] == usable;
  }

  /** Another usable read for an accepted number keeps it accepted and never lowers its confidence. */
  lemma {:induction false} MoreEvidenceNeverHurts(entries: seq<Read>, read: Read, allowed: Option<set<nat>>,
                                                  rules: Rules, n: nat)
    requires PositiveReads(UsableReads(entries, allowed, rules)) && rules.minMargin > 0.0
    requires Vote(entries, allowed, rules).Verdict? && Vote(entries, allowed, rules).number == Some(n)
    requires Usable(read, allowed, rules) && read.number == n && read.confidence > 0.0
    ensures var before, after := Vote(entries, allowed, rules), Vote(entries + [read], allowed, rules);
            after.Verdict? && after.number == Some(n) && after.confidence >= before.confidence
  {
    var usable, more := UsableReads(entries, allowed, rules), UsableReads(entries + [read], allowed, rules);
    assert (entries + [read])[..|entries|] == entries;
    assert more == usable + [read];
    assert PositiveReads(more);
    AcceptedIffWins(entries, allowed, rules, n);
    AcceptedIffWins(entries + [read], allowed, rules, n);
    WinsMore(usable, read, n, rules);
    OnlyTheFirstRankWins(usable, n, rules);
    OnlyTheFirstRankWins(more, n, rules);
    TopTwo(usable, n);
    TopTwo(more, n);
    ConfidenceOf(entries, allowed, rules);
    ConfidenceOf(entries + [read], allowed, rules);
    hide *;
    Round3Monotone(Weight(usable, n) / Total(usable), Weight(more, n) / Total(more));
  }

  // ----- What the verdict tells -----

  /** The number with the most confidence behind it, and of several such the one read first. */
  predicate Heaviest(usable: seq<Read>, n: nat) {
    var order := FirstSeen(usable);
    exists i :: 0 <= i < |order| && order[i] == n
                && (forall j | 0 <= j < |order| :: Weight(usable, order[j]) <= Weight(usable, n))
                && (forall j | 0 <= j < i :: Weight(usable, order[j]) < Weight(usable, n))
  }

  /** The most confidence behind any other number. */
  ghost predicate NextHeaviest(usable: seq<Read>, n: nat, weight: real) {
    && (forall m: nat | m != n :: Weight(usable, m) <= weight)
    && exists m: nat :: m != n && Weight(usable, m) == weight
  }

  /**
   * What a verdict says of the usable reads: the votes and the share of the heaviest number,
   * everyone's share, and why it was rejected: too few votes, too small a share, or too
   * small a lead, in that order. A number is given exactly when nothing speaks against it.
   */
  lemma VerdictTells(entries: seq<Read>, allowed: Option<set<nat>>, rules: Rules) returns (n: nat, second: real)
    requires var usable := UsableReads(entries, allowed, rules); usable != [] && PositiveReads(usable)
    ensures var usable, v := UsableReads(entries, allowed, rules), Vote(entries, allowed, rules);
            && Heaviest(usable, n) && NextHeaviest(usable, n, second) && Total(usable) > 0.0 && v.Verdict?
            && v.totalReads == |entries| && v.votes == Votes(usable, n)
            && v.confidence == Round3(Weight(usable, n) / Total(usable))
            && (forall m: nat :: m in v.distribution <==> exists x :: x in usable && x.number == m)
            && (forall m: nat | m in v.distribution :: v.distribution[m] == Round3(Weight(usable, m) / Total(usable)))
            && v.number == (if v.rejection == None then Some(n) else None)
            && v.rejection == (if Votes(usable, n) < rules.minVotes then Some(TooFewReads)
                               else if Weight(usable, n) / Total(usable) < rules.minShare then Some(TooSmallShare)
                               else if (Weight(usable, n) - second) / Total(usable) < rules.minMargin
                               then Some(TooSmallMargin) else None)
  {
    var usable := UsableReads(entries, allowed, rules);
    WeightsAreShares(usable, 0);
    n, second := Ranked(usable)[0].number, RunnerUp(Ranked(usable));
    TopTwo(usable, n);
    hide Ranked, FirstSeen, UsableReads, Total, Weight, Votes, Round3, PositiveReads, Heaviest, NextHeaviest, RunnerUp;
    FirstTwoRanks(usable);
    forall m: nat ensures m in FirstSeen(usable) <==> exists x :: x in usable && x.number == m {
      SeenIsRead(usable, m);
    }
  }

  lemma FirstRankIsHeaviest(usable: seq<Read>)
    requires usable != []
    ensures Heaviest(usable, Ranked(usable)[0].number)
  {
    var order, tallies := FirstSeen(usable), Tallies(usable);
    HeavierIsTotal();
    var i := FirstOfTheBest(tallies, Heavier);
    var n := Ranked(usable)[0].number;
    hide FirstSeen, Weight, Sort;
    assert order[i] == n && tallies[i].weight == Weight(usable, n);
    forall j | 0 <= j < |order| ensures Weight(usable, order[j]) <= Weight(usable, n) {
      assert Heavier(tallies[i], tallies[j]);
    }
    forall j | 0 <= j < i ensures Weight(usable, order[j]) < Weight(usable, n) {
      assert !Heavier(tallies[j], tallies[i]);
    }
  }

  lemma FirstTwoRanks(usable: seq<Read>)
    requires usable != [] && PositiveReads(usable)
    ensures var n, second := Ranked(usable)[0].number, RunnerUp(Ranked(usable));
            Heaviest(usable, n) && NextHeaviest(usable, n, second)
  {
    var n, second := Ranked(usable)[0].number, RunnerUp(Ranked(usable));
    var other := RunnerUpIsSomeNumber(usable);
    TopTwo(usable, n);
    FirstRankIsHeaviest(usable);
    hide Heaviest;
    hide Ranked, FirstSeen, Weight, PositiveReads, RunnerUp;
    forall m: nat
      ensures Weight(usable, m) <= Ranked(usable)[0].weight
      ensures m != n ==> Weight(usable, m) <= second
    {
      TopTwo(usable, m);
    }
  }

  lemma {:induction false} NoneUsable(entries: seq<Read>, allowed: Option<set<nat>>, rules: Rules)
    requires forall x | x in entries :: !Usable(x, allowed, rules)
    ensures UsableReads(entries, allowed, rules) == []
  {
    if entries != [] {
      assert entries[|entries|-1] in entries;
      NoneUsable(entries[..|entries|-1], allowed, rules);
    }
  }

  /** Without a usable read there is no number, and the verdict says so. */
  lemma NothingToVoteOn(entries: seq<Read>, allowed: Option<set<nat>>, rules: Rules)
    requires forall x | x in entries :: x.confidence < rules.minReadConfidence || !Allows(allowed, x.number)
    ensures Vote(entries, allowed, rules) == Verdict(None, 0.0, 0, |entries|, map[], Some(NoUsableReads))
  {
    NoneUsable(entries, allowed, rules);
  }
}
