/** Choosing highlights: clip windows, temporal suppression, and what survives it. */
module Selection {
  import opened Numbers
  import opened Rounding
  import opened Sorting

  datatype Candidate = Candidate(timestamp: real, score: real, signals: map<string, real>)

  datatype Window = Window(start: real, end: real, candidate: Candidate) {
    function Duration(): real { end - start }
  }

  datatype Settings = Settings(preRoll: real, postRoll: real, minScore: real, maxCount: int, overlapThreshold: real)

  // ----- What is computed -----

  function OverlapFraction(a: Window, b: Window): real {
    var overlap := Min(a.end, b.end) - Max(a.start, b.start);
    if overlap <= 0.0 then 0.0
    else
      var shortest := Min(a.Duration(), b.Duration());
      if shortest > 0.0 then overlap / shortest else 0.0
  }

  /** The window before its ends are rounded to milliseconds. */
  function ExactWindow(c: Candidate, duration: real, s: Settings): Window {
    var start := Max(0.0, c.timestamp - s.preRoll);
    var end := Min(duration, c.timestamp + s.postRoll);
    Window(start, if end <= start then Min(duration, start + 1.0) else end, c)
  }

  function ToWindow(c: Candidate, duration: real, s: Settings): (w: Window)
    ensures w.candidate == c
  {
    var exact := ExactWindow(c, duration, s);
    Window(Round3(exact.start), Round3(exact.end), c)
  }

  predicate Better(a: Candidate, b: Candidate) { a.score >= b.score }

  predicate Earlier(a: Window, b: Window) { a.start <= b.start }

  function Eligible(candidates: seq<Candidate>, s: Settings): (r: seq<Candidate>)
    ensures forall c :: c in r <==> c in candidates && c.score >= s.minScore
  {
    if candidates == [] then []
    else
      var last := candidates[|candidates|-1];
      Eligible(candidates[..|candidates|-1], s) + (if last.score >= s.minScore then [last] else [])
  }

  predicate Crowded(w: Window, kept: seq<Window>, s: Settings) {
    exists k :: k in kept && OverlapFraction(w, k) > s.overlapThreshold
  }

  /** The suppression loop, from the clips kept so far. */
  function Keep(ranked: seq<Candidate>, kept: seq<Window>, duration: real, s: Settings): seq<Window> {
    if ranked == [] || |kept| >= s.maxCount then kept
    else
      var w := ToWindow(ranked[0], duration, s);
      Keep(ranked[1..], if Crowded(w, kept, s) then kept else kept + [w], duration, s)
  }

  function Ranked(candidates: seq<Candidate>, s: Settings): seq<Candidate> {
    Sort(Eligible(candidates, s), Better)
  }

  function Select(candidates: seq<Candidate>, duration: real, s: Settings): seq<Window> {
    Sort(Keep(Ranked(candidates, s), [], duration, s), Earlier)
  }

  // ----- The loops -----

  method IsCrowded(w: Window, kept: seq<Window>, s: Settings) returns (crowded: bool)
    ensures crowded == Crowded(w, kept, s)
  {
    crowded := false;
    for i := 0 to |kept|
      invariant !crowded && forall j | 0 <= j < i :: OverlapFraction(w, kept[j]) <= s.overlapThreshold
    {
      if OverlapFraction(w, kept[i]) > s.overlapThreshold {
        return true;
      }
    }
  }

  method SelectClips(candidates: seq<Candidate>, duration: real, s: Settings) returns (windows: seq<Window>)
    ensures windows == Select(candidates, duration, s)
  {
    var ranked := Ranked(candidates, s);
    var kept: seq<Window> := [];
    hide Crowded, ToWindow, Sort, Ranked;
    var i := 0;
    while i < |ranked| && |kept| < s.maxCount
      invariant 0 <= i <= |ranked|
      invariant Keep(ranked[i..], kept, duration, s) == Keep(ranked, [], duration, s)
    {
      assert ranked[i..][0] == ranked[i] && ranked[i..][1..] == ranked[i+1..];
      var window := ToWindow(ranked[i], duration, s);
      var crowded := IsCrowded(window, kept, s);
      if !crowded {
        kept := kept + [window];
      }
      i := i + 1;
    }
    windows := Sort(kept, Earlier);
  }

  // ----- What survives -----

  predicate Apart(windows: seq<Window>, s: Settings) {
    forall i, j | 0 <= i < |windows| && 0 <= j < |windows| && i != j ::
      OverlapFraction(windows[i], windows[j]) <= s.overlapThreshold
  }

  lemma OverlapIsSymmetric(a: Window, b: Window)
    ensures OverlapFraction(a, b) == OverlapFraction(b, a)
  {
    assert Min(a.end, b.end) == Min(b.end, a.end) && Max(a.start, b.start) == Max(b.start, a.start);
    assert Min(a.Duration(), b.Duration()) == Min(b.Duration(), a.Duration());
  }

  lemma OneMoreApart(kept: seq<Window>, w: Window, s: Settings)
    requires Apart(kept, s) && !Crowded(w, kept, s)
    ensures Apart(kept + [w], s)
  {
    hide OverlapFraction;
    forall i | 0 <= i < |kept|
      ensures OverlapFraction(w, kept[i]) <= s.overlapThreshold && OverlapFraction(kept[i], w) <= s.overlapThreshold
    {
      assert kept[i] in kept;
      OverlapIsSymmetric(w, kept[i]);
    }
  }

  /** Survivors overlap pairwise within the threshold, fit the cap, and are windows of ranked candidates. */
  lemma {:induction false} KeptAreApart(ranked: seq<Candidate>, kept: seq<Window>, duration: real, s: Settings)
    requires Apart(kept, s) && (|kept| <= s.maxCount || kept == [])
    ensures var all := Keep(ranked, kept, duration, s);
            && Apart(all, s) && (|all| <= s.maxCount || all == [])
            && kept <= all
            && (forall w | w in all :: w in kept || (w.candidate in ranked && w == ToWindow(w.candidate, duration, s)))
  {
    if ranked != [] && |kept| < s.maxCount {
      var w := ToWindow(ranked[0], duration, s);
      hide Crowded, ToWindow, Apart;
      if Crowded(w, kept, s) {
        KeptAreApart(ranked[1..], kept, duration, s);
      } else {
        OneMoreApart(kept, w, s);
        KeptAreApart(ranked[1..], kept + [w], duration, s);
        var all := Keep(ranked, kept, duration, s);
        assert kept <= kept + [w];
      }
    }
  }

  /** Why a candidate's clip is not there: it crowds a clip scoring as high, or the cap is full of such clips. */
  predicate Accounted(c: Candidate, all: seq<Window>, duration: real, s: Settings) {
    var w := ToWindow(c, duration, s);
    || w in all
    || (exists k :: k in all && k.candidate.score >= c.score && OverlapFraction(w, k) > s.overlapThreshold)
    || (|all| >= s.maxCount && forall k | k in all :: k.candidate.score >= c.score)
  }

  lemma CrowdedIsAccounted(c: Candidate, kept: seq<Window>, all: seq<Window>, duration: real, s: Settings)
    requires kept <= all && Crowded(ToWindow(c, duration, s), kept, s)
    requires forall k | k in kept :: k.candidate.score >= c.score
    ensures Accounted(c, all, duration, s)
  {
    var w := ToWindow(c, duration, s);
    hide OverlapFraction, ToWindow;
    var k :| k in kept && OverlapFraction(w, k) > s.overlapThreshold;
    assert k in all;
  }

  lemma {:induction false} EveryoneIsAccounted(
      ranked: seq<Candidate>, kept: seq<Window>, duration: real, s: Settings, c: Candidate)
    requires InOrder(ranked, Better) && c in ranked && Apart(kept, s) && (|kept| <= s.maxCount || kept == [])
    requires forall k, r | k in kept && r in ranked :: k.candidate.score >= r.score
    ensures Accounted(c, Keep(ranked, kept, duration, s), duration, s)
  {
    if |kept| < s.maxCount {
      var head, tail := ranked[0], ranked[1..];
      var w := ToWindow(head, duration, s);
      var next := if Crowded(w, kept, s) then kept else kept + [w];
      if !Crowded(w, kept, s) {
        OneMoreApart(kept, w, s);
      }
      KeptAreApart(tail, next, duration, s);
      BestFirst(ranked);
      hide Crowded, ToWindow, Apart, Accounted, InOrder;
      if c == head {
        HeadIsAccounted(c, kept, next, Keep(tail, next, duration, s), duration, s);
      } else {
        TailInOrder(ranked);
        EveryoneIsAccounted(tail, next, duration, s, c);
      }
    }
  }

  lemma HeadIsAccounted(c: Candidate, kept: seq<Window>, next: seq<Window>, all: seq<Window>, duration: real,
                        s: Settings)
    requires next <= all && forall k | k in kept :: k.candidate.score >= c.score
    requires next == if Crowded(ToWindow(c, duration, s), kept, s) then kept else kept + [ToWindow(c, duration, s)]
    ensures Accounted(c, all, duration, s)
  {
    var w := ToWindow(c, duration, s);
    if Crowded(w, kept, s) {
      CrowdedIsAccounted(c, kept, all, duration, s);
    } else {
      assert all[|kept|] == w;
    }
  }

  lemma BestFirst(ranked: seq<Candidate>)
    requires InOrder(ranked, Better) && ranked != []
    ensures forall r | r in ranked :: ranked[0].score >= r.score
  {
    forall r | r in ranked ensures ranked[0].score >= r.score {
      var i :| 0 <= i < |ranked| && ranked[i] == r;
      assert i > 0 ==> Better(ranked[0], ranked[i]);
    }
  }

  lemma TailInOrder(ranked: seq<Candidate>)
    requires InOrder(ranked, Better) && ranked != []
    ensures InOrder(ranked[1..], Better)
  {
  }

  lemma ApartInAnyOrder(a: seq<Window>, b: seq<Window>, s: Settings)
    requires Apart(a, s) && multiset(a) == multiset(b)
    ensures Apart(b, s)
  {
    hide OverlapFraction;
    forall i: nat, j: nat | i < |b| && j < |b| && i != j ensures OverlapFraction(b[i], b[j]) <= s.overlapThreshold {
      var p, q := TwoPositions(a, b, i, j);
    }
  }

  lemma BetterIsTotal()
    ensures TotalPreorder(Better)
  {
  }

  lemma EarlierIsTotal()
    ensures TotalPreorder(Earlier)
  {
  }

  lemma RankedFacts(candidates: seq<Candidate>, s: Settings)
    ensures InOrder(Ranked(candidates, s), Better)
    ensures forall c :: c in Ranked(candidates, s) <==> c in candidates && c.score >= s.minScore
  {
    BetterIsTotal();
    SortInOrder(Eligible(candidates, s), Better);
    SameElements(Eligible(candidates, s), Better);
  }

  /**
   * Suppression meets its specification: the clips are windows of eligible candidates,
   * in match order, pairwise within the overlap threshold and no more than the cap; and
   * every eligible candidate without its clip crowds one scoring at least as high, or the
   * cap is full of clips scoring at least as high.
   */
  lemma SelectionMeetsItsSpecification(candidates: seq<Candidate>, duration: real, s: Settings)
    ensures var windows := Select(candidates, duration, s);
            && Apart(windows, s) && InOrder(windows, Earlier)
            && (|windows| <= s.maxCount || windows == [])
            && (forall w | w in windows :: w.candidate in candidates && w.candidate.score >= s.minScore
                                           && w == ToWindow(w.candidate, duration, s))
            && (forall c | c in candidates && c.score >= s.minScore :: Accounted(c, windows, duration, s))
  {
    var ranked := Ranked(candidates, s);
    var kept, windows := Keep(ranked, [], duration, s), Select(candidates, duration, s);
    RankedFacts(candidates, s);
    KeptAreApart(ranked, [], duration, s);
    EarlierIsTotal();
    SortInOrder(kept, Earlier);
    SameElements(kept, Earlier);
    ApartInAnyOrder(kept, windows, s);
    hide Sort, Ranked, Apart, InOrder, OverlapFraction, ToWindow, Keep, Crowded;
    forall c | c in candidates && c.score >= s.minScore ensures Accounted(c, windows, duration, s) {
      EveryoneIsAccounted(ranked, [], duration, s, c);
      AccountedInAnyOrder(c, kept, windows, duration, s);
    }
  }

  lemma {:induction false} FirstEligible(candidates: seq<Candidate>, s: Settings, i: nat) returns (q: nat)
    requires i < |candidates| && candidates[i].score >= s.minScore
    requires forall j | 0 <= j < i :: candidates[j].score < candidates[i].score
    ensures q < |Eligible(candidates, s)| && Eligible(candidates, s)[q] == candidates[i]
    ensures forall j | 0 <= j < q :: Eligible(candidates, s)[j].score < candidates[i].score
  {
    var rest := candidates[..|candidates|-1];
    if i < |rest| {
      q := FirstEligible(rest, s, i);
    } else {
      q := |Eligible(rest, s)|;
      forall j | 0 <= j < q ensures Eligible(candidates, s)[j].score < candidates[i].score {
        assert Eligible(rest, s)[j] in rest;
      }
    }
  }

  /** The best candidate, and of those that tie the first, always has its clip. */
  lemma TheBestIsShown(candidates: seq<Candidate>, duration: real, s: Settings, i: nat)
    requires s.maxCount >= 1 && i < |candidates| && candidates[i].score >= s.minScore
    requires forall j | 0 <= j < |candidates| :: candidates[j].score <= candidates[i].score
    requires forall j | 0 <= j < i :: candidates[j].score < candidates[i].score
    ensures ToWindow(candidates[i], duration, s) in Select(candidates, duration, s)
  {
    var eligible, ranked := Eligible(candidates, s), Ranked(candidates, s);
    var w := ToWindow(candidates[i], duration, s);
    var q := FirstEligible(candidates, s, i);
    BetterIsTotal();
    var k := FirstOfTheBest(eligible, Better);
    assert eligible[k] in eligible;
    assert Better(eligible[k], eligible[q]) && Better(eligible[q], eligible[k]);
    assert k == q;
    hide Eligible, Sort, ToWindow, Crowded, Apart;
    assert !Crowded(w, [], s) by {
      NothingCrowds(w, s);
    }
    OneMoreApart([], w, s);
    KeptAreApart(ranked[1..], [w], duration, s);
    var kept := Keep(ranked, [], duration, s);
    assert [] + [w] == [w] && kept[0] == w;
    SameElements(kept, Earlier);
  }

  lemma NothingCrowds(w: Window, s: Settings)
    ensures !Crowded(w, [], s) && Apart([], s)
  {
  }

  lemma AccountedInAnyOrder(c: Candidate, a: seq<Window>, b: seq<Window>, duration: real, s: Settings)
    requires Accounted(c, a, duration, s) && |a| == |b| && forall w :: w in a <==> w in b
    ensures Accounted(c, b, duration, s)
  {
  }

  // ----- Match order, and selecting again -----

  predicate Positive(windows: seq<Window>) {
    forall w | w in windows :: w.Duration() > 0.0
  }

  lemma SameStartOverlaps(a: Window, b: Window)
    requires a.start == b.start && a.Duration() > 0.0 && b.Duration() > 0.0
    ensures OverlapFraction(a, b) == 1.0
  {
    var shortest := Min(a.Duration(), b.Duration());
    assert Min(a.end, b.end) - Max(a.start, b.start) == shortest;
    assert shortest / shortest == 1.0;
  }

  /** Starts are all different, hence strictly increasing in match order. */
  lemma StartsDiffer(windows: seq<Window>, s: Settings)
    requires s.overlapThreshold < 1.0 && Apart(windows, s) && Positive(windows)
    ensures NoTies(windows, Earlier)
  {
    forall i, j | 0 <= i < j < |windows| ensures !(Earlier(windows[i], windows[j]) && Earlier(windows[j], windows[i])) {
      assert windows[i] in windows && windows[j] in windows;
      assert OverlapFraction(windows[i], windows[j]) <= s.overlapThreshold;
      if windows[i].start == windows[j].start {
        SameStartOverlaps(windows[i], windows[j]);
      }
    }
  }

  lemma StartsStrictlyIncrease(candidates: seq<Candidate>, duration: real, s: Settings)
    requires s.overlapThreshold < 1.0 && Positive(Select(candidates, duration, s))
    ensures var windows := Select(candidates, duration, s);
            forall i, j | 0 <= i < j < |windows| :: windows[i].start < windows[j].start
  {
    var windows := Select(candidates, duration, s);
    SelectionMeetsItsSpecification(candidates, duration, s);
    StartsDiffer(windows, s);
    hide Select, Apart;
    forall i, j | 0 <= i < j < |windows| ensures windows[i].start < windows[j].start {
      assert Earlier(windows[i], windows[j]);
    }
  }

  function CandidatesOf(windows: seq<Window>): (r: seq<Candidate>)
    ensures |r| == |windows|
  {
    seq(|windows|, i requires 0 <= i < |windows| => windows[i].candidate)
  }

  function WindowsOf(candidates: seq<Candidate>, duration: real, s: Settings): (r: seq<Window>)
    ensures |r| == |candidates|
  {
    seq(|candidates|, i requires 0 <= i < |candidates| => ToWindow(candidates[i], duration, s))
  }

  /** Candidates whose windows are apart and fit the cap are all kept, in the order given. */
  lemma {:induction false} ApartAreAllKept(ranked: seq<Candidate>, kept: seq<Window>, duration: real, s: Settings)
    requires Apart(kept + WindowsOf(ranked, duration, s), s) && |kept| + |ranked| <= s.maxCount
    ensures Keep(ranked, kept, duration, s) == kept + WindowsOf(ranked, duration, s)
  {
    var all := kept + WindowsOf(ranked, duration, s);
    hide OverlapFraction, ToWindow;
    if ranked == [] {
      assert all == kept;
    } else {
      var w := ToWindow(ranked[0], duration, s);
      assert all[|kept|] == w;
      forall k | k in kept ensures OverlapFraction(w, k) <= s.overlapThreshold {
        var i :| 0 <= i < |kept| && kept[i] == k;
        assert all[i] == k;
      }
      assert (kept + [w]) + WindowsOf(ranked[1..], duration, s) == all;
      ApartAreAllKept(ranked[1..], kept + [w], duration, s);
    }
  }

  lemma EligibleStep(candidates: seq<Candidate>, s: Settings)
    requires candidates != [] && candidates[|candidates|-1].score >= s.minScore
    ensures Eligible(candidates, s) == Eligible(candidates[..|candidates|-1], s) + [candidates[|candidates|-1]]
  {
  }

  lemma {:induction false} AllEligible(candidates: seq<Candidate>, s: Settings)
    requires forall c | c in candidates :: c.score >= s.minScore
    ensures Eligible(candidates, s) == candidates
  {
    if candidates != [] {
      var rest, last := candidates[..|candidates|-1], candidates[|candidates|-1];
      assert last in candidates;
      forall c | c in rest ensures c.score >= s.minScore {
        assert c in candidates;
      }
      EligibleStep(candidates, s);
      hide Eligible;
      AllEligible(rest, s);
      assert candidates == rest + [last];
    }
  }

  lemma {:induction false} WindowsRearranged(a: seq<Candidate>, b: seq<Candidate>, duration: real, s: Settings)
    requires multiset(a) == multiset(b)
    ensures multiset(WindowsOf(a, duration, s)) == multiset(WindowsOf(b, duration, s))
  {
    hide ToWindow;
    assert |multiset(a)| == |a| && |multiset(b)| == |b|;
    if a != [] {
      assert a[0] in multiset(b);
      var k: nat :| k < |b| && b[k] == a[0];
      WindowsWithout(a, 0, duration, s);
      WindowsWithout(b, k, duration, s);
      assert |Without(a, 0)| == |a| - 1;
      hide Without, WindowsOf;
      assert multiset(Without(a, 0)) == multiset(a) - multiset{a[0]};
      assert multiset(Without(b, k)) == multiset(b) - multiset{a[0]};
      WindowsRearranged(Without(a, 0), Without(b, k), duration, s);
    }
  }

  lemma WindowsWithout(a: seq<Candidate>, k: nat, duration: real, s: Settings)
    requires k < |a|
    ensures var all := WindowsOf(a, duration, s);
            multiset(all) == multiset(WindowsOf(Without(a, k), duration, s)) + multiset{ToWindow(a[k], duration, s)}
  {
    hide ToWindow;
    var all := WindowsOf(a, duration, s);
    assert Without(all, k) == WindowsOf(Without(a, k), duration, s);
  }

  /** Selecting among the survivors again changes nothing. */
  lemma ReselectingIsTheIdentity(candidates: seq<Candidate>, duration: real, s: Settings)
    requires s.overlapThreshold < 1.0 && Positive(Select(candidates, duration, s))
    ensures Select(CandidatesOf(Select(candidates, duration, s)), duration, s) == Select(candidates, duration, s)
  {
    var windows := Select(candidates, duration, s);
    SelectionMeetsItsSpecification(candidates, duration, s);
    var again := CandidatesOf(windows);
    hide Select, Apart, OverlapFraction, ToWindow;
    assert WindowsOf(again, duration, s) == windows by {
      forall i | 0 <= i < |windows| ensures WindowsOf(again, duration, s)[i] == windows[i] {
        assert windows[i] in windows;
      }
    }
    forall c | c in again ensures c.score >= s.minScore {
      var i :| 0 <= i < |again| && again[i] == c;
      assert windows[i] in windows;
    }
    SurvivorsSurvive(again, windows, duration, s);
  }

  lemma SurvivorsSurvive(again: seq<Candidate>, windows: seq<Window>, duration: real, s: Settings)
    requires WindowsOf(again, duration, s) == windows && forall c | c in again :: c.score >= s.minScore
    requires Apart(windows, s) && InOrder(windows, Earlier) && (|windows| <= s.maxCount || windows == [])
    requires s.overlapThreshold < 1.0 && Positive(windows)
    ensures Select(again, duration, s) == windows
  {
    AllEligible(again, s);
    var ranked := Sort(again, Better);
    assert |ranked| == |again| by { SameElements(again, Better); }
    WindowsRearranged(again, ranked, duration, s);
    var kept := WindowsOf(ranked, duration, s);
    StartsDiffer(windows, s);
    ApartInAnyOrder(windows, kept, s);
    hide Sort, Apart, OverlapFraction, ToWindow, InOrder, Positive;
    if windows == [] {
      assert ranked == [];
    } else {
      assert [] + kept == kept;
      ApartAreAllKept(ranked, [], duration, s);
    }
    EarlierIsTotal();
    SortInOrder(kept, Earlier);
    OrderIsUnique(windows, Sort(kept, Earlier), Earlier);
  }

  // ----- Order of the input -----

  lemma {:induction false} EligibleRearranged(a: seq<Candidate>, b: seq<Candidate>, s: Settings)
    requires multiset(a) == multiset(b)
    ensures multiset(Eligible(a, s)) == multiset(Eligible(b, s))
  {
    forall c ensures multiset(Eligible(a, s))[c] == multiset(Eligible(b, s))[c] {
      EligibleCount(a, s, c);
      EligibleCount(b, s, c);
    }
    assert multiset(Eligible(a, s)) == multiset(Eligible(b, s));
  }

  lemma {:induction false} EligibleCount(a: seq<Candidate>, s: Settings, c: Candidate)
    ensures multiset(Eligible(a, s))[c] == if c.score >= s.minScore then multiset(a)[c] else 0
  {
    if a != [] {
      EligibleCount(a[..|a|-1], s, c);
      assert a == a[..|a|-1] + [a[|a|-1]];
    }
  }

  predicate DistinctScores(candidates: seq<Candidate>) {
    forall i, j | 0 <= i < j < |candidates| :: candidates[i].score != candidates[j].score
  }

  /** With no two eligible scores alike, the order candidates arrive in does not matter. */
  lemma {:induction false} InputOrderDoesNotMatter(a: seq<Candidate>, b: seq<Candidate>, duration: real, s: Settings)
    requires multiset(a) == multiset(b) && DistinctScores(Eligible(a, s))
    ensures Select(a, duration, s) == Select(b, duration, s)
  {
    EligibleRearranged(a, b, s);
    BetterIsTotal();
    SortInOrder(Eligible(a, s), Better);
    SortInOrder(Eligible(b, s), Better);
    NoTiesWhenDistinct(Eligible(a, s), Ranked(a, s));
    hide Sort;
    OrderIsUnique(Ranked(a, s), Ranked(b, s), Better);
  }

  lemma NoTiesWhenDistinct(a: seq<Candidate>, b: seq<Candidate>)
    requires multiset(a) == multiset(b) && DistinctScores(a)
    ensures NoTies(b, Better)
  {
    forall i: nat, j: nat | i < j < |b| ensures b[i].score != b[j].score {
      var p, q := TwoPositions(a, b, i, j);
    }
  }

  // ----- How many fit -----

  /** How far apart neighbouring clips of a given length start, when they may overlap by a fraction t of it. */
  function Step(length: real, t: real): real { (1.0 - t) * length }

  lemma StartsAreSpread(a: Window, b: Window, length: real, t: real)
    requires a.start <= b.start && length > 0.0 && a.Duration() >= length && b.Duration() >= length
    requires t < 1.0 && OverlapFraction(a, b) <= t
    ensures b.start - a.start >= Step(length, t)
  {
    var gap := b.start - a.start;
    var overlap := Min(a.end, b.end) - b.start;
    var shortest := Min(a.Duration(), b.Duration());
    if overlap <= 0.0 {
      assert t >= 0.0 && a.end <= b.start;
      StepAtMost(length, t);
    } else {
      assert OverlapFraction(a, b) == overlap / shortest;
      assert shortest <= a.Duration() && shortest <= b.Duration() && length <= shortest;
      assert overlap == if a.end <= b.end then a.Duration() - gap else b.Duration();
      Share(overlap, shortest, t);
      StepGrows(length, shortest, t);
      Complement(t, shortest);
      hide *;
    }
  }

  lemma StepAtMost(length: real, t: real)
    requires 0.0 <= t < 1.0 && length > 0.0
    ensures Step(length, t) <= length
  {
    assert t * length >= 0.0;
  }

  lemma StepGrows(x: real, y: real, t: real)
    requires t < 1.0 && x <= y
    ensures Step(x, t) <= Step(y, t)
  {
    var k := 1.0 - t;
    assert k * x <= k * y;
  }

  lemma Share(part: real, whole: real, t: real)
    requires whole > 0.0 && part / whole <= t
    ensures part <= whole - Step(whole, t)
  {
    var r := part / whole;
    assert part == r * whole;
    assert r * whole <= t * whole;
  }

  lemma Complement(t: real, x: real)
    requires t < 1.0 && x > 0.0
    ensures Step(x, t) > 0.0
  {
    var k := 1.0 - t;
    assert k * x > 0.0;
  }

  function Times(n: nat, step: real): real { if n == 0 then 0.0 else Times(n - 1, step) + step }

  lemma {:induction false} TimesIsProduct(n: nat, step: real)
    ensures Times(n, step) == n as real * step
  {
    if n > 0 {
      TimesIsProduct(n - 1, step);
      var k := (n - 1) as real;
      assert n as real == k + 1.0;
      assert (k + 1.0) * step == k * step + step;
    }
  }

  /** n windows whose neighbours start `step` apart stretch over n - 1 such steps. */
  lemma {:induction false} Spread(windows: seq<Window>, step: real)
    requires windows != []
    requires forall i, j | 0 <= i && j == i + 1 < |windows| :: windows[j].start - windows[i].start >= step
    ensures windows[|windows|-1].start - windows[0].start >= Times(|windows| - 1, step)
  {
    if |windows| > 1 {
      Spread(windows[..|windows|-1], step);
    }
  }

  /** The time n clips of a length need when neighbours may overlap by a fraction t of it. */
  function Room(n: nat, length: real, t: real): real
    requires n > 0
  {
    Times(n - 1, Step(length, t)) + length
  }

  /** In closed form: n more clips than one need n * (1 - t) * length + length. */
  lemma RoomIs(n: nat, length: real, t: real)
    ensures Room(n + 1, length, t) == n as real * Step(length, t) + length
  {
    var step := Step(length, t);
    assert Room(n + 1, length, t) == Times(n, step) + length;
    hide *;
    TimesIsProduct(n, step);
  }

  lemma NeighboursAreSpread(windows: seq<Window>, length: real, s: Settings)
    requires s.overlapThreshold < 1.0 && length > 0.0
    requires Apart(windows, s) && InOrder(windows, Earlier) && forall w | w in windows :: w.Duration() >= length
    ensures forall i, j | 0 <= i && j == i + 1 < |windows| ::
              windows[j].start - windows[i].start >= Step(length, s.overlapThreshold)
  {
    hide OverlapFraction, Step;
    forall i, j | 0 <= i && j == i + 1 < |windows|
      ensures windows[j].start - windows[i].start >= Step(length, s.overlapThreshold)
    {
      var a, b := windows[i], windows[j];
      assert a in windows && b in windows && Earlier(a, b);
      assert OverlapFraction(a, b) <= s.overlapThreshold;
      StartsAreSpread(a, b, length, s.overlapThreshold);
    }
  }

  /**
   * Packing: clips of at least a given length within 0..end need no more room than there
   * is, whatever the candidates.
   */
  lemma ClipsFit(candidates: seq<Candidate>, duration: real, s: Settings, length: real, end: real)
    requires s.overlapThreshold < 1.0 && length > 0.0
    requires forall w | w in Select(candidates, duration, s) :: w.start >= 0.0 && w.Duration() >= length && w.end <= end
    requires Select(candidates, duration, s) != []
    ensures Room(|Select(candidates, duration, s)|, length, s.overlapThreshold) <= end
  {
    hide Step;
    var windows := Select(candidates, duration, s);
    SelectionMeetsItsSpecification(candidates, duration, s);
    NeighboursAreSpread(windows, length, s);
    Spread(windows, Step(length, s.overlapThreshold));
    hide Select, Apart, Times;
    var last := windows[|windows|-1];
    assert windows[0] in windows && last in windows;
    assert last.end - last.start >= length;
  }

  predicate Unclamped(c: Candidate, duration: real, s: Settings) {
    s.preRoll <= c.timestamp && c.timestamp + s.postRoll <= duration
  }

  lemma UnclampedWindow(c: Candidate, duration: real, s: Settings)
    requires Unclamped(c, duration, s) && s.preRoll + s.postRoll > 0.0
    ensures var w := ToWindow(c, duration, s);
            w.start >= 0.0 && w.Duration() >= s.preRoll + s.postRoll - 0.001 && w.end <= duration + 0.0005
    ensures OnGrid(c.timestamp) && OnGrid(s.preRoll) && OnGrid(s.postRoll) ==>
              ToWindow(c, duration, s).Duration() == s.preRoll + s.postRoll && ToWindow(c, duration, s).end <= duration
  {
    var exact := ExactWindow(c, duration, s);
    hide Round3;
    Round3Near(exact.start);
    Round3Near(exact.end);
    Round3Monotone(0.0, exact.start);
    Round3Fixes(0.0);
    Round3Fixes(exact.start);
    Round3Fixes(exact.end);
    if OnGrid(c.timestamp) && OnGrid(s.preRoll) && OnGrid(s.postRoll) {
      GridSum(c.timestamp, s.preRoll, s.postRoll);
    }
  }

  lemma GridSum(t: real, pre: real, post: real)
    requires OnGrid(t) && OnGrid(pre) && OnGrid(post)
    ensures OnGrid(t - pre) && OnGrid(t + post)
  {
    var a, b, c := (t * 1000.0).Floor, (pre * 1000.0).Floor, (post * 1000.0).Floor;
    assert (t - pre) * 1000.0 == (a - b) as real;
    assert (t + post) * 1000.0 == (a + c) as real;
    WholeFloor(a - b);
    WholeFloor(a + c);
  }

  /**
   * For unclamped candidates, clips last L = pre + post to within the millisecond of
   * rounding, so no more survive than fit at that length.
   */
  lemma UnclampedClipsFit(candidates: seq<Candidate>, duration: real, s: Settings)
    requires s.overlapThreshold < 1.0 && s.preRoll + s.postRoll > 0.001
    requires forall w | w in Select(candidates, duration, s) :: Unclamped(w.candidate, duration, s)
    requires Select(candidates, duration, s) != []
    ensures Room(|Select(candidates, duration, s)|, s.preRoll + s.postRoll - 0.001, s.overlapThreshold)
            <= duration + 0.0005
  {
    var windows := Select(candidates, duration, s);
    SelectionMeetsItsSpecification(candidates, duration, s);
    hide Select, ToWindow, Room;
    forall w | w in windows
      ensures w.start >= 0.0 && w.Duration() >= s.preRoll + s.postRoll - 0.001 && w.end <= duration + 0.0005
    {
      UnclampedWindow(w.candidate, duration, s);
    }
    ClipsFit(candidates, duration, s, s.preRoll + s.postRoll - 0.001, duration + 0.0005);
  }

  /** With everything in whole milliseconds rounding does nothing, and the bound is exact. */
  lemma WholeMillisecondClipsFit(candidates: seq<Candidate>, duration: real, s: Settings)
    requires s.overlapThreshold < 1.0 && s.preRoll + s.postRoll > 0.0 && OnGrid(s.preRoll) && OnGrid(s.postRoll)
    requires forall w | w in Select(candidates, duration, s) ::
      Unclamped(w.candidate, duration, s) && OnGrid(w.candidate.timestamp)
    requires Select(candidates, duration, s) != []
    ensures Room(|Select(candidates, duration, s)|, s.preRoll + s.postRoll, s.overlapThreshold) <= duration
  {
    var windows := Select(candidates, duration, s);
    SelectionMeetsItsSpecification(candidates, duration, s);
    hide Select, ToWindow, Room;
    forall w | w in windows ensures w.start >= 0.0 && w.Duration() >= s.preRoll + s.postRoll && w.end <= duration {
      UnclampedWindow(w.candidate, duration, s);
    }
    ClipsFit(candidates, duration, s, s.preRoll + s.postRoll, duration);
  }

  // ----- What the measure and the window mean -----

  /** The fraction lies in 0..1, and a clip inside another overlaps it fully, however long the other is. */
  lemma OverlapIsAFraction(a: Window, b: Window)
    ensures 0.0 <= OverlapFraction(a, b) <= 1.0
    ensures a.start <= b.start <= b.end <= a.end && b.Duration() > 0.0 ==> OverlapFraction(a, b) == 1.0
  {
    var overlap := Min(a.end, b.end) - Max(a.start, b.start);
    var shortest := Min(a.Duration(), b.Duration());
    if overlap > 0.0 && shortest > 0.0 {
      PartOfWhole(overlap, shortest);
    }
  }

  lemma PartOfWhole(part: real, whole: real)
    requires 0.0 < part <= whole
    ensures 0.0 <= part / whole <= 1.0 && (part == whole ==> part / whole == 1.0)
  {
  }

  /**
   * The window holds the moment it was opened for, and never more than the configured
   * roll on either side, or one second.
   */
  lemma WindowHoldsItsMoment(c: Candidate, duration: real, s: Settings)
    requires 0.0 <= c.timestamp <= duration && s.preRoll >= 0.0 && s.postRoll >= 0.0
    ensures var w := ExactWindow(c, duration, s);
            && 0.0 <= w.start <= c.timestamp <= w.end <= duration
            && c.timestamp - w.start <= s.preRoll
            && (w.end - c.timestamp <= s.postRoll || w.Duration() <= 1.0)
  {
  }

  /**
   * Where a window opens and closes: the configured roll before and after the moment, or
   * the edge of the recording if that comes first; a window that would be empty gets a
   * second, as far as there is one. Rounding moves either end by at most half a millisecond.
   */
  lemma WindowEdges(c: Candidate, duration: real, s: Settings)
    ensures var w, exact := ToWindow(c, duration, s), ExactWindow(c, duration, s);
            var opens := c.timestamp - s.preRoll;
            var closes := c.timestamp + s.postRoll;
            && exact.start == (if opens > 0.0 then opens else 0.0)
            && (exact.start < closes && exact.start < duration ==>
                  exact.end == if closes < duration then closes else duration)
            && (closes <= exact.start || duration <= exact.start ==>
                  exact.end == if exact.start + 1.0 < duration then exact.start + 1.0 else duration)
            && -0.0005 <= w.start - exact.start <= 0.0005 && -0.0005 <= w.end - exact.end <= 0.0005
            && w.candidate == c
  {
    var exact := ExactWindow(c, duration, s);
    Round3Near(exact.start);
    Round3Near(exact.end);
    hide Round3;
  }

  /** Windows of one length, shifted against each other by part of it, overlap by what is left of the length. */
  lemma OverlapOfShifted(a: Window, shift: real, c: Candidate)
    requires a.start < a.end && 0.0 <= shift <= a.Duration()
    ensures OverlapFraction(a, Window(a.start + shift, a.end + shift, c)) == (a.Duration() - shift) / a.Duration()
  {
  }

  /** Two windows overlap at all exactly when both are open at some moment strictly between their ends. */
  lemma OverlapExactly(a: Window, b: Window)
    requires a.start < a.end && b.start < b.end
    ensures OverlapFraction(a, b) > 0.0 <==> a.start < b.end && b.start < a.end
  {
    var overlap, shortest := Min(a.end, b.end) - Max(a.start, b.start), Min(a.Duration(), b.Duration());
    if overlap > 0.0 {
      var r := overlap / shortest;
      assert r * shortest == overlap;
      if r <= 0.0 {
        ProductOfSigns(r, shortest);
      }
    }
  }

  lemma ProductOfSigns(a: real, b: real)
    requires a <= 0.0 && b > 0.0
    ensures a * b <= 0.0
  {
  }
}
