/** Peaks of the fused scores as candidates, and the clip windows they open. */
module Peaks {
  import opened Rounding
  import opened Selection
  import opened Signals

  const PEAK_MARGIN := 0.02

  function ScoreAt(fused: seq<Moment>, i: int): real {
    if 0 <= i < |fused| then fused[i].score else -1.0
  }

  /** Clears its left neighbour by the margin and is not below its right one. */
  predicate IsPeak(fused: seq<Moment>, i: nat)
    requires i < |fused|
  {
    fused[i].score >= ScoreAt(fused, i - 1) + PEAK_MARGIN && fused[i].score >= ScoreAt(fused, i + 1)
  }

  function PeaksUpTo(fused: seq<Moment>, n: nat): seq<Moment>
    requires n <= |fused|
  {
    if n == 0 then [] else PeaksUpTo(fused, n - 1) + (if IsPeak(fused, n - 1) then [fused[n-1]] else [])
  }

  function PeaksOf(fused: seq<Moment>): seq<Moment> {
    if |fused| < 3 || PeaksUpTo(fused, |fused|) == [] then fused else PeaksUpTo(fused, |fused|)
  }

  method FindPeaks(fused: seq<Moment>) returns (peaks: seq<Moment>)
    ensures peaks == PeaksOf(fused)
  {
    if |fused| < 3 {
      return fused;
    }
    peaks := [];
    for i := 0 to |fused|
      invariant peaks == PeaksUpTo(fused, i)
    {
      var previous := if i > 0 then fused[i-1].score else -1.0;
      var following := if i + 1 < |fused| then fused[i+1].score else -1.0;
      if fused[i].score >= previous + PEAK_MARGIN && fused[i].score >= following {
        peaks := peaks + [fused[i]];
      }
    }
    if peaks == [] {
      peaks := fused;
    }
  }

  lemma {:induction false} PeaksAreThePeaks(fused: seq<Moment>, n: nat, m: Moment)
    requires n <= |fused|
    ensures m in PeaksUpTo(fused, n) <==> exists i: nat :: i < n && m == fused[i] && IsPeak(fused, i)
  {
    if n > 0 {
      PeaksAreThePeaks(fused, n - 1, m);
      hide IsPeak;
    }
  }

  /**
   * Among three moments or more, the result is exactly the local maxima, no two of which
   * are neighbours, or everything when there are none; it is empty only for no moments.
   */
  lemma LocalMaximaOnly(fused: seq<Moment>)
    ensures forall i: nat, j: nat | j == i + 1 < |fused| :: !(IsPeak(fused, i) && IsPeak(fused, j))
    ensures |fused| >= 3 ==> forall m :: m in PeaksOf(fused) <==>
              || (exists i: nat :: i < |fused| && m == fused[i] && IsPeak(fused, i))
              || (m in fused && forall i: nat | i < |fused| :: !IsPeak(fused, i))
    ensures PeaksOf(fused) == [] <==> fused == []
    ensures forall m | m in PeaksOf(fused) :: m in fused
  {
    var peaks := PeaksUpTo(fused, |fused|);
    forall i: nat, j: nat | j == i + 1 < |fused| ensures !(IsPeak(fused, i) && IsPeak(fused, j)) {
    }
    hide IsPeak;
    forall m ensures m in peaks <==> exists i: nat :: i < |fused| && m == fused[i] && IsPeak(fused, i) {
      PeaksAreThePeaks(fused, |fused|, m);
    }
    if peaks == [] {
      forall i: nat | i < |fused| ensures !IsPeak(fused, i) {
        assert fused[i] !in peaks;
      }
    } else {
      assert peaks[0] in peaks;
    }
    hide PeaksUpTo;
  }

  // ----- Candidates -----

  datatype Made = Made(candidate: Candidate) | Rejected

  /** The constructor's checks. */
  function MakeCandidate(timestamp: real, score: real): Made {
    if !(0.0 <= score <= 1.0) || timestamp < 0.0 then Rejected else Made.Made(Candidate(timestamp, score, map[]))
  }

  lemma FusedMoment(computed: seq<Signal>, weights: map<string, real>, buckets: nat, m: Moment)
    requires Graded(computed) && NonNegative(weights) && m in PeaksOf(Fused(computed, weights, buckets))
    ensures m.bucket < buckets && 0.0 <= m.score <= 0.99 && m.timestamp == m.bucket as real + 0.5
  {
    var fused := Fused(computed, weights, buckets);
    LocalMaximaOnly(fused);
    if TotalWeight(computed, weights) > 0.0 {
      FusedIsExact(computed, weights, buckets);
    }
  }

  /** No detected moment is rejected on the way to being a candidate. */
  lemma CandidatesAreNeverRejected(computed: seq<Signal>, weights: map<string, real>, buckets: nat, m: Moment)
    requires Graded(computed) && NonNegative(weights) && m in PeaksOf(Fused(computed, weights, buckets))
    ensures MakeCandidate(m.timestamp, m.score) == Made.Made(Candidate(m.timestamp, m.score, map[]))
  {
    FusedMoment(computed, weights, buckets, m);
  }

  // ----- Windows -----

  lemma LastBucketStartsInside(duration: real, bucket: nat)
    requires duration > 0.0 && bucket < Buckets(duration)
    ensures bucket as real < duration
  {
    var floor := (-duration).Floor;
    assert bucket == 0 || bucket <= -floor - 1;
  }

  /** In exact arithmetic every window opened from a bucket is a non-empty part of the recording. */
  lemma ExactWindowsFit(c: Candidate, bucket: nat, duration: real, s: Settings)
    requires duration > 0.0 && bucket < Buckets(duration) && c.timestamp == bucket as real + 0.5 && s.preRoll >= 0.5
    ensures var w := ExactWindow(c, duration, s);
            0.0 <= w.start < w.end <= duration
  {
    LastBucketStartsInside(duration, bucket);
  }

  lemma AgainstAnEven(x: real, half: int)
    ensures var n := 2 * half;
            && (HalfEven(x) < n <==> x < n as real - 0.5)
            && (HalfEven(x) > n <==> x > n as real + 0.5)
  {
    var n := 2 * half;
    var below := x.Floor;
    assert below < n - 1 || below == n - 1 || below == n || below > n;
  }

  /** A whole second is an even number of milliseconds, so values half a millisecond away still round to it. */
  lemma AgainstAWholeSecond(x: real, second: int)
    ensures Round3(x) < second as real <==> x < second as real - 0.0005
    ensures Round3(x) > second as real <==> x > second as real + 0.0005
  {
    var ms := 1000 * second;
    assert ms as real == 1000.0 * second as real;
    AgainstAnEven(x * 1000.0, 500 * second);
    hide HalfEven;
  }

  /** What a recording must outlast for the clip of a bucket to keep a length. */
  function Needed(bucket: nat, s: Settings): real {
    if s.preRoll > 0.5005 then 0.0005 else bucket as real + 0.0005
  }

  /**
   * After rounding to milliseconds a clip has a positive length exactly when the recording
   * outlasts half a millisecond, or, with a pre-roll within half a millisecond of half a
   * second, outlasts the start of the clip's bucket by as much.
   */
  lemma WindowsHaveLength(c: Candidate, bucket: nat, duration: real, s: Settings)
    requires duration > 0.0 && bucket < Buckets(duration) && c.timestamp == bucket as real + 0.5
    requires s.preRoll >= 0.5 && s.postRoll >= 0.0
    ensures ToWindow(c, duration, s).Duration() > 0.0 <==> duration > Needed(bucket, s)
  {
    LastBucketStartsInside(duration, bucket);
    var exact := ExactWindow(c, duration, s);
    assert bucket as real < exact.end && exact.start <= bucket as real;
    hide Round3;
    AgainstAWholeSecond(exact.start, bucket);
    AgainstAWholeSecond(exact.end, bucket);
    AgainstAWholeSecond(exact.start, 0);
    AgainstAWholeSecond(exact.end, 0);
  }

  /** For instance, with a pre-roll of exactly half a second the last bucket of this recording gets an empty clip. */
  lemma RoundingMayEmptyAClip()
    ensures var s := Settings(0.5, 0.0, 0.35, 20, 0.5);
            var c := Candidate(10.5, 0.9, map[]);
            && 10 < Buckets(10.0001)
            && ExactWindow(c, 10.0001, s).Duration() > 0.0 && ToWindow(c, 10.0001, s).Duration() == 0.0
  {
    assert (-10.0001).Floor == -11;
    assert (10000.0).Floor == 10000 && (10000.1).Floor == 10000;
  }

  // ----- The chain -----

  function CandidatesFrom(moments: seq<Moment>): seq<Candidate> {
    seq(|moments|, i requires 0 <= i < |moments| => Candidate(moments[i].timestamp, moments[i].score, map[]))
  }

  function Detected(computed: seq<Signal>, weights: map<string, real>, duration: real): seq<Candidate> {
    CandidatesFrom(PeaksOf(Fused(computed, weights, Buckets(duration))))
  }

  /**
   * From tracks to clips: whatever the signals, on a recording that outlasts what its last
   * bucket needs the selected clips have positive length, start strictly after one another,
   * and survive being selected again unchanged.
   */
  lemma ReelIsWellFormed(computed: seq<Signal>, weights: map<string, real>, duration: real, s: Settings)
    requires Graded(computed) && NonNegative(weights) && duration > 0.0 && duration > Needed(Buckets(duration) - 1, s)
    requires s.preRoll >= 0.5 && s.postRoll >= 0.0 && s.overlapThreshold < 1.0
    ensures var windows := Select(Detected(computed, weights, duration), duration, s);
            && Positive(windows)
            && (forall i, j | 0 <= i < j < |windows| :: windows[i].start < windows[j].start)
            && Select(CandidatesOf(windows), duration, s) == windows
  {
    var moments := PeaksOf(Fused(computed, weights, Buckets(duration)));
    var candidates := Detected(computed, weights, duration);
    var windows := Select(candidates, duration, s);
    SelectionMeetsItsSpecification(candidates, duration, s);
    hide PeaksOf, Fused, Select, ToWindow, Apart, Accounted, Buckets;
    forall w | w in windows ensures w.Duration() > 0.0 {
      var i :| 0 <= i < |candidates| && candidates[i] == w.candidate;
      assert moments[i] in moments;
      FusedMoment(computed, weights, Buckets(duration), moments[i]);
      WindowsHaveLength(w.candidate, moments[i].bucket, duration, s);
    }
    StartsStrictlyIncrease(candidates, duration, s);
    ReselectingIsTheIdentity(candidates, duration, s);
  }

  /** Every clip is the window of a peak that scores high enough. */
  lemma ClipsShowPeaks(computed: seq<Signal>, weights: map<string, real>, duration: real, s: Settings, w: Window)
    requires w in Select(Detected(computed, weights, duration), duration, s)
    ensures exists m :: m in PeaksOf(Fused(computed, weights, Buckets(duration))) && m.score >= s.minScore
                        && w == ToWindow(Candidate(m.timestamp, m.score, map[]), duration, s)
  {
    var moments := PeaksOf(Fused(computed, weights, Buckets(duration)));
    var candidates := Detected(computed, weights, duration);
    SelectionMeetsItsSpecification(candidates, duration, s);
    hide PeaksOf, Fused, Select, ToWindow, Apart, Accounted, Buckets;
    var i :| 0 <= i < |candidates| && candidates[i] == w.candidate;
    assert moments[i] in moments;
  }

  /** And the highest peak, the first of those that tie, always has its clip. */
  lemma TheBestPeakIsShown(computed: seq<Signal>, weights: map<string, real>, duration: real, s: Settings, i: nat)
    requires var peaks := PeaksOf(Fused(computed, weights, Buckets(duration)));
             && i < |peaks| && peaks[i].score >= s.minScore && s.maxCount >= 1
             && (forall j | 0 <= j < |peaks| :: peaks[j].score <= peaks[i].score)
             && (forall j | 0 <= j < i :: peaks[j].score < peaks[i].score)
    ensures var best := PeaksOf(Fused(computed, weights, Buckets(duration)))[i];
            ToWindow(Candidate(best.timestamp, best.score, map[]), duration, s)
            in Select(Detected(computed, weights, duration), duration, s)
  {
    var candidates := Detected(computed, weights, duration);
    hide PeaksOf, Fused, Select, ToWindow, Buckets;
    TheBestIsShown(candidates, duration, s, i);
  }

  /**
   * Which moments survive, written out: of fewer than three, all; of more, those at least
   * 0.02 above the one before and not below the one after, or all when there are none.
   */
  lemma PeaksWrittenOut(fused: seq<Moment>, i: nat)
    requires i < |fused|
    ensures IsPeak(fused, i) <==>
              && (if i == 0 then fused[0].score >= -0.98 else fused[i].score >= fused[i-1].score + 0.02)
              && (if i + 1 < |fused| then fused[i].score >= fused[i+1].score else fused[i].score >= -1.0)
    ensures |fused| < 3 ==> PeaksOf(fused) == fused
    ensures (forall j: nat | j < |fused| :: !IsPeak(fused, j)) ==> PeaksOf(fused) == fused
  {
    if forall j: nat | j < |fused| :: !IsPeak(fused, j) {
      NoPeaks(fused, |fused|);
    }
  }

  predicate InMatchOrder(moments: seq<Moment>) {
    forall i, j | 0 <= i < j < |moments| :: moments[i].bucket < moments[j].bucket
  }

  /** And they stay in match order, each once. */
  lemma PeaksStayInOrder(fused: seq<Moment>)
    requires InMatchOrder(fused)
    ensures InMatchOrder(PeaksOf(fused))
  {
    PeaksInOrder(fused, |fused|);
  }

  lemma {:induction false} PeaksInOrder(fused: seq<Moment>, n: nat)
    requires n <= |fused| && InMatchOrder(fused)
    ensures InMatchOrder(PeaksUpTo(fused, n))
    ensures n < |fused| ==> forall m | m in PeaksUpTo(fused, n) :: m.bucket < fused[n].bucket
  {
    if n > 0 {
      hide IsPeak;
      PeaksInOrder(fused, n - 1);
      var rest := PeaksUpTo(fused, n - 1);
      assert forall i | 0 <= i < |rest| :: rest[i] in rest;
    }
  }

  lemma {:induction false} NoPeaks(fused: seq<Moment>, n: nat)
    requires n <= |fused| && forall j: nat | j < n :: !IsPeak(fused, j)
    ensures PeaksUpTo(fused, n) == []
  {
    if n > 0 {
      NoPeaks(fused, n - 1);
    }
  }
}
