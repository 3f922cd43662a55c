/** Even thinning of frames and samples, and how detections are numbered and timed. */
module Sampling {
  import opened Boxes
  import opened Tracking
  import opened Tracks

  /** `int(index * stride)` for stride = count / limit. */
  function Kept(index: nat, count: nat, limit: nat): int
    requires limit > 0
  {
    (index as real * (count as real / limit as real)).Floor
  }

  function Thin<T>(s: seq<T>, limit: nat): (r: seq<T>)
    requires limit > 0
    ensures |r| == if |s| > limit then limit else |s|
    ensures |s| <= limit ==> r == s
  {
    if |s| <= limit then s
    else
      seq(limit, i requires 0 <= i < limit => (KeptInRange(i, |s|, limit); s[Kept(i, |s|, limit)]))
  }

  lemma KeptIsAFraction(index: nat, count: nat, limit: nat)
    requires limit > 0
    ensures var kept, exact := Kept(index, count, limit), index as real * (count as real / limit as real);
            && kept as real <= exact < kept as real + 1.0
            && exact * limit as real == (index * count) as real
  {
    var c, l := count as real, limit as real;
    assert c / l * l == c;
    Regroup(index as real, c / l, l);
    assert (index * count) as real == index as real * count as real;
  }

  lemma Regroup(a: real, b: real, c: real)
    ensures a * b * c == a * (b * c)
  {
  }

  lemma KeptInRange(index: nat, count: nat, limit: nat)
    requires limit > 0 && index < limit && count > limit
    ensures 0 <= Kept(index, count, limit) < count
  {
    var stride := count as real / limit as real;
    var exact := index as real * stride;
    assert stride * limit as real == count as real;
    Scale(0.0, stride, index as real);
    if exact >= count as real {
      Scale2(index as real, limit as real, stride);
      assert false;
    }
  }

  lemma Scale(a: real, b: real, k: real)
    requires a <= b && k >= 0.0
    ensures k * a <= k * b
  {
  }

  lemma Scale2(a: real, b: real, k: real)
    requires a < b && k > 0.0
    ensures a * k < b * k
  {
  }

  lemma StrideIsMoreThanOne(count: nat, limit: nat)
    requires count > limit > 0
    ensures count as real / limit as real > 1.0
  {
    var stride := count as real / limit as real;
    assert stride * limit as real == count as real;
    if stride <= 1.0 {
      Scale(stride, 1.0, limit as real);
      assert false;
    }
  }

  lemma NextIsLater(index: nat, count: nat, limit: nat)
    requires count > limit > 0
    ensures Kept(index, count, limit) < Kept(index + 1, count, limit)
  {
    StrideIsMoreThanOne(count, limit);
    var stride := count as real / limit as real;
    assert (index + 1) as real * stride == index as real * stride + stride;
  }

  lemma {:induction false} LaterIsLater(i: nat, j: nat, count: nat, limit: nat)
    requires count > limit > 0 && i < j
    ensures Kept(i, count, limit) < Kept(j, count, limit)
  {
    NextIsLater(j - 1, count, limit);
    if i < j - 1 {
      LaterIsLater(i, j - 1, count, limit);
    }
  }

  /** Thinning keeps exactly `limit` elements, at strictly increasing places beginning with the first. */
  lemma ThinningIsEven<T>(s: seq<T>, limit: nat)
    requires 0 < limit < |s|
    ensures |Thin(s, limit)| == limit && Kept(0, |s|, limit) == 0
    ensures forall i: nat | i < limit :: 0 <= Kept(i, |s|, limit) < |s| && Thin(s, limit)[i] == s[Kept(i, |s|, limit)]
    ensures forall i: nat, j: nat | i < j < limit :: Kept(i, |s|, limit) < Kept(j, |s|, limit)
  {
    forall i: nat | i < limit ensures 0 <= Kept(i, |s|, limit) < |s| && Thin(s, limit)[i] == s[Kept(i, |s|, limit)] {
      KeptInRange(i, |s|, limit);
    }
    forall i: nat, j: nat | i < j < limit ensures Kept(i, |s|, limit) < Kept(j, |s|, limit) {
      LaterIsLater(i, j, |s|, limit);
    }
  }

  // ----- Timestamps -----

  function EffectiveRate(fps: real, count: nat, limit: nat): real
    requires limit > 0
  {
    if count > limit then fps / (count as real / limit as real) else fps
  }

  function ReportedTime(index: nat, rate: real): real {
    index as real / if rate > 0.01 then rate else 0.01
  }

  lemma SwapDivision(a: real, fps: real, stride: real)
    requires fps > 0.0 && stride > 0.0
    ensures fps / stride > 0.0 && a / (fps / stride) * fps == a * stride
  {
    var rate := fps / stride;
    assert rate * stride == fps;
    if rate <= 0.0 {
      Scale(rate, 0.0, stride);
      assert false;
    }
    var q := a / rate;
    assert q * rate == a;
    Regroup(q, rate, stride);
  }

  /**
   * While the thinned rate stays at or above one frame in a hundred seconds, a kept frame
   * is reported less than one original sampling period after its true time, never before it.
   */
  lemma ReportedWithinAPeriod(index: nat, fps: real, count: nat, limit: nat)
    requires fps > 0.0 && 0 < limit < count && index < limit && EffectiveRate(fps, count, limit) >= 0.01
    ensures var reported := ReportedTime(index, EffectiveRate(fps, count, limit));
            var behind := reported * fps - Kept(index, count, limit) as real;
            0.0 <= behind < 1.0
  {
    StrideIsMoreThanOne(count, limit);
    SwapDivision(index as real, fps, count as real / limit as real);
    KeptIsAFraction(index, count, limit);
  }

  /** How many original periods after its true time a kept frame is reported; negative means early. */
  function Lateness(index: nat, fps: real, count: nat, limit: nat): real
    requires limit > 0
  {
    ReportedTime(index, EffectiveRate(fps, count, limit)) * fps - Kept(index, count, limit) as real
  }

  lemma RateAgainstStride(fps: real, stride: real)
    requires stride > 0.0
    ensures fps / stride < 0.01 <==> 100.0 * fps < stride
  {
    var rate := fps / stride;
    assert rate * stride == fps;
    if rate < 0.01 {
      Scale2(rate, 0.01, stride);
    } else {
      Scale(0.01, rate, stride);
    }
  }

  lemma EarlyBy(index: real, fps: real, stride: real, periods: real)
    requires index * (stride - 100.0 * fps) > periods + 1.0
    ensures index / 0.01 * fps - (index * stride - 1.0) < -periods
  {
    assert index / 0.01 == 100.0 * index;
    assert index * (stride - 100.0 * fps) == index * stride - 100.0 * index * fps;
  }

  /**
   * Below that rate the floor of 0.01 takes over and times are reported too early, by as
   * many periods as one likes: the index only has to be large enough.
   */
  lemma SlowRatesAreMisreported(index: nat, fps: real, count: nat, limit: nat, periods: real)
    requires fps > 0.0 && 0 < limit < count && EffectiveRate(fps, count, limit) < 0.01
    requires index as real * (count as real / limit as real - 100.0 * fps) > periods + 1.0
    ensures Lateness(index, fps, count, limit) < -periods
  {
    KeptIsAFraction(index, count, limit);
    EarlyBy(index as real, fps, count as real / limit as real, periods);
  }

  lemma SameStride(count: nat, limit: nat, k: nat)
    requires limit > 0 && k > 0
    ensures k * limit > 0 && (k * count) as real / (k * limit) as real == count as real / limit as real
  {
    var c, l, m := count as real, limit as real, k as real;
    assert (k * count) as real == m * c && (k * limit) as real == m * l;
    var r := c / l;
    assert c == r * l;
    Regroup(m, r, l);
    assert m * c == r * (m * l);
    assert m * l > 0.0;
  }

  predicate WithinAPeriod(index: nat, fps: real, count: nat, limit: nat)
    requires limit > 0
  {
    -1.0 <= Lateness(index, fps, count, limit) <= 1.0
  }

  /** An index beyond any given bound on its product with a positive number. */
  lemma LargeEnough(d: real, bound: real) returns (index: nat)
    requires d > 0.0 && bound > 0.0
    ensures index as real * d > bound
  {
    index := (bound / d).Floor + 1;
    assert index as real > bound / d;
    Scale2(bound / d, index as real, d);
  }

  lemma ScaledUp(fps: real, count: nat, limit: nat, k: nat)
    requires 0 < limit < count && k > 0
    ensures 0 < k * limit < k * count && EffectiveRate(fps, k * count, k * limit) == EffectiveRate(fps, count, limit)
  {
    SameStride(count, limit, k);
    assert k * limit < k * count;
  }

  /** Every kept frame, of every recording thinned by this stride, is timed within a period. */
  ghost predicate TimedWell(fps: real, count: nat, limit: nat)
    requires limit > 0
  {
    forall k: nat, index: nat | k > 0 && index < k * limit ::
             k * limit > 0 && WithinAPeriod(index, fps, k * count, k * limit)
  }

  lemma FastRatesAreTimedWell(fps: real, count: nat, limit: nat)
    requires fps > 0.0 && 0 < limit < count && EffectiveRate(fps, count, limit) >= 0.01
    ensures TimedWell(fps, count, limit)
  {
    forall k: nat, index: nat | k > 0 && index < k * limit
      ensures k * limit > 0 && WithinAPeriod(index, fps, k * count, k * limit)
    {
      ScaledUp(fps, count, limit, k);
      hide EffectiveRate, ReportedTime, Kept;
      ReportedWithinAPeriod(index, fps, k * count, k * limit);
    }
  }

  lemma SlowRatesAreNot(fps: real, count: nat, limit: nat) returns (k: nat, index: nat)
    requires fps > 0.0 && 0 < limit < count && EffectiveRate(fps, count, limit) < 0.01
    ensures k > 0 && index < k * limit && !WithinAPeriod(index, fps, k * count, k * limit)
  {
    var stride := count as real / limit as real;
    StrideIsMoreThanOne(count, limit);
    RateAgainstStride(fps, stride);
    index := LargeEnough(stride - 100.0 * fps, 2.0);
    k := index + 1;
    ScaledUp(fps, count, limit, k);
    SameStride(count, limit, k);
    hide EffectiveRate, Lateness;
    SlowRatesAreMisreported(index, fps, k * count, k * limit, 1.0);
    AtLeastAsMany(k, limit);
  }

  lemma AtLeastAsMany(k: nat, limit: nat)
    requires limit > 0
    ensures k <= k * limit
  {
  }

  /** The rate decides it: a stride times its frames well exactly when the thinned rate is at least 0.01. */
  lemma RateDecidesTiming(fps: real, count: nat, limit: nat)
    requires fps > 0.0 && 0 < limit < count
    ensures EffectiveRate(fps, count, limit) >= 0.01 <==> TimedWell(fps, count, limit)
  {
    if EffectiveRate(fps, count, limit) >= 0.01 {
      FastRatesAreTimedWell(fps, count, limit);
    } else {
      hide EffectiveRate, WithinAPeriod;
      var k, index := SlowRatesAreNot(fps, count, limit);
    }
  }

  // ----- Detection -----

  /** What the detector returns for the k-th frame it is given. */
  function DetectionAt(k: nat, fps: real, boxes: seq<Box>): FrameDetections {
    FrameDetections(k, ReportedTime(k, fps), boxes)
  }

  /** Frames go through the model in batches; `found` is what the model sees in each. */
  method Detect(found: seq<seq<Box>>, fps: real, batchSize: nat) returns (results: seq<FrameDetections>)
    requires batchSize > 0
    ensures |results| == |found| && forall k | 0 <= k < |results| :: results[k] == DetectionAt(k, fps, found[k])
  {
    results := [];
    var start := 0;
    while start < |found|
      invariant |results| == if start < |found| then start else |found|
      invariant forall k | 0 <= k < |results| :: results[k] == DetectionAt(k, fps, found[k])
    {
      var end := if start + batchSize < |found| then start + batchSize else |found|;
      var batch := found[start..end];
      for offset := 0 to |batch|
        invariant |results| == start + offset
        invariant forall k | 0 <= k < |results| :: results[k] == DetectionAt(k, fps, found[k])
      {
        results := results + [DetectionAt(start + offset, fps, batch[offset])];
      }
      start := start + batchSize;
    }
  }

  /**
   * So the frames the tracker is handed hold what the model saw, numbered in a row, as its
   * continuity needs, and timed by their number: one period apart, at most a hundred seconds.
   */
  lemma DetectionsAreNumbered(results: seq<FrameDetections>, found: seq<seq<Box>>, fps: real, t: Tuning)
    requires |results| == |found| && forall k | 0 <= k < |results| :: results[k] == DetectionAt(k, fps, found[k])
    ensures Numbered(results)
    ensures forall k | 0 <= k < |results| ::
              && results[k].boxes == found[k]
              && if fps > 0.01 then results[k].timestamp * fps == k as real
                 else results[k].timestamp == 100.0 * k as real
    ensures forall c | c in Candidates(t, results) :: Continuous(t, c.points)
  {
    TracksAreContinuous(t, results);
    hide Numbered, Candidates, Continuous;
    forall k: nat | k < |results|
      ensures if fps > 0.01 then results[k].timestamp * fps == k as real else results[k].timestamp == 100.0 * k as real
    {
      TimeOf(k, fps);
    }
  }

  lemma TimeOf(k: nat, fps: real)
    ensures if fps > 0.01 then ReportedTime(k, fps) * fps == k as real else ReportedTime(k, fps) == 100.0 * k as real
  {
  }
}
