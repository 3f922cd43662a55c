/** From signal series to scored moments to clip windows. */
module Signals {
  import opened Numbers
  import opened Rounding
  import Selection

  /** Grid bucket to value. */
  type Series = map<nat, real>

  datatype Signal = Signal(name: string, series: Series)

  datatype Moment = Moment(bucket: nat, timestamp: real, score: real)

  function Ceil(x: real): int { -((-x).Floor) }

  function Buckets(duration: real): int { if Ceil(duration) > 1 then Ceil(duration) else 1 }

  // ----- Normalising -----

  ghost predicate IsLowest(raw: Series, low: real) {
    (exists k :: k in raw && raw[k] == low) && forall k | k in raw :: low <= raw[k]
  }

  ghost predicate IsHighest(raw: Series, high: real) {
    (exists k :: k in raw && raw[k] == high) && forall k | k in raw :: raw[k] <= high
  }

  function Flat(raw: Series): Series { map k | k in raw :: 0.5 }

  function Scaled(raw: Series, low: real, high: real): Series
    requires high > low
  {
    map k | k in raw :: Round3((raw[k] - low) / (high - low))
  }

  lemma DivideBySelf(c: real)
    requires c > 0.0
    ensures 0.0 / c == 0.0 && c / c == 1.0
  {
  }

  /** Scaled values lie in 0..1, keep their order, and reach both ends. */
  lemma ScaledKeepsOrder(raw: Series, low: real, high: real)
    requires IsLowest(raw, low) && IsHighest(raw, high) && high > low
    ensures var r := Scaled(raw, low, high);
            && r.Keys == raw.Keys && (forall k | k in raw :: 0.0 <= r[k] <= 1.0)
            && (forall j, k | j in raw && k in raw && raw[j] <= raw[k] :: r[j] <= r[k])
            && (forall k | k in raw && raw[k] == low :: r[k] == 0.0)
            && (forall k | k in raw && raw[k] == high :: r[k] == 1.0)
  {
    var r := Scaled(raw, low, high);
    DivideBySelf(high - low);
    Round3Fixes(0.0);
    Round3Fixes(1.0);
    assert OnGrid(0.0) && OnGrid(1.0) by { WholeFloor(0); WholeFloor(1000); }
    hide Round3;
    forall j, k | j in raw && k in raw && raw[j] <= raw[k] ensures r[j] <= r[k] {
      DivideInOrder(raw[j] - low, raw[k] - low, high - low);
      Round3Monotone((raw[j] - low) / (high - low), (raw[k] - low) / (high - low));
    }
    var a :| a in raw && raw[a] == low;
    var b :| b in raw && raw[b] == high;
    assert r[a] == 0.0 && r[b] == 1.0;
  }

  /** `keys` lists a dictionary's keys in its iteration order. */
  predicate Lists(keys: seq<nat>, raw: Series) {
    (forall k | k in keys :: k in raw) && forall k | k in raw :: k in keys
  }

  /** `min` and `max` over the values. */
  method Extremes(raw: Series, keys: seq<nat>) returns (low: real, high: real)
    requires Lists(keys, raw) && keys != []
    ensures IsLowest(raw, low) && IsHighest(raw, high)
  {
    assert keys[0] in keys;
    low, high := raw[keys[0]], raw[keys[0]];
    for i := 1 to |keys|
      invariant exists k :: k in raw && raw[k] == low
      invariant exists k :: k in raw && raw[k] == high
      invariant forall j | 0 <= j < i :: keys[j] in raw && low <= raw[keys[j]] <= high
    {
      assert keys[i] in keys;
      var value := raw[keys[i]];
      low := if value < low then value else low;
      high := if value > high then value else high;
    }
  }

  const TINY := 0.000000001

  /**
   * Every value lies in 0..1 and keys are kept. A series as good as constant becomes 0.5
   * throughout; any other is scaled between its lowest and highest value.
   */
  method Normalise(raw: Series, keys: seq<nat>) returns (r: Series)
    requires Lists(keys, raw)
    ensures r.Keys == raw.Keys && forall k | k in raw :: 0.0 <= r[k] <= 1.0
    ensures forall low, high | IsLowest(raw, low) && IsHighest(raw, high) ::
              r == if high - low < TINY then Flat(raw) else Scaled(raw, low, high)
    ensures forall low, high, k | IsLowest(raw, low) && IsHighest(raw, high) && k in raw ::
              r[k] == if high - low < 0.000000001 then 0.5 else Round3((raw[k] - low) / (high - low))
  {
    if keys == [] {
      return map[];
    }
    var low, high := Extremes(raw, keys);
    if |keys| < 2 || high - low < TINY {
      r := Flat(raw);
      if |keys| < 2 {
        OneValue(raw, keys, low, high);
      }
    } else {
      r := Scaled(raw, low, high);
      ScaledKeepsOrder(raw, low, high);
    }
    forall l, h | IsLowest(raw, l) && IsHighest(raw, h) ensures l == low && h == high {
      Unique(raw, l, low);
      UniqueHigh(raw, h, high);
    }
  }

  lemma OneValue(raw: Series, keys: seq<nat>, low: real, high: real)
    requires Lists(keys, raw) && |keys| == 1 && IsLowest(raw, low) && IsHighest(raw, high)
    ensures low == high
  {
  }

  lemma Unique(raw: Series, a: real, b: real)
    requires IsLowest(raw, a) && IsLowest(raw, b)
    ensures a == b
  {
  }

  lemma UniqueHigh(raw: Series, a: real, b: real)
    requires IsHighest(raw, a) && IsHighest(raw, b)
    ensures a == b
  {
  }

  // ----- Fusing -----

  function WeightOf(weights: map<string, real>, name: string): real {
    if name in weights then weights[name] else 0.0
  }

  function Contribution(signal: Signal, bucket: nat): real {
    if bucket in signal.series then signal.series[bucket] else 0.0
  }

  function TotalWeight(computed: seq<Signal>, weights: map<string, real>): real {
    if computed == [] then 0.0
    else TotalWeight(computed[1..], weights) + WeightOf(weights, computed[0].name)
  }

  function WeightedSum(computed: seq<Signal>, weights: map<string, real>, bucket: nat): real {
    if computed == [] then 0.0
    else WeightedSum(computed[1..], weights, bucket) + Share(computed[0], weights, bucket)
  }

  function Share(signal: Signal, weights: map<string, real>, bucket: nat): real {
    Contribution(signal, bucket) * WeightOf(weights, signal.name)
  }

  predicate Silent(computed: seq<Signal>, bucket: nat) {
    forall signal | signal in computed :: Contribution(signal, bucket) == 0.0
  }

  function MomentAt(computed: seq<Signal>, weights: map<string, real>, bucket: nat): Moment
    requires TotalWeight(computed, weights) > 0.0
  {
    var score := WeightedSum(computed, weights, bucket) / TotalWeight(computed, weights);
    Moment(bucket, bucket as real + 0.5, Round3(if score < 0.99 then score else 0.99))
  }

  function FusedUpTo(computed: seq<Signal>, weights: map<string, real>, n: nat): seq<Moment>
    requires TotalWeight(computed, weights) > 0.0
  {
    if n == 0 then []
    else
      FusedUpTo(computed, weights, n - 1)
      + (if Silent(computed, n - 1) then [] else [MomentAt(computed, weights, n - 1)])
  }

  function Fused(computed: seq<Signal>, weights: map<string, real>, buckets: nat): seq<Moment> {
    if TotalWeight(computed, weights) <= 0.0 then [] else FusedUpTo(computed, weights, buckets)
  }

  method Fuse(computed: seq<Signal>, weights: map<string, real>, buckets: nat) returns (fused: seq<Moment>)
    ensures fused == Fused(computed, weights, buckets)
  {
    var total := 0.0;
    var i := |computed|;
    while i > 0
      invariant 0 <= i <= |computed| && total == TotalWeight(computed[i..], weights)
    {
      i := i - 1;
      assert computed[i..][1..] == computed[i+1..];
      total := total + WeightOf(weights, computed[i].name);
    }
    fused := [];
    if total <= 0.0 {
      return;
    }
    for bucket := 0 to buckets
      invariant fused == FusedUpTo(computed, weights, bucket)
    {
      var silent := forall signal | signal in computed :: Contribution(signal, bucket) == 0.0;
      if !silent {
        fused := fused + [MomentAt(computed, weights, bucket)];
      }
    }
  }

  predicate Graded(computed: seq<Signal>) {
    forall signal, k | signal in computed && k in signal.series :: 0.0 <= signal.series[k] <= 1.0
  }

  predicate NonNegative(weights: map<string, real>) {
    forall name | name in weights :: weights[name] >= 0.0
  }

  lemma ProductWithin(c: real, w: real)
    requires 0.0 <= c <= 1.0 && w >= 0.0
    ensures 0.0 <= c * w <= w
  {
  }

  lemma {:induction false} SumWithin(computed: seq<Signal>, weights: map<string, real>, bucket: nat)
    requires Graded(computed) && NonNegative(weights)
    ensures 0.0 <= WeightedSum(computed, weights, bucket) <= TotalWeight(computed, weights)
  {
    if computed != [] {
      FirstAndRestGraded(computed, bucket);
      SumWithin(computed[1..], weights, bucket);
      ShareWithin(computed[0], weights, bucket);
      hide Share, Graded, NonNegative, Contribution, WeightOf;
    }
  }

  lemma ShareWithin(signal: Signal, weights: map<string, real>, bucket: nat)
    requires NonNegative(weights) && 0.0 <= Contribution(signal, bucket) <= 1.0
    ensures 0.0 <= Share(signal, weights, bucket) <= WeightOf(weights, signal.name)
  {
    var c, w := Contribution(signal, bucket), WeightOf(weights, signal.name);
    assert w >= 0.0;
    ProductWithin(c, w);
    assert Share(signal, weights, bucket) == c * w;
    hide *;
  }

  lemma FirstAndRestGraded(computed: seq<Signal>, bucket: nat)
    requires Graded(computed) && computed != []
    ensures 0.0 <= Contribution(computed[0], bucket) <= 1.0 && Graded(computed[1..])
  {
    assert computed[0] in computed;
    assert forall x | x in computed[1..] :: x in computed;
  }

  /** Every fused score lies in 0..0.99. */
  lemma MomentInRange(computed: seq<Signal>, weights: map<string, real>, bucket: nat)
    requires Graded(computed) && NonNegative(weights) && TotalWeight(computed, weights) > 0.0
    ensures 0.0 <= MomentAt(computed, weights, bucket).score <= 0.99
  {
    SumWithin(computed, weights, bucket);
    var sum, total := WeightedSum(computed, weights, bucket), TotalWeight(computed, weights);
    DivideInOrder(0.0, sum, total);
    DivideBySelf(total);
    hide WeightedSum, TotalWeight, Round3;
    assert OnGrid(0.0) && OnGrid(0.99) by { WholeFloor(0); WholeFloor(990); }
    var score := sum / total;
    Round3StaysBetween(0.0, if score < 0.99 then score else 0.99, 0.99);
  }

  /** What the fused list up to a bucket is. */
  predicate FusedShape(fused: seq<Moment>, n: nat) {
    && (forall m | m in fused :: m.bucket < n && 0.0 <= m.score <= 0.99 && m.timestamp == m.bucket as real + 0.5)
    && (forall i, j | 0 <= i < j < |fused| :: fused[i].bucket < fused[j].bucket)
  }

  lemma OneMoreMoment(fused: seq<Moment>, last: Moment, n: nat)
    requires FusedShape(fused, n) && last.bucket == n && 0.0 <= last.score <= 0.99 && last.timestamp == n as real + 0.5
    ensures FusedShape(fused + [last], n + 1) && FusedShape(fused, n + 1)
  {
    var all := fused + [last];
    forall i, j | 0 <= i < j < |all| ensures all[i].bucket < all[j].bucket {
      assert all[i] == fused[i] && fused[i] in fused;
    }
  }

  lemma OneMoreBucket(computed: seq<Signal>, weights: map<string, real>, n: nat)
    requires TotalWeight(computed, weights) > 0.0
    ensures var rest, last := FusedUpTo(computed, weights, n), MomentAt(computed, weights, n);
            && FusedUpTo(computed, weights, n + 1) == (if Silent(computed, n) then rest else rest + [last])
            && last.bucket == n && last.timestamp == n as real + 0.5
  {
    assert FusedUpTo(computed, weights, n) + [] == FusedUpTo(computed, weights, n);
  }

  lemma {:induction false} FusedInShape(computed: seq<Signal>, weights: map<string, real>, n: nat)
    requires Graded(computed) && NonNegative(weights) && TotalWeight(computed, weights) > 0.0
    ensures FusedShape(FusedUpTo(computed, weights, n), n)
  {
    if n > 0 {
      hide MomentAt, TotalWeight, FusedShape, Silent, FusedUpTo, Graded, NonNegative;
      FusedInShape(computed, weights, n - 1);
      OneMoreBucket(computed, weights, n - 1);
      MomentInRange(computed, weights, n - 1);
      OneMoreMoment(FusedUpTo(computed, weights, n - 1), MomentAt(computed, weights, n - 1), n - 1);
    }
  }

  /** The moments are exactly those of the buckets with something to show, in order, scored within 0..0.99. */
  lemma {:induction false} FusedIsExact(computed: seq<Signal>, weights: map<string, real>, n: nat)
    requires Graded(computed) && NonNegative(weights) && TotalWeight(computed, weights) > 0.0
    ensures FusedShape(FusedUpTo(computed, weights, n), n)
    ensures forall b: nat | b < n ::
              !Silent(computed, b) <==> MomentAt(computed, weights, b) in FusedUpTo(computed, weights, n)
  {
    FusedInShape(computed, weights, n);
    if n > 0 {
      var rest, fused := FusedUpTo(computed, weights, n - 1), FusedUpTo(computed, weights, n);
      FusedIsExact(computed, weights, n - 1);
      var last := MomentAt(computed, weights, n - 1);
      assert fused == if Silent(computed, n - 1) then rest else rest + [last];
      assert forall m | m in rest :: m.bucket < n - 1;
      hide *;
      forall b: nat | b < n ensures !Silent(computed, b) <==> MomentAt(computed, weights, b) in fused {
        BucketOfMoment(computed, weights, b);
      }
    }
  }

  lemma BucketOfMoment(computed: seq<Signal>, weights: map<string, real>, b: nat)
    requires TotalWeight(computed, weights) > 0.0
    ensures MomentAt(computed, weights, b).bucket == b
  {
  }

  function Times(k: real, weights: map<string, real>): map<string, real> {
    map name | name in weights :: k * weights[name]
  }

  function Mul(k: real, x: real): real { k * x }

  lemma Distribute(k: real, a: real, b: real)
    ensures Mul(k, a) + Mul(k, b) == Mul(k, a + b)
  {
  }

  lemma ShareScales(signal: Signal, weights: map<string, real>, k: real, bucket: nat)
    ensures Share(signal, Times(k, weights), bucket) == Mul(k, Share(signal, weights, bucket))
  {
    WeightScales(weights, k, signal.name);
    var c, w := Contribution(signal, bucket), WeightOf(weights, signal.name);
    hide Contribution, WeightOf;
    assert c * (k * w) == k * (c * w);
  }

  lemma {:induction false} SumsScale(computed: seq<Signal>, weights: map<string, real>, k: real, bucket: nat)
    ensures WeightedSum(computed, Times(k, weights), bucket) == Mul(k, WeightedSum(computed, weights, bucket))
    ensures TotalWeight(computed, Times(k, weights)) == Mul(k, TotalWeight(computed, weights))
  {
    if computed != [] {
      var first, rest := computed[0], computed[1..];
      hide Mul, Share, WeightOf, Times;
      SumsScale(rest, weights, k, bucket);
      WeightScales(weights, k, first.name);
      ShareScales(first, weights, k, bucket);
      Distribute(k, WeightedSum(rest, weights, bucket), Share(first, weights, bucket));
      Distribute(k, TotalWeight(rest, weights), WeightOf(weights, first.name));
    }
  }

  lemma WeightScales(weights: map<string, real>, k: real, name: string)
    ensures WeightOf(Times(k, weights), name) == Mul(k, WeightOf(weights, name))
  {
  }

  lemma CancelFactor(k: real, a: real, b: real)
    requires k > 0.0 && b > 0.0
    ensures (k * a) / (k * b) == a / b
  {
    var r := a / b;
    assert a == r * b;
    assert k * a == r * (k * b);
    assert k * b > 0.0;
  }

  lemma RatioScales(computed: seq<Signal>, weights: map<string, real>, k: real, bucket: nat)
    requires k > 0.0 && TotalWeight(computed, weights) > 0.0
    ensures TotalWeight(computed, Times(k, weights)) > 0.0
    ensures WeightedSum(computed, Times(k, weights), bucket) / TotalWeight(computed, Times(k, weights))
         == WeightedSum(computed, weights, bucket) / TotalWeight(computed, weights)
  {
    SumsScale(computed, weights, k, bucket);
    hide TotalWeight, WeightedSum;
    ProductPositive(k, TotalWeight(computed, weights));
    CancelFactor(k, WeightedSum(computed, weights, bucket), TotalWeight(computed, weights));
  }

  lemma MomentScales(computed: seq<Signal>, weights: map<string, real>, k: real, bucket: nat)
    requires k > 0.0 && TotalWeight(computed, weights) > 0.0
    ensures TotalWeight(computed, Times(k, weights)) > 0.0
    ensures MomentAt(computed, Times(k, weights), bucket) == MomentAt(computed, weights, bucket)
  {
    RatioScales(computed, weights, k, bucket);
    hide Times, TotalWeight, WeightedSum, Round3;
  }

  lemma {:induction false} FusedScales(computed: seq<Signal>, weights: map<string, real>, k: real, n: nat)
    requires k > 0.0 && TotalWeight(computed, weights) > 0.0 && TotalWeight(computed, Times(k, weights)) > 0.0
    ensures FusedUpTo(computed, Times(k, weights), n) == FusedUpTo(computed, weights, n)
  {
    if n > 0 {
      FusedScales(computed, weights, k, n - 1);
      MomentScales(computed, weights, k, n - 1);
    }
  }

  /** Only the proportions of the weights matter. */
  lemma WeightsAreRelative(computed: seq<Signal>, weights: map<string, real>, k: real, buckets: nat)
    requires k > 0.0
    ensures Fused(computed, Times(k, weights), buckets) == Fused(computed, weights, buckets)
  {
    SumsScale(computed, weights, k, 0);
    var total := TotalWeight(computed, weights);
    hide TotalWeight, FusedUpTo;
    if total > 0.0 {
      assert k * total > 0.0;
      FusedScales(computed, weights, k, buckets);
    } else {
      assert k * total <= 0.0;
    }
  }

  // ----- What a fused score is -----

  lemma ShareBetween(signal: Signal, weights: map<string, real>, bucket: nat, low: real, high: real)
    requires NonNegative(weights) && low <= Contribution(signal, bucket) <= high
    ensures Mul(low, WeightOf(weights, signal.name)) <= Share(signal, weights, bucket)
         <= Mul(high, WeightOf(weights, signal.name))
  {
    var c, w := Contribution(signal, bucket), WeightOf(weights, signal.name);
    assert w >= 0.0;
    assert low * w <= c * w;
    assert c * w <= high * w;
  }

  lemma {:induction false} SumBetween(computed: seq<Signal>, weights: map<string, real>, bucket: nat, low: real,
                                      high: real)
    requires NonNegative(weights)
    requires forall signal | signal in computed :: low <= Contribution(signal, bucket) <= high
    ensures Mul(low, TotalWeight(computed, weights)) <= WeightedSum(computed, weights, bucket)
         <= Mul(high, TotalWeight(computed, weights))
  {
    if computed != [] {
      var first, rest := computed[0], computed[1..];
      assert first in computed && forall signal | signal in rest :: signal in computed;
      hide Mul, Share, WeightOf, Contribution, NonNegative;
      SumBetween(rest, weights, bucket, low, high);
      ShareBetween(first, weights, bucket, low, high);
      Distribute(low, TotalWeight(rest, weights), WeightOf(weights, first.name));
      Distribute(high, TotalWeight(rest, weights), WeightOf(weights, first.name));
    }
  }

  lemma QuotientBetween(low: real, sum: real, high: real, total: real)
    requires total > 0.0 && Mul(low, total) <= sum <= Mul(high, total)
    ensures low <= sum / total <= high
  {
    DivideInOrder(low * total, sum, total);
    DivideInOrder(sum, high * total, total);
    TimesOver(low, total);
    TimesOver(high, total);
  }

  /** Before the cap, a score is a weighted mean: between the least and the greatest contribution of its bucket. */
  lemma {:induction false} ScoreIsAMean(computed: seq<Signal>, weights: map<string, real>, bucket: nat, low: real,
                                        high: real)
    requires NonNegative(weights) && TotalWeight(computed, weights) > 0.0
    requires forall signal | signal in computed :: low <= Contribution(signal, bucket) <= high
    ensures low <= WeightedSum(computed, weights, bucket) / TotalWeight(computed, weights) <= high
    ensures MomentAt(computed, weights, bucket).score <= Round3(high)
    ensures low <= 0.99 ==> Round3(low) <= MomentAt(computed, weights, bucket).score
  {
    SumBetween(computed, weights, bucket, low, high);
    QuotientBetween(low, WeightedSum(computed, weights, bucket), high, TotalWeight(computed, weights));
    var score := WeightedSum(computed, weights, bucket) / TotalWeight(computed, weights);
    hide TotalWeight, WeightedSum, Round3;
    var capped := if score < 0.99 then score else 0.99;
    Round3Monotone(capped, high);
    if low <= 0.99 {
      Round3Monotone(low, capped);
    }
  }

  // ----- How the weights apportion a score -----

  /** Another reading of one signal in this bucket, by its name and weight the same signal. */
  predicate Raised(before: Signal, after: Signal, bucket: nat, gain: real) {
    after.name == before.name && Contribution(after, bucket) == Contribution(before, bucket) + gain
  }

  lemma {:induction false} RaisingTheSum(computed: seq<Signal>, weights: map<string, real>, bucket: nat, k: nat,
                                         louder: Signal, gain: real)
    requires k < |computed| && Raised(computed[k], louder, bucket, gain)
    ensures TotalWeight(computed[k := louder], weights) == TotalWeight(computed, weights)
    ensures WeightedSum(computed[k := louder], weights, bucket)
            == WeightedSum(computed, weights, bucket) + gain * WeightOf(weights, louder.name)
  {
    var after := computed[k := louder];
    if k == 0 {
      assert after[1..] == computed[1..];
      var c, w := Contribution(computed[0], bucket), WeightOf(weights, louder.name);
      assert (c + gain) * w == c * w + gain * w;
    } else {
      assert after[1..] == computed[1..][k-1 := louder];
      RaisingTheSum(computed[1..], weights, bucket, k - 1, louder, gain);
    }
  }

  /**
   * The weights apportion the score: one signal showing more in a bucket raises the uncapped
   * score by that much times its share of the total weight; silence scores nothing; and the
   * moment's score is the uncapped one, at most 0.99, rounded.
   */
  lemma WeightsApportion(computed: seq<Signal>, weights: map<string, real>, bucket: nat, k: nat, louder: Signal,
                         gain: real)
    returns (before: real, after: real)
    requires TotalWeight(computed, weights) > 0.0
    requires k < |computed| && Raised(computed[k], louder, bucket, gain)
    ensures TotalWeight(computed[k := louder], weights) > 0.0
    ensures after == before + gain * (WeightOf(weights, louder.name) / TotalWeight(computed, weights))
    ensures MomentAt(computed, weights, bucket).score == Round3(Min(0.99, before))
    ensures MomentAt(computed[k := louder], weights, bucket).score == Round3(Min(0.99, after))
    ensures Silent(computed, bucket) ==> before == 0.0
  {
    hide TotalWeight, WeightedSum, Silent, Round3, Raised, WeightOf, MomentAt, Min;
    RaisingTheSum(computed, weights, bucket, k, louder, gain);
    var total, sum := TotalWeight(computed, weights), WeightedSum(computed, weights, bucket);
    before := ScoreBeforeTheCap(computed, weights, bucket);
    after := ScoreBeforeTheCap(computed[k := louder], weights, bucket);
    SplitShare(sum, gain, WeightOf(weights, louder.name), total);
  }

  lemma ScoreBeforeTheCap(computed: seq<Signal>, weights: map<string, real>, bucket: nat) returns (score: real)
    requires TotalWeight(computed, weights) > 0.0
    ensures score == WeightedSum(computed, weights, bucket) / TotalWeight(computed, weights)
    ensures MomentAt(computed, weights, bucket).score == Round3(Min(0.99, score))
    ensures Silent(computed, bucket) ==> score == 0.0
  {
    if Silent(computed, bucket) {
      SilenceSumsToNothing(computed, weights, bucket);
    }
    hide TotalWeight, WeightedSum, Silent, Round3;
    score := WeightedSum(computed, weights, bucket) / TotalWeight(computed, weights);
  }

  lemma SplitShare(sum: real, gain: real, weight: real, total: real)
    requires total > 0.0
    ensures (sum + gain * weight) / total == sum / total + gain * (weight / total)
  {
    var a, b := sum / total, weight / total;
    assert a * total == sum && b * total == weight;
    assert (a + gain * b) * total == a * total + gain * (b * total);
    TimesOver(a + gain * b, total);
  }

  lemma {:induction false} SilenceSumsToNothing(computed: seq<Signal>, weights: map<string, real>, bucket: nat)
    requires Silent(computed, bucket)
    ensures WeightedSum(computed, weights, bucket) == 0.0
  {
    if computed != [] {
      assert computed[0] in computed && forall x | x in computed[1..] :: x in computed;
      SilenceSumsToNothing(computed[1..], weights, bucket);
    }
  }

  /** A lone signal decides by itself, whatever its weight. */
  lemma {:induction false} ALoneSignalDecides(signal: Signal, weights: map<string, real>, bucket: nat)
    requires signal.name in weights && weights[signal.name] > 0.0
    ensures TotalWeight([signal], weights) == weights[signal.name]
    ensures MomentAt([signal], weights, bucket).score == Round3(Min(0.99, Contribution(signal, bucket)))
  {
    var v, w := Contribution(signal, bucket), weights[signal.name];
    assert [signal][1..] == [];
    assert TotalWeight([signal][1..], weights) == 0.0 && WeightedSum([signal][1..], weights, bucket) == 0.0;
    assert TotalWeight([signal], weights) == w && WeightedSum([signal], weights, bucket) == v * w;
    TimesOver(v, w);
    hide Round3;
  }

  /** The grid covers the recording: every time in it falls into one of the buckets, and none starts after its end. */
  lemma BucketsCover(duration: real)
    ensures Buckets(duration) >= 1 && duration <= Buckets(duration) as real
    ensures Buckets(duration) > 1 ==> (Buckets(duration) - 1) as real < duration
  {
    var floor := (-duration).Floor;
    assert floor as real <= -duration < floor as real + 1.0;
  }
}
