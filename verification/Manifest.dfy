/** The upload manifest: segments in recording order, whatever order they arrived in. */
module Manifest {
  import opened Domain
  import opened Sequences

  predicate IsMinimum(m: nat, s: set<nat>) {
    m in s && forall x | x in s :: m <= x
  }

  lemma MinimumExists(s: set<nat>)
    requires s != {}
    ensures exists m :: IsMinimum(m, s)
  {
    var y :| y in s;
    var rest := s - {y};
    if rest == {} {
      assert s == {y};
      assert IsMinimum(y, s);
    } else {
      MinimumExists(rest);
      var m :| IsMinimum(m, rest);
      assert forall x | x in s :: x == y || x in rest;
      assert IsMinimum(if y < m then y else m, s);
    }
  }

  function Minimum(s: set<nat>): (m: nat)
    requires s != {}
    ensures IsMinimum(m, s)
  {
    MinimumExists(s);
    var m :| IsMinimum(m, s);
    m
  }

  /** The elements of a set in increasing order: `sorted(indexes)`. */
  function Sorted(s: set<nat>): (r: seq<nat>)
    ensures forall x :: x in r <==> x in s
    ensures |r| == |s|
  {
    if s == {} then []
    else
      var m := Minimum(s);
      [m] + Sorted(s - {m})
  }

  lemma {:induction false} SortedIsIncreasing(s: set<nat>)
    ensures StrictlyIncreasing(Sorted(s))
  {
    if s != {} {
      var m := Minimum(s);
      var rest := Sorted(s - {m});
      SortedIsIncreasing(s - {m});
      forall j | 0 <= j < |rest| ensures m < rest[j] {
        assert rest[j] in rest;
      }
    }
  }

  /** The fingerprinted part of the manifest: (index, size) pairs by increasing index. */
  function Pairs(segments: map<nat, Segment>): (r: seq<(nat, int)>) {
    var order := Sorted(segments.Keys);
    seq(|order|, i requires 0 <= i < |order| => (assert order[i] in order; (order[i], segments[order[i]].size)))
  }

  /** The index-ordered urls VALIDATE downloads and joins. */
  function JoinOrder(segments: map<nat, Segment>): (r: seq<string>) {
    var order := Sorted(segments.Keys);
    seq(|order|, i requires 0 <= i < |order| => (assert order[i] in order; segments[order[i]].url))
  }

  function StepFingerprint(video: Video, step: JobStep, settings: Settings): Fingerprint {
    Fingerprint(
      step, video.id,
      if video.segments == map[] then None else Some(Pairs(video.segments)),
      if video.segments == map[] then video.originalUrl else None,
      settings.originalsBucket, settings.derivedBucket)
  }

  /**
   * The manifest is read back from the fingerprint: two manifests hash alike
   * exactly when they hold the same indexes with the same sizes.
   */
  lemma PairsDetermineManifest(a: map<nat, Segment>, b: map<nat, Segment>)
    ensures Pairs(a) == Pairs(b) <==> a.Keys == b.Keys && forall i | i in a :: a[i].size == b[i].size
  {
    if Pairs(a) == Pairs(b) {
      forall i: nat ensures (i in a <==> i in b) && (i in a ==> a[i].size == b[i].size) {
        PairsAt(a, i);
        PairsAt(b, i);
      }
    }
  }

  lemma PairsAt(a: map<nat, Segment>, i: nat)
    ensures i in a <==> exists n :: (i, n) in Pairs(a)
    ensures i in a ==> forall n :: (i, n) in Pairs(a) <==> n == a[i].size
  {
    var order := Sorted(a.Keys);
    if i in a {
      var k :| 0 <= k < |order| && order[k] == i;
      assert Pairs(a)[k] == (i, a[i].size);
    }
    forall n | (i, n) in Pairs(a) ensures i in a && n == a[i].size {
      var k :| 0 <= k < |Pairs(a)| && Pairs(a)[k] == (i, n);
      assert order[k] in order;
    }
  }

  /**
   * When a re-upload goes unnoticed by the fingerprints: exactly when the manifest
   * (or, without segments, the master's location) and the video are the same.
   * Urls of segments and everything a step writes are not inputs.
   */
  lemma FingerprintCoversInputs(v: Video, u: Video, step: JobStep, settings: Settings)
    ensures StepFingerprint(v, step, settings) == StepFingerprint(u, step, settings) <==>
            && v.id == u.id
            && v.segments.Keys == u.segments.Keys
            && (forall i | i in v.segments :: v.segments[i].size == u.segments[i].size)
            && (v.segments == map[] ==> v.originalUrl == u.originalUrl)
  {
    PairsDetermineManifest(v.segments, u.segments);
    assert v.segments.Keys == {} <==> v.segments == map[];
    assert u.segments.Keys == {} <==> u.segments == map[];
  }

  /** Fingerprints of any two steps under any settings agree exactly when nothing they cover differs. */
  lemma FingerprintsDifferByAnything(v: Video, u: Video, step: JobStep, other: JobStep, a: Settings, b: Settings)
    ensures StepFingerprint(v, step, a) == StepFingerprint(u, other, b) <==>
              && step == other && a.originalsBucket == b.originalsBucket && a.derivedBucket == b.derivedBucket
              && v.id == u.id && v.segments.Keys == u.segments.Keys
              && (forall i | i in v.segments :: v.segments[i].size == u.segments[i].size)
              && (v.segments == map[] ==> v.originalUrl == u.originalUrl)
  {
    FingerprintCoversInputs(v, u, step, a);
    hide Pairs;
  }
}
