/** Python's stable `sorted`, as insertion sort over a total preorder. */
module Sorting {

  /** `before(a, b)`: a may stand before b. Ties hold both ways. */
  ghost predicate TotalPreorder<T(!new)>(before: (T, T) -> bool) {
    && (forall a, b {:trigger before(a, b)} :: before(a, b) || before(b, a))
    && (forall a, b, c {:trigger before(a, b), before(b, c)} :: before(a, b) && before(b, c) ==> before(a, c))
  }

  predicate InOrder<T>(s: seq<T>, before: (T, T) -> bool) {
    forall i, j | 0 <= i < j < |s| :: before(s[i], s[j])
  }

  /** Inserts behind every element that may stand before it, so equal keys keep their order. */
  function Insert<T>(x: T, s: seq<T>, before: (T, T) -> bool): (r: seq<T>)
    ensures multiset(r) == multiset(s) + multiset{x}
  {
    if s == [] then [x]
    else if before(s[|s|-1], x) then s + [x]
    else
      var last := s[|s|-1];
      assert s == s[..|s|-1] + [last];
      Insert(x, s[..|s|-1], before) + [last]
  }

  function Sort<T>(s: seq<T>, before: (T, T) -> bool): (r: seq<T>)
    ensures multiset(r) == multiset(s)
  {
    if s == [] then []
    else
      assert s == s[..|s|-1] + [s[|s|-1]];
      Insert(s[|s|-1], Sort(s[..|s|-1], before), before)
  }

  lemma {:induction false} InsertInOrder<T(!new)>(x: T, s: seq<T>, before: (T, T) -> bool)
    requires TotalPreorder(before) && InOrder(s, before)
    ensures InOrder(Insert(x, s, before), before)
  {
    if s != [] {
      var last, rest := s[|s|-1], s[..|s|-1];
      if before(last, x) {
        forall i | 0 <= i < |s| ensures before(s[i], x) {
          assert i < |s| - 1 ==> before(s[i], last);
        }
      } else {
        InsertInOrder(x, rest, before);
        var r := Insert(x, rest, before);
        forall i | 0 <= i < |r| ensures before(r[i], last) {
          assert r[i] in multiset(r);
          assert r[i] in rest || r[i] == x;
        }
      }
    }
  }

  lemma {:induction false} SortInOrder<T(!new)>(s: seq<T>, before: (T, T) -> bool)
    requires TotalPreorder(before)
    ensures InOrder(Sort(s, before), before)
  {
    if s != [] {
      SortInOrder(s[..|s|-1], before);
      InsertInOrder(s[|s|-1], Sort(s[..|s|-1], before), before);
    }
  }

  lemma SameElements<T>(s: seq<T>, before: (T, T) -> bool)
    ensures |Sort(s, before)| == |s|
    ensures forall x :: x in Sort(s, before) <==> x in s
  {
    var r := Sort(s, before);
    assert |multiset(r)| == |multiset(s)|;
    forall x ensures x in r <==> x in s {
      assert x in multiset(r) <==> x in multiset(s);
    }
  }

  /** No two different positions tie. */
  predicate NoTies<T>(s: seq<T>, before: (T, T) -> bool) {
    forall i, j | 0 <= i < j < |s| :: !(before(s[i], s[j]) && before(s[j], s[i]))
  }

  lemma SameFirst<T(!new)>(a: seq<T>, b: seq<T>, before: (T, T) -> bool)
    requires a != [] && b != [] && a[0] in b && b[0] in a
    requires InOrder(a, before) && InOrder(b, before) && NoTies(a, before)
    ensures a[0] == b[0]
  {
    var i :| 0 <= i < |b| && b[i] == a[0];
    var j :| 0 <= j < |a| && a[j] == b[0];
    var x, y := a[0], b[0];
    assert i > 0 ==> before(y, x);
    assert j > 0 ==> before(x, y);
  }

  /** Without ties there is only one order: two arrangements of the same elements, both in order, are equal. */
  lemma {:induction false} OrderIsUnique<T(!new)>(a: seq<T>, b: seq<T>, before: (T, T) -> bool)
    requires multiset(a) == multiset(b) && InOrder(a, before) && InOrder(b, before) && NoTies(a, before)
    ensures a == b
  {
    assert |multiset(a)| == |a| && |multiset(b)| == |b|;
    if a != [] {
      assert a[0] in multiset(b) && b[0] in multiset(a);
      SameFirst(a, b, before);
      var x := a[0];
      assert a == [x] + a[1..] && b == [x] + b[1..];
      assert multiset(a[1..]) == multiset(a) - multiset{x};
      assert multiset(b[1..]) == multiset(b) - multiset{x};
      OrderIsUnique(a[1..], b[1..], before);
    }
  }

  function Without<T>(s: seq<T>, i: nat): (r: seq<T>)
    requires i < |s|
    ensures multiset(s) == multiset(r) + multiset{s[i]}
  {
    assert s == s[..i] + [s[i]] + s[i+1..];
    s[..i] + s[i+1..]
  }

  lemma InTheRest<T>(s: seq<T>, i: nat, j: nat)
    requires i < |s| && j < |s| && i != j
    ensures s[j] in multiset(Without(s, i))
  {
    assert Without(s, i)[if j < i then j else j - 1] == s[j];
  }

  lemma FromTheRest<T>(s: seq<T>, i: nat, x: T) returns (j: nat)
    requires i < |s| && x in multiset(Without(s, i))
    ensures j < |s| && j != i && s[j] == x
  {
    var k: nat :| k < |Without(s, i)| && Without(s, i)[k] == x;
    j := if k < i then k else k + 1;
  }

  /** In a rearrangement, two different positions of one arrangement sit at two different positions of the other. */
  lemma TwoPositions<T>(a: seq<T>, b: seq<T>, i: nat, j: nat) returns (p: nat, q: nat)
    requires multiset(a) == multiset(b) && i < |b| && j < |b| && i != j
    ensures p < |a| && q < |a| && p != q && a[p] == b[i] && a[q] == b[j]
  {
    assert b[i] in multiset(a);
    p :| p < |a| && a[p] == b[i];
    InTheRest(b, i, j);
    hide Without;
    assert multiset(Without(a, p)) == multiset(a) - multiset{b[i]};
    assert multiset(Without(b, i)) == multiset(b) - multiset{b[i]};
    q := FromTheRest(a, p, b[j]);
  }

  // ----- Stability -----

  /** The elements that tie with x, in the order they stand. */
  function Ties<T>(s: seq<T>, before: (T, T) -> bool, x: T): seq<T> {
    if s == [] then []
    else
      var last := s[|s|-1];
      Ties(s[..|s|-1], before, x) + (if before(last, x) && before(x, last) then [last] else [])
  }

  lemma OneMoreTie<T>(s: seq<T>, last: T, before: (T, T) -> bool, x: T)
    ensures Ties(s + [last], before, x)
            == Ties(s, before, x) + (if before(last, x) && before(x, last) then [last] else [])
  {
    assert (s + [last])[..|s|] == s;
  }

  lemma Transitive<T(!new)>(before: (T, T) -> bool, a: T, b: T, c: T)
    requires TotalPreorder(before) && before(a, b) && before(b, c)
    ensures before(a, c)
  {
  }

  /** Two elements that do not both tie with x may be swapped. */
  lemma SwappedEnds<T>(s: seq<T>, y: T, last: T, before: (T, T) -> bool, x: T)
    requires !(before(last, x) && before(x, last)) || !(before(y, x) && before(x, y))
    ensures Ties(s + [y] + [last], before, x) == Ties(s + [last] + [y], before, x)
  {
    hide Ties;
    OneMoreTie(s + [y], last, before, x);
    OneMoreTie(s, y, before, x);
    OneMoreTie(s + [last], y, before, x);
    OneMoreTie(s, last, before, x);
  }

  lemma InsertedBefore<T>(y: T, s: seq<T>, before: (T, T) -> bool)
    requires s != [] && !before(s[|s|-1], y)
    ensures Insert(y, s, before) == Insert(y, s[..|s|-1], before) + [s[|s|-1]]
  {
  }

  lemma {:induction false} InsertedLast<T(!new)>(y: T, s: seq<T>, before: (T, T) -> bool, x: T)
    requires TotalPreorder(before)
    ensures Ties(Insert(y, s, before), before, x) == Ties(s + [y], before, x)
  {
    hide Ties, TotalPreorder;
    if s == [] {
      assert s + [y] == [y];
    } else if !before(s[|s|-1], y) {
      var rest, last := s[..|s|-1], s[|s|-1];
      InsertedBefore(y, s, before);
      assert s == rest + [last];
      hide Insert;
      if before(last, x) && before(x, y) {
        Transitive(before, last, x, y);
      } else {
        hide *;
        InsertedLast(y, rest, before, x);
        OneMoreTie(Insert(y, rest, before), last, before, x);
        OneMoreTie(rest + [y], last, before, x);
        SwappedEnds(rest, y, last, before, x);
      }
    }
  }

  /** The sort is stable: elements that tie stand in the order they came in. */
  lemma {:induction false} SortIsStable<T(!new)>(s: seq<T>, before: (T, T) -> bool, x: T)
    requires TotalPreorder(before)
    ensures Ties(Sort(s, before), before, x) == Ties(s, before, x)
  {
    if s != [] {
      var rest, last := s[..|s|-1], s[|s|-1];
      assert Sort(s, before) == Insert(last, Sort(rest, before), before);
      hide *;
      SortIsStable(rest, before, x);
      InsertedLast(last, Sort(rest, before), before, x);
      OneMoreTie(Sort(rest, before), last, before, x);
      OneMoreTie(rest, last, before, x);
      assert s == rest + [last];
    }
  }

  /** The first of the ties is the first element that ties. */
  lemma {:induction false} FirstTie<T>(s: seq<T>, before: (T, T) -> bool, x: T) returns (i: nat)
    requires Ties(s, before, x) != []
    ensures i < |s| && Ties(s, before, x)[0] == s[i] && before(s[i], x) && before(x, s[i])
    ensures forall j | 0 <= j < i :: !(before(s[j], x) && before(x, s[j]))
  {
    var rest := s[..|s|-1];
    if Ties(rest, before, x) != [] {
      i := FirstTie(rest, before, x);
    } else {
      i := |s| - 1;
      NoTie(rest, before, x);
    }
  }

  lemma {:induction false} NoTie<T>(s: seq<T>, before: (T, T) -> bool, x: T)
    requires Ties(s, before, x) == []
    ensures forall j | 0 <= j < |s| :: !(before(s[j], x) && before(x, s[j]))
  {
    if s != [] {
      NoTie(s[..|s|-1], before, x);
    }
  }

  /** So what a sort puts first is the first of the best. */
  lemma FirstOfTheBest<T(!new)>(s: seq<T>, before: (T, T) -> bool) returns (i: nat)
    requires TotalPreorder(before) && s != []
    ensures |Sort(s, before)| == |s| && i < |s| && Sort(s, before)[0] == s[i]
    ensures forall j | 0 <= j < |s| :: before(s[i], s[j])
    ensures forall j | 0 <= j < i :: !before(s[j], s[i])
  {
    var r := Sort(s, before);
    SameElements(s, before);
    SortInOrder(s, before);
    var x := r[0];
    SortIsStable(s, before, x);
    assert before(x, x);
    assert r == [x] + r[1..];
    FrontTies(x, r[1..], before, x);
    i := FirstTie(s, before, x);
    forall j | 0 <= j < |s| ensures before(x, s[j]) {
      assert s[j] in r;
      var k :| 0 <= k < |r| && r[k] == s[j];
    }
    hide Sort, Ties, InOrder;
    forall j | 0 <= j < i ensures !before(s[j], s[i]) {
      assert before(x, s[j]) && s[i] == x;
    }
  }

  lemma {:induction false} FrontTies<T>(x: T, rest: seq<T>, before: (T, T) -> bool, y: T)
    requires before(x, y) && before(y, x)
    ensures Ties([x] + rest, before, y) != [] && Ties([x] + rest, before, y)[0] == x
  {
    if rest == [] {
      assert [x] + rest == [] + [x];
      OneMoreTie([], x, before, y);
    } else {
      FrontTies(x, rest[..|rest|-1], before, y);
      assert [x] + rest == ([x] + rest[..|rest|-1]) + [rest[|rest|-1]];
      OneMoreTie([x] + rest[..|rest|-1], rest[|rest|-1], before, y);
    }
  }
}
