/** Python's `round(x, 3)` on real numbers: to the nearest thousandth, ties to the even one. */
module Rounding {

  function HalfEven(x: real): int {
    var below := x.Floor;
    var rest := x - below as real;
    if rest < 0.5 || (rest == 0.5 && below % 2 == 0) then below else below + 1
  }

  function Round3(x: real): real { HalfEven(x * 1000.0) as real / 1000.0 }

  lemma HalfEvenNear(x: real)
    ensures -0.5 <= HalfEven(x) as real - x <= 0.5
  {
  }

  lemma HalfEvenMonotone(x: real, y: real)
    requires x <= y
    ensures HalfEven(x) <= HalfEven(y)
  {
    if x.Floor < y.Floor {
      assert x.Floor + 1 <= y.Floor;
    }
  }

  /** Rounding moves a value by at most half a thousandth. */
  lemma Round3Near(x: real)
    ensures -0.0005 <= Round3(x) - x <= 0.0005
  {
    HalfEvenNear(x * 1000.0);
  }

  /** Rounding keeps order. */
  lemma Round3Monotone(x: real, y: real)
    requires x <= y
    ensures Round3(x) <= Round3(y)
  {
    HalfEvenMonotone(x * 1000.0, y * 1000.0);
    hide HalfEven;
  }

  predicate OnGrid(x: real) { (x * 1000.0).Floor as real == x * 1000.0 }

  /** Whole thousandths, and only they, round to themselves. */
  lemma Round3Fixes(x: real)
    ensures Round3(x) == x <==> OnGrid(x)
  {
    if Round3(x) == x {
      WholeFloor(HalfEven(x * 1000.0));
    }
  }

  lemma WholeFloor(n: int)
    ensures (n as real).Floor == n
  {
  }

  /** A value between two grid points rounds to a value between them. */
  lemma Round3StaysBetween(low: real, x: real, high: real)
    requires low <= x <= high && OnGrid(low) && OnGrid(high)
    ensures low <= Round3(x) <= high
  {
    hide Round3, OnGrid;
    Round3Monotone(low, x);
    Round3Monotone(x, high);
    Round3Fixes(low);
    Round3Fixes(high);
  }

  /** Half-way cases go to the even neighbour. */
  lemma TiesGoToEven(n: int)
    ensures var r := HalfEven(n as real + 0.5);
            r % 2 == 0 && (r == n || r == n + 1)
  {
    assert (n as real + 0.5).Floor == n;
  }
}
