/** Small facts about real numbers. */
module Numbers {

  function Min(a: real, b: real): real { if a <= b then a else b }

  function Max(a: real, b: real): real { if a >= b then a else b }

  lemma ProductPositive(a: real, b: real)
    requires a > 0.0 && b > 0.0
    ensures a * b > 0.0
  {
  }

  lemma TimesOver(a: real, b: real)
    requires b > 0.0
    ensures a * b / b == a
  {
  }

  lemma DivideInOrder(a: real, b: real, c: real)
    requires a <= b && c > 0.0
    ensures a / c <= b / c
  {
    var x, y := a / c, b / c;
    assert x * c == a && y * c == b;
    if x > y {
      ProductPositive(x - y, c);
      assert false;
    }
  }
}
