/** Facts about real multiplication and `Floor` that the solver does not find on its own. */
module RealArith {
  /** `Floor` is monotonic and leaves integers alone. */
  lemma FloorBounds(x: real, n: int)
    ensures x <= n as real ==> x.Floor <= n
    ensures x >= n as real ==> x.Floor >= n
    ensures x.Floor as real <= x < x.Floor as real + 1.0
  {
  }

  lemma CastProduct(a: int, b: int)
    ensures (a * b) as real == a as real * b as real
  {
  }

  lemma MulMono(a: real, b: real, c: real)
    requires a <= b && c >= 0.0
    ensures a * c <= b * c
  {
  }

  lemma MulStrict(a: real, b: real, c: real)
    requires a < b && c > 0.0
    ensures a * c < b * c
  {
  }

  lemma QuotientOfProduct(a: real, b: real)
    requires b != 0.0
    ensures (a * b) / b == a
  {
  }
}
