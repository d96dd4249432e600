/** Two facts about products and quotients that the solver does not find by itself. */
module Arith {
  lemma Multiples(a: int, b: int, c: int)
    requires c >= 1
    ensures a < b ==> a * c + c <= b * c
  {
    if a < b {
      Scaled(b - a - 1, c);
      assert (b - a - 1) * c == b * c - a * c - c;
    }
  }

  lemma Scaled(a: int, c: int)
    requires a >= 0 && c >= 0
    ensures a * c >= 0
  {
  }

  lemma QuotientOf(x: int, size: int, q: int, r: int)
    requires size >= 1 && x == q * size + r && 0 <= r < size
    ensures x / size == q
  {
    var d, e := x / size, x % size;
    assert x == d * size + e;
    Multiples(d, q, size);
    Multiples(q, d, size);
  }
}
