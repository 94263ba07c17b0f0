/** Small arithmetic shared by the modules: smaller, larger, saturating subtraction, scaling and remainders. */
module Arithmetic {
  function Lesser(a: int, b: int): int {
    if a < b then a else b
  }

  function Greater(a: int, b: int): int {
    if a > b then a else b
  }

  /** Subtraction that stops at zero. */
  function Minus(a: nat, b: nat): nat {
    if a >= b then a - b else 0
  }

  lemma Scaled(a: int, b: int, c: nat)
    ensures a <= b ==> a * c <= b * c && c * a <= c * b
  {
    if a <= b {
      assert (b - a) * c >= 0;
    }
  }

  lemma ScaledLess(a: int, b: int, c: nat)
    ensures c > 0 && a < b ==> a * c < b * c
  {
    Scaled(a + 1, b, c);
    assert (a + 1) * c == a * c + c;
  }

  /** A common factor cancels from either order. */
  lemma Cancel(a: int, b: int, c: nat)
    requires c > 0
    ensures a * c < b * c ==> a < b
    ensures a * c <= b * c ==> a <= b
  {
    Scaled(b, a, c);
    ScaledLess(b, a, c);
  }

  lemma Remainder(q: int, r: nat, m: nat)
    requires r < m
    ensures (q * m + r) % m == r
  {
    var x := q * m + r;
    var d := x / m - q;
    assert d * m + x % m == r;
    Scaled(1, d, m);
    Scaled(d, -1, m);
  }
}
