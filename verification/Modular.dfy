/** Remainders by a symbolic positive modulus, for the circular buffers. */
module Modular {

  lemma AtLeast(d: int, m: int)
    requires 1 <= d && 0 <= m
    ensures m <= d * m
  {
  }

  /** The quotient and the remainder are unique. */
  lemma DivUnique(x: int, m: int, q: int, r: int)
    requires 0 <= r < m && x == q * m + r
    ensures x / m == q && x % m == r
  {
    var d := q - x / m;
    assert d * m == q * m - (x / m) * m;
    if d > 0 {
      AtLeast(d, m);
    } else if d < 0 {
      AtLeast(-d, m);
    }
  }

  lemma ModAdd(x: int, m: int, k: int)
    requires 0 < m
    ensures (x + k * m) % m == x % m
  {
    var q := x / m;
    assert x + k * m == (q + k) * m + x % m;
    DivUnique(x + k * m, m, q + k, x % m);
  }

  lemma ModSmall(x: int, m: int)
    requires 0 <= x < m
    ensures x % m == x
  {
    DivUnique(x, m, 0, x);
  }

  /** Numbers closer than the modulus have different remainders. */
  lemma ModsDiffer(x: int, y: int, m: int)
    requires 0 < m && x < y < x + m
    ensures x % m != y % m
  {
    var d := y / m - x / m;
    assert d * m == (y / m) * m - (x / m) * m;
    if d >= 1 {
      AtLeast(d, m);
    } else if d < 0 {
      AtLeast(-d, m);
      assert (-d) * m == -(d * m);
    }
  }

  /** The remainder of the successor. */
  lemma ModNext(x: int, m: int)
    requires 0 < m
    ensures (x + 1) % m == if x % m + 1 == m then 0 else x % m + 1
  {
    var q := x / m;
    if x % m + 1 == m {
      assert x + 1 == (q + 1) * m;
      DivUnique(x + 1, m, q + 1, 0);
    } else {
      DivUnique(x + 1, m, q, x % m + 1);
    }
  }
}
