/** Nonlinear integer facts used by the tiling and padding arguments. */
module Arithmetic {

  lemma MulMonotone(a: int, b: int, c: int)
    requires a <= b && 0 <= c
    ensures a * c <= b * c
  {}

  lemma Distributes(a: int, b: int, c: int)
    ensures (a + b) * c == a * c + b * c
  {}

  /** Euclidean division determines quotient and remainder. */
  lemma DivModUnique(q: int, r: int, d: int)
    requires 0 <= r < d
    ensures (q * d + r) / d == q
    ensures (q * d + r) % d == r
  {
    var x := q * d + r;
    assert x == (x / d) * d + x % d;
    if x / d < q {
      MulMonotone(x / d + 1, q, d);
    } else if q < x / d {
      MulMonotone(q + 1, x / d, d);
    }
  }

  lemma Division(x: int, d: int)
    requires d > 0
    ensures x == x / d * d + x % d
  {}

  /** Bounds on a number are bounds on its quotient. */
  lemma QuotientBetween(lo: int, x: int, hi: int, d: int)
    requires d > 0 && lo * d <= x < hi * d
    ensures lo <= x / d < hi
  {
    var q := x / d;
    Division(x, d);
    if q < lo {
      MulMonotone(q + 1, lo, d);
    }
    if q >= hi {
      MulMonotone(hi, q, d);
    }
  }

  lemma QuotientAtLeast(lo: int, x: int, d: int)
    requires d > 0 && lo * d <= x
    ensures lo <= x / d
  {
    Division(x, d);
    if x / d < lo {
      MulMonotone(x / d + 1, lo, d);
    }
  }

  /** Element `i` of tile `m` lies below the end of the last tile. */
  lemma TileIndex(m: int, i: int, tiles: int, d: int)
    requires 0 <= m < tiles && 0 <= i < d
    ensures 0 <= m * d + i < tiles * d
  {
    MulMonotone(0, m, d);
    MulMonotone(m + 1, tiles, d);
  }
}
