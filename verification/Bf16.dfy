/** F32 and BF16 bit patterns as numbers: the host provider's rounding trick, and the
    analysis scripts' integer order. Values are exact integers in units of 2^-149; an
    infinity counts as 2^128, the value its exponent would have if it were finite. */
module Bf16 {

  const WORD32 := 0x1_0000_0000
  const SIGN32 := 0x8000_0000
  const INF32 := 0x7F80_0000
  const SIGN16 := 0x8000
  const INF16 := 0x7F80
  const HALF := 0x1_0000 // values of the 16 bits that rounding drops
  const FRACTION := 0x80_0000

  /** `significand` doubled `n` times. */
  ghost function Scale(significand: int, n: nat): int {
    if n == 0 then significand else 2 * Scale(significand, n - 1)
  }

  /** The scale of a magnitude: subnormals share the one of the smallest normals. */
  ghost function Exponent(m: nat): nat {
    if m / FRACTION == 0 then 0 else m / FRACTION - 1
  }

  /** The fraction bits, with the hidden bit of a normal number. */
  ghost function Significand(m: nat): nat {
    if m / FRACTION == 0 then m % FRACTION else FRACTION + m % FRACTION
  }

  /** The magnitude of an F32 pattern without its sign bit. */
  ghost function Magnitude(m: nat): int {
    Scale(Significand(m), Exponent(m))
  }

  /** The weight of the last fraction bit. */
  ghost function Ulp(m: nat): int {
    Scale(1, Exponent(m))
  }

  ghost function Value32(bits: nat): int {
    if bits >= SIGN32 then -Magnitude(bits - SIGN32) else Magnitude(bits)
  }

  ghost function Value16(bits: nat): int {
    if bits >= SIGN16 then -Magnitude((bits - SIGN16) * HALF) else Magnitude(bits * HALF)
  }

  predicate IsNan32(bits: nat) {
    bits % SIGN32 > INF32
  }

  predicate IsNan16(bits: nat) {
    bits % SIGN16 > INF16
  }

  /** `bf16_to_float` on bit patterns. */
  function Bf16ToFloat(bits: nat): nat {
    bits * HALF
  }

  /** `float_to_bf16` on bit patterns: the sum is taken modulo 2^32. */
  function FloatToBf16(bits: nat): nat {
    var bias := 0x7FFF + bits / HALF % 2;
    (bits + bias) % WORD32 / HALF
  }

  // --------------------------------------------------------- magnitudes grow linearly

  lemma {:induction false} ScaleAdds(a: int, b: int, n: nat)
    ensures Scale(a + b, n) == Scale(a, n) + Scale(b, n)
  {
    if n > 0 {
      ScaleAdds(a, b, n - 1);
    }
  }

  lemma {:induction false} ScalePositive(n: nat)
    ensures Scale(1, n) >= 1 && Scale(0, n) == 0
  {
    if n > 0 {
      ScalePositive(n - 1);
    }
  }

  /** Halving the significand lengthens the scale by one. */
  lemma {:induction false} ScaleShift(s: int, n: nat)
    ensures Scale(2 * s, n) == Scale(s, n + 1)
  {
    if n > 0 {
      ScaleShift(s, n - 1);
    }
  }

  /** The next pattern is one unit in the last place larger. */
  lemma MagnitudeStep(m: nat)
    ensures Magnitude(m + 1) == Magnitude(m) + Ulp(m)
    ensures Ulp(m) >= 1
  {
    ScalePositive(Exponent(m));
    ScaleAdds(Significand(m), 1, Exponent(m));
    if m % FRACTION + 1 == FRACTION && m / FRACTION > 0 {
      ScaleShift(FRACTION, Exponent(m));
    }
  }

  lemma {:induction false} MagnitudeStrict(a: nat, b: nat)
    requires a < b
    ensures 0 <= Magnitude(a) < Magnitude(b)
    decreases b
  {
    MagnitudeStep(b - 1);
    if a < b - 1 {
      MagnitudeStrict(a, b - 1);
    } else if a > 0 {
      MagnitudeStrict(a - 1, a);
    }
  }

  /** The dropped 16 bits never reach the exponent. */
  lemma SameExponent(h: nat, l: nat)
    requires l < HALF
    ensures Exponent(h * HALF + l) == Exponent(h * HALF)
  {
    assert (h * HALF + l) / FRACTION == h / 128;
    assert h * HALF / FRACTION == h / 128;
  }

  /** Between two neighbouring BF16 magnitudes the F32 magnitudes are evenly spaced. */
  lemma {:induction false} MagnitudeLinear(h: nat, l: nat, unit: int)
    requires l <= HALF && unit == Ulp(h * HALF)
    ensures Magnitude(h * HALF + l) == Magnitude(h * HALF) + l * unit
  {
    if l > 0 {
      MagnitudeLinear(h, l - 1, unit);
      MagnitudeStep(h * HALF + (l - 1));
      SameExponent(h, l - 1);
      assert (l - 1) * unit + unit == l * unit;
    }
  }

  // ------------------------------------------------------------------ rounding to BF16

  /** The magnitude that rounding chooses: down below the midpoint, up above it, and to
      the even neighbour on it. */
  function Rounded(m: nat): nat {
    var h, l := m / HALF, m % HALF;
    if l < 0x8000 || (l == 0x8000 && h % 2 == 0) then h else h + 1
  }

  /** Adding the bias carries into the upper half exactly when rounding goes up. */
  lemma BiasCarries(h: nat, l: nat)
    requires l < HALF
    ensures (h * HALF + l + 0x7FFF + h % 2) / HALF == if l < 0x8000 || (l == 0x8000 && h % 2 == 0) then h else h + 1
  {
  }

  /** The bias trick computes that magnitude and keeps the sign. */
  lemma BiasRounds(bits: nat)
    requires bits < WORD32 && !IsNan32(bits)
    ensures FloatToBf16(bits) == (if bits >= SIGN32 then SIGN16 else 0) + Rounded(bits % SIGN32)
    ensures Rounded(bits % SIGN32) <= INF16
    ensures FloatToBf16(bits) < 0x1_0000 && FloatToBf16(bits) % SIGN16 == Rounded(bits % SIGN32)
    ensures FloatToBf16(bits) >= SIGN16 <==> bits >= SIGN32
  {
    var m := bits % SIGN32;
    var h, l := m / HALF, m % HALF;
    BiasCarries(h, l);
    SignSplits(bits, m, h, l);
  }

  /** The sign bit is an even number of upper halves, so it does not disturb the rounding. */
  lemma SignSplits(bits: nat, m: nat, h: nat, l: nat)
    requires bits < WORD32 && m == bits % SIGN32 && h == m / HALF && l == m % HALF && m <= INF32
    requires (h * HALF + l + 0x7FFF + h % 2) / HALF <= h + 1
    ensures m == h * HALF + l && h <= INF16 && (h == INF16 ==> l == 0)
    ensures FloatToBf16(bits) == (if bits >= SIGN32 then SIGN16 else 0) + (h * HALF + l + 0x7FFF + h % 2) / HALF
  {
    assert bits / HALF % 2 == h % 2;
  }

  /** Rounding a point at distance `a` into an interval of length `2 * half` to its nearer
      end, when no candidate lies inside the interval. */
  lemma NearestEnd(low: int, a: int, half: int, up: bool, even: bool, y: int)
    requires 0 <= a <= 2 * half
    requires a < half ==> !up
    requires a > half ==> up
    requires a == half ==> even
    requires y <= low || y >= low + 2 * half
    ensures Nearest(low + a, if up then low + 2 * half else low, even, y)
  {}

  lemma UnitsOrder(l: nat, unit: int)
    requires unit >= 1 && l < HALF
    ensures 0 <= l * unit <= HALF * unit
    ensures HALF * unit == 2 * (0x8000 * unit)
    ensures l < 0x8000 <==> l * unit < 0x8000 * unit
    ensures l == 0x8000 <==> l * unit == 0x8000 * unit
  {
    if l < 0x8000 {
      assert (0x8000 - l) * unit >= 1;
    } else if l > 0x8000 {
      assert (l - 0x8000) * unit >= 1;
    }
    assert (HALF - l) * unit >= 0;
  }

  /** `y` is a BF16 value, of either sign. */
  ghost predicate IsBf16Value(y: int) {
    exists k: nat :: y == Magnitude(k * HALF) || y == -Magnitude(k * HALF)
  }

  lemma NearestMagnitude(m: nat, y: int)
    requires IsBf16Value(y)
    ensures Nearest(Magnitude(m), Magnitude(Rounded(m) * HALF), Rounded(m) % 2 == 0, y)
  {
    var h, l := m / HALF, m % HALF;
    assert m == h * HALF + l;
    OutsideInterval(h, y);
    NearestBetween(h, l, Rounded(m), y);
  }

  lemma NearestBetween(h: nat, l: nat, r: nat, y: int)
    requires l < HALF && (y <= Magnitude(h * HALF) || y >= Magnitude((h + 1) * HALF))
    requires r == if l < 0x8000 || (l == 0x8000 && h % 2 == 0) then h else h + 1
    ensures Nearest(Magnitude(h * HALF + l), Magnitude(r * HALF), r % 2 == 0, y)
  {
    var unit := Ulp(h * HALF);
    MagnitudeLinear(h, l, unit);
    MagnitudeLinear(h, HALF, unit);
    MagnitudeStep(h * HALF);
    assert (h + 1) * HALF == h * HALF + HALF;
    UnitsOrder(l, unit);
    NearestEnd(Magnitude(h * HALF), l * unit, 0x8000 * unit, r == h + 1, r % 2 == 0, y);
  }

  /** `r` is at least as near to `x` as `y` is, and even if `y` is another nearest value. */
  predicate Nearest(x: int, r: int, even: bool, y: int) {
    && Distance(x, r) <= Distance(x, y)
    && (Distance(x, r) == Distance(x, y) && y != r ==> even)
  }

  /** No BF16 value lies strictly between two neighbouring magnitudes. */
  lemma OutsideInterval(h: nat, y: int)
    requires IsBf16Value(y)
    ensures y <= Magnitude(h * HALF) || y >= Magnitude((h + 1) * HALF)
  {
    var k: nat :| y == Magnitude(k * HALF) || y == -Magnitude(k * HALF);
    MagnitudeStrict(h * HALF, h * HALF + 1);
    MagnitudeStrict(k * HALF, k * HALF + 1);
    if k < h {
      MagnitudeStrict(k * HALF, h * HALF);
    } else if k > h + 1 {
      MagnitudeStrict((h + 1) * HALF, k * HALF);
    }
  }

  function Distance(a: int, b: int): int {
    if a <= b then b - a else a - b
  }

  /** Section 4.3.1 of IEEE 754-2019: no BF16 value is nearer than the result, and on a tie
      the result is the one with an even last bit. */
  lemma RoundsToNearest(bits: nat, candidate: nat)
    requires bits < WORD32 && !IsNan32(bits)
    requires candidate < 0x1_0000 && !IsNan16(candidate)
    ensures Nearest(Value32(bits), Value16(FloatToBf16(bits)), FloatToBf16(bits) % 2 == 0, Value16(candidate))
  {
    var m, k, s := bits % SIGN32, candidate % SIGN16, bits >= SIGN32;
    ValuesOf(bits);
    Value16Of(candidate);
    var y := Signed(s, Value16(candidate));
    assert y == Magnitude(k * HALF) || y == -Magnitude(k * HALF);
    NearestMagnitude(m, y);
    MirrorNearest(s, Magnitude(m), Magnitude(Rounded(m) * HALF), Rounded(m) % 2 == 0, y);
  }

  lemma MirrorNearest(s: bool, x: int, r: int, even: bool, y: int)
    requires Nearest(x, r, even, y)
    ensures Nearest(Signed(s, x), Signed(s, r), even, Signed(s, y))
  {}

  /** A pattern and its rounding, by sign and magnitude. */
  lemma ValuesOf(bits: nat)
    requires bits < WORD32 && !IsNan32(bits)
    ensures Value32(bits) == Signed(bits >= SIGN32, Magnitude(bits % SIGN32))
    ensures Value16(FloatToBf16(bits)) == Signed(bits >= SIGN32, Magnitude(Rounded(bits % SIGN32) * HALF))
    ensures FloatToBf16(bits) % 2 == Rounded(bits % SIGN32) % 2
  {
    BiasRounds(bits);
    var r := FloatToBf16(bits);
    Value16Of(r);
    assert bits % SIGN32 == if bits >= SIGN32 then bits - SIGN32 else bits;
    assert r % 2 == r % SIGN16 % 2;
  }

  /** The result is infinite exactly from the overflow midpoint on. */
  lemma OverflowMidpoint(bits: nat)
    requires bits < WORD32 && !IsNan32(bits)
    ensures FloatToBf16(bits) % SIGN16 == INF16 <==> bits % SIGN32 >= 0x7F7F_8000
  {
    BiasRounds(bits);
    var m := bits % SIGN32;
    assert m == m / HALF * HALF + m % HALF;
  }

  lemma RoundedMonotone(a: nat, b: nat)
    requires a <= b
    ensures Rounded(a) <= Rounded(b)
  {
    assert a == a / HALF * HALF + a % HALF && b == b / HALF * HALF + b % HALF;
  }

  lemma MagnitudesOrdered(m: nat, n: nat)
    ensures Magnitude(m) >= 0 && (Magnitude(m) <= Magnitude(n) <==> m <= n)
    ensures Magnitude(m) == 0 <==> m == 0
  {
    MagnitudeStrict(m, m + 1);
    if m < n {
      MagnitudeStrict(m, n);
    } else if n < m {
      MagnitudeStrict(n, m);
    }
    if m > 0 {
      MagnitudeStrict(0, m);
    }
  }

  /** Rounding keeps the order of values. */
  lemma RoundingMonotone(a: nat, b: nat)
    requires a < WORD32 && b < WORD32 && !IsNan32(a) && !IsNan32(b)
    requires Value32(a) <= Value32(b)
    ensures Value16(FloatToBf16(a)) <= Value16(FloatToBf16(b))
  {
    var m, n := a % SIGN32, b % SIGN32;
    ValuesOf(a);
    ValuesOf(b);
    MagnitudesOrdered(m, n);
    MagnitudesOrdered(n, m);
    MagnitudesOrdered(Rounded(m) * HALF, Rounded(n) * HALF);
    MagnitudesOrdered(Rounded(n) * HALF, Rounded(m) * HALF);
    if m <= n {
      RoundedMonotone(m, n);
    }
    if n <= m {
      RoundedMonotone(n, m);
    }
  }

  /** Rounding inverts widening, on every pattern. */
  lemma WideningRoundTrip(bits: nat)
    requires bits < 0x1_0000
    ensures FloatToBf16(Bf16ToFloat(bits)) == bits
  {
    assert bits * HALF / HALF == bits;
  }

  /** The trick does not test for NaN: a NaN stays one only between two thresholds, below
      which it becomes an infinity and above which the carry turns it into a zero of the
      other sign. */
  lemma NanSurvives(bits: nat)
    requires bits < WORD32 && IsNan32(bits)
    ensures IsNan16(FloatToBf16(bits)) <==> 0x7F80_8000 < bits % SIGN32 < 0x7FFF_8000
  {
    var m := bits % SIGN32;
    assert m == m / HALF * HALF + m % HALF;
  }

  // ------------------------------------------------------------------- integer order

  /** `ordered_bf16` */
  function OrderedBf16(bits: nat): int {
    var magnitude := bits % SIGN16;
    if bits >= SIGN16 then 0x8000 - magnitude else 0x8000 + magnitude
  }

  /** The integer order is the numeric order, and both zeros get the same integer. */
  lemma OrderedIsNumeric(a: nat, b: nat)
    requires a < 0x1_0000 && b < 0x1_0000
    ensures OrderedBf16(a) < OrderedBf16(b) <==> Value16(a) < Value16(b)
    ensures OrderedBf16(a) == OrderedBf16(b) <==> Value16(a) == Value16(b)
  {
    var m, n := a % SIGN16, b % SIGN16;
    Value16Of(a);
    Value16Of(b);
    MagnitudesOrdered(m * HALF, n * HALF);
    MagnitudesOrdered(n * HALF, m * HALF);
    SignedOrder(a >= SIGN16, m, Magnitude(m * HALF), b >= SIGN16, n, Magnitude(n * HALF));
  }

  lemma Value16Of(bits: nat)
    requires bits < 0x1_0000
    ensures Value16(bits) == Signed(bits >= SIGN16, Magnitude(bits % SIGN16 * HALF))
    ensures OrderedBf16(bits) == 0x8000 + Signed(bits >= SIGN16, bits % SIGN16)
  {}

  function Signed(negative: bool, magnitude: int): int {
    if negative then -magnitude else magnitude
  }

  /** Two orders that agree on magnitudes and on zero agree on signed numbers. */
  lemma SignedOrder(s: bool, m: nat, x: int, t: bool, n: nat, y: int)
    requires 0 <= x && 0 <= y
    requires (x <= y <==> m <= n) && (y <= x <==> n <= m)
    requires (x == 0 <==> m == 0) && (y == 0 <==> n == 0)
    ensures Signed(s, m) < Signed(t, n) <==> Signed(s, x) < Signed(t, y)
    ensures Signed(s, m) == Signed(t, n) <==> Signed(s, x) == Signed(t, y)
  {}
}
