/** Integer models of Python's `round(n / d)` (round half to even) and of the
    `min(max(v, 0), hi)` clamp that every transform ends with. */
module Rounding {

  /** Python 3 `round(n / d)` for a positive divisor, on the exact rational n/d:
      the nearest integer, and the even one of two equally near. */
  function RoundHalfEven(n: int, d: int): (r: int)
    requires d > 0
    ensures -d <= 2 * (n - d * r) <= d
    ensures (2 * (n - d * r) == d || 2 * (n - d * r) == -d) ==> r % 2 == 0
  {
    var q := n / d;
    var rem := n % d;
    assert n - d * (q + 1) == rem - d;
    if 2 * rem < d then q
    else if 2 * rem > d then q + 1
    else if q % 2 == 0 then q
    else q + 1
  }

  /** The nearest-integer, ties-to-even property singles out one integer:
      RoundHalfEven is the only function with its contract. */
  lemma RoundHalfEvenUnique(n: int, d: int, r: int)
    requires d > 0
    requires -d <= 2 * (n - d * r) <= d
    requires (2 * (n - d * r) == d || 2 * (n - d * r) == -d) ==> r % 2 == 0
    ensures r == RoundHalfEven(n, d)
  {
    var r0 := RoundHalfEven(n, d);
    if r0 > r {
      Gap(n, d, r, r0);
      assert false;
    } else if r0 < r {
      Gap(n, d, r0, r);
      assert false;
    }
  }

  /** Two integers both within half of n/d, the smaller below: they differ by one and
      n/d lies exactly half-way, so they are both tied and one of them is odd. */
  lemma Gap(n: int, d: int, lo: int, hi: int)
    requires d > 0 && lo < hi
    requires -d <= 2 * (n - d * lo) <= d && -d <= 2 * (n - d * hi) <= d
    ensures hi == lo + 1 && 2 * (n - d * lo) == d && 2 * (n - d * hi) == -d
  {
    MulAtLeast(d, hi - lo, 1);
    assert d * hi - d * lo == d * (hi - lo);
    if hi - lo >= 2 {
      MulAtLeast(d, hi - lo, 2);
      assert false;
    }
  }

  /** d * k >= d * b whenever k >= b and d is positive. */
  lemma MulAtLeast(d: int, k: int, b: int)
    requires d > 0 && k >= b
    ensures d * k >= d * b
  {
    assert d * k - d * b == d * (k - b);
  }

  /** Scaling by a non-negative factor keeps order. */
  lemma MulMonotone(a: int, b: int, f: int)
    requires a <= b && f >= 0
    ensures a * f <= b * f
  {
    assert b * f - a * f == (b - a) * f;
  }

  /** A whole quotient rounds to itself. */
  lemma RoundHalfEvenExact(k: int, d: int)
    requires d > 0
    ensures RoundHalfEven(k * d, d) == k
  {
    var r := RoundHalfEven(k * d, d);
    assert k * d - d * r == d * (k - r);
    if r < k {
      MulAtLeast(d, k - r, 1);
    } else if r > k {
      MulAtLeast(d, r - k, 1);
    }
  }

  /** Rounding never reverses the order of two numerators over one divisor. */
  lemma RoundHalfEvenMonotone(n1: int, n2: int, d: int)
    requires d > 0 && n1 <= n2
    ensures RoundHalfEven(n1, d) <= RoundHalfEven(n2, d)
  {
    var r1, r2 := RoundHalfEven(n1, d), RoundHalfEven(n2, d);
    if r1 > r2 {
      RoundedApart(n1, n2, d, r1, r2);
      assert false;
    }
  }

  /** Two numerators whose nearest integers over d are in the reverse order are
      themselves in the reverse order. */
  lemma RoundedApart(n1: int, n2: int, d: int, r1: int, r2: int)
    requires d > 0 && r1 > r2
    requires -d <= 2 * (n1 - d * r1) && 2 * (n2 - d * r2) <= d
    ensures n1 >= n2
  {
    MulAtLeast(d, r1 - r2, 1);
    assert d * r1 - d * r2 == d * (r1 - r2);
  }

  /** Scaling an index of [0, S] onto [0, C] by the ratio C/S, rounding, and scaling
      back by S/C, rounding again, moves it by at most one when S < 3C: each rounding
      errs by at most a half, the first one magnified by S/C on the way back. */
  lemma RoundTripWithinOne(x: int, s: int, c: int)
    requires s > 0 && c > 0 && 0 <= x <= s && s < 3 * c
    ensures 0 <= RoundHalfEven(x * c, s) <= c
    ensures 0 <= RoundHalfEven(RoundHalfEven(x * c, s) * s, c) <= s
    ensures -1 <= RoundHalfEven(RoundHalfEven(x * c, s) * s, c) - x <= 1
  {
    var y := RoundHalfEven(x * c, s);
    ScaledRoundingInRange(x, s, c);
    var z := RoundHalfEven(y * s, c);
    ScaledRoundingInRange(y, c, s);
    TwoRoundings(x, y, z, s, c);
  }

  /** The arithmetic of RoundTripWithinOne: y within half of x*c/s and z within half
      of y*s/c put z within (s + c) / 2c, which is below 2, of x. */
  lemma TwoRoundings(x: int, y: int, z: int, s: int, c: int)
    requires s > 0 && c > 0 && s < 3 * c
    requires -s <= 2 * (x * c - s * y) <= s
    requires -c <= 2 * (y * s - c * z) <= c
    ensures -1 <= z - x <= 1
  {
    var k := x - z;
    assert s * y == y * s;
    assert x * c - c * z == c * k;
    assert -(s + c) <= 2 * (c * k) <= s + c;
    if k >= 2 {
      MulAtLeast(c, k, 2);
      assert false;
    } else if k <= -2 {
      MulAtLeast(c, -2, k);
      assert false;
    }
  }

  /** Rounding p * c / s for p in [0, s] stays in [0, c]. */
  lemma ScaledRoundingInRange(p: int, s: int, c: int)
    requires s > 0 && c >= 0 && 0 <= p <= s
    ensures 0 <= RoundHalfEven(p * c, s) <= c
  {
    MulAtLeast(s, c, 0);
    assert 0 * s == 0;
    RoundHalfEvenExact(0, s);
    RoundHalfEvenMonotone(0, p * c, s);
    if c > 0 {
      MulAtLeast(c, s, p);
    }
    assert p * c <= c * s;
    RoundHalfEvenExact(c, s);
    RoundHalfEvenMonotone(p * c, c * s, s);
  }

  /** Python's `min(max(v, 0), hi)` for hi >= 0: v moved into [0, hi]. */
  function Clamp(v: int, hi: int): (r: int)
    requires hi >= 0
    ensures 0 <= r <= hi
    ensures 0 <= v <= hi ==> r == v
    ensures v <= 0 ==> r == 0
    ensures v >= hi ==> r == hi
  {
    if v < 0 then 0 else if v > hi then hi else v
  }

  /** Clamping never reverses the order of two values. */
  lemma ClampMonotone(v1: int, v2: int, hi: int)
    requires hi >= 0 && v1 <= v2
    ensures Clamp(v1, hi) <= Clamp(v2, hi)
  {
  }
}
