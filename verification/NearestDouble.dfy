/**
 * The doubles nearest to a rational number, ties to even. A rational num/den is compared on the scale
 * 2^1075, where half the smallest subnormal is 1 and every double is m * 2^j with m < 2^53 and 1 <= j <= 2046.
 */
module NearestDouble {
  import opened Powers

  const SCALE: nat := 1075
  const SIGNIFICANDS: nat := 0x20_0000_0000_0000

  datatype Magnitude = Finite(significand: nat, exponent: int) | Infinite

  /** The integer nearest to a/b, ties to even. */
  function Nearest(a: nat, b: nat): nat
    requires b > 0
  {
    var q, r := a / b, a % b;
    if 2 * r > b || (2 * r == b && q % 2 == 1) then q + 1 else q
  }

  function Dist(a: nat, b: nat, x: nat): nat {
    if b * x <= a then a - b * x else b * x - a
  }

  /** m units of 2^j. */
  function Units(m: nat, j: nat): nat {
    m * Pow(2, j)
  }

  ghost predicate IsDouble(x: nat) {
    exists m: nat, j: nat :: m < SIGNIFICANDS && 1 <= j <= 2046 && x == Units(m, j)
  }

  ghost predicate Even(x: nat) {
    exists m: nat, j: nat ::
      m < SIGNIFICANDS && 1 <= j <= 2046 && x == Units(m, j) && m % 2 == 0 && (2 * m >= SIGNIFICANDS || j == 1)
  }

  /** No double is closer to a/b than x, and when another one is as close x has the even significand. */
  ghost predicate RoundsTo(a: nat, b: nat, x: nat) {
    && IsDouble(x)
    && (forall y: nat :: IsDouble(y) ==> Dist(a, b, x) <= Dist(a, b, y))
    && (forall y: nat :: IsDouble(y) && y != x && Dist(a, b, y) == Dist(a, b, x) ==> Even(x))
  }

  /** At least half a unit above the greatest double. */
  ghost predicate Overflows(a: nat, b: nat) {
    a >= b * ((2 * SIGNIFICANDS - 1) * Pow(2, 2045))
  }

  /** The result of rounding num/den as section 4.3.1 of IEEE 754-2019 wants it. */
  ghost predicate Correct(num: nat, den: nat, r: Magnitude) {
    var a := num * Pow(2, SCALE);
    match r
    case Infinite => Overflows(a, den)
    case Finite(m, e) =>
      e + SCALE >= 1 && !Overflows(a, den) && RoundsTo(a, den, Units(m, e + SCALE))
  }

  // ---- Rounding to an integer ----

  lemma {:induction false} Quotient(a: nat, b: nat, q: nat)
    requires b > 0 && b * q <= a < b * (q + 1)
    ensures a / b == q && a % b == a - b * q
  {
    var p, r := a / b, a % b;
    assert a == b * p + r;
    if p < q {
      MulGrows(p + 1, q, b);
    } else if p > q {
      MulGrows(q + 1, p, b);
    }
  }

  lemma {:induction false} NearestIsClosest(a: nat, c: nat, k: nat)
    requires c > 0
    ensures Dist(a, c, Nearest(a, c)) <= Dist(a, c, k)
    ensures Dist(a, c, Nearest(a, c)) == Dist(a, c, k) && k != Nearest(a, c) ==> Nearest(a, c) % 2 == 0
  {
    var q, r := a / c, a % c;
    assert a == c * q + r;
    assert c * (q + 1) == c * q + c;
    if k <= q {
      if k < q {
        MulGrows(k + 1, q, c);
        assert c * (k + 1) == c * k + c;
      }
    } else {
      if k > q + 1 {
        MulGrows(q + 2, k, c);
        assert c * (q + 2) == c * q + 2 * c;
      }
    }
  }

  lemma {:induction false} NearestAtLeast(a: nat, c: nat, k: nat)
    requires c > 0 && k * c <= a
    ensures Nearest(a, c) >= k
  {
    var q, r := a / c, a % c;
    assert a == c * q + r;
    if q < k {
      MulGrows(q + 1, k, c);
    }
  }

  lemma {:induction false} NearestAtMost(a: nat, c: nat, k: nat)
    requires c > 0 && a < k * c
    ensures Nearest(a, c) <= k
  {
    var q, r := a / c, a % c;
    assert a == c * q + r;
    if q >= k {
      MulGrows(k, q, c);
    }
  }

  /** The top of the range: rounding reaches an even k exactly from k - 1/2 on. */
  lemma {:induction false} NearestReaches(a: nat, c: nat, k: nat)
    requires c > 0 && k > 0 && k % 2 == 0 && a < k * c
    ensures Nearest(a, c) == k <==> 2 * a >= (2 * k - 1) * c
  {
    var q, r := a / c, a % c;
    assert a == c * q + r;
    if q >= k {
      MulGrows(k, q, c);
    }
    assert (2 * k - 1) * c == 2 * (k * c) - c;
    if q + 1 == k {
      assert k * c == c * q + c;
    } else {
      MulGrows(q + 2, k, c);
      assert (q + 2) * c == c * q + 2 * c;
    }
  }

  lemma {:induction false} NearestScaled(a: nat, b: nat, k: nat)
    requires b > 0 && k > 0
    ensures b * k > 0 && Nearest(a * k, b * k) == Nearest(a, b)
  {
    var q, r := a / b, a % b;
    assert a == b * q + r;
    MulGrows(1, b, k);
    MulSpreads(k, b * q, r);
    MulAssociates(b, q, k);
    MulAssociates(b, k, q);
    assert a * k == (b * k) * q + r * k;
    MulLess(r, b, k);
    assert (b * k) * (q + 1) == (b * k) * q + b * k;
    Quotient(a * k, b * k, q);
    ScaledCompare(2 * r, b, k);
    MulAssociates(2, r, k);
  }

  lemma {:induction false} ScaledCompare(x: nat, y: nat, k: nat)
    requires k > 0
    ensures x * k > y * k <==> x > y
    ensures x * k == y * k <==> x == y
  {
    if x < y {
      MulLess(x, y, k);
    } else if y < x {
      MulLess(y, x, k);
    }
  }

  /** Rounding depends on the ratio only. */
  lemma {:induction false} NearestOfRatio(a: nat, b: nat, c: nat, d: nat)
    requires b > 0 && d > 0 && a * d == c * b
    ensures Nearest(a, b) == Nearest(c, d)
  {
    NearestScaled(a, b, d);
    NearestScaled(c, d, b);
    assert b * d == d * b;
  }

  // ---- The nearest double ----

  /** a/b is rounded in units of 2^j: it fits below 2^53 units and, above the smallest unit, fills them. */
  ghost predicate InBinade(a: nat, b: nat, j: nat) {
    && 1 <= j <= 2046
    && a < SIGNIFICANDS * (b * Pow(2, j))
    && (j == 1 || 2 * a >= SIGNIFICANDS * (b * Pow(2, j)))
  }

  lemma {:induction false} CoarserIsMultiple(m: nat, j: nat, k: nat)
    requires j <= k
    ensures Units(m, k) == Units(m * Pow(2, k - j), j)
  {
    PowAdd(2, k - j, j);
    MulAssociates(m, Pow(2, k - j), Pow(2, j));
  }

  lemma {:induction false} DistInUnits(a: nat, b: nat, k: nat, j: nat)
    ensures Dist(a, b, Units(k, j)) == Dist(a, b * Pow(2, j), k)
  {
    MulAssociates(b, Pow(2, j), k);
    assert k * Pow(2, j) == Pow(2, j) * k;
  }

  lemma {:induction false} FinerArithmetic(a: nat, b: nat, u: nat, v: nat, m: nat, h: nat)
    requires b > 0 && v > 0 && 2 * v <= u && m < 2 * h && a >= h * (b * u)
    ensures b * (m * v) < (b * u) * h <= a
  {
    MulLess(m, 2 * h, v);
    MulAssociates(h, 2, v);
    MulGrows(2 * v, u, h);
    MulLess(m * v, h * u, b);
    MulAssociates(b, u, h);
    assert h * u == u * h;
  }

  /** A double of a finer unit lies below the binade, so some multiple of the unit is closer. */
  lemma {:induction false} FinerIsFarther(a: nat, b: nat, j: nat, m: nat, i: nat)
    requires b > 0 && InBinade(a, b, j) && 1 <= i < j && m < SIGNIFICANDS
    ensures Dist(a, b * Pow(2, j), SIGNIFICANDS / 2) < Dist(a, b, Units(m, i))
  {
    PowGrows(2, i, j - 1);
    PowPositive(2, i);
    FinerArithmetic(a, b, Pow(2, j), Pow(2, i), m, SIGNIFICANDS / 2);
  }

  lemma {:induction false} UnitPositive(b: nat, j: nat)
    requires b > 0
    ensures b * Pow(2, j) > 0
  {
    PowPositive(2, j);
    MulGrows(1, b, Pow(2, j));
  }

  /** What x has to satisfy against one other double. */
  ghost predicate Beats(a: nat, b: nat, x: nat, even: bool, y: nat) {
    Dist(a, b, x) <= Dist(a, b, y) && (y != x && Dist(a, b, y) == Dist(a, b, x) ==> even)
  }

  lemma {:induction false} BeatsMultiple(a: nat, b: nat, j: nat, k: nat)
    requires b > 0
    ensures b * Pow(2, j) > 0
    ensures Beats(a, b, Units(Nearest(a, b * Pow(2, j)), j), Nearest(a, b * Pow(2, j)) % 2 == 0, Units(k, j))
  {
    UnitPositive(b, j);
    var c := b * Pow(2, j);
    NearestIsClosest(a, c, k);
    DistInUnits(a, b, Nearest(a, c), j);
    DistInUnits(a, b, k, j);
  }

  lemma {:induction false} BeatsFiner(a: nat, b: nat, j: nat, m: nat, i: nat)
    requires b > 0 && InBinade(a, b, j) && 1 <= i < j && m < SIGNIFICANDS
    ensures b * Pow(2, j) > 0
    ensures Beats(a, b, Units(Nearest(a, b * Pow(2, j)), j), Nearest(a, b * Pow(2, j)) % 2 == 0, Units(m, i))
  {
    UnitPositive(b, j);
    FinerIsFarther(a, b, j, m, i);
    NearestIsClosest(a, b * Pow(2, j), SIGNIFICANDS / 2);
    DistInUnits(a, b, Nearest(a, b * Pow(2, j)), j);
  }

  lemma {:induction false} NearestBeats(a: nat, b: nat, j: nat, y: nat)
    requires b > 0 && InBinade(a, b, j) && IsDouble(y)
    ensures b * Pow(2, j) > 0
    ensures Beats(a, b, Units(Nearest(a, b * Pow(2, j)), j), Nearest(a, b * Pow(2, j)) % 2 == 0, y)
  {
    var m: nat, i: nat :| m < SIGNIFICANDS && 1 <= i <= 2046 && y == Units(m, i);
    if i < j {
      BeatsFiner(a, b, j, m, i);
    } else {
      CoarserIsMultiple(m, j, i);
      BeatsMultiple(a, b, j, m * Pow(2, i - j));
    }
  }

  /** The rounded multiple of the unit as a double: a carry into 2^53 moves to the next unit. */
  lemma {:induction false} NearestIsDouble(a: nat, b: nat, j: nat)
    requires b > 0 && InBinade(a, b, j)
    ensures b * Pow(2, j) > 0 && Nearest(a, b * Pow(2, j)) <= SIGNIFICANDS
    ensures var m := Nearest(a, b * Pow(2, j));
      m < SIGNIFICANDS || j < 2046 ==> IsDouble(Units(m, j)) && (m % 2 == 0 ==> Even(Units(m, j)))
  {
    UnitPositive(b, j);
    var c := b * Pow(2, j);
    NearestAtMost(a, c, SIGNIFICANDS);
    var m := Nearest(a, c);
    if j > 1 {
      NearestAtLeast(a, c, SIGNIFICANDS / 2);
    }
    if m == SIGNIFICANDS {
      assert Units(m, j) == Units(SIGNIFICANDS / 2, j + 1);
    }
  }

  lemma {:induction false} NearestRounds(a: nat, b: nat, j: nat)
    requires b > 0 && InBinade(a, b, j)
    ensures b * Pow(2, j) > 0
    ensures Nearest(a, b * Pow(2, j)) < SIGNIFICANDS || j < 2046 ==> RoundsTo(a, b, Units(Nearest(a, b * Pow(2, j)), j))
  {
    NearestIsDouble(a, b, j);
    var m := Nearest(a, b * Pow(2, j));
    var x := Units(m, j);
    forall y: nat | IsDouble(y) ensures Beats(a, b, x, m % 2 == 0, y) {
      NearestBeats(a, b, j, y);
    }
    if m < SIGNIFICANDS || j < 2046 {
      BeatsAll(a, b, x, m % 2 == 0);
    }
  }

  lemma {:induction false} BeatsAll(a: nat, b: nat, x: nat, even: bool)
    requires IsDouble(x) && (even ==> Even(x)) && forall y: nat :: IsDouble(y) ==> Beats(a, b, x, even, y)
    ensures RoundsTo(a, b, x)
  {
    assert forall y: nat {:trigger IsDouble(y)} :: IsDouble(y) ==> Beats(a, b, x, even, y);
  }

  lemma {:induction false} OverflowArithmetic(b: nat, half: nat, s: nat)
    requires s > 0
    ensures (2 * s - 1) * (2 * (b * half)) == 2 * (b * ((2 * s - 1) * half))
  {
    var k := 2 * s - 1;
    MulAssociates(k, 2, b * half);
    MulAssociates(2, k, b * half);
    MulAssociates(k, b, half);
    MulAssociates(b, k, half);
    assert k * b == b * k;
  }

  lemma {:induction false} BelowOverflow(a: nat, b: nat, u: nat, half: nat, s: nat)
    requires s > 0 && u <= half && a < s * (b * u)
    ensures a < b * ((2 * s - 1) * half)
  {
    OverflowArithmetic(b, half, s);
    MulGrows(u, half, b);
    MulGrows(b * u, b * half, s);
    MulGrows(s, 2 * s - 1, b * half);
    MulAssociates(2 * s - 1, 2, b * half);
    assert (2 * s - 1) * (2 * (b * half)) == 2 * ((2 * s - 1) * (b * half));
  }

  lemma {:induction false} TwiceInside(b: nat, half: nat)
    ensures b * (2 * half) == 2 * (b * half)
  {
  }

  lemma {:induction false} OverflowTop(a: nat, b: nat, half: nat, c: nat, s: nat)
    requires s > 0 && s % 2 == 0 && c > 0 && c == 2 * (b * half) && a < s * c
    ensures a >= b * ((2 * s - 1) * half) <==> Nearest(a, c) == s
  {
    NearestReaches(a, c, s);
    OverflowArithmetic(b, half, s);
  }

  lemma {:induction false} OverflowInBinade(a: nat, b: nat, j: nat)
    requires b > 0 && InBinade(a, b, j)
    ensures b * Pow(2, j) > 0
    ensures Overflows(a, b) <==> j == 2046 && Nearest(a, b * Pow(2, j)) == SIGNIFICANDS
  {
    UnitPositive(b, j);
    var half := Pow(2, 2045);
    if j == 2046 {
      assert Pow(2, j) == 2 * half;
      TwiceInside(b, half);
      OverflowTop(a, b, half, b * Pow(2, j), SIGNIFICANDS);
    } else {
      PowGrows(2, j, 2045);
      BelowOverflow(a, b, Pow(2, j), half, SIGNIFICANDS);
    }
  }

  /** Rounded in some unit, with the carry of the greatest unit turned into infinity. */
  ghost predicate InUnits(num: nat, den: nat, r: Magnitude)
    requires den > 0
  {
    var a := num * Pow(2, SCALE);
    match r
    case Infinite => Overflows(a, den)
    case Finite(m, e) =>
      && e + SCALE >= 1 && InBinade(a, den, e + SCALE)
      && !Overflows(a, den)
      && den * Pow(2, e + SCALE) > 0 && m == Nearest(a, den * Pow(2, e + SCALE))
  }

  lemma {:induction false} InUnitsIsCorrect(num: nat, den: nat, r: Magnitude)
    requires den > 0 && InUnits(num, den, r)
    ensures Correct(num, den, r)
  {
    if r.Finite? {
      var a, j: nat := num * Pow(2, SCALE), r.exponent + SCALE;
      NearestRounds(a, den, j);
      OverflowInBinade(a, den, j);
      NearestIsDouble(a, den, j);
    }
  }
}
