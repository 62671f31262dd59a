/** Primes, and that a product of powers of different primes determines its exponents. */
module Primes {
  import opened Powers

  ghost predicate Divides(d: nat, n: nat) {
    exists k: nat :: n == d * k
  }

  ghost predicate Prime(p: nat) {
    p > 1 && forall d: nat :: Divides(d, p) ==> d == 1 || d == p
  }

  lemma {:induction false} DividesSum(d: nat, a: nat, b: nat)
    requires Divides(d, a) && Divides(d, b)
    ensures Divides(d, a + b) && (a >= b ==> Divides(d, a - b))
  {
    var j: nat :| a == d * j;
    var k: nat :| b == d * k;
    assert a + b == d * (j + k);
    if a >= b {
      if k <= j {
        assert a - b == d * (j - k);
      } else {
        MulGrows(j, k, d);
        assert a - b == d * 0;
      }
    }
  }

  lemma {:induction false} DividesProduct(d: nat, a: nat, c: nat)
    requires Divides(d, a)
    ensures Divides(d, a * c) && Divides(d, c * a)
  {
    var k: nat :| a == d * k;
    MulAssociates(d, k, c);
    assert a * c == d * (k * c);
  }

  /** The multipliers that bring b to a multiple of p are closed under remainders. */
  lemma {:induction false} RemainderStays(p: nat, b: nat, x: nat, y: nat)
    requires Divides(p, x * b) && Divides(p, y * b) && y > 0
    ensures Divides(p, (x % y) * b)
  {
    DividesProduct(p, y * b, x / y);
    RemainderTimes(x, y, b);
    DividesSum(p, x * b, (y * b) * (x / y));
  }

  lemma {:induction false} RemainderTimes(x: nat, y: nat, b: nat)
    requires y > 0
    ensures x * b == (y * b) * (x / y) + (x % y) * b
  {
    var q, r := x / y, x % y;
    assert x == y * q + r;
    MulSpreads(b, y * q, r);
    SwapMiddle(y, q, b);
  }

  lemma {:induction false} SwapMiddle(y: nat, q: nat, b: nat)
    ensures (y * q) * b == (y * b) * q
  {
  }

  /** The Euclidean algorithm on multipliers: from x and y down to one that divides both. */
  lemma {:induction false} CommonMultiplier(p: nat, b: nat, x: nat, y: nat) returns (g: nat)
    requires Divides(p, x * b) && Divides(p, y * b) && x > 0
    ensures g > 0 && Divides(p, g * b) && Divides(g, x) && Divides(g, y)
    decreases y
  {
    if y == 0 {
      g := x;
      assert x == x * 1 && y == x * 0;
    } else {
      RemainderStays(p, b, x, y);
      g := CommonMultiplier(p, b, y, x % y);
      DividesProduct(g, y, x / y);
      assert x == y * (x / y) + x % y;
      DividesSum(g, y * (x / y), x % y);
    }
  }

  /** A prime that divides a product divides a factor. */
  lemma {:induction false} EuclidsLemma(p: nat, a: nat, b: nat)
    requires Prime(p) && Divides(p, a * b)
    ensures Divides(p, a) || Divides(p, b)
  {
    assert p * b == p * b;
    var g := CommonMultiplier(p, b, p, a);
    if g == 1 {
      assert g * b == b;
    }
  }

  lemma {:induction false} DividesPower(p: nat, q: nat, n: nat)
    requires Prime(p) && Prime(q) && Divides(p, Pow(q, n))
    ensures p == q
  {
    if n == 0 {
      var k: nat :| 1 == p * k;
      if k > 0 {
        MulGrows(1, k, p);
      }
      assert false;
    } else {
      EuclidsLemma(p, q, Pow(q, n - 1));
      if !Divides(p, q) {
        DividesPower(p, q, n - 1);
      }
    }
  }

  /** The product of the first n primes, each raised to its exponent. */
  ghost function Product(primes: seq<nat>, exponents: seq<nat>, n: nat): nat
    requires n <= |primes| == |exponents|
  {
    if n == 0 then 1 else Product(primes, exponents, n - 1) * Pow(primes[n - 1], exponents[n - 1])
  }

  ghost predicate DifferentPrimes(primes: seq<nat>) {
    && (forall i :: 0 <= i < |primes| ==> Prime(primes[i]))
    && (forall i, j :: 0 <= i < j < |primes| ==> primes[i] != primes[j])
  }

  lemma {:induction false} NotInProduct(primes: seq<nat>, exponents: seq<nat>, n: nat, i: nat)
    requires n <= i < |primes| == |exponents| && DifferentPrimes(primes)
    ensures !Divides(primes[i], Product(primes, exponents, n))
  {
    var p := primes[i];
    if n == 0 {
      forall k: nat ensures 1 != p * k {
        if k > 0 {
          MulGrows(1, k, p);
        }
      }
    } else {
      NotInProduct(primes, exponents, n - 1, i);
      if Divides(p, Product(primes, exponents, n)) {
        EuclidsLemma(p, Product(primes, exponents, n - 1), Pow(primes[n - 1], exponents[n - 1]));
        DividesPower(p, primes[n - 1], exponents[n - 1]);
      }
    }
  }

  /** p to the e times something p does not divide: e is fixed. */
  lemma {:induction false} ExponentFixed(p: nat, a: nat, b: nat, e: nat, f: nat)
    requires p > 0 && a * Pow(p, e) == b * Pow(p, f) && e < f
    ensures Divides(p, a)
  {
    PowAdd(p, f - e, e);
    PowPositive(p, e);
    MulAssociates(b, Pow(p, f - e), Pow(p, e));
    var c := b * Pow(p, f - e);
    if a < c {
      MulLess(a, c, Pow(p, e));
    } else if c < a {
      MulLess(c, a, Pow(p, e));
    }
    assert Pow(p, f - e) == p * Pow(p, f - e - 1);
    MulAssociates(p, Pow(p, f - e - 1), b);
    assert a == p * (Pow(p, f - e - 1) * b);
  }

  lemma {:induction false} Cancel(a: nat, b: nat, p: nat)
    requires p > 0 && a * p == b * p
    ensures a == b
  {
    if a < b {
      MulLess(a, b, p);
    } else if b < a {
      MulLess(b, a, p);
    }
  }

  /** Unique factorization: equal products have equal exponents. */
  lemma {:induction false} ProductFixesExponents(primes: seq<nat>, e: seq<nat>, f: seq<nat>, n: nat)
    requires n <= |primes| == |e| == |f| && DifferentPrimes(primes)
    requires Product(primes, e, n) == Product(primes, f, n)
    ensures e[..n] == f[..n]
  {
    if n > 0 {
      var p, a, b := primes[n - 1], Product(primes, e, n - 1), Product(primes, f, n - 1);
      NotInProduct(primes, e, n - 1, n - 1);
      NotInProduct(primes, f, n - 1, n - 1);
      if e[n - 1] < f[n - 1] {
        ExponentFixed(p, a, b, e[n - 1], f[n - 1]);
      } else if f[n - 1] < e[n - 1] {
        ExponentFixed(p, b, a, f[n - 1], e[n - 1]);
      }
      PowPositive(p, e[n - 1]);
      Cancel(a, b, Pow(p, e[n - 1]));
      ProductFixesExponents(primes, e, f, n - 1);
      assert e[..n] == e[..n - 1] + [e[n - 1]] && f[..n] == f[..n - 1] + [f[n - 1]];
    }
  }

  /** Below 49 the divisors 2, 3 and 5 decide. */
  lemma {:induction false} SmallPrime(p: nat)
    requires 1 < p < 49 && (p == 2 || p % 2 != 0) && (p == 3 || p % 3 != 0) && (p == 5 || p % 5 != 0)
    ensures Prime(p)
  {
    forall d: nat | Divides(d, p) ensures d == 1 || d == p {
      var k: nat :| p == d * k;
      if d >= 7 && k >= 7 {
        MulGrows(7, d, k);
      }
      if d < 7 {
        SmallFactor(p, d, k);
      } else if k < 7 {
        SmallFactor(p, k, d);
      }
    }
  }

  lemma {:induction false} Even(p: nat, k: nat)
    requires p == 2 * k && (p == 2 || p % 2 != 0)
    ensures p == 2 && k == 1
  {
  }

  lemma {:induction false} Triple(p: nat, k: nat)
    requires p == 3 * k && (p == 3 || p % 3 != 0)
    ensures p == 3 && k == 1
  {
  }

  lemma {:induction false} Fivefold(p: nat, k: nat)
    requires p == 5 * k && (p == 5 || p % 5 != 0)
    ensures p == 5 && k == 1
  {
  }

  lemma {:induction false} SmallFactor(p: nat, d: nat, k: nat)
    requires 1 < p && (p == 2 || p % 2 != 0) && (p == 3 || p % 3 != 0) && (p == 5 || p % 5 != 0)
    requires p == d * k && d < 7
    ensures d == 1 || (d == p && k == 1)
  {
    match d
    case 0 =>
    case 1 =>
    case 2 => Even(p, k);
    case 3 => Triple(p, k);
    case 4 => Even(p, 2 * k);
    case 5 => Fivefold(p, k);
    case _ => Even(p, 3 * k);
  }
}
