/**
 * The graph hash: a product of 13 primes, one exponent each, kept as exponents and printed through a
 * big integer with limbs of nine decimal digits.
 */
module KghHash {
  import opened Powers
  import opened Limbs
  import opened DecimalText
  import opened DecimalLimbs
  import opened Primes

  const KGH_PRIMES: seq<nat> := [2, 3, 5, 7, 11, 19, 23, 29, 31, 37, 41, 43, 47]

  const NODE_ENTRY: nat := 0
  const NODE_EXIT: nat := 1
  const NODE_NORMAL: nat := 2
  const EDGE_IN_CONDITIONAL: nat := 3
  const EDGE_OUT_CONDITIONAL: nat := 4
  const FEATURE_LOOP: nat := 5
  const FEATURE_STRONGLY_CONNECTED: nat := 9
  const FEATURE_FUNC_NO_RET: nat := 10
  const FEATURE_FUNC_LIB: nat := 11
  const FEATURE_FUNC_THUNK: nat := 12
  const PRIME_COUNT: nat := 13

  // ---- One step of each limb loop ----

  lemma {:induction false} PutValue(l: seq<nat>, i: nat, x: nat)
    requires i < |l|
    ensures Value(l[i := x], LIMB_BASE) + l[i] * Pow(LIMB_BASE, i) == Value(l, LIMB_BASE) + x * Pow(LIMB_BASE, i)
    decreases |l|
  {
    var n: nat := |l| - 1;
    if i < n {
      PutValue(l[..n], i, x);
      assert l[i := x][..n] == l[..n][i := x];
    } else {
      assert l[i := x][..n] == l[..n];
    }
  }

  lemma {:induction false} InnerArithmetic(v: nat, w: nat, r: nat, lo: nat, hi: nat, carry: nat, x: nat, y: nat, p: nat)
    requires w + r * p == v + lo * p && x * y + r + carry == lo + LIMB_BASE * hi
    ensures w + hi * (LIMB_BASE * p) == v + carry * p + (x * y) * p
  {
    MulSpreads(p, x * y + r, carry);
    MulSpreads(p, x * y, r);
    MulSpreads(p, lo, LIMB_BASE * hi);
    MulAssociates(hi, LIMB_BASE, p);
  }

  lemma {:induction false} ProductSplits(x: nat, y: nat, outer: nat, inner: nat)
    ensures (x * y) * Pow(LIMB_BASE, outer + inner) == x * (y * Pow(LIMB_BASE, inner)) * Pow(LIMB_BASE, outer)
  {
    PowSum(LIMB_BASE, inner, outer, outer + inner);
    var p, q := Pow(LIMB_BASE, inner), Pow(LIMB_BASE, outer);
    MulAssociates(x, y, p);
    MulAssociates(x * y, p, q);
  }

  /** What the partial products of one row add up to so far. */
  ghost predicate RowSum(result: seq<nat>, carry: nat, before: nat, x: nat, other: seq<nat>, outer: nat, inner: nat)
    requires inner <= |other|
  {
    Value(result, LIMB_BASE) + carry * Pow(LIMB_BASE, outer + inner) ==
      before + x * Value(other[..inner], LIMB_BASE) * Pow(LIMB_BASE, outer)
  }

  lemma {:induction false} ProductFits(x: nat, y: nat, r: nat, carry: nat)
    requires x < LIMB_BASE && y < LIMB_BASE && r < LIMB_BASE && carry < LIMB_BASE
    ensures x * y + r + carry < LIMB_BASE * LIMB_BASE
  {
    MulGrows(x, LIMB_BASE - 1, y);
  }

  lemma {:induction false} RowStep(result: seq<nat>, carry: nat, before: nat, x: nat, other: seq<nat>, outer: nat,
      inner: nat, lo: nat, hi: nat)
    requires inner < |other| && outer + inner < |result| && RowSum(result, carry, before, x, other, outer, inner)
    requires x * other[inner] + result[outer + inner] + carry == lo + LIMB_BASE * hi
    ensures RowSum(result[outer + inner := lo], hi, before, x, other, outer, inner + 1)
  {
    var i, y := outer + inner, other[inner];
    var p, v := Pow(LIMB_BASE, i), Value(result, LIMB_BASE);
    PutValue(result, i, lo);
    InnerArithmetic(v, Value(result[i := lo], LIMB_BASE), result[i], lo, hi, carry, x, y, p);
    ProductSplits(x, y, outer, inner);
    ValueOneMore(other, inner, LIMB_BASE);
    MulGrows(0, y, Pow(LIMB_BASE, inner));
    SumOfRow(x, Value(other[..inner], LIMB_BASE), y * Pow(LIMB_BASE, inner), Pow(LIMB_BASE, outer));
  }

  lemma {:induction false} SumOfRow(x: nat, a: nat, b: nat, q: nat)
    ensures x * (a + b) * q == x * a * q + x * b * q
  {
    MulSpreads(x, a, b);
    MulSpreads(q, x * a, x * b);
  }

  /** The carry of a row never runs past the end: the row's total is too small for a limb there. */
  lemma {:induction false} CarryStaysInside(total: nat, v: nat, carry: nat, position: nat, limit: nat)
    requires v + carry * Pow(LIMB_BASE, position) == total < Pow(LIMB_BASE, limit) && carry > 0
    ensures position < limit
  {
    MulGrows(1, carry, Pow(LIMB_BASE, position));
    if limit <= position {
      PowGrows(LIMB_BASE, limit, position);
    }
  }

  lemma {:induction false} CarryStep(result: seq<nat>, carry: nat, position: nat, total: nat, lo: nat, hi: nat)
    requires position < |result| && result[position] + carry == lo + LIMB_BASE * hi
    requires Value(result, LIMB_BASE) + carry * Pow(LIMB_BASE, position) == total
    ensures Value(result[position := lo], LIMB_BASE) + hi * Pow(LIMB_BASE, position + 1) == total
  {
    PutValue(result, position, lo);
    InnerArithmetic(Value(result, LIMB_BASE), Value(result[position := lo], LIMB_BASE), result[position], lo, hi,
      carry, 0, 0,
      Pow(LIMB_BASE, position));
  }

  lemma {:induction false} RowTotal(limbs: seq<nat>, other: seq<nat>, outer: nat)
    requires outer < |limbs| && Digits(limbs, LIMB_BASE) && Digits(other, LIMB_BASE)
    ensures Value(limbs[..outer + 1], LIMB_BASE) * Value(other, LIMB_BASE) ==
      Value(limbs[..outer], LIMB_BASE) * Value(other, LIMB_BASE) +
        limbs[outer] * Value(other, LIMB_BASE) * Pow(LIMB_BASE, outer)
    ensures Value(limbs[..outer + 1], LIMB_BASE) * Value(other, LIMB_BASE) < Pow(LIMB_BASE, outer + 1 + |other|)
  {
    ValueOneMore(limbs, outer, LIMB_BASE);
    RowSplits(Value(limbs[..outer], LIMB_BASE), limbs[outer], Value(other, LIMB_BASE), Pow(LIMB_BASE, outer));
    ProductBelow(limbs[..outer + 1], other);
  }

  lemma {:induction false} RowSplits(v: nat, x: nat, w: nat, p: nat)
    ensures (v + x * p) * w == v * w + x * w * p
  {
    MulSpreads(w, v, x * p);
    SwapMiddle(x, p, w);
  }

  lemma {:induction false} ProductBelow(a: seq<nat>, b: seq<nat>)
    requires Digits(a, LIMB_BASE) && Digits(b, LIMB_BASE)
    ensures Value(a, LIMB_BASE) * Value(b, LIMB_BASE) < Pow(LIMB_BASE, |a| + |b|)
  {
    ValueBelow(a, LIMB_BASE);
    ValueBelow(b, LIMB_BASE);
    PowSum(LIMB_BASE, |a|, |b|, |a| + |b|);
    BothBelow(Value(a, LIMB_BASE), Value(b, LIMB_BASE), Pow(LIMB_BASE, |a|), Pow(LIMB_BASE, |b|));
  }

  lemma {:induction false} BothBelow(a: nat, b: nat, c: nat, d: nat)
    requires a < c && b < d
    ensures a * b < c * d
  {
    MulGrows(a, c, b);
    MulLess(b, d, c);
  }

  lemma {:induction false} Parts(product: nat)
    requires product < LIMB_BASE * LIMB_BASE
    ensures product == product % LIMB_BASE + LIMB_BASE * (product / LIMB_BASE)
    ensures product % LIMB_BASE < LIMB_BASE && product / LIMB_BASE < LIMB_BASE
  {
  }

  /** One limb product added in. */
  method AddProduct(result: seq<nat>, i: nat, x: nat, y: nat, carry: nat) returns (lo: nat, hi: nat)
    requires Digits(result, LIMB_BASE) && i < |result| && x < LIMB_BASE && y < LIMB_BASE && carry < LIMB_BASE
    ensures lo < LIMB_BASE && hi < LIMB_BASE && x * y + result[i] + carry == lo + LIMB_BASE * hi
  {
    ProductFits(x, y, result[i], carry);
    var product := x * y + result[i] + carry;
    assert product < 0x1_0000_0000_0000_0000;
    Parts(product);
    lo, hi := product % LIMB_BASE, product / LIMB_BASE;
  }

  lemma {:induction false} RowStart(start: seq<nat>, x: nat, other: seq<nat>, outer: nat)
    ensures RowSum(start, 0, Value(start, LIMB_BASE), x, other, outer, 0)
  {
    assert other[..0] == [];
  }

  /** One row of the schoolbook product: add x * other at limb `outer`. */
  method AddRow(start: seq<nat>, x: nat, other: seq<nat>, outer: nat) returns (result: seq<nat>, carry: nat)
    requires Digits(start, LIMB_BASE) && Digits(other, LIMB_BASE) && x < LIMB_BASE && outer + |other| <= |start|
    ensures |result| == |start| && Digits(result, LIMB_BASE) && carry < LIMB_BASE
    ensures RowSum(result, carry, Value(start, LIMB_BASE), x, other, outer, |other|)
  {
    ghost var before := Value(start, LIMB_BASE);
    result, carry := start, 0;
    RowStart(start, x, other, outer);
    for inner: nat := 0 to |other|
      invariant |result| == |start| && Digits(result, LIMB_BASE) && carry < LIMB_BASE
      invariant RowSum(result, carry, before, x, other, outer, inner)
    {
      var lo, hi := AddProduct(result, outer + inner, x, other[inner], carry);
      RowStep(result, carry, before, x, other, outer, inner, lo, hi);
      result := result[outer + inner := lo];
      carry := hi;
    }
  }

  method AddCarry(limb: nat, carry: nat) returns (lo: nat, hi: nat)
    requires limb < LIMB_BASE && 0 < carry
    ensures lo < LIMB_BASE && limb + carry == lo + LIMB_BASE * hi
  {
    var sum := limb + carry;
    lo, hi := sum % LIMB_BASE, sum / LIMB_BASE;
  }

  /** Let the last carry of a row run up; it stops inside the number. */
  method RunCarry(start: seq<nat>, first: nat, position: nat, ghost total: nat) returns (result: seq<nat>)
    requires Digits(start, LIMB_BASE) && total < Pow(LIMB_BASE, |start|)
    requires Value(start, LIMB_BASE) + first * Pow(LIMB_BASE, position) == total
    ensures |result| == |start| && Digits(result, LIMB_BASE) && Value(result, LIMB_BASE) == total
  {
    result := start;
    var carry: nat, at: nat := first, position;
    while carry > 0
      invariant |result| == |start| && Digits(result, LIMB_BASE)
      invariant Value(result, LIMB_BASE) + carry * Pow(LIMB_BASE, at) == total
      decreases |start| - at, carry
    {
      CarryStaysInside(total, Value(result, LIMB_BASE), carry, at, |start|);
      var lo, hi := AddCarry(result[at], carry);
      CarryStep(result, carry, at, total, lo, hi);
      result := result[at := lo];
      carry := hi;
      at := at + 1;
    }
  }

  method SchoolbookProduct(limbs: seq<nat>, other: seq<nat>) returns (result: seq<nat>)
    requires Digits(limbs, LIMB_BASE) && Digits(other, LIMB_BASE)
    ensures |result| == |limbs| + |other| + 1 && Digits(result, LIMB_BASE)
    ensures Value(result, LIMB_BASE) == Value(limbs, LIMB_BASE) * Value(other, LIMB_BASE)
  {
    result := seq(|limbs| + |other| + 1, _ => 0);
    ZerosAreZero(result, LIMB_BASE);
    for outer: nat := 0 to |limbs|
      invariant |result| == |limbs| + |other| + 1 && Digits(result, LIMB_BASE)
      invariant Value(result, LIMB_BASE) == Value(limbs[..outer], LIMB_BASE) * Value(other, LIMB_BASE)
    {
      RowTotal(limbs, other, outer);
      if limbs[outer] == 0 {
        continue;
      }
      var row, carry := AddRow(result, limbs[outer], other, outer);
      assert other[..|other|] == other;
      PowGrows(LIMB_BASE, outer + 1 + |other|, |row|);
      MulGrows(0, Value(limbs[..outer + 1], LIMB_BASE), Value(other, LIMB_BASE));
      result := RunCarry(row, carry, outer + |other|, Value(limbs[..outer + 1], LIMB_BASE) * Value(other, LIMB_BASE));
    }
    assert limbs[..|limbs|] == limbs;
  }

  method ScaleLimb(limb: nat, value: nat, carry: nat) returns (lo: nat, hi: nat)
    requires limb < LIMB_BASE && carry < value
    ensures lo < LIMB_BASE && hi < value && limb * value + carry == lo + LIMB_BASE * hi
  {
    SmallProductFits(limb, value, carry);
    var product := limb * value + carry;
    lo, hi := product % LIMB_BASE, product / LIMB_BASE;
  }

  lemma {:induction false} ScaledAll(l: seq<nat>, was: seq<nat>, factor: nat, carry: nat)
    requires Scaled(l, was, |l|, factor, 0, carry, LIMB_BASE) && WellFormed(was)
    ensures l != [] && Digits(l, LIMB_BASE) && (carry == 0 && |l| > 1 ==> Trimmed(l))
    ensures Value(l, LIMB_BASE) + carry * Pow(LIMB_BASE, |l|) == Value(was, LIMB_BASE) * factor
  {
    assert l[..|l|] == l && was[..|was|] == was;
  }

  /** Moving the lowest limb of the carry to the top of the number keeps what both stand for. */
  lemma {:induction false} PushStep(l: seq<nat>, carry: nat)
    requires Digits(l, LIMB_BASE) && carry > 0
    ensures var next, rest := l + [carry % LIMB_BASE], carry / LIMB_BASE;
      && Digits(next, LIMB_BASE) && (rest == 0 ==> Trimmed(next))
      && Value(next, LIMB_BASE) + rest * Pow(LIMB_BASE, |next|) == Value(l, LIMB_BASE) + carry * Pow(LIMB_BASE, |l|)
  {
    ValueAppend(l, carry % LIMB_BASE, LIMB_BASE);
    TopLimb(carry, Pow(LIMB_BASE, |l|));
  }

  class BigUInt {
    var limbs: seq<nat>

    ghost predicate Valid()
      reads this
    {
      WellFormed(limbs)
    }

    ghost function Val(): nat
      reads this
    {
      Value(limbs, LIMB_BASE)
    }

    constructor (value: nat)
      ensures Valid() && Val() == value
    {
      new;
      limbs := [0];
      ValueOfOne(0, LIMB_BASE);
      if value != 0 {
        var l: seq<nat>, rest: nat := [], value;
        while rest > 0
          invariant Digits(l, LIMB_BASE) && (rest == 0 ==> l != [] && Trimmed(l))
          invariant Value(l, LIMB_BASE) + rest * Pow(LIMB_BASE, |l|) == value
        {
          PushStep(l, rest);
          l := l + [rest % LIMB_BASE];
          rest := rest / LIMB_BASE;
        }
        limbs := l;
      }
    }

    method PushCarry(first: nat)
      requires limbs != [] && Digits(limbs, LIMB_BASE) && (first == 0 && |limbs| > 1 ==> Trimmed(limbs))
      modifies this
      ensures Valid() && Val() == old(Val()) + first * Pow(LIMB_BASE, old(|limbs|))
    {
      var carry: nat := first;
      while carry > 0
        invariant limbs != [] && Digits(limbs, LIMB_BASE) && (carry == 0 && |limbs| > 1 ==> Trimmed(limbs))
        invariant Val() + carry * Pow(LIMB_BASE, |limbs|) == old(Val()) + first * Pow(LIMB_BASE, old(|limbs|))
      {
        PushStep(limbs, carry);
        limbs := limbs + [carry % LIMB_BASE];
        carry := carry / LIMB_BASE;
      }
    }

    method MultiplySmall(value: nat)
      requires Valid() && value < 0x1_0000_0000
      modifies this
      ensures Valid() && Val() == old(Val()) * value
    {
      if value == 0 {
        limbs := [0];
        ValueOfOne(0, LIMB_BASE);
        return;
      }
      if value == 1 {
        return;
      }
      var carry := ScaleLimbs(value);
      PushCarry(carry);
    }

    method ScaleLimbs(value: nat) returns (carry: nat)
      requires Valid() && value > 0
      modifies this
      ensures |limbs| == old(|limbs|) && Digits(limbs, LIMB_BASE) && (carry == 0 && |limbs| > 1 ==> Trimmed(limbs))
      ensures Val() + carry * Pow(LIMB_BASE, |limbs|) == old(Val()) * value
    {
      ghost var was := limbs;
      carry := 0;
      ScaledStart(limbs, value, 0, LIMB_BASE);
      for i: nat := 0 to |limbs|
        invariant |limbs| == |was| && carry < value && Scaled(limbs, was, i, value, 0, carry, LIMB_BASE)
      {
        var lo, hi := ScaleLimb(limbs[i], value, carry);
        ScaledOneMore(limbs, was, i, value, 0, carry, lo, hi, LIMB_BASE);
        limbs := limbs[i := lo];
        carry := hi;
      }
      ScaledAll(limbs, was, value, carry);
    }

    method TrimLeadingZeros()
      requires limbs != [] && Digits(limbs, LIMB_BASE)
      modifies this
      ensures Valid() && Val() == old(Val())
    {
      while |limbs| > 1 && limbs[|limbs| - 1] == 0
        invariant limbs != [] && Digits(limbs, LIMB_BASE) && Val() == old(Val())
        decreases |limbs|
      {
        limbs := limbs[..|limbs| - 1];
      }
    }

    /** The factor may be the number itself. */
    method MultiplyBig(other: BigUInt)
      requires Valid() && other.Valid()
      modifies this
      ensures Valid() && Val() == old(Val()) * old(other.Val())
    {
      ghost var factor := other.Val();
      ValueOfOne(0, LIMB_BASE);
      if limbs == [0] {
        return;
      }
      if other.limbs == [0] {
        limbs := [0];
        return;
      }
      if |other.limbs| == 1 {
        ValueOfOne(other.limbs[0], LIMB_BASE);
        MultiplySmall(other.limbs[0]);
        return;
      }
      var result := SchoolbookProduct(limbs, other.limbs);
      limbs := result;
      TrimLeadingZeros();
    }

    method ToDecimalString() returns (text: string)
      requires Valid()
      ensures Canonical(text) && Decimal(text) == Val()
    {
      text := Print(limbs);
    }
  }

  lemma {:induction false} TopLimb(rest: nat, p: nat)
    requires rest > 0
    ensures rest % LIMB_BASE * p + rest / LIMB_BASE * (LIMB_BASE * p) == rest * p
    ensures rest / LIMB_BASE == 0 ==> rest % LIMB_BASE > 0
  {
    MulAssociates(rest / LIMB_BASE, LIMB_BASE, p);
    MulSpreads(p, rest % LIMB_BASE, rest / LIMB_BASE * LIMB_BASE);
  }

  lemma {:induction false} SmallProductFits(limb: nat, value: nat, carry: nat)
    requires limb < LIMB_BASE && carry < value
    ensures (limb * value + carry) / LIMB_BASE < value
  {
    MulGrows(limb + 1, LIMB_BASE, value);
    MulSpreads(value, limb, 1);
  }

  // ---- Square and multiply ----

  lemma {:induction false} HalveExponent(r: nat, a: nat, n: nat)
    requires n > 0
    ensures n % 2 == 0 ==> r * Pow(a, n) == r * Pow(a * a, n / 2)
    ensures n % 2 == 1 ==> r * Pow(a, n) == r * a * Pow(a * a, n / 2)
  {
    PowOfProduct(a, a, n / 2);
    PowSum(a, n / 2, n / 2, n / 2 + n / 2);
    if n % 2 == 1 {
      assert Pow(a, n) == a * Pow(a, n - 1);
      MulAssociates(r, a, Pow(a, n - 1));
    }
  }

  method Power(base: nat, exponent: nat) returns (result: BigUInt)
    ensures fresh(result) && result.Valid() && result.Val() == Pow(base, exponent)
  {
    result := new BigUInt(1);
    if exponent == 0 {
      return;
    }
    var accumulator := new BigUInt(base);
    var remaining := exponent;
    while remaining > 0
      invariant fresh(result) && fresh(accumulator) && result != accumulator && result.Valid() && accumulator.Valid()
      invariant result.Val() * Pow(accumulator.Val(), remaining) == Pow(base, exponent)
    {
      HalveExponent(result.Val(), accumulator.Val(), remaining);
      if remaining % 2 == 1 {
        result.MultiplyBig(accumulator);
      }
      remaining := remaining / 2;
      if remaining > 0 {
        accumulator.MultiplyBig(accumulator);
      }
    }
  }

  // ---- The accumulator ----

  lemma {:induction false} KghPrimesDiffer()
    ensures |KGH_PRIMES| == PRIME_COUNT && DifferentPrimes(KGH_PRIMES)
  {
    forall i: nat | i < |KGH_PRIMES| ensures Prime(KGH_PRIMES[i]) {
      SmallPrime(KGH_PRIMES[i]);
    }
  }

  /** The number an exponent vector stands for. */
  ghost function HashOf(exponents: seq<nat>): nat
    requires |exponents| == PRIME_COUNT
  {
    Product(KGH_PRIMES, exponents, PRIME_COUNT)
  }

  /** Two vectors give the same number exactly when they are equal. */
  lemma {:induction false} HashIsInjective(e: seq<nat>, f: seq<nat>)
    requires |e| == |f| == PRIME_COUNT
    ensures HashOf(e) == HashOf(f) <==> e == f
  {
    KghPrimesDiffer();
    if HashOf(e) == HashOf(f) {
      ProductFixesExponents(KGH_PRIMES, e, f, PRIME_COUNT);
      assert e[..PRIME_COUNT] == e && f[..PRIME_COUNT] == f;
    }
  }

  /** Two printed hashes are equal exactly when the exponent vectors are. */
  lemma {:induction false} SameTextSameExponents(e: seq<nat>, f: seq<nat>, s: string, t: string)
    requires |e| == |f| == PRIME_COUNT
    requires Canonical(s) && Canonical(t) && Decimal(s) == HashOf(e) && Decimal(t) == HashOf(f)
    ensures s == t <==> e == f
  {
    HashIsInjective(e, f);
    if e == f {
      CanonicalUnique(s, t);
    }
  }

  lemma {:induction false} RaisedProduct(primes: seq<nat>, e: seq<nat>, i: nat, n: nat, m: nat)
    requires m <= |primes| == |e| && i < |e|
    ensures Product(primes, e[i := e[i] + n], m) ==
      if i < m then Product(primes, e, m) * Pow(primes[i], n) else Product(primes, e, m)
    decreases m
  {
    if m > 0 {
      RaisedProduct(primes, e, i, n, m - 1);
      var before, p := Product(primes, e, m - 1), Pow(primes[m - 1], e[m - 1]);
      if i == m - 1 {
        PowSum(primes[i], e[i], n, e[i] + n);
        MulAssociates(before, p, Pow(primes[i], n));
      } else if i < m - 1 {
        MulSwaps(before, Pow(primes[i], n), p);
      }
    }
  }

  lemma {:induction false} MulSwaps(a: nat, b: nat, c: nat)
    ensures (a * b) * c == (a * c) * b
  {
    MulAssociates(a, b, c);
    MulAssociates(a, c, b);
  }

  /** Raising one exponent multiplies the hash by a power of its prime. */
  lemma {:induction false} RaisedHash(e: seq<nat>, i: nat, n: nat)
    requires |e| == PRIME_COUNT && i < PRIME_COUNT
    ensures HashOf(e[i := e[i] + n]) == HashOf(e) * Pow(KGH_PRIMES[i], n)
  {
    RaisedProduct(KGH_PRIMES, e, i, n, PRIME_COUNT);
  }

  lemma {:induction false} PowOfOne(p: nat)
    ensures Pow(p, 0) == 1 && Pow(p, 1) == p
  {
    assert Pow(p, 1) == p * Pow(p, 0);
  }

  /** A block without predecessors multiplies the hash by 2 and one without successors by 3; every block multiplies it
      by 5, by 7 for each predecessor and by 11 for each successor. */
  ghost function WithBlock(hash: nat, successors: nat, predecessors: nat): nat {
    hash * (if predecessors == 0 then 2 else 1) * (if successors == 0 then 3 else 1) * 5 * Pow(11, successors) *
      Pow(7, predecessors)
  }

  lemma {:induction false} BlockMultiplies(e: seq<nat>, successors: nat, predecessors: nat)
    requires |e| == PRIME_COUNT
    ensures HashOf(Sum(e, BlockExponents(successors, predecessors))) == WithBlock(HashOf(e), successors, predecessors)
  {
    var p, q := if predecessors == 0 then 1 else 0, if successors == 0 then 1 else 0;
    var e1 := e[0 := e[0] + p];
    var e2 := e1[1 := e1[1] + q];
    var e3 := e2[2 := e2[2] + 1];
    var e4 := e3[4 := e3[4] + successors];
    var e5 := e4[3 := e4[3] + predecessors];
    RaisedHash(e, 0, p);
    RaisedHash(e1, 1, q);
    RaisedHash(e2, 2, 1);
    RaisedHash(e3, 4, successors);
    RaisedHash(e4, 3, predecessors);
    PowOfOne(2);
    PowOfOne(3);
    PowOfOne(5);
    assert Sum(e, BlockExponents(successors, predecessors)) == e5;
  }

  /** One more block: its exponent vector, whatever blocks came before. */
  function BlockExponents(successors: nat, predecessors: nat): (e: seq<nat>)
    ensures |e| == PRIME_COUNT
  {
    [if predecessors == 0 then 1 else 0, if successors == 0 then 1 else 0, 1, predecessors, successors,
     0, 0, 0, 0, 0, 0, 0, 0]
  }

  function Sum(e: seq<nat>, f: seq<nat>): (s: seq<nat>)
    requires |e| == |f|
    ensures |s| == |e| && forall i :: 0 <= i < |e| ==> s[i] == e[i] + f[i]
  {
    seq(|e|, i requires 0 <= i < |e| => e[i] + f[i])
  }

  /** Adding exponents multiplies the hashes, so the order of the blocks does not matter. */
  lemma {:induction false} SumMultiplies(primes: seq<nat>, e: seq<nat>, f: seq<nat>, n: nat)
    requires n <= |primes| == |e| == |f|
    ensures Product(primes, Sum(e, f), n) == Product(primes, e, n) * Product(primes, f, n)
  {
    if n > 0 {
      SumMultiplies(primes, e, f, n - 1);
      PowSum(primes[n - 1], e[n - 1], f[n - 1], e[n - 1] + f[n - 1]);
      MulRegroups(Product(primes, e, n - 1), Product(primes, f, n - 1), Pow(primes[n - 1], e[n - 1]),
        Pow(primes[n - 1], f[n - 1]));
    }
  }

  lemma {:induction false} FlagsMultiply(e: seq<nat>, noReturn: bool, library: bool, thunk: bool)
    requires |e| == PRIME_COUNT
    ensures HashOf(e[FEATURE_FUNC_NO_RET := e[FEATURE_FUNC_NO_RET] + if noReturn then 1 else 0]
      [FEATURE_FUNC_LIB := e[FEATURE_FUNC_LIB] + if library then 1 else 0]
      [FEATURE_FUNC_THUNK := e[FEATURE_FUNC_THUNK] + if thunk then 1 else 0]) ==
      HashOf(e) * (if noReturn then 41 else 1) * (if library then 43 else 1) * (if thunk then 47 else 1)
  {
    var e1 := e[FEATURE_FUNC_NO_RET := e[FEATURE_FUNC_NO_RET] + if noReturn then 1 else 0];
    var e2 := e1[FEATURE_FUNC_LIB := e1[FEATURE_FUNC_LIB] + if library then 1 else 0];
    RaisedHash(e, FEATURE_FUNC_NO_RET, if noReturn then 1 else 0);
    RaisedHash(e1, FEATURE_FUNC_LIB, if library then 1 else 0);
    RaisedHash(e2, FEATURE_FUNC_THUNK, if thunk then 1 else 0);
    PowOfOne(41);
    PowOfOne(43);
    PowOfOne(47);
  }

  class KghAccumulator {
    const exponents: array<nat>

    ghost predicate Valid() {
      exponents.Length == PRIME_COUNT
    }

    constructor ()
      ensures Valid() && fresh(exponents) && exponents[..] == seq(PRIME_COUNT, _ => 0)
    {
      exponents := new nat[PRIME_COUNT](_ => 0);
    }

    method MultiplyPower(prime: nat, exponent: nat)
      requires Valid() && prime < PRIME_COUNT
      modifies exponents
      ensures exponents[..] == old(exponents[..])[prime := old(exponents[prime]) + exponent]
    {
      exponents[prime] := exponents[prime] + exponent;
    }

    method AddBlock(successors: nat, predecessors: nat)
      requires Valid()
      modifies exponents
      ensures exponents[..] == Sum(old(exponents[..]), BlockExponents(successors, predecessors))
      ensures HashOf(exponents[..]) == WithBlock(old(HashOf(exponents[..])), successors, predecessors)
    {
      BlockMultiplies(exponents[..], successors, predecessors);
      if predecessors == 0 {
        exponents[NODE_ENTRY] := exponents[NODE_ENTRY] + 1;
      }
      if successors == 0 {
        exponents[NODE_EXIT] := exponents[NODE_EXIT] + 1;
      }
      exponents[NODE_NORMAL] := exponents[NODE_NORMAL] + 1;
      exponents[EDGE_OUT_CONDITIONAL] := exponents[EDGE_OUT_CONDITIONAL] + successors;
      exponents[EDGE_IN_CONDITIONAL] := exponents[EDGE_IN_CONDITIONAL] + predecessors;
    }

    method AddLoopComponents(loops: nat)
      requires Valid()
      modifies exponents
      ensures exponents[..] == old(exponents[..])[FEATURE_LOOP := old(exponents[FEATURE_LOOP]) + loops]
      ensures HashOf(exponents[..]) == old(HashOf(exponents[..])) * Pow(19, loops)
    {
      RaisedHash(exponents[..], FEATURE_LOOP, loops);
      exponents[FEATURE_LOOP] := exponents[FEATURE_LOOP] + loops;
    }

    method AddStronglyConnectedCount(components: nat)
      requires Valid()
      modifies exponents
      ensures exponents[..] ==
        old(exponents[..])[FEATURE_STRONGLY_CONNECTED := old(exponents[FEATURE_STRONGLY_CONNECTED]) + components]
      ensures HashOf(exponents[..]) == old(HashOf(exponents[..])) * Pow(37, components)
    {
      RaisedHash(exponents[..], FEATURE_STRONGLY_CONNECTED, components);
      exponents[FEATURE_STRONGLY_CONNECTED] := exponents[FEATURE_STRONGLY_CONNECTED] + components;
    }

    method AddFunctionFlags(noReturn: bool, library: bool, thunk: bool)
      requires Valid()
      modifies exponents
      ensures exponents[..] ==
        old(exponents[..])[FEATURE_FUNC_NO_RET := old(exponents[FEATURE_FUNC_NO_RET]) + if noReturn then 1 else 0]
        [FEATURE_FUNC_LIB := old(exponents[FEATURE_FUNC_LIB]) + if library then 1 else 0]
        [FEATURE_FUNC_THUNK := old(exponents[FEATURE_FUNC_THUNK]) + if thunk then 1 else 0]
      ensures HashOf(exponents[..]) == old(HashOf(exponents[..])) * (if noReturn then 41 else 1) *
        (if library then 43 else 1) * (if thunk then 47 else 1)
    {
      FlagsMultiply(exponents[..], noReturn, library, thunk);
      if noReturn {
        exponents[FEATURE_FUNC_NO_RET] := exponents[FEATURE_FUNC_NO_RET] + 1;
      }
      if library {
        exponents[FEATURE_FUNC_LIB] := exponents[FEATURE_FUNC_LIB] + 1;
      }
      if thunk {
        exponents[FEATURE_FUNC_THUNK] := exponents[FEATURE_FUNC_THUNK] + 1;
      }
    }

    /** The canonical decimal of the product of the primes raised to their exponents. */
    method ToDecimalString() returns (text: string)
      requires Valid()
      ensures Canonical(text) && Decimal(text) == HashOf(exponents[..])
    {
      var result := new BigUInt(1);
      for i: nat := 0 to PRIME_COUNT
        invariant fresh(result) && result.Valid() && result.Val() == Product(KGH_PRIMES, exponents[..], i)
        invariant exponents[..] == old(exponents[..])
      {
        if exponents[i] == 0 {
          continue;
        }
        var power := Power(KGH_PRIMES[i], exponents[i]);
        result.MultiplyBig(power);
      }
      text := result.ToDecimalString();
    }
  }
}
