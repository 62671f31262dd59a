/** The 128-bit arithmetic of the ratio rounding, two 64-bit halves. */
module Wide {
  import opened Powers

  const HALF_BASE: nat := 0x1_0000_0000
  const WORD: nat := 0x1_0000_0000_0000_0000

  datatype U128 = U128(hi: nat, lo: nat) {
    ghost predicate Valid() {
      hi < WORD && lo < WORD
    }

    ghost function Val(): nat {
      hi * WORD + lo
    }
  }

  lemma {:induction false} TwoToThe64()
    ensures Pow(2, 64) == WORD && Pow(2, 32) == HALF_BASE
  {
    assert Pow(2, 8) == 256;
    PowAdd(2, 8, 8);
    PowAdd(2, 16, 16);
    PowAdd(2, 32, 32);
  }

  // ---- Multiplication from four half products ----

  lemma {:induction false} HalfProduct(a: nat, b: nat)
    requires a < HALF_BASE && b < HALF_BASE
    ensures a * b <= (HALF_BASE - 1) * (HALF_BASE - 1)
  {
    MulGrows(a, HALF_BASE - 1, b);
    MulGrows(b, HALF_BASE - 1, HALF_BASE - 1);
  }

  lemma {:induction false} CrossTerms(aLo: nat, aHi: nat, bLo: nat, bHi: nat)
    ensures (aHi * HALF_BASE + aLo) * (bHi * HALF_BASE + bLo) ==
      (aHi * bHi) * WORD + (aHi * bLo) * HALF_BASE + (aLo * bHi) * HALF_BASE + aLo * bLo
  {
    MulSpreads(bHi * HALF_BASE + bLo, aHi * HALF_BASE, aLo);
    MulSpreads(aHi * HALF_BASE, bHi * HALF_BASE, bLo);
    MulSpreads(aLo, bHi * HALF_BASE, bLo);
    MulRegroups(aHi, HALF_BASE, bHi, HALF_BASE);
    MulAssociates(aHi, HALF_BASE, bLo);
    MulAssociates(aHi, bLo, HALF_BASE);
    MulAssociates(aLo, bHi, HALF_BASE);
  }

  lemma {:induction false} CarriesAddUp(loLo: nat, hiLo: nat, loHi: nat, hiHi: nat, cross: nat, lo: nat, hi: nat)
    requires cross == loLo / HALF_BASE + hiLo % HALF_BASE + loHi
    requires lo == cross * HALF_BASE % WORD + loLo % HALF_BASE
    requires hi == hiHi + hiLo / HALF_BASE + cross / HALF_BASE
    ensures hi * WORD + lo == hiHi * WORD + hiLo * HALF_BASE + loHi * HALF_BASE + loLo
  {
    assert cross * HALF_BASE % WORD == cross % HALF_BASE * HALF_BASE;
  }

  /** The product of two 64-bit words, exactly. */
  method Mul64(a: nat, b: nat) returns (r: U128)
    requires a < WORD && b < WORD
    ensures r.Valid() && r.Val() == a * b
  {
    var aLo, aHi, bLo, bHi := a % HALF_BASE, a / HALF_BASE, b % HALF_BASE, b / HALF_BASE;
    HalfProduct(aLo, bLo);
    HalfProduct(aHi, bLo);
    HalfProduct(aLo, bHi);
    HalfProduct(aHi, bHi);
    CrossTerms(aLo, aHi, bLo, bHi);
    var loLo, hiLo, loHi, hiHi := aLo * bLo, aHi * bLo, aLo * bHi, aHi * bHi;
    var cross := loLo / HALF_BASE + hiLo % HALF_BASE + loHi;
    assert cross < WORD;
    var lo := cross * HALF_BASE % WORD + loLo % HALF_BASE;
    var hi := hiHi + hiLo / HALF_BASE + cross / HALF_BASE;
    CarriesAddUp(loLo, hiLo, loHi, hiHi, cross, lo, hi);
    r := U128(hi, lo);
  }

  // ---- Shifts ----

  lemma {:induction false} SplitWord(s: nat)
    requires s < 64
    ensures Pow(2, s) * Pow(2, 64 - s) == WORD && Pow(2, s) > 0 && Pow(2, 64 - s) > 0
  {
    TwoToThe64();
    PowSum(2, s, 64 - s, 64);
    PowPositive(2, s);
    PowPositive(2, 64 - s);
  }

  /** Bits of the high word that move into the low one. */
  lemma {:induction false} HighBitsMove(hi: nat, p: nat, q: nat)
    requires p * q == WORD && p > 0 && q > 0
    ensures hi * q % WORD == hi % p * q && hi * q == hi / p * WORD + hi % p * q && hi % p * q <= WORD - q
  {
    var h, r := hi / p, hi % p;
    assert hi == p * h + r;
    MulSpreads(q, p * h, r);
    SwapLast(p, h, q);
    MulGrows(r + 1, p, q);
    MulSpreads(q, r, 1);
    ModOfSum(h, r * q);
  }

  lemma {:induction false} SwapLast(p: nat, h: nat, q: nat)
    ensures p * h * q == p * q * h
  {
  }

  lemma {:induction false} ModOfSum(h: nat, r: nat)
    requires r < WORD
    ensures (WORD * h + r) % WORD == r && (WORD * h + r) / WORD == h
  {
  }

  lemma {:induction false} DivSum(a: nat, r: nat, p: nat)
    requires p > 0
    ensures (a * p + r) / p == a + r / p && (a * p + r) % p == r % p
  {
    var q, m := r / p, r % p;
    assert a * p + r == (a + q) * p + m;
    UniqueQuotient(a * p + r, p, a + q, m);
  }

  lemma {:induction false} UniqueQuotient(x: nat, p: nat, q: nat, m: nat)
    requires p > 0 && m < p && x == q * p + m
    ensures x / p == q && x % p == m
  {
    var k, r := x / p, x % p;
    assert x == p * k + r;
    if k < q {
      MulGrows(k + 1, q, p);
      MulSpreads(p, k, 1);
    } else if q < k {
      MulGrows(q + 1, k, p);
      MulSpreads(p, q, 1);
    }
  }

  lemma {:induction false} BelowPart(lo: nat, p: nat, q: nat)
    requires p * q == WORD && p > 0 && lo < WORD
    ensures lo / p < q
  {
    if lo / p >= q {
      MulGrows(q, lo / p, p);
    }
  }

  function NearValue(v: U128, p: nat, q: nat): U128
    requires p > 0
  {
    U128(v.hi / p, v.lo / p + v.hi * q % WORD)
  }

  lemma {:induction false} NearRight(v: U128, p: nat, q: nat)
    requires v.Valid() && p > 0 && q > 0 && p * q == WORD
    ensures NearValue(v, p, q).Valid() && NearValue(v, p, q).Val() == v.Val() / p
  {
    HighBitsMove(v.hi, p, q);
    BelowPart(v.lo, p, q);
    NotMore(v.hi, p);
    SwapLast(v.hi, p, q);
    MulAssociates(v.hi, p, q);
    assert v.hi * WORD == v.hi * q * p;
    DivSum(v.hi * q, v.lo, p);
  }

  function RightNear(v: U128, s: nat): (r: U128)
    requires v.Valid() && 0 < s < 64
    ensures Pow(2, s) > 0 && r.Valid() && r.Val() == v.Val() / Pow(2, s)
  {
    SplitWord(s);
    NearRight(v, Pow(2, s), Pow(2, 64 - s));
    NearValue(v, Pow(2, s), Pow(2, 64 - s))
  }

  function RightFar(v: U128, s: nat): (r: U128)
    requires v.Valid() && 64 <= s < 128
    ensures Pow(2, s) > 0 && r.Valid() && r.Val() == v.Val() / Pow(2, s)
  {
    ShiftRightFar(v, s);
    U128(0, v.hi / Pow(2, s - 64))
  }

  /** v >> s for s < 128. */
  function ShiftRight(v: U128, s: nat): (r: U128)
    requires v.Valid() && s < 128
    ensures Pow(2, s) > 0 && r.Valid() && r.Val() == v.Val() / Pow(2, s)
  {
    if s == 0 then v else if s >= 64 then RightFar(v, s) else RightNear(v, s)
  }

  lemma {:induction false} NotMore(x: nat, p: nat)
    requires p > 0
    ensures x / p <= x
  {
    if x / p > x {
      MulGrows(1, p, x / p);
    }
  }

  lemma {:induction false} FarQuotient(hi: nat, lo: nat, p: nat)
    requires hi < WORD && lo < WORD && p > 0
    ensures WORD * p > 0 && hi / p < WORD && (hi * WORD + lo) / (WORD * p) == hi / p
  {
    NotMore(hi, p);
    var h, r := hi / p, hi % p;
    assert hi == p * h + r;
    MulGrows(r + 1, p, WORD);
    FarParts(h, r, p, lo);
    UniqueQuotient(hi * WORD + lo, WORD * p, h, r * WORD + lo);
  }

  lemma {:induction false} FarParts(h: nat, r: nat, p: nat, lo: nat)
    ensures (p * h + r) * WORD + lo == h * (WORD * p) + (r * WORD + lo)
  {
    MulSpreads(WORD, p * h, r);
    SwapLast(p, h, WORD);
    assert p * WORD * h == h * (WORD * p);
  }

  lemma {:induction false} FarPower(s: nat)
    requires 64 <= s
    ensures Pow(2, s) == WORD * Pow(2, s - 64) && Pow(2, s - 64) > 0
  {
    TwoToThe64();
    PowSum(2, 64, s - 64, s);
    PowPositive(2, s - 64);
  }

  lemma {:induction false} ShiftRightFar(v: U128, s: nat)
    requires v.Valid() && 64 <= s < 128
    ensures Pow(2, s - 64) > 0 && Pow(2, s) > 0
    ensures v.hi / Pow(2, s - 64) < WORD && v.hi / Pow(2, s - 64) == v.Val() / Pow(2, s)
  {
    FarPower(s);
    FarQuotient(v.hi, v.lo, Pow(2, s - 64));
  }

  /** v << s, the bits beyond 128 dropped; exact when nothing is dropped. */
  function ShiftLeft(v: U128, s: nat): (r: U128)
    requires v.Valid() && s < 128
    ensures r.Valid() && (v.Val() * Pow(2, s) < WORD * WORD ==> r.Val() == v.Val() * Pow(2, s))
  {
    if s == 0 then v
    else if s >= 64 then
      ShiftLeftFar(v, s);
      U128(v.lo * Pow(2, s - 64) % WORD, 0)
    else
      ShiftLeftNear(v, s);
      U128((v.hi * Pow(2, s) % WORD + v.lo / Pow(2, 64 - s)), v.lo * Pow(2, s) % WORD)
  }

  lemma {:induction false} TopIsSmall(hi: nat, x: nat)
    requires hi * WORD + x < WORD * WORD
    ensures hi < WORD
  {
    if hi >= WORD {
      MulGrows(WORD, hi, WORD);
    }
  }

  lemma {:induction false} NearLeft(hi: nat, lo: nat, p: nat, q: nat)
    requires hi < WORD && lo < WORD && p > 0 && q > 0 && q * p == WORD
    ensures hi * p % WORD + lo / q < WORD
    ensures (hi * WORD + lo) * p < WORD * WORD ==>
      (hi * p % WORD + lo / q) * WORD + lo * p % WORD == (hi * WORD + lo) * p
  {
    HighBitsMove(hi, q, p);
    HighBitsMove(lo, q, p);
    BelowPart(lo, q, p);
    MulSpreads(p, hi * WORD, lo);
    SwapLast(hi, WORD, p);
    var top := hi * p + lo / q;
    MulSpreads(WORD, hi * p, lo / q);
    if (hi * WORD + lo) * p < WORD * WORD {
      TopIsSmall(top, lo * p % WORD);
      SmallMod(hi * p);
    }
  }

  lemma {:induction false} ShiftLeftNear(v: U128, s: nat)
    requires v.Valid() && 0 < s < 64
    ensures Pow(2, 64 - s) > 0
    ensures var r := U128((v.hi * Pow(2, s) % WORD + v.lo / Pow(2, 64 - s)), v.lo * Pow(2, s) % WORD);
      r.Valid() && (v.Val() * Pow(2, s) < WORD * WORD ==> r.Val() == v.Val() * Pow(2, s))
  {
    SplitWord(s);
    assert Pow(2, 64 - s) * Pow(2, s) == WORD;
    NearLeft(v.hi, v.lo, Pow(2, s), Pow(2, 64 - s));
  }

  lemma {:induction false} SmallMod(x: nat)
    requires x < WORD
    ensures x % WORD == x
  {
  }

  lemma {:induction false} FarLeft(hi: nat, lo: nat, p: nat)
    requires p > 0 && (hi * WORD + lo) * (WORD * p) < WORD * WORD
    ensures hi == 0 && lo * p < WORD && (hi * WORD + lo) * (WORD * p) == lo * p * WORD
  {
    var x := hi * WORD + lo;
    assert x * (WORD * p) == (x * p) * WORD by {
      MulAssociates(x, p, WORD);
    }
    TopIsSmall(x * p, 0);
    MulGrows(1, p, x);
  }

  lemma {:induction false} ShiftLeftFar(v: U128, s: nat)
    requires v.Valid() && 64 <= s < 128
    ensures var r := U128(v.lo * Pow(2, s - 64) % WORD, 0);
      r.Valid() && (v.Val() * Pow(2, s) < WORD * WORD ==> r.Val() == v.Val() * Pow(2, s))
  {
    FarPower(s);
    if v.Val() * Pow(2, s) < WORD * WORD {
      FarLeft(v.hi, v.lo, Pow(2, s - 64));
      SmallMod(v.lo * Pow(2, s - 64));
    }
  }

  function Subtract(a: U128, b: U128): (r: U128)
    requires a.Valid() && b.Valid() && a.Val() >= b.Val()
    ensures r.Valid() && r.Val() == a.Val() - b.Val()
  {
    var borrow := if a.lo < b.lo then 1 else 0;
    U128((a.hi - b.hi - borrow) % WORD, (a.lo - b.lo) % WORD)
  }

  function Compare(a: U128, b: U128): (order: int)
    requires a.Valid() && b.Valid()
    ensures order == if a.Val() < b.Val() then -1 else if a.Val() == b.Val() then 0 else 1
  {
    if a.hi != b.hi then if a.hi < b.hi then -1 else 1
    else if a.lo != b.lo then if a.lo < b.lo then -1 else 1
    else 0
  }
}
