/**
 * Decimal digits to the nearest double: exact big-integer division, 63 or 64 quotient bits and a sticky bit,
 * then one rounding. More than 800 digits are cut and the rest becomes one sticky digit.
 */
module DecimalConversion {
  import opened Powers
  import opened BinaryBig
  import opened DecimalText
  import opened NearestDouble

  datatype Double = Double(negative: bool, magnitude: Magnitude)

  const KEPT_DIGITS: nat := 800

  /** digits * 10^exp10 is Num/Den. */
  function Num(d: nat, exp10: int): nat {
    TenTimes(d, Up(exp10))
  }

  function Den(exp10: int): nat {
    TenTimes(1, Down(exp10))
  }

  function TenTimes(d: nat, n: nat): nat {
    if n == 0 then d else 10 * TenTimes(d, n - 1)
  }

  function Up(e: int): nat {
    if e >= 0 then e else 0
  }

  function Down(e: int): nat {
    if e >= 0 then 0 else -e
  }

  // ---- The result depends on the ratio only ----

  lemma {:induction false} RatioLess(a: nat, b: nat, c: nat, d: nat, k: nat)
    requires b > 0 && d > 0 && a * d == c * b
    ensures a < k * b <==> c < k * d
  {
    MulAssociates(k, b, d);
    MulAssociates(k, d, b);
    ScaledCompare(k * b, a, d);
    ScaledCompare(k * d, c, b);
    assert (k * b) * d == (k * d) * b;
  }

  lemma {:induction false} Reorder(s: nat, b: nat, u: nat)
    ensures s * (b * u) == (s * u) * b && b * (s * u) == (s * u) * b
  {
  }

  lemma {:induction false} RatioScaled(num: nat, den: nat, num2: nat, den2: nat, p: nat)
    requires num * den2 == num2 * den
    ensures (num * p) * den2 == (num2 * p) * den
  {
    MulAssociates(p, num, den2);
    MulAssociates(p, num2, den);
  }

  lemma {:induction false} BinadeOfRatio(a: nat, b: nat, c: nat, d: nat, j: nat)
    requires b > 0 && d > 0 && a * d == c * b && InBinade(a, b, j)
    ensures InBinade(c, d, j)
  {
    Reorder(SIGNIFICANDS, b, Pow(2, j));
    Reorder(SIGNIFICANDS, d, Pow(2, j));
    RatioLess(a, b, c, d, SIGNIFICANDS * Pow(2, j));
    MulAssociates(2, a, d);
    MulAssociates(2, c, b);
    RatioLess(2 * a, b, 2 * c, d, SIGNIFICANDS * Pow(2, j));
  }

  lemma {:induction false} OverflowOfRatio(a: nat, b: nat, c: nat, d: nat)
    requires b > 0 && d > 0 && a * d == c * b
    ensures Overflows(a, b) <==> Overflows(c, d)
  {
    var k := (2 * SIGNIFICANDS - 1) * Pow(2, 2045);
    RatioLess(a, b, c, d, k);
    assert b * k == k * b && d * k == k * d;
  }

  lemma {:induction false} UnitsOfRatio(a: nat, b: nat, c: nat, d: nat, j: nat)
    requires b > 0 && d > 0 && a * d == c * b
    ensures b * Pow(2, j) > 0 && d * Pow(2, j) > 0 && Nearest(a, b * Pow(2, j)) == Nearest(c, d * Pow(2, j))
  {
    UnitPositive(b, j);
    UnitPositive(d, j);
    MulAssociates(a, d, Pow(2, j));
    MulAssociates(c, b, Pow(2, j));
    NearestOfRatio(a, b * Pow(2, j), c, d * Pow(2, j));
  }

  lemma {:induction false} InUnitsOfRatio(num: nat, den: nat, num2: nat, den2: nat, r: Magnitude)
    requires den > 0 && den2 > 0 && num * den2 == num2 * den && InUnits(num, den, r)
    ensures InUnits(num2, den2, r)
  {
    var a, c := num * Pow(2, SCALE), num2 * Pow(2, SCALE);
    RatioScaled(num, den, num2, den2, Pow(2, SCALE));
    OverflowOfRatio(a, den, c, den2);
    if r.Finite? {
      BinadeOfRatio(a, den, c, den2, r.exponent + SCALE);
      UnitsOfRatio(a, den, c, den2, r.exponent + SCALE);
    }
  }

  lemma {:induction false} TensJoin(d: nat, m: nat, n: nat)
    ensures TenTimes(TenTimes(d, m), n) == TenTimes(d, m + n)
  {
    if n > 0 {
      TensJoin(d, m, n - 1);
    }
  }

  lemma {:induction false} TensArePowers(d: nat, n: nat)
    ensures TenTimes(d, n) == d * Pow(10, n)
  {
    if n > 0 {
      TensArePowers(d, n - 1);
    }
  }

  lemma {:induction false} DenPositive(exp10: int)
    ensures Den(exp10) > 0
  {
    TensArePowers(1, Down(exp10));
    PowPositive(10, Down(exp10));
  }

  lemma {:induction false} CrossScaled(num: nat, den: nat, p: nat)
    ensures num * (den * p) == (num * p) * den
  {
  }

  lemma {:induction false} InUnitsScaled(num: nat, den: nat, s: nat, r: Magnitude)
    requires den > 0 && InUnits(num, den, r)
    ensures TenTimes(den, s) > 0 && InUnits(TenTimes(num, s), TenTimes(den, s), r)
  {
    TensArePowers(num, s);
    TensArePowers(den, s);
    PowPositive(10, s);
    MulGrows(1, den, Pow(10, s));
    CrossScaled(num, den, Pow(10, s));
    InUnitsOfRatio(num, den, TenTimes(num, s), TenTimes(den, s), r);
  }

  /** Trailing zeros move into the exponent. */
  lemma {:induction false} ZerosMove(d: nat, z: nat, exp10: int) returns (s: nat)
    ensures Num(TenTimes(d, z), exp10) == TenTimes(Num(d, exp10 + z), s)
    ensures Den(exp10) == TenTimes(Den(exp10 + z), s)
  {
    s := if exp10 >= 0 then 0 else if exp10 + z >= 0 then -exp10 else z;
    TensJoin(d, z, Up(exp10));
    TensJoin(d, Up(exp10 + z), s);
    TensJoin(1, Down(exp10 + z), s);
  }

  // ---- Two numbers with no half unit between them round alike ----

  ghost predicate SameSide(a: nat, b: nat, c: nat, d: nat, k: nat, t: nat) {
    (a > b * Units(k, t) && c > d * Units(k, t)) || (a < b * Units(k, t) && c < d * Units(k, t))
  }

  ghost predicate Apart(a: nat, b: nat, c: nat, d: nat) {
    forall k: nat, t: nat :: k <= 2 * SIGNIFICANDS && t <= 2046 ==> SameSide(a, b, c, d, k, t)
  }

  lemma {:induction false} NearestByHalf(a: nat, h: nat, q: nat)
    requires h > 0 && h * (2 * q) <= a < h * (2 * q + 2) && a != h * (2 * q + 1)
    ensures Nearest(a, 2 * h) == if a > h * (2 * q + 1) then q + 1 else q
  {
    MulAssociates(h, 2, q);
    MulAssociates(h, 2, q + 1);
    MulSpreads(h, 2 * q, 1);
    MulSpreads(h, 2 * q, 2);
    Quotient(a, 2 * h, q);
  }

  lemma {:induction false} HalfUnits(b: nat, k: nat, j: nat)
    requires j >= 1
    ensures b * Units(k, j - 1) == (b * Pow(2, j - 1)) * k && b * Pow(2, j) == 2 * (b * Pow(2, j - 1))
  {
    assert Pow(2, j) == 2 * Pow(2, j - 1);
    TwiceInside(b, Pow(2, j - 1));
    MulAssociates(b, Pow(2, j - 1), k);
    assert Units(k, j - 1) == Pow(2, j - 1) * k;
  }

  lemma {:induction false} FloorBelow(a: nat, c: nat, q: nat)
    requires c > 0 && a < q * c
    ensures a / c < q && c * (a / c) <= a < c * (a / c + 1)
  {
    var p, r := a / c, a % c;
    assert a == c * p + r;
    MulSpreads(c, p, 1);
    if p >= q {
      MulGrows(q, p, c);
    }
  }

  ghost predicate SameSides(a: nat, h: nat, c: nat, h2: nat, k: nat) {
    (a > h * k && c > h2 * k) || (a < h * k && c < h2 * k)
  }

  lemma {:induction false} ApartAtHalf(a: nat, b: nat, c: nat, d: nat, j: nat, k: nat)
    requires Apart(a, b, c, d) && k <= 2 * SIGNIFICANDS && 1 <= j <= 2046
    ensures SameSides(a, b * Pow(2, j - 1), c, d * Pow(2, j - 1), k)
  {
    assert SameSide(a, b, c, d, k, j - 1);
    HalfUnits(b, k, j);
    HalfUnits(d, k, j);
  }

  lemma {:induction false} HalfPositive(b: nat, j: nat)
    requires b > 0 && j >= 1
    ensures b * Pow(2, j) == 2 * (b * Pow(2, j - 1)) && b * Pow(2, j - 1) > 0
  {
    HalfUnits(b, 0, j);
    UnitPositive(b, j - 1);
  }

  lemma {:induction false} NearestApart(a: nat, b: nat, c: nat, d: nat, j: nat)
    requires b > 0 && d > 0 && Apart(a, b, c, d) && InBinade(a, b, j)
    ensures b * Pow(2, j) > 0 && d * Pow(2, j) > 0 && Nearest(a, b * Pow(2, j)) == Nearest(c, d * Pow(2, j))
  {
    HalfPositive(b, j);
    HalfPositive(d, j);
    var h, h2 := b * Pow(2, j - 1), d * Pow(2, j - 1);
    forall k: nat | k <= 2 * SIGNIFICANDS ensures SameSides(a, h, c, h2, k) {
      ApartAtHalf(a, b, c, d, j, k);
    }
    NearestSameSides(a, h, c, h2);
  }

  lemma {:induction false} NearestSameSides(a: nat, h: nat, c: nat, h2: nat)
    requires h > 0 && h2 > 0 && a < SIGNIFICANDS * (2 * h)
    requires forall k: nat :: k <= 2 * SIGNIFICANDS ==> SameSides(a, h, c, h2, k)
    ensures Nearest(a, 2 * h) == Nearest(c, 2 * h2)
  {
    FloorBelow(a, 2 * h, SIGNIFICANDS);
    var q := a / (2 * h);
    MulAssociates(h, 2, q);
    MulAssociates(h, 2, q + 1);
    SameHalf(a, h, c, h2, q);
  }

  lemma {:induction false} SameHalf(a: nat, h: nat, c: nat, h2: nat, q: nat)
    requires h > 0 && h2 > 0 && h * (2 * q) <= a < h * (2 * q + 2)
    requires SameSides(a, h, c, h2, 2 * q) && SameSides(a, h, c, h2, 2 * q + 1) && SameSides(a, h, c, h2, 2 * q + 2)
    ensures Nearest(a, 2 * h) == Nearest(c, 2 * h2)
  {
    NearestByHalf(a, h, q);
    NearestByHalf(c, h2, q);
  }

  lemma {:induction false} BinadeApart(a: nat, b: nat, c: nat, d: nat, j: nat)
    requires Apart(a, b, c, d) && InBinade(a, b, j)
    ensures InBinade(c, d, j)
  {
    Reorder(SIGNIFICANDS, b, Pow(2, j));
    Reorder(SIGNIFICANDS, d, Pow(2, j));
    assert SameSide(a, b, c, d, SIGNIFICANDS, j);
    assert SameSide(a, b, c, d, SIGNIFICANDS / 2, j);
    Reorder(SIGNIFICANDS / 2, b, Pow(2, j));
    Reorder(SIGNIFICANDS / 2, d, Pow(2, j));
    MulAssociates(2, SIGNIFICANDS / 2, b * Pow(2, j));
    MulAssociates(2, SIGNIFICANDS / 2, d * Pow(2, j));
  }

  lemma {:induction false} InUnitsApart(num: nat, den: nat, num2: nat, den2: nat, r: Magnitude)
    requires den > 0 && den2 > 0 && InUnits(num, den, r) && Apart(num * Pow(2, SCALE), den, num2 * Pow(2, SCALE), den2)
    ensures InUnits(num2, den2, r)
  {
    var a, c := num * Pow(2, SCALE), num2 * Pow(2, SCALE);
    assert SameSide(a, den, c, den2, 2 * SIGNIFICANDS - 1, 2045);
    if r.Finite? {
      BinadeApart(a, den, c, den2, r.exponent + SCALE);
      NearestApart(a, den, c, den2, r.exponent + SCALE);
    }
  }

  // ---- No half unit lies strictly between two neighbouring 800-digit decimals ----

  lemma {:induction false} Tens(n: nat)
    ensures Pow(10, n) == Pow(5, n) * Pow(2, n)
  {
    PowOfProduct(5, 2, n);
  }

  lemma {:induction false} TenBeatsTwo()
    ensures Pow(10, 28) >= Pow(2, 93) && Pow(10, 16) >= Pow(2, 53) && Pow(10, 15) >= Pow(2, 49)
  {
    SomeTens();
    SomeTwos();
  }

  lemma {:induction false} SomeTens()
    ensures Pow(10, 15) == 1000000000000000 && Pow(10, 16) == 10000000000000000
    ensures Pow(10, 28) == 10000000000000000000000000000
  {
    SmallPowers();
    PowAdd(10, 8, 7);
    PowAdd(10, 8, 8);
    PowAdd(10, 8, 4);
    PowAdd(10, 16, 12);
  }

  lemma {:induction false} SomeTwos()
    ensures Pow(2, 49) == 562949953421312 && Pow(2, 53) == 9007199254740992
    ensures Pow(2, 93) == 9903520314283042199192993792
  {
    PowerOf49();
    PowAdd(2, 49, 4);
    PowAdd(2, 49, 44);
    PowAdd(2, 44, 5);
    SmallPowers();
  }

  lemma {:induction false} PowerOf49()
    ensures Pow(2, 49) == 562949953421312
  {
    SmallPowers();
    PowAdd(2, 8, 8);
    PowAdd(2, 16, 16);
    PowAdd(2, 32, 16);
    PowAdd(2, 48, 1);
  }

  lemma {:induction false} SmallPowers()
    ensures Pow(10, 8) == 100000000 && Pow(10, 4) == 10000 && Pow(10, 7) == 10000000
    ensures Pow(2, 8) == 256 && Pow(2, 5) == 32 && Pow(2, 1) == 2
  {
    assert Pow(10, 4) == 10000;
    PowAdd(10, 4, 4);
    PowAdd(10, 4, 3);
    assert Pow(10, 3) == 1000;
    assert Pow(2, 5) == 32;
    PowAdd(2, 5, 3);
    assert Pow(2, 3) == 8;
  }

  lemma {:induction false} FivesBelowTwos(f: nat)
    requires f <= 1075
    ensures Pow(5, f) <= Pow(2, 2513)
  {
    var n: nat := 359;
    PowGrows(5, f, 3 * n);
    assert Pow(5, 3) == 125 && Pow(2, 7) == 128;
    PowOfPow(5, 3, n);
    PowOfLarger(125, 128, n);
    PowOfPow(2, 7, n);
  }

  lemma {:induction false} TensAboveTwos()
    ensures Pow(10, 799) >= Pow(2, 2653)
  {
    var m: nat := 28;
    TenBeatsTwo();
    PowOfPow(2, 93, m);
    PowOfPow(10, 28, m);
    PowOfLarger(Pow(2, 93), Pow(10, 28), m);
    PowAdd(2, 93 * m, 49);
    PowAdd(10, 28 * m, 15);
    MulGrows(Pow(2, 93 * m), Pow(10, 28 * m), Pow(2, 49));
    MulGrows(Pow(2, 49), Pow(10, 15), Pow(10, 28 * m));
  }

  /** 5^1075 * 2^54 stays below every 800-digit number. */
  lemma {:induction false} FivesAreShort(f: nat, t: nat)
    requires f <= 1075 && t >= Pow(10, 799)
    ensures Pow(5, f) * (2 * SIGNIFICANDS) <= t
  {
    FivesBelowTwos(f);
    TensAboveTwos();
    TwoToThe54();
    MulGrows(Pow(5, f), Pow(2, 2513), Pow(2, 54));
    PowAdd(2, 2513, 54);
    PowGrows(2, 2567, 2653);
  }

  lemma {:induction false} TwoToThe54()
    ensures Pow(2, 54) == 2 * SIGNIFICANDS
  {
    SmallPowers();
    PowAdd(2, 8, 8);
    PowAdd(2, 16, 16);
    PowAdd(2, 32, 16);
    PowAdd(2, 48, 5);
    PowAdd(2, 53, 1);
  }

  lemma {:induction false} FivesAndTwos(k: nat, t: nat, f: nat)
    ensures Units(k, t) * Pow(10, f) == (k * Pow(5, f)) * Pow(2, t + f)
  {
    Tens(f);
    MulRegroups(k, Pow(2, t), Pow(5, f), Pow(2, f));
    PowAdd(2, t, f);
  }

  lemma {:induction false} ManyTwos(n: nat, e: nat, cut: nat, s: nat)
    requires e >= s
    ensures n * Pow(2, e) <= cut * Pow(2, s) || n * Pow(2, e) >= (cut + 1) * Pow(2, s)
  {
    var m := n * Pow(2, e - s);
    PowAdd(2, e - s, s);
    MulAssociates(n, Pow(2, e - s), Pow(2, s));
    if m <= cut {
      MulGrows(m, cut, Pow(2, s));
    } else {
      MulGrows(cut + 1, m, Pow(2, s));
    }
  }

  lemma {:induction false} FewTwos(k: nat, e: nat, f: nat, cut: nat, s: nat)
    requires k <= 2 * SIGNIFICANDS && cut >= Pow(10, 799) && f <= e < s <= 1075
    ensures (k * Pow(5, f)) * Pow(2, e) <= cut * Pow(2, s)
  {
    FivesAreShort(f, cut);
    MulGrows(k, 2 * SIGNIFICANDS, Pow(5, f));
    PowGrows(2, e, s);
    MulGrows(k * Pow(5, f), cut, Pow(2, e));
    MulGrows(Pow(2, e), Pow(2, s), cut);
  }

  lemma {:induction false} NoHalfBetween(k: nat, t: nat, f: nat, cut: nat)
    requires k <= 2 * SIGNIFICANDS && cut >= Pow(10, 799)
    ensures Units(k, t) * Pow(10, f) <= cut * Pow(2, SCALE) || Units(k, t) * Pow(10, f) >= (cut + 1) * Pow(2, SCALE)
  {
    FivesAndTwos(k, t, f);
    if t + f >= SCALE {
      ManyTwos(k * Pow(5, f), t + f, cut, SCALE);
    } else {
      FewTwos(k, t + f, f, cut, SCALE);
    }
  }

  /** num/den lies strictly between cut / 10^f and (cut + 1) / 10^f. */
  ghost predicate Inside(num: nat, den: nat, cut: nat, f: nat) {
    cut * den < num * Pow(10, f) < (cut + 1) * den
  }

  lemma {:induction false} InsideSide(num: nat, den: nat, cut: nat, f: nat, h: nat, s: nat)
    requires Inside(num, den, cut, f) && den > 0 && s > 0
    ensures h * Pow(10, f) <= cut * s ==> num * s > den * h
    ensures h * Pow(10, f) >= (cut + 1) * s ==> num * s < den * h
  {
    var p := Pow(10, f);
    PowPositive(10, f);
    MulAssociates(h, p, den);
    MulAssociates(cut, s, den);
    MulAssociates(cut, den, s);
    MulAssociates(cut + 1, s, den);
    MulAssociates(cut + 1, den, s);
    MulAssociates(num, p, s);
    MulAssociates(num, s, p);
    MulAssociates(den, h, p);
    assert s * den == den * s && p * s == s * p;
    MulLess(cut * den, num * p, s);
    MulLess(num * p, (cut + 1) * den, s);
    assert (den * h) * p == (h * p) * den;
    if h * p <= cut * s {
      MulGrows(h * p, cut * s, den);
      ScaledCompare(num * s, den * h, p);
    }
    if h * p >= (cut + 1) * s {
      MulGrows((cut + 1) * s, h * p, den);
      ScaledCompare(den * h, num * s, p);
    }
  }

  lemma {:induction false} InsideIsApart(num: nat, den: nat, num2: nat, den2: nat, cut: nat, f: nat)
    requires den > 0 && den2 > 0 && cut >= Pow(10, 799) && Inside(num, den, cut, f) && Inside(num2, den2, cut, f)
    ensures Apart(num * Pow(2, SCALE), den, num2 * Pow(2, SCALE), den2)
  {
    PowPositive(2, SCALE);
    forall k: nat, t: nat | k <= 2 * SIGNIFICANDS && t <= 2046
      ensures SameSide(num * Pow(2, SCALE), den, num2 * Pow(2, SCALE), den2, k, t)
    {
      NoHalfBetween(k, t, f, cut);
      InsideSide(num, den, cut, f, Units(k, t), Pow(2, SCALE));
      InsideSide(num2, den2, cut, f, Units(k, t), Pow(2, SCALE));
    }
  }

  // ---- The ends of the range, decided on the number of digits ----

  lemma {:induction false} TensBeyondDoubles()
    ensures Pow(10, 310) >= Pow(2, 1024) && Pow(10, 324) >= Pow(2, 1075)
  {
    var m: nat := 11;
    TenBeatsTwo();
    PowOfPow(2, 93, m);
    PowOfPow(10, 28, m);
    PowOfLarger(Pow(2, 93), Pow(10, 28), m);
    PowAdd(10, 308, 2);
    PowAdd(10, 308, 16);
    PowAdd(2, 1023, 1);
    PowAdd(2, 1023, 53);
    PowGrows(2, 1075, 1076);
    assert Pow(10, 2) == 100 && Pow(2, 1) == 2;
    MulGrows(Pow(2, 1023), Pow(10, 308), 2);
    MulGrows(Pow(2, 1023), Pow(10, 308), Pow(2, 53));
    MulGrows(Pow(2, 53), Pow(10, 16), Pow(10, 308));
  }

  lemma {:induction false} HugeNumber(d: nat, n: nat, exp10: int)
    requires n > 0 && Pow(10, n - 1) <= d && n + exp10 > 310
    ensures Num(d, exp10) >= Pow(10, 310) * Den(exp10)
  {
    TensArePowers(d, Up(exp10));
    TensArePowers(1, Down(exp10));
    PowAdd(10, 310, Down(exp10));
    PowAdd(10, n - 1, Up(exp10));
    MulGrows(Pow(10, n - 1), d, Pow(10, Up(exp10)));
    PowGrows(10, 310 + Down(exp10), n - 1 + Up(exp10));
  }

  lemma {:induction false} HugeProduct(num: nat, den: nat, t: nat, u: nat, s: nat)
    requires num >= t * den && t >= u
    ensures num * s >= den * (u * s)
  {
    MulGrows(u, t, den);
    MulGrows(u * den, num, s);
    MulAssociates(u, den, s);
    MulAssociates(den, u, s);
    assert u * den == den * u;
  }

  lemma {:induction false} OverflowFrom2To1024()
    ensures Pow(2, 1024) * Pow(2, SCALE) >= (2 * SIGNIFICANDS - 1) * Pow(2, 2045)
  {
    TwoToThe54();
    PowAdd(2, 1024, SCALE);
    PowAdd(2, 54, 2045);
    MulGrows(2 * SIGNIFICANDS - 1, Pow(2, 54), Pow(2, 2045));
  }

  lemma {:induction false} HugeOverflows(d: nat, n: nat, exp10: int)
    requires n > 0 && Pow(10, n - 1) <= d && n + exp10 > 310
    ensures Overflows(Num(d, exp10) * Pow(2, SCALE), Den(exp10))
  {
    HugeNumber(d, n, exp10);
    TensBeyondDoubles();
    HugeProduct(Num(d, exp10), Den(exp10), Pow(10, 310), Pow(2, 1024), Pow(2, SCALE));
    OverflowFrom2To1024();
    MulGrows((2 * SIGNIFICANDS - 1) * Pow(2, 2045), Pow(2, 1024) * Pow(2, SCALE), Den(exp10));
  }

  lemma {:induction false} TinyNumber(d: nat, n: nat, exp10: int)
    requires d < Pow(10, n) && n + exp10 <= -324
    ensures Num(d, exp10) * Pow(2, SCALE) < Den(exp10)
  {
    TensArePowers(1, Down(exp10));
    TensBeyondDoubles();
    PowPositive(10, 324);
    MulGrows(Pow(2, SCALE), Pow(10, 324), d);
    MulLess(d, Pow(10, n), Pow(10, 324));
    PowAdd(10, n, 324);
    PowGrows(10, n + 324, Down(exp10));
  }

  lemma {:induction false} BelowHalfUnit(num: nat, den: nat)
    requires num * Pow(2, SCALE) < den
    ensures InUnits(num, den, Finite(0, -1074))
  {
    var a := num * Pow(2, SCALE);
    assert Pow(2, 1) == 2;
    Quotient(a, den * 2, 0);
    MulGrows(1, SIGNIFICANDS, den * 2);
    OverflowInBinade(a, den, 1);
  }

  // ---- From the quotient bits to the rounding ----

  /** The kept bits of q after `s` is divided off, rounded with the sticky bit behind them. */
  function RoundedBits(q: nat, sticky: bool, s: nat): nat
    requires s > 0
  {
    var kept, dropped := q / s, q % s;
    if dropped > s / 2 || (dropped == s / 2 && (sticky || kept % 2 == 1)) then kept + 1 else kept
  }

  lemma {:induction false} QuotientParts(q: nat, d1: nat, rem: nat, s: nat, kept: nat, dropped: nat)
    requires q == s * kept + dropped && dropped < s && rem < d1
    ensures q * d1 + rem == (d1 * s) * kept + (dropped * d1 + rem) && dropped * d1 + rem < d1 * s
  {
    MulSpreads(d1, s * kept, dropped);
    MulAssociates(d1, s, kept);
    MulGrows(dropped + 1, s, d1);
    MulSpreads(d1, dropped, 1);
  }

  lemma {:induction false} DroppedAgainstHalf(dropped: nat, h: nat, d1: nat, rem: nat)
    requires rem < d1
    ensures 2 * (dropped * d1 + rem) > d1 * (2 * h) <==> dropped > h || (dropped == h && rem > 0)
    ensures 2 * (dropped * d1 + rem) == d1 * (2 * h) <==> dropped == h && rem == 0
  {
    TwiceInside(d1, h);
    if dropped < h {
      MulGrows(dropped + 1, h, d1);
      MulSpreads(d1, dropped, 1);
    } else if dropped > h {
      MulGrows(h + 1, dropped, d1);
      MulSpreads(d1, h, 1);
    }
  }

  lemma {:induction false} NearestOfParts(n: nat, d: nat, kept: nat, low: nat)
    requires n == d * kept + low && low < d
    ensures Nearest(n, d) == if 2 * low > d || (2 * low == d && kept % 2 == 1) then kept + 1 else kept
  {
    MulSpreads(d, kept, 1);
    Quotient(n, d, kept);
  }

  lemma {:induction false} SameDecision(dropped: nat, h: nat, rem: nat, kept: nat, low: nat, d: nat)
    requires 2 * low > d <==> dropped > h || (dropped == h && rem > 0)
    requires 2 * low == d <==> dropped == h && rem == 0
    ensures (2 * low > d || (2 * low == d && kept % 2 == 1)) <==>
      (dropped > h || (dropped == h && (rem != 0 || kept % 2 == 1)))
  {
  }

  lemma {:induction false} QuotientRounds(n1: nat, d1: nat, q: nat, rem: nat, h: nat)
    requires n1 == q * d1 + rem && rem < d1 && h > 0
    ensures d1 * (2 * h) > 0 && Nearest(n1, d1 * (2 * h)) == RoundedBits(q, rem != 0, 2 * h)
  {
    var kept, dropped := DivisionParts(q, 2 * h);
    MulGrows(1, d1, 2 * h);
    MulGrows(0, dropped, d1);
    QuotientParts(q, d1, rem, 2 * h, kept, dropped);
    DroppedAgainstHalf(dropped, h, d1, rem);
    NearestOfParts(n1, d1 * (2 * h), kept, dropped * d1 + rem);
    SameDecision(dropped, h, rem, kept, dropped * d1 + rem, d1 * (2 * h));
  }

  /** x with n zero bits behind it. */
  function Shl(x: nat, n: nat): nat {
    if n == 0 then x else 2 * Shl(x, n - 1)
  }

  lemma {:induction false} ShlIsPower(x: nat, n: nat)
    ensures Shl(x, n) == x * Pow(2, n)
  {
    if n > 0 {
      ShlIsPower(x, n - 1);
    }
  }

  lemma {:induction false} ShlTwice(x: nat, m: nat, n: nat)
    ensures Shl(Shl(x, m), n) == Shl(x, m + n)
  {
    if n > 0 {
      ShlTwice(x, m, n - 1);
    }
  }

  lemma {:induction false} ShlOrder(x: nat, y: nat, n: nat)
    ensures x < y <==> Shl(x, n) < Shl(y, n)
  {
    if n > 0 {
      ShlOrder(x, y, n - 1);
    }
  }

  lemma {:induction false} ShlGrows(x: nat, m: nat, n: nat)
    requires m <= n
    ensures Shl(x, m) <= Shl(x, n)
  {
    if m < n {
      ShlGrows(x, m, n - 1);
    }
  }

  lemma {:induction false} NearestShifted(a: nat, b: nat, n: nat)
    requires b > 0
    ensures Shl(b, n) > 0 && Nearest(Shl(a, n), Shl(b, n)) == Nearest(a, b)
  {
    PowPositive(2, n);
    ShlIsPower(a, n);
    ShlIsPower(b, n);
    NearestScaled(a, b, Pow(2, n));
  }

  /** Shifting both sides further keeps their order, in both directions. */
  lemma {:induction false} ShiftBoth(x: nat, m: nat, y: nat, n: nat, s: nat, mm: nat, nn: nat)
    requires mm == m + s && nn == n + s
    ensures Shl(x, m) < Shl(y, n) <==> Shl(x, mm) < Shl(y, nn)
  {
    ShlTwice(x, m, s);
    ShlTwice(y, n, s);
    ShlOrder(Shl(x, m), Shl(y, n), s);
  }

  lemma {:induction false} ShlPositive(x: nat, n: nat)
    requires x > 0
    ensures Shl(x, n) > 0
  {
    if n > 0 {
      ShlPositive(x, n - 1);
    }
  }

  lemma {:induction false} NearestShiftedBoth(x: nat, m: nat, y: nat, n: nat, s: nat, mm: nat, nn: nat)
    requires y > 0 && mm == m + s && nn == n + s
    ensures Shl(y, n) > 0 && Shl(y, nn) > 0 && Nearest(Shl(x, mm), Shl(y, nn)) == Nearest(Shl(x, m), Shl(y, n))
  {
    ShlPositive(y, n);
    ShlTwice(x, m, s);
    ShlTwice(y, n, s);
    NearestShifted(Shl(x, m), Shl(y, n), s);
  }

  lemma {:induction false} SameRounding(num: nat, den: nat, kUp: nat, downShift: nat, j: nat, s: nat)
    requires den > 0 && kUp + j == s + downShift
    ensures Shl(den, j) > 0 && Shl(den, downShift) > 0
    ensures Nearest(Shl(num, kUp), Shl(den, downShift)) == Nearest(Shl(num, s), Shl(den, j))
  {
    NearestShiftedBoth(num, kUp, den, downShift, s, kUp + s, kUp + j);
    NearestShiftedBoth(num, s, den, j, kUp, kUp + s, kUp + j);
  }

  lemma {:induction false} UpperBound(num: nat, den: nat, kUp: nat, down: nat, y: nat, s: nat)
    requires Shl(num, kUp) < Shl(den, down) && down + s <= y + kUp
    ensures Shl(num, s) < Shl(den, y)
  {
    var a, b, c := kUp + s, down + s, y + kUp;
    ShiftBoth(num, kUp, den, down, s, a, b);
    ShlGrows(den, b, c);
    ShiftBoth(num, s, den, y, kUp, a, c);
  }

  lemma {:induction false} LowerBound(num: nat, den: nat, kUp: nat, down: nat, y: nat, s: nat)
    requires Shl(num, kUp) >= Shl(den, down) && down + s >= y + kUp
    ensures Shl(num, s) >= Shl(den, y)
  {
    var a, b, c := kUp + s, down + s, y + kUp;
    ShiftBoth(num, kUp, den, down, s, a, b);
    ShlGrows(den, c, b);
    ShiftBoth(num, s, den, y, kUp, a, c);
  }

  lemma {:induction false} UnitsAsPowers(den: nat, j: nat)
    ensures SIGNIFICANDS * (den * Pow(2, j)) == den * Pow(2, 53 + j)
    ensures SIGNIFICANDS * (den * Pow(2, j)) == 2 * (den * Pow(2, 52 + j))
  {
    TwoToThe54();
    assert Pow(2, 54) == 2 * Pow(2, 53);
    PowAdd(2, 53, j);
    Reorder(SIGNIFICANDS, den, Pow(2, j));
    assert Pow(2, 53 + j) == 2 * Pow(2, 52 + j);
    TwiceInside(den, Pow(2, 52 + j));
  }

  /** The quotient has `bits` bits before the shift by k = kUp - kDown; that fixes the unit of the result. */
  lemma {:induction false} QuotientBinade(num: nat, den: nat, kUp: nat, kDown: nat, bits: nat, j: nat)
    requires den > 0 && bits > 0 && 1 <= j <= 2046
    requires Shl(Shl(den, kDown), bits - 1) <= Shl(num, kUp) < Shl(Shl(den, kDown), bits)
    requires bits + kDown + SCALE <= 53 + j + kUp && (j > 1 ==> bits + kDown + SCALE == 53 + j + kUp)
    ensures InBinade(num * Pow(2, SCALE), den, j)
  {
    ShlTwice(den, kDown, bits);
    UpperBound(num, den, kUp, kDown + bits, 53 + j, SCALE);
    UnitsAsPowers(den, j);
    ShlIsPower(num, SCALE);
    ShlIsPower(den, 53 + j);
    if j > 1 {
      ShlTwice(den, kDown, bits - 1);
      LowerBound(num, den, kUp, kDown + bits - 1, 52 + j, SCALE);
      ShlIsPower(den, 52 + j);
    }
  }

  lemma {:induction false} QuotientOverflows(num: nat, den: nat, kUp: nat, kDown: nat, bits: nat)
    requires bits > 0 && Shl(Shl(den, kDown), bits - 1) <= Shl(num, kUp) && bits - 1 + kDown >= 1024 + kUp
    ensures Overflows(num * Pow(2, SCALE), den)
  {
    ShlTwice(den, kDown, bits - 1);
    LowerBound(num, den, kUp, kDown + bits - 1, 1024 + SCALE, SCALE);
    ShlIsPower(num, SCALE);
    ShlIsPower(den, 1024 + SCALE);
    PowSum(2, 1024, SCALE, 1024 + SCALE);
    OverflowFrom2To1024();
    MulGrows((2 * SIGNIFICANDS - 1) * Pow(2, 2045), Pow(2, 1024 + SCALE), den);
  }

  /** Rounding the quotient bits is rounding num/den in the unit. */
  lemma {:induction false} BitsRoundInUnit(num: nat, den: nat, kUp: nat, kDown: nat, q: nat, rem: nat, shift: nat,
      j: nat)
    requires den > 0 && shift > 0 && kUp + j == SCALE + kDown + shift
    requires Shl(num, kUp) == q * Shl(den, kDown) + rem && rem < Shl(den, kDown)
    ensures Shl(1, shift) > 0 && den * Pow(2, j) > 0
    ensures RoundedBits(q, rem != 0, Shl(1, shift)) == Nearest(num * Pow(2, SCALE), den * Pow(2, j))
  {
    var h := Shl(1, shift - 1);
    ShlPositive(1, shift - 1);
    QuotientRounds(Shl(num, kUp), Shl(den, kDown), q, rem, h);
    ShlIsPower(Shl(den, kDown), shift);
    ShlIsPower(1, shift);
    ShlTwice(den, kDown, shift);
    SameRounding(num, den, kUp, kDown + shift, j, SCALE);
    ShlIsPower(num, SCALE);
    ShlIsPower(den, j);
  }

  // ---- The methods ----

  method CountLeadingZeros64(value: nat) returns (count: nat)
    requires 0 < value < Shl(1, 64)
    ensures count < 64 && Shl(1, 63 - count) <= value < Shl(1, 64 - count)
  {
    count := 0;
    while value < Shl(1, 63 - count)
      invariant count < 64 && value < Shl(1, 64 - count)
      decreases 64 - count
    {
      assert count < 63;
      count := count + 1;
    }
  }

  /** Schoolbook division, one quotient bit at a time from bit 63 down. */
  method Divide(numerator: BigUInt, denominator: BigUInt) returns (q: nat, sticky: bool, ghost rem: nat)
    requires numerator.Valid() && denominator.Valid() && numerator != denominator
    requires 0 < denominator.Val() && numerator.Val() < Shl(denominator.Val(), 64)
    modifies numerator
    ensures denominator.Val() == old(denominator.Val()) > 0
    ensures old(numerator.Val()) == q * denominator.Val() + rem && rem < denominator.Val() && sticky == (rem != 0)
  {
    ghost var n, d := numerator.Val(), denominator.Val();
    var step := new BigUInt.Copy(denominator);
    step.ShiftLeft(63);
    ShlIsPower(d, 63);
    q := 0;
    var b: nat := 64;
    while b > 0
      invariant b <= 64 && numerator.Valid() && step.Valid() && fresh(step) && denominator.Val() == d
      invariant b > 0 ==> step.Val() == Shl(d, b - 1)
      invariant numerator.Val() + q * d == n && numerator.Val() < Shl(d, b)
    {
      b := b - 1;
      var order := Compare(numerator, step);
      if order >= 0 {
        numerator.Subtract(step);
        AddBit(q, b, d);
        q := q + Shl(1, b);
      }
      step.ShiftRightOne();
    }
    var zero := numerator.IsZero();
    sticky := !zero;
    rem := numerator.Val();
  }

  lemma {:induction false} AddBit(q: nat, b: nat, d: nat)
    ensures (q + Shl(1, b)) * d == q * d + Shl(d, b)
  {
    ShlIsPower(1, b);
    ShlIsPower(d, b);
    MulSpreads(d, q, Pow(2, b));
  }

  lemma {:induction false} HalfOf(shift: nat)
    requires shift > 0
    ensures Shl(1, shift - 1) > 0 && Shl(1, shift) == 2 * Shl(1, shift - 1)
  {
    ShlPositive(1, shift - 1);
  }

  lemma {:induction false} NothingKept(q: nat, sticky: bool, h: nat)
    requires h > 0 && q < 2 * h
    ensures RoundedBits(q, sticky, 2 * h) == if q > h || (q == h && sticky) then 1 else 0
  {
    Quotient(q, 2 * h, 0);
  }

  lemma {:induction false} ShiftLimits(q: nat, shift: nat)
    requires q < Shl(1, 64) && shift >= 64
    ensures q < 2 * Shl(1, shift - 1) && (shift > 64 ==> q < Shl(1, shift - 1))
  {
    ShlGrows(1, 64, shift);
    if shift > 64 {
      ShlGrows(1, 64, shift - 1);
    }
  }

  lemma {:induction false} PartlyKept(q: nat, sticky: bool, half: nat, unit: nat)
    requires half > 0 && unit == 2 * half
    ensures RoundedBits(q, sticky, unit) ==
      if q % unit > half || (q % unit == half && (sticky || q / unit % 2 == 1)) then q / unit + 1 else q / unit
  {
  }

  /** The kept bits when fewer than 64 go. */
  method KeepSome(q: nat, sticky: bool, half: nat, unit: nat) returns (kept: nat)
    requires half > 0 && unit == 2 * half
    ensures kept == RoundedBits(q, sticky, unit)
  {
    PartlyKept(q, sticky, half, unit);
    kept := q / unit;
    var dropped := q % unit;
    if dropped > half || (dropped == half && (sticky || kept % 2 != 0)) {
      kept := kept + 1;
    }
  }

  method RoundBits(q: nat, sticky: bool, shift: nat) returns (kept: nat)
    requires q < Shl(1, 64) && shift > 0
    ensures Shl(1, shift) > 0 && kept == RoundedBits(q, sticky, Shl(1, shift))
  {
    HalfOf(shift);
    if shift < 64 {
      kept := KeepSome(q, sticky, Shl(1, shift - 1), Shl(1, shift));
    } else {
      ShiftLimits(q, shift);
      NothingKept(q, sticky, Shl(1, shift - 1));
      kept := if shift == 64 && (q > Shl(1, 63) || (q == Shl(1, 63) && sticky)) then 1 else 0;
    }
  }

  /** significand * 2^exponent, which no double reaches from 2^53 * 2^971 on. */
  function Ldexp(significand: nat, exponent: int): Magnitude {
    if significand == SIGNIFICANDS && exponent == 971 then Infinite else Finite(significand, exponent)
  }

  lemma {:induction false} OneShifted(x: nat, m: nat, n: nat, low: bool)
    requires if low then Shl(1, m) <= x else x < Shl(1, m)
    ensures if low then Shl(1, m + n) <= Shl(x, n) else Shl(x, n) < Shl(1, m + n)
  {
    ShlTwice(1, m, n);
    ShlOrder(x, Shl(1, m), n);
  }

  /** With k = 63 minus the difference of the bit lengths the quotient has 63 or 64 bits. */
  lemma {:induction false} QuotientBits(num: nat, den: nat, numBits: nat, denBits: nat, kUp: nat, kDown: nat)
    requires numBits > 0 && denBits > 0 && kUp + numBits == 63 + denBits + kDown
    requires Shl(1, numBits - 1) <= num < Shl(1, numBits) && Shl(1, denBits - 1) <= den < Shl(1, denBits)
    ensures Shl(Shl(den, kDown), 62) <= Shl(num, kUp) < Shl(Shl(den, kDown), 64)
  {
    OneShifted(num, numBits - 1, kUp, true);
    OneShifted(num, numBits, kUp, false);
    OneShifted(den, denBits - 1, kDown + 64, true);
    OneShifted(den, denBits, kDown + 62, false);
    ShlTwice(den, kDown, 62);
    ShlTwice(den, kDown, 64);
  }

  lemma {:induction false} QuotientRange(n1: nat, d1: nat, q: nat, rem: nat, bits: nat)
    requires n1 == q * d1 + rem && rem < d1
    ensures q < Shl(1, bits) <==> n1 < Shl(d1, bits)
  {
    ShlIsPower(1, bits);
    ShlIsPower(d1, bits);
    var p := Pow(2, bits);
    if q < p {
      MulGrows(q + 1, p, d1);
      MulSpreads(d1, q, 1);
    } else {
      MulGrows(p, q, d1);
    }
  }

  lemma {:induction false} BitBounds(v: nat, bits: nat)
    requires bits > 0 && Pow(2, bits - 1) <= v < Pow(2, bits)
    ensures Shl(1, bits - 1) <= v < Shl(1, bits)
  {
    ShlIsPower(1, bits - 1);
    ShlIsPower(1, bits);
  }

  method ShiftParts(numerator: BigUInt, denominator: BigUInt, k: int) returns (ghost kUp: nat, ghost kDown: nat)
    requires numerator.Valid() && denominator.Valid() && numerator != denominator
    modifies numerator, denominator
    ensures numerator.Valid() && denominator.Valid() && k == kUp - kDown && (kUp == 0 || kDown == 0)
    ensures numerator.Val() == Shl(old(numerator.Val()), kUp) && denominator.Val() == Shl(old(denominator.Val()), kDown)
  {
    kUp, kDown := if k > 0 then k else 0, if k < 0 then -k else 0;
    ShlIsPower(numerator.Val(), kUp);
    ShlIsPower(denominator.Val(), kDown);
    if k > 0 {
      numerator.ShiftLeft(k);
    } else if k < 0 {
      denominator.ShiftLeft(-k);
    }
  }

  /** The numerator and denominator of digits * 10^exp10, shifted so that the quotient has 63 or 64 bits. */
  method ScaledParts(digits: string, exp10: int)
    returns (numerator: BigUInt, denominator: BigUInt, k: int, ghost kUp: nat, ghost kDown: nat)
    requires AllDigits(digits) && Decimal(digits) > 0
    ensures fresh(numerator) && fresh(denominator) && numerator != denominator && numerator.Valid() &&
      denominator.Valid()
    ensures k == kUp - kDown
    ensures numerator.Val() == Shl(Num(Decimal(digits), exp10), kUp) && denominator.Val() == Shl(Den(exp10), kDown) > 0
    ensures Shl(denominator.Val(), 62) <= numerator.Val() < Shl(denominator.Val(), 64)
  {
    numerator, denominator := PlainParts(digits, exp10);
    var numBits := numerator.BitLength();
    var denBits := denominator.BitLength();
    ghost var num, den := numerator.Val(), denominator.Val();
    var difference := numBits as int - denBits as int;
    k := 63 - difference;
    kUp, kDown := ShiftParts(numerator, denominator, k);
    BitBounds(num, numBits);
    BitBounds(den, denBits);
    QuotientBits(num, den, numBits, denBits, kUp, kDown);
    ShlPositive(den, kDown);
  }

  method PlainParts(digits: string, exp10: int) returns (numerator: BigUInt, denominator: BigUInt)
    requires AllDigits(digits) && Decimal(digits) > 0
    ensures fresh(numerator) && fresh(denominator) && numerator != denominator && numerator.Valid() &&
      denominator.Valid()
    ensures numerator.Val() == Num(Decimal(digits), exp10) > 0 && denominator.Val() == Den(exp10) > 0
  {
    numerator := FromDecimal(digits);
    denominator := new BigUInt(1);
    TensArePowers(Decimal(digits), Up(exp10));
    TensArePowers(1, Down(exp10));
    DenPositive(exp10);
    TensPositive(Decimal(digits), Up(exp10));
    if exp10 >= 0 {
      numerator.MulPow10(exp10);
    } else {
      denominator.MulPow10(-exp10);
    }
  }

  lemma {:induction false} TensPositive(d: nat, n: nat)
    requires d > 0
    ensures TenTimes(d, n) > 0
  {
    if n > 0 {
      TensPositive(d, n - 1);
    }
  }

  /** Bits - 1 - k is the binary exponent; the unit below it is 2^(shift - k). */
  lemma {:induction false} UnitOfQuotient(num: nat, den: nat, kUp: nat, kDown: nat, q: nat, rem: nat, bits: nat,
      shift: nat, j: nat)
    requires den > 0 && bits > 0 && shift > 0 && Shl(1, bits - 1) <= q < Shl(1, bits)
    requires Shl(num, kUp) == q * Shl(den, kDown) + rem && rem < Shl(den, kDown)
    requires kUp + j == SCALE + kDown + shift && 1 <= j <= 2046 &&
      (if j > 1 then shift + 53 == bits else shift + 53 >= bits)
    ensures Shl(1, shift) > 0
    ensures InBinade(num * Pow(2, SCALE), den, j) && den * Pow(2, j) > 0
    ensures RoundedBits(q, rem != 0, Shl(1, shift)) == Nearest(num * Pow(2, SCALE), den * Pow(2, j))
  {
    QuotientRange(Shl(num, kUp), Shl(den, kDown), q, rem, bits);
    QuotientRange(Shl(num, kUp), Shl(den, kDown), q, rem, bits - 1);
    BitsRoundInUnit(num, den, kUp, kDown, q, rem, shift, j);
    QuotientBinade(num, den, kUp, kDown, bits, j);
  }

  lemma {:induction false} LdexpInUnits(num: nat, den: nat, kept: nat, e: int)
    requires den > 0 && e + SCALE >= 1 && InBinade(num * Pow(2, SCALE), den, e + SCALE) && den * Pow(2, e + SCALE) > 0
    requires kept == Nearest(num * Pow(2, SCALE), den * Pow(2, e + SCALE))
    ensures InUnits(num, den, Ldexp(kept, e))
  {
    OverflowInBinade(num * Pow(2, SCALE), den, e + SCALE);
  }

  method QuotientLength(q: nat) returns (bits: nat)
    requires Shl(1, 62) <= q < Shl(1, 64)
    ensures bits in {63, 64} && Shl(1, bits - 1) <= q < Shl(1, bits)
  {
    ShlPositive(1, 62);
    var zeros := CountLeadingZeros64(q);
    bits := 64 - zeros;
    if bits < 62 {
      ShlGrows(1, bits, 62);
    }
  }

  /** The unit of the result follows from the bits of the quotient; subnormals keep fewer bits. */
  method RoundQuotient(q: nat, sticky: bool, k: int, ghost num: nat, ghost den: nat, ghost kUp: nat, ghost kDown: nat,
      ghost rem: nat)
    returns (r: Magnitude)
    requires den > 0 && k == kUp - kDown && Shl(1, 62) <= q < Shl(1, 64) && sticky == (rem != 0)
    requires Shl(num, kUp) == q * Shl(den, kDown) + rem && rem < Shl(den, kDown)
    ensures InUnits(num, den, r)
  {
    var bits := QuotientLength(q);
    var exp2 := bits - 1 - k;
    if exp2 > 1023 {
      QuotientRange(Shl(num, kUp), Shl(den, kDown), q, rem, bits - 1);
      QuotientOverflows(num, den, kUp, kDown, bits);
      return Infinite;
    }
    var keep := if exp2 >= -1022 then 53 else exp2 + 1075;
    var shift: nat := bits - keep;
    var kept := RoundBits(q, sticky, shift);
    UnitOfQuotient(num, den, kUp, kDown, q, rem, bits, shift, shift - k + SCALE);
    LdexpInUnits(num, den, kept, shift - k);
    r := Ldexp(kept, shift - k);
  }

  method RoundDecimal(digits: string, exp10: int) returns (r: Magnitude)
    requires AllDigits(digits) && Decimal(digits) > 0
    ensures Den(exp10) > 0 && InUnits(Num(Decimal(digits), exp10), Den(exp10), r)
  {
    DenPositive(exp10);
    var numerator, denominator, k, kUp, kDown := ScaledParts(digits, exp10);
    ghost var n1, d1 := numerator.Val(), denominator.Val();
    var q, sticky, rem := Divide(numerator, denominator);
    QuotientRange(n1, d1, q, rem, 64);
    QuotientRange(n1, d1, q, rem, 62);
    ShlPositive(1, 62);
    r := RoundQuotient(q, sticky, k, Num(Decimal(digits), exp10), Den(exp10), kUp, kDown, rem);
  }

  // ---- Leading and trailing zeros, and the cut after 800 digits ----

  ghost predicate AllZeros(s: string) {
    forall i :: 0 <= i < |s| ==> s[i] == '0'
  }

  lemma {:induction false} ZerosSpellZero(s: string)
    requires AllZeros(s)
    ensures Decimal(s) == 0
  {
    if s != [] {
      ZerosSpellZero(s[..|s| - 1]);
    }
  }

  method SkipZeros(digits: string) returns (first: nat)
    ensures first <= |digits| && AllZeros(digits[..first]) && (first < |digits| ==> digits[first] != '0')
    ensures Decimal(digits[first..]) == Decimal(digits)
  {
    first := 0;
    while first < |digits| && digits[first] == '0'
      invariant first <= |digits| && AllZeros(digits[..first])
    {
      first := first + 1;
    }
    assert digits == digits[..first] + digits[first..];
    DecimalJoined(digits[..first], digits[first..]);
    ZerosSpellZero(digits[..first]);
  }

  method DropZeros(digits: string) returns (last: nat)
    requires digits != [] && digits[0] != '0'
    ensures 0 < last <= |digits| && digits[last - 1] != '0'
    ensures Decimal(digits) == TenTimes(Decimal(digits[..last]), |digits| - last)
  {
    last := |digits|;
    while digits[last - 1] == '0'
      invariant 0 < last <= |digits| && AllZeros(digits[last..])
      decreases last
    {
      last := last - 1;
    }
    assert digits == digits[..last] + digits[last..];
    DecimalJoined(digits[..last], digits[last..]);
    ZerosSpellZero(digits[last..]);
    TensArePowers(Decimal(digits[..last]), |digits| - last);
  }

  lemma {:induction false} LeadingDigit(s: string)
    requires AllDigits(s) && s != [] && s[0] != '0'
    ensures Pow(10, |s| - 1) <= Decimal(s)
  {
    if |s| > 1 {
      LeadingDigit(s[..|s| - 1]);
    }
  }

  lemma {:induction false} LastDigit(s: string)
    requires AllDigits(s) && s != [] && s[|s| - 1] != '0'
    ensures Decimal(s) > 0
  {
  }

  lemma {:induction false} CutBetween(d: nat, cut: nat, rest: nat, p: nat, f: nat, z: nat)
    requires d == cut * p + rest && 0 < rest < p
    ensures cut * (p * f) <= d * f && (f > 0 ==> cut * (p * f) < d * f < (cut + 1) * (p * f))
  {
    MulAssociates(cut, p, f);
    MulSpreads(p, cut, 1);
    if f > 0 {
      MulLess(cut * p, d, f);
      MulLess(d, (cut + 1) * p, f);
      MulAssociates(cut + 1, p, f);
    }
  }

  /** The full number lies strictly between the cut and the next 800-digit number. */
  lemma {:induction false} FullInside(s: string, exp10: int, f: nat)
    requires AllDigits(s) && |s| > KEPT_DIGITS && s[|s| - 1] != '0' && exp10 + |s| + f == KEPT_DIGITS
    ensures Inside(Num(Decimal(s), exp10), Den(exp10), Decimal(s[..KEPT_DIGITS]), f)
  {
    var z := |s| - KEPT_DIGITS;
    var tail := s[KEPT_DIGITS..];
    assert s == s[..KEPT_DIGITS] + tail && tail[|tail| - 1] == s[|s| - 1];
    DecimalJoined(s[..KEPT_DIGITS], tail);
    LastDigit(tail);
    DecimalBelow(tail);
    TensArePowers(1, z + f);
    PowSum(10, z, f, z + f);
    PowPositive(10, f);
    CutBetween(Decimal(s), Decimal(s[..KEPT_DIGITS]), Decimal(tail), Pow(10, z), Pow(10, f), z);
  }

  /** So does the cut with a digit 1 behind it. */
  lemma {:induction false} StickyInside(cut: nat, f: nat)
    requires f > 0
    ensures Inside(10 * cut + 1, Den(-(f + 1 as int)), cut, f)
  {
    TensArePowers(1, f + 1);
    PowPositive(10, f);
    CutBetween(10 * cut + 1, cut, 1, 10, Pow(10, f), 1);
  }

  /** The double nearest to digits * 10^exp10, for any digits and exponent. */
  method DecimalToDouble(negative: bool, digits: string, exp10: int) returns (r: Double)
    requires AllDigits(digits)
    ensures r.negative == negative
    ensures Correct(Num(Decimal(digits), exp10), Den(exp10), r.magnitude)
  {
    DenPositive(exp10);
    var first := SkipZeros(digits);
    if first == |digits| {
      ZerosSpellZero(digits[..first]);
      assert digits[..first] == digits;
      ZeroRounds(exp10);
      return Double(negative, Finite(0, -1074));
    }
    var head := digits[first..];
    var last := DropZeros(head);
    var kept, z: nat := head[..last], |head| - last;
    var magnitude := NearestTo(kept, exp10 + z);
    DenPositive(exp10 + z);
    var s := ZerosMove(Decimal(kept), z, exp10);
    InUnitsScaled(Num(Decimal(kept), exp10 + z), Den(exp10 + z), s, magnitude);
    InUnitsIsCorrect(Num(Decimal(digits), exp10), Den(exp10), magnitude);
    r := Double(negative, magnitude);
  }

  lemma {:induction false} ZeroRounds(exp10: int)
    ensures Correct(Num(0, exp10), Den(exp10), Finite(0, -1074))
  {
    TensArePowers(0, Up(exp10));
    DenPositive(exp10);
    BelowHalfUnit(Num(0, exp10), Den(exp10));
    InUnitsIsCorrect(Num(0, exp10), Den(exp10), Finite(0, -1074));
  }

  /** Digits without leading or trailing zeros. */
  method NearestTo(digits: string, exp10: int) returns (r: Magnitude)
    requires AllDigits(digits) && digits != [] && digits[0] != '0' && digits[|digits| - 1] != '0'
    ensures Den(exp10) > 0 && InUnits(Num(Decimal(digits), exp10), Den(exp10), r)
  {
    DenPositive(exp10);
    LeadingDigit(digits);
    DecimalBelow(digits);
    PowPositive(10, |digits| - 1);
    var used, exp := digits, exp10;
    if |digits| > KEPT_DIGITS {
      exp := exp10 + |digits| - KEPT_DIGITS - 1;
      used := digits[..KEPT_DIGITS] + "1";
    }
    var size := |used| + exp;
    if size > 310 {
      HugeOverflows(Decimal(digits), |digits|, exp10);
      return Infinite;
    }
    if size <= -324 {
      TinyNumber(Decimal(digits), |digits|, exp10);
      BelowHalfUnit(Num(Decimal(digits), exp10), Den(exp10));
      return Finite(0, -1074);
    }
    LastDigit(used);
    r := RoundDecimal(used, exp);
    if |digits| > KEPT_DIGITS {
      CutRoundsAlike(digits, exp10, r);
    }
  }

  /** The sticky digit stands for any non-zero tail. */
  lemma {:induction false} CutRoundsAlike(digits: string, exp10: int, r: Magnitude)
    requires AllDigits(digits) && |digits| > KEPT_DIGITS && digits[0] != '0' && digits[|digits| - 1] != '0'
    requires exp10 + |digits| <= 310
    requires var exp := exp10 + |digits| - KEPT_DIGITS - 1;
      Den(exp) > 0 && InUnits(Num(Decimal(digits[..KEPT_DIGITS] + "1"), exp), Den(exp), r)
    ensures Den(exp10) > 0 && InUnits(Num(Decimal(digits), exp10), Den(exp10), r)
  {
    var exp := exp10 + |digits| - KEPT_DIGITS - 1;
    var f: nat := -(exp + 1);
    var cut := Decimal(digits[..KEPT_DIGITS]);
    DenPositive(exp10);
    assert (digits[..KEPT_DIGITS] + "1")[..KEPT_DIGITS] == digits[..KEPT_DIGITS];
    assert Decimal(digits[..KEPT_DIGITS] + "1") == 10 * cut + 1;
    LeadingDigit(digits[..KEPT_DIGITS]);
    FullInside(digits, exp10, f);
    StickyInside(cut, f);
    InsideIsApart(Num(10 * cut + 1, exp), Den(exp), Num(Decimal(digits), exp10), Den(exp10), cut, f);
    InUnitsApart(Num(10 * cut + 1, exp), Den(exp), Num(Decimal(digits), exp10), Den(exp10), r);
  }
}
