/**
 * Rounding a double to seven decimals, once with 128-bit words for the ratios and once with the bits of a
 * big integer for the results file. Both give the same integer, and rounding the result again gives it once more.
 */
module Rounding {
  import opened Options
  import opened Powers
  import opened DecimalText
  import opened BinaryBig
  import opened NearestDouble
  import opened Wide
  import FixedFormat
  import DecimalConversion

  const SEVEN: nat := 10000000

  /** The three fields of a double. */
  datatype Ieee = Ieee(negative: bool, biased: nat, fraction: nat) {
    predicate Valid() {
      biased < 2048 && fraction < 0x10_0000_0000_0000
    }

    predicate Finite() {
      biased != 2047
    }

    function Mantissa(): nat {
      if biased == 0 then fraction else 0x10_0000_0000_0000 + fraction
    }

    /** The magnitude is Mantissa * 2^Exp2. */
    function Exp2(): int {
      if biased == 0 then -1074 else biased - 1075
    }
  }

  /** mantissa * 10^7 / 2^shift to the nearest integer, ties to even. */
  ghost function Sevenths(mantissa: nat, shift: nat): nat {
    PowPositive(2, shift);
    Nearest(mantissa * SEVEN, Pow(2, shift))
  }

  // ---- With 128-bit words ----

  lemma {:induction false} NumeratorFits(mantissa: nat)
    requires mantissa < SIGNIFICANDS
    ensures mantissa * SEVEN < WORD * 0x2000
  {
    MulGrows(mantissa, SIGNIFICANDS, SEVEN);
  }

  lemma {:induction false} FarBelowHalf(n: nat, shift: nat)
    requires n < WORD * 0x2000 && shift >= 128
    ensures Pow(2, shift) > 0 && Nearest(n, Pow(2, shift)) == 0
  {
    TwoToThe64();
    assert Pow(2, 13) == 0x2000 by {
      assert Pow(2, 5) == 32 && Pow(2, 8) == 256;
      PowAdd(2, 5, 8);
    }
    PowSum(2, 64, 13, 77);
    PowGrows(2, 77, shift - 1);
    assert Pow(2, shift) == 2 * Pow(2, shift - 1);
    Quotient(n, Pow(2, shift), 0);
  }

  /** Round a quotient by its remainder against the half, in 128-bit words. */
  lemma {:induction false} RemainderDecides(n: nat, h: nat, q: nat, rem: nat)
    requires h > 0 && q == n / (2 * h) && rem == n - q * (2 * h)
    ensures Nearest(n, 2 * h) == if rem > h || (rem == h && q % 2 == 1) then q + 1 else q
  {
  }

  function Increment(v: U128): (r: U128)
    requires v.Valid() && v.Val() + 1 < WORD * WORD
    ensures r.Valid() && r.Val() == v.Val() + 1
  {
    var lo := (v.lo + 1) % WORD;
    U128(if lo == 0 then v.hi + 1 else v.hi, lo)
  }

  lemma {:induction false} OddIsLowBit(v: U128)
    ensures v.Val() % 2 == v.lo % 2
  {
  }

  lemma {:induction false} HalfFits(shift: nat)
    requires 0 < shift < 128
    ensures Pow(2, shift) == 2 * Pow(2, shift - 1) && 0 < Pow(2, shift - 1) < WORD * WORD
  {
    PowPositive(2, shift - 1);
    PowGrows(2, shift - 1, 127);
    TwoToThe64();
    PowSum(2, 64, 63, 127);
    assert Pow(2, 64) == 2 * Pow(2, 63);
  }

  lemma {:induction false} QuotientFits(n: nat, p: nat)
    requires p > 0 && n < WORD * WORD
    ensures n / p * p <= n < WORD * WORD && (n / p) * p < WORD * WORD && n / p <= n
  {
    var q, r := n / p, n % p;
    assert n == p * q + r;
    NotMore(n, p);
  }

  method RoundNear(numerator: U128, shift: nat) returns (quotient: U128)
    requires numerator.Valid() && numerator.Val() < WORD * 0x2000 && 0 < shift < 128
    ensures Pow(2, shift) > 0 && quotient.Valid() && quotient.Val() == Nearest(numerator.Val(), Pow(2, shift))
  {
    HalfFits(shift);
    QuotientFits(numerator.Val(), Pow(2, shift));
    quotient := ShiftRight(numerator, shift);
    var back := ShiftLeft(quotient, shift);
    var remainder := Subtract(numerator, back);
    var one := U128(0, 1);
    assert one.Val() == 1;
    var half := ShiftLeft(one, shift - 1);
    var order := Wide.Compare(remainder, half);
    OddIsLowBit(quotient);
    RemainderDecides(numerator.Val(), half.Val(), quotient.Val(), remainder.Val());
    if order > 0 || (order == 0 && quotient.lo % 2 != 0) {
      quotient := Increment(quotient);
    }
  }

  datatype Outcome = Unchanged | Rounded(sevenths: nat, double: DecimalConversion.Double)

  /** The text "<k>e-7" as a double. */
  method ParseSevenths(negative: bool, k: nat) returns (r: DecimalConversion.Double)
    ensures r.negative == negative && Correct(k, SEVEN, r.magnitude)
  {
    r := DecimalConversion.DecimalToDouble(negative, TextOf(k), -7);
    SeventhsAsText(k);
  }

  lemma {:induction false} SeventhsAsText(k: nat)
    ensures DecimalConversion.Num(k, -7) == k && DecimalConversion.Den(-7) == SEVEN
  {
    DecimalConversion.TensArePowers(1, 7);
    SmallPower(7);
  }

  /** The division of two doubles: section 5.4.1 of IEEE 754-2019 makes it the correctly rounded quotient. */
  method DivideBySeven(negative: bool, k: nat) returns (r: DecimalConversion.Double)
    requires k < SIGNIFICANDS
    ensures r.negative == negative && Correct(k, SEVEN, r.magnitude)
  {
    r := ParseSevenths(negative, k);
  }

  /** Zero, infinities, NaN and integers stay; everything else becomes the double nearest to an integer number of
      10^-7, itself the nearest to the value. */
  method RoundDecimal7(v: Ieee) returns (r: Outcome)
    requires v.Valid()
    ensures r.Unchanged? <==> !v.Finite() || v.Mantissa() == 0 || v.Exp2() >= 0
    ensures r.Rounded? ==> r.sevenths == Sevenths(v.Mantissa(), -v.Exp2())
    ensures r.Rounded? ==> r.double.negative == v.negative && Correct(r.sevenths, SEVEN, r.double.magnitude)
  {
    if !v.Finite() || (v.biased == 0 && v.fraction == 0) {
      return Unchanged;
    }
    if v.Exp2() >= 0 {
      return Unchanged;
    }
    var shift: nat := -v.Exp2();
    var numerator := Mul64(v.Mantissa(), SEVEN);
    NumeratorFits(v.Mantissa());
    var quotient := U128(0, 0);
    if shift < 128 {
      quotient := RoundNear(numerator, shift);
    } else {
      FarBelowHalf(numerator.Val(), shift);
    }
    var k := quotient.hi * WORD + quotient.lo;
    var double: DecimalConversion.Double;
    if quotient.hi == 0 && quotient.lo < SIGNIFICANDS {
      double := DivideBySeven(v.negative, k);
    } else {
      double := ParseSevenths(v.negative, k);
    }
    r := Rounded(k, double);
  }

  // ---- With the bits of a big integer ----

  /** The bit below the point, whether anything is below it, and the parity of the rest decide the rounding. */
  lemma {:induction false} BitsDecide(n: nat, h: nat)
    requires h > 0
    ensures var q := n / (2 * h);
      Nearest(n, 2 * h) == if (n / h) % 2 == 1 && (n % h != 0 || q % 2 == 1) then q + 1 else q
  {
    var k, m := n / h, n % h;
    assert n == h * k + m;
    var q, b := k / 2, k % 2;
    assert k == 2 * q + b;
    MulSpreads(h, 2 * q, b);
    MulAssociates(2, h, q);
    MulAssociates(h, 2, q);
    assert n == (2 * h) * q + (h * b + m);
    assert b == 0 ==> h * b == 0;
    assert b == 1 ==> h * b == h;
    MulSpreads(2 * h, q, 1);
    Quotient(n, 2 * h, q);
  }

  function Zeros(n: nat): (z: string)
    ensures |z| == n && AllDigits(z)
  {
    seq(n, _ => '0')
  }

  /** The digits of k with a point before the last `places`, at least one digit before it. */
  function FixedText(k: nat, places: nat): string {
    var d := PaddedText(k, places);
    d[..|d| - places] + "." + d[|d| - places..]
  }

  function PaddedText(k: nat, places: nat): (d: string)
    ensures |d| > places
  {
    var t := TextOf(k);
    if |t| < places + 1 then Zeros(places + 1 - |t|) + t else t
  }

  lemma {:induction false} ZerosAddNothing(n: nat)
    ensures Decimal(Zeros(n)) == 0
  {
    if n > 0 {
      ZerosAddNothing(n - 1);
      assert Zeros(n)[..n - 1] == Zeros(n - 1);
    }
  }

  lemma {:induction false} ZerosInFront(n: nat, t: string)
    requires AllDigits(t)
    ensures Decimal(Zeros(n) + t) == Decimal(t) && AllDigits(Zeros(n) + t)
  {
    DecimalJoined(Zeros(n), t);
    ZerosAddNothing(n);
  }

  lemma {:induction false} PaddedMeaning(k: nat, places: nat)
    ensures Decimal(PaddedText(k, places)) == k && AllDigits(PaddedText(k, places))
    ensures |PaddedText(k, places)| > places + 1 ==> PaddedText(k, places)[0] != '0'
  {
    var t := TextOf(k);
    if |t| < places + 1 {
      ZerosInFront(places + 1 - |t|, t);
    }
  }

  lemma {:induction false} PointSplits(d: string, n: nat)
    requires n <= |d|
    ensures var t := d[..n] + "." + d[n..];
      |t| == |d| + 1 && t[n] == '.' && t[..n] + t[n + 1..] == d && (n > 0 ==> t[0] == d[0])
  {
    var t := d[..n] + "." + d[n..];
    assert t[..n] == d[..n] && t[n + 1..] == d[n..];
  }

  /** Exactly `places` digits stand behind the point, no zero too many before it, and the digits spell k. */
  ghost predicate Spells(t: string, places: nat, k: nat) {
    var point := |t| - places - 1;
    && point >= 1 && t[point] == '.'
    && AllDigits(t[..point] + t[point + 1..]) && Decimal(t[..point] + t[point + 1..]) == k
    && (point > 1 ==> t[0] != '0')
  }

  lemma {:induction false} PointMeaning(d: string, places: nat, k: nat)
    requires |d| > places && AllDigits(d) && Decimal(d) == k && (|d| > places + 1 ==> d[0] != '0')
    ensures Spells(d[..|d| - places] + "." + d[|d| - places..], places, k)
  {
    PointSplits(d, |d| - places);
  }

  lemma {:induction false} FixedTextMeaning(k: nat, places: nat)
    ensures Spells(FixedText(k, places), places, k)
  {
    PaddedMeaning(k, places);
    PointMeaning(PaddedText(k, places), places, k);
  }

  function SmallScale(decimals: nat): nat
    requires 1 <= decimals <= 9
  {
    SmallPow10(decimals)
  }

  /** The rounded scaled significand: value * 10^decimals to the nearest integer. */
  ghost function Scaled(v: Ieee, decimals: nat): nat {
    var n := v.Mantissa() * Pow(10, decimals);
    PowPositive(2, if v.Exp2() >= 0 then 0 else -v.Exp2());
    if v.Exp2() >= 0 then n * Pow(2, v.Exp2()) else Nearest(n, Pow(2, -v.Exp2()))
  }

  method RoundBits(n: BigUInt, shift: nat)
    requires n.Valid() && shift > 0
    modifies n
    ensures n.Valid() && Pow(2, shift) > 0 && n.Val() == Nearest(old(n.Val()), Pow(2, shift))
  {
    ghost var was := n.Val();
    assert Pow(2, shift) == 2 * Pow(2, shift - 1);
    var halfBit := FixedFormat.Bit(n, shift - 1);
    var below := FixedFormat.AnyBelow(n, shift - 1);
    FixedFormat.ShiftRight(n, shift);
    BitsDecide(was, Pow(2, shift - 1));
    var odd := FixedFormat.Bit(n, 0);
    assert Pow(2, 0) == 1;
    if halfBit && (below || odd) {
      n.MulAdd(1, 1);
    }
  }

  method ScaledInteger(v: Ieee, decimals: nat) returns (n: BigUInt)
    requires v.Valid() && 1 <= decimals <= 9
    ensures fresh(n) && n.Valid() && n.Val() == Scaled(v, decimals)
  {
    n := new BigUInt(v.Mantissa());
    SmallPower(decimals);
    n.MulAdd(SmallScale(decimals), 0);
    if v.Exp2() >= 0 {
      n.ShiftLeft(v.Exp2());
    } else {
      RoundBits(n, -v.Exp2());
    }
  }

  method InsertPoint(digits: string, places: nat, ghost k: nat) returns (text: string)
    requires Canonical(digits) && Decimal(digits) == k
    ensures text == FixedText(k, places)
  {
    CanonicalUnique(digits, TextOf(k));
    var d := digits;
    if |d| < places + 1 {
      d := Zeros(places + 1 - |d|) + d;
    }
    assert d == PaddedText(k, places);
    text := d[..|d| - places] + "." + d[|d| - places..];
  }

  /** The exact decimal text with the given number of places; the sign stays even on a zero. */
  method FormatFixedExact(v: Ieee, decimals: int) returns (text: Option<string>)
    requires v.Valid()
    ensures text.None? <==> !(1 <= decimals <= 9)
    ensures text.Some? && !v.Finite() ==>
      text.value == if v.fraction != 0 then "nan" else if v.negative then "-inf" else "inf"
    ensures text.Some? && v.Finite() ==>
      text.value == (if v.negative then "-" else "") + FixedText(Scaled(v, decimals), decimals)
  {
    if decimals < 1 || decimals > 9 {
      return None;
    }
    if !v.Finite() {
      return Some(if v.fraction != 0 then "nan" else if v.negative then "-inf" else "inf");
    }
    var n := ScaledInteger(v, decimals);
    var digits := FixedFormat.ToDecimal(n);
    var magnitude := InsertPoint(digits, decimals, Scaled(v, decimals));
    text := Some((if v.negative then "-" else "") + magnitude);
  }

  // ---- Both ways agree, and a second rounding changes nothing ----

  /** The seven-decimal text of a non-integer double spells the integer the 128-bit rounding computes. */
  lemma {:induction false} BothRoundingsAgree(v: Ieee)
    requires v.Valid() && v.Finite() && v.Exp2() < 0
    ensures Scaled(v, 7) == Sevenths(v.Mantissa(), -v.Exp2())
  {
    SmallPower(7);
  }

  lemma {:induction false} WholeNumberScaled(v: Ieee)
    requires v.Exp2() >= 0
    ensures Scaled(v, 7) == v.Mantissa() * SEVEN * Pow(2, v.Exp2())
  {
    SmallPower(7);
  }

  /** The number the ratio is rounded to is the number the results file shows. */
  method RoundAndFormat(v: Ieee) returns (r: Outcome, text: string)
    requires v.Valid()
    ensures r.Rounded? ==> text == (if v.negative then "-" else "") + FixedText(r.sevenths, 7)
    ensures v.Finite() && v.Exp2() >= 0 ==>
      r.Unchanged? && text == (if v.negative then "-" else "") + FixedText(v.Mantissa() * SEVEN * Pow(2, v.Exp2()), 7)
  {
    r := RoundDecimal7(v);
    var formatted := FormatFixedExact(v, 7);
    text := formatted.value;
    if r.Rounded? {
      BothRoundingsAgree(v);
    }
    if v.Finite() && v.Exp2() >= 0 {
      WholeNumberScaled(v);
    }
  }

  /** Anything closer to q / 10^7 than half a unit rounds to q. */
  lemma {:induction false} WithinHalfRoundsBack(a: nat, b: nat, q: nat)
    requires b > 0 && 2 * Dist(a, b, q) < b
    ensures Nearest(a, b) == q
  {
    if b * q <= a {
      MulSpreads(b, q, 1);
      Quotient(a, b, q);
    } else {
      MulSpreads(b, q - 1, 1);
      assert b * (q - 1) == b * q - b;
      Quotient(a, b, q - 1);
    }
  }

  lemma {:induction false} NearestWithinHalf(a: nat, c: nat)
    requires c > 0
    ensures 2 * Dist(a, c, Nearest(a, c)) <= c
  {
    var q, r := a / c, a % c;
    assert a == c * q + r;
    MulSpreads(c, q, 1);
  }

  /** Let q be what a double y rounds to. The double nearest to q / 10^7 is at least as close to it as y, so it
      rounds to q again; on a tie q is even. */
  lemma {:induction false} RoundedComesBack(q: nat, x: nat, y: nat, s: nat)
    requires s > 0 && q == Nearest(SEVEN * y, s) && Dist(q * s, SEVEN, x) <= Dist(q * s, SEVEN, y)
    ensures Nearest(SEVEN * x, s) == q
  {
    TurnAround(q, x, s);
    TurnAround(q, y, s);
    NearestWithinHalf(SEVEN * y, s);
    if 2 * Dist(SEVEN * x, s, q) < s {
      WithinHalfRoundsBack(SEVEN * x, s, q);
    } else {
      TieRoundsToEven(SEVEN * y, s, q);
      TieIsEven(SEVEN * x, s, q);
    }
  }

  /** Halfway between two integers the nearest one is the even one. */
  lemma {:induction false} TieRoundsToEven(a: nat, s: nat, q: nat)
    requires s > 0 && q == Nearest(a, s) && 2 * Dist(a, s, q) == s
    ensures q % 2 == 0
  {
    var k, m := a / s, a % s;
    assert a == s * k + m;
    MulSpreads(s, k, 1);
  }

  lemma {:induction false} TieIsEven(a: nat, s: nat, q: nat)
    requires s > 0 && q % 2 == 0 && 2 * Dist(a, s, q) == s
    ensures Nearest(a, s) == q
  {
    if s * q <= a {
      MulSpreads(s, q, 1);
      Quotient(a, s, q);
    } else {
      MulSpreads(s, q - 1, 1);
      assert s * (q - 1) == s * q - s;
      Quotient(a, s, q - 1);
    }
  }

  lemma {:induction false} TurnAround(q: nat, x: nat, s: nat)
    ensures Dist(q * s, SEVEN, x) == Dist(SEVEN * x, s, q)
  {
    assert s * q == q * s;
  }

  /** A non-integer double on the scale 2^1075. */
  lemma {:induction false} OnScale(v: Ieee)
    requires v.Valid() && v.Finite() && v.Exp2() < 0
    ensures Pow(2, SCALE) > 0 && IsDouble(Units(v.Mantissa(), v.Exp2() + SCALE))
    ensures Sevenths(v.Mantissa(), -v.Exp2()) == Nearest(SEVEN * Units(v.Mantissa(), v.Exp2() + SCALE), Pow(2, SCALE))
  {
    var shift, up: nat := -v.Exp2(), v.Exp2() + SCALE;
    PowPositive(2, shift);
    PowPositive(2, up);
    PowSum(2, shift, up, SCALE);
    NearestScaled(v.Mantissa() * SEVEN, Pow(2, shift), Pow(2, up));
    MulAssociates(SEVEN, v.Mantissa(), Pow(2, up));
  }

  /** The double every non-integer double is rounded to has the same number of ten-millionths, so rounding it again
      computes the same integer and from it the same double. */
  lemma {:induction false} RoundingTwice(v: Ieee, x: nat)
    requires v.Valid() && v.Finite() && v.Exp2() < 0
    requires RoundsTo(Sevenths(v.Mantissa(), -v.Exp2()) * Pow(2, SCALE), SEVEN, x)
    ensures Pow(2, SCALE) > 0 && Nearest(SEVEN * x, Pow(2, SCALE)) == Sevenths(v.Mantissa(), -v.Exp2())
  {
    OnScale(v);
    RoundedComesBack(Sevenths(v.Mantissa(), -v.Exp2()), x, Units(v.Mantissa(), v.Exp2() + SCALE), Pow(2, SCALE));
  }

  /** The same of two calls: when w is the double the first call returned, the second one either leaves it as an
      integer or computes the same number of ten-millionths. */
  lemma {:induction false} SecondCallAgrees(v: Ieee, w: Ieee, r: Magnitude)
    requires v.Valid() && v.Finite() && v.Exp2() < 0 && w.Valid() && w.Finite() && w.Exp2() < 0
    requires Correct(Sevenths(v.Mantissa(), -v.Exp2()), SEVEN, r) && r.Finite?
    requires Units(w.Mantissa(), w.Exp2() + SCALE) == Units(r.significand, r.exponent + SCALE)
    ensures Sevenths(w.Mantissa(), -w.Exp2()) == Sevenths(v.Mantissa(), -v.Exp2())
  {
    RoundingTwice(v, Units(w.Mantissa(), w.Exp2() + SCALE));
    OnScale(w);
  }

  ghost predicate RoundingOfADouble(q: nat)
    requires Pow(2, SCALE) > 0
  {
    exists y: nat :: IsDouble(y) && Nearest(SEVEN * y, Pow(2, SCALE)) == q
  }

  /** The surviving texts are the results of the rounding. */
  lemma {:induction false} SurvivorsAreRoundings(q: nat, x: nat)
    requires RoundsTo(q * Pow(2, SCALE), SEVEN, x)
    ensures Pow(2, SCALE) > 0
    ensures Nearest(SEVEN * x, Pow(2, SCALE)) == q <==> RoundingOfADouble(q)
  {
    PowPositive(2, SCALE);
    if y: nat :| IsDouble(y) && Nearest(SEVEN * y, Pow(2, SCALE)) == q {
      RoundedComesBack(q, x, y, Pow(2, SCALE));
    }
  }

  // ---- Which texts with seven decimals survive ----

  /** The text of q ten-millionths is read as r, and r is rounded to q again. */
  ghost predicate Survives(q: nat, r: Magnitude) {
    PowPositive(2, SCALE);
    r.Finite? && r.exponent + SCALE >= 0 &&
      Nearest(SEVEN * Units(r.significand, r.exponent + SCALE), Pow(2, SCALE)) == q
  }

  function Up(k: int): (p: nat)
    ensures p > 0
  {
    PowPositive(2, if k >= 0 then k else 0);
    Pow(2, if k >= 0 then k else 0)
  }

  function Down(k: int): (p: nat)
    ensures p > 0
  {
    Up(-k)
  }

  /** The doubles around q / 10^7 are the multiples of 2^-k: it is between 2^52 and 2^53 of them. */
  predicate HasUnit(q: nat, k: int) {
    -971 <= k <= 1074 && SIGNIFICANDS * (SEVEN * Down(k)) <= 2 * (q * Up(k)) &&
      q * Up(k) < SIGNIFICANDS * (SEVEN * Down(k))
  }

  /** The distance of a from the next multiple of c. */
  function Off(a: nat, c: nat): nat
    requires c > 0
  {
    if a % c <= c - a % c then a % c else c - a % c
  }

  /** A multiple of 2^-k lies within half a ten-millionth of q ten-millionths, on a tie for an even q. */
  predicate NearUnit(q: nat, k: int) {
    var d := Off(q * Up(k), SEVEN * Down(k));
    2 * d < Up(k) || (2 * d == Up(k) && q % 2 == 0)
  }

  lemma {:induction false} NearestIsOff(a: nat, c: nat)
    requires c > 0
    ensures Dist(a, c, Nearest(a, c)) == Off(a, c)
  {
    var q, r := a / c, a % c;
    assert a == c * q + r;
    MulSpreads(c, q, 1);
  }

  lemma {:induction false} DistScaled(a: nat, c: nat, x: nat, w: nat)
    requires w > 0
    ensures Dist(a * w, c * w, x) == Dist(a, c, x) * w
  {
    MulAssociates(c, w, x);
    MulAssociates(c, x, w);
    MulAssociates(w, c, x);
    assert (c * w) * x == (c * x) * w;
    if c * x <= a {
      MulGrows(c * x, a, w);
      MulSpreads(w, c * x, a - c * x);
    } else {
      MulLess(a, c * x, w);
      MulSpreads(w, a, c * x - a);
    }
  }

  /** Rounding gives q exactly within half a unit, on a tie for an even q. */
  lemma {:induction false} RoundsToWithinHalf(a: nat, s: nat, q: nat)
    requires s > 0
    ensures Nearest(a, s) == q <==> 2 * Dist(a, s, q) < s || (2 * Dist(a, s, q) == s && q % 2 == 0)
  {
    if 2 * Dist(a, s, q) < s {
      WithinHalfRoundsBack(a, s, q);
    } else if 2 * Dist(a, s, q) == s && q % 2 == 0 {
      TieIsEven(a, s, q);
    } else if Nearest(a, s) == q {
      NearestWithinHalf(a, s);
      TieRoundsToEven(a, s, q);
      assert false;
    }
  }

  /** 2^k and the unit 2^-k on the scale 2^1075. */
  lemma {:induction false} UnitOnScale(k: int) returns (w: nat)
    requires -971 <= k <= 1074
    ensures w > 0 && Pow(2, SCALE) == Up(k) * w && Pow(2, SCALE - k) == Down(k) * w
  {
    if k >= 0 {
      w := Pow(2, SCALE - k);
      PowPositive(2, SCALE - k);
      PowSum(2, k, SCALE - k, SCALE);
    } else {
      w := Pow(2, SCALE);
      PowPositive(2, SCALE);
      PowSum(2, -k, SCALE, SCALE - k);
    }
  }

  lemma {:induction false} UnitInBinade(q: nat, k: int, w: nat)
    requires HasUnit(q, k) && w > 0 && Pow(2, SCALE) == Up(k) * w && Pow(2, SCALE - k) == Down(k) * w
    ensures q * Pow(2, SCALE) == (q * Up(k)) * w && SEVEN * Pow(2, SCALE - k) == (SEVEN * Down(k)) * w
    ensures InBinade(q * Pow(2, SCALE), SEVEN, SCALE - k)
  {
    var n, c := q * Up(k), SEVEN * Down(k);
    MulAssociates(q, Up(k), w);
    MulAssociates(SEVEN, Down(k), w);
    MulAssociates(SIGNIFICANDS, c, w);
    MulLess(n, SIGNIFICANDS * c, w);
    MulGrows(SIGNIFICANDS * c, 2 * n, w);
    MulAssociates(2, n, w);
  }

  /** How far the double read from q ten-millionths lies from them. */
  lemma {:induction false} ReadDistance(q: nat, k: int, w: nat, x: nat)
    requires HasUnit(q, k) && w > 0 && Pow(2, SCALE) == Up(k) * w && Pow(2, SCALE - k) == Down(k) * w
    requires RoundsTo(q * Pow(2, SCALE), SEVEN, x) && !Overflows(q * Pow(2, SCALE), SEVEN)
    ensures Dist(q * Pow(2, SCALE), SEVEN, x) == Off(q * Up(k), SEVEN * Down(k)) * w
  {
    UnitInBinade(q, k, w);
    var a, j, n, c := q * Pow(2, SCALE), SCALE - k, q * Up(k), SEVEN * Down(k);
    OverflowInBinade(a, SEVEN, j);
    NearestIsDouble(a, SEVEN, j);
    NearestRounds(a, SEVEN, j);
    var m := Nearest(a, SEVEN * Pow(2, j));
    assert Dist(a, SEVEN, x) == Dist(a, SEVEN, Units(m, j));
    DistInUnits(a, SEVEN, m, j);
    NearestScaled(n, c, w);
    DistScaled(n, c, m, w);
    NearestIsOff(n, c);
  }

  /** The greatest multiple below 2^1024 is finite, so what overflows is no multiple. */
  lemma {:induction false} OverflowIsOff(q: nat, k: int)
    requires HasUnit(q, k) && Overflows(q * Pow(2, SCALE), SEVEN)
    ensures !NearUnit(q, k)
  {
    var w := UnitOnScale(k);
    UnitInBinade(q, k, w);
    OverflowInBinade(q * Pow(2, SCALE), SEVEN, SCALE - k);
    var n, c := q * Up(k), SEVEN * Down(k);
    NearestScaled(n, c, w);
    assert Pow(2, 0) == 1;
    if NearUnit(q, k) {
      NearestIsOff(n, c);
      assert false;
    }
  }

  /** A text with seven decimals survives reading and rounding exactly when 2^k * q, in the unit 2^-k of the doubles
      around it, leaves a remainder by 10^7 that is small against 2^k. */
  lemma {:induction false} ComesBackExactly(q: nat, k: int, r: Magnitude)
    requires HasUnit(q, k) && Correct(q, SEVEN, r)
    ensures Survives(q, r) <==> NearUnit(q, k)
  {
    if r.Infinite? {
      OverflowIsOff(q, k);
    } else {
      var w := UnitOnScale(k);
      var x := Units(r.significand, r.exponent + SCALE);
      ReadDistance(q, k, w, x);
      TurnAround(q, x, Pow(2, SCALE));
      RoundsToWithinHalf(SEVEN * x, Pow(2, SCALE), q);
      var d := Off(q * Up(k), SEVEN * Down(k));
      ScaledCompare(2 * d, Up(k), w);
      MulAssociates(2, d, w);
    }
  }

  /** Surviving means that the text of the double that was read is the one that was read: w is that double. */
  lemma {:induction false} SurvivorsShow(q: nat, r: Magnitude, w: Ieee)
    requires w.Valid() && w.Finite() && r.Finite? && r.exponent + SCALE >= 0
    requires Units(w.Mantissa(), w.Exp2() + SCALE) == Units(r.significand, r.exponent + SCALE)
    ensures Survives(q, r) <==> Scaled(w, 7) == q
  {
    if w.Exp2() < 0 {
      BothRoundingsAgree(w);
      OnScale(w);
    } else {
      WholeNumberScaled(w);
      WholeOnScale(w.Mantissa(), w.Exp2());
    }
  }

  lemma {:induction false} WholeOnScale(m: nat, e: nat)
    ensures Pow(2, SCALE) > 0 && Nearest(SEVEN * Units(m, e + SCALE), Pow(2, SCALE)) == m * SEVEN * Pow(2, e)
  {
    var s, p := Pow(2, SCALE), Pow(2, e);
    PowPositive(2, SCALE);
    PowSum(2, e, SCALE, e + SCALE);
    MulAssociates(m, p, s);
    MulAssociates(SEVEN, m * p, s);
    MulAssociates(SEVEN, m, p);
    MulAssociates(m, SEVEN, p);
    assert m * SEVEN == SEVEN * m;
    NearestOfMultiple(m * SEVEN * p, s);
  }

  lemma {:induction false} NearestOfMultiple(n: nat, s: nat)
    requires s > 0
    ensures Nearest(n * s, s) == n
  {
    MulSpreads(s, n, 1);
    Quotient(n * s, s, n);
  }

  /** One unit finer doubles the count of units. */
  lemma {:induction false} FinerUnit(q: nat, k: int)
    ensures (Up(k) == 2 * Up(k - 1) && Down(k) == Down(k - 1)) || (Up(k) == Up(k - 1) && 2 * Down(k) == Down(k - 1))
  {
    if k >= 1 {
      assert Pow(2, k) == 2 * Pow(2, k - 1);
    } else {
      assert Pow(2, 1 - k) == 2 * Pow(2, -k);
    }
  }

  lemma {:induction false} CoarserUnit(q: nat, k: int)
    requires q * Up(k) >= SIGNIFICANDS * (SEVEN * Down(k))
    ensures 2 * (q * Up(k - 1)) >= SIGNIFICANDS * (SEVEN * Down(k - 1))
  {
    FinerUnit(q, k);
    if Up(k) == 2 * Up(k - 1) {
      MulAssociates(q, 2, Up(k - 1));
      MulAssociates(2, q, Up(k - 1));
    } else {
      MulAssociates(SIGNIFICANDS * SEVEN, 2, Down(k));
      MulAssociates(SIGNIFICANDS, SEVEN, Down(k - 1));
      MulAssociates(SIGNIFICANDS, SEVEN, Down(k));
    }
  }

  /** Go to coarser units while there are too many of them. */
  lemma {:induction false} SearchUnit(q: nat, from: int) returns (k: int)
    requires q < SEVEN * Pow(2, 1024) && -971 <= from <= 1074
    requires 2 * (q * Up(from)) >= SIGNIFICANDS * (SEVEN * Down(from))
    ensures HasUnit(q, k)
    decreases from + 971
  {
    if q * Up(from) < SIGNIFICANDS * (SEVEN * Down(from)) {
      k := from;
    } else {
      if from == -971 {
        TopUnit(q, from, 1024);
        assert false;
      }
      CoarserUnit(q, from);
      k := SearchUnit(q, from - 1);
    }
  }

  lemma {:induction false} TopUnit(q: nat, k: int, top: nat)
    requires k == -971 && top == 53 - k && q < SEVEN * Pow(2, top)
    ensures q * Up(k) < SIGNIFICANDS * (SEVEN * Down(k))
  {
    PowerOf53();
    PowSum(2, 53, -k, top);
    assert Up(k) == 1;
    TopArithmetic(q, Down(k), Pow(2, top));
  }

  lemma {:induction false} TopArithmetic(q: nat, down: nat, top: nat)
    requires top == SIGNIFICANDS * down && q < SEVEN * top
    ensures q * 1 < SIGNIFICANDS * (SEVEN * down)
  {
  }

  lemma {:induction false} PowerOf53()
    ensures Pow(2, 53) == SIGNIFICANDS
  {
    assert Pow(2, 5) == 32 && Pow(2, 8) == 256;
    PowSum(2, 8, 8, 16);
    PowSum(2, 16, 16, 32);
    PowSum(2, 32, 16, 48);
    PowSum(2, 48, 5, 53);
  }

  lemma {:induction false} PowerOf23()
    ensures Pow(2, 23) == 0x80_0000 && Pow(2, 24) == 0x100_0000
  {
    assert Pow(2, 8) == 256 && Pow(2, 7) == 128;
    PowSum(2, 8, 8, 16);
    PowSum(2, 16, 7, 23);
    PowSum(2, 16, 8, 24);
  }

  /** Every count that is not zero and below the overflow has its unit, so the condition above decides each of them. */
  lemma {:induction false} UnitExists(q: nat) returns (k: int)
    requires 0 < q < SEVEN * Pow(2, 1024)
    ensures HasUnit(q, k)
  {
    PowerOf53();
    PowerOf23();
    PowSum(2, 53, 23, 76);
    assert Pow(2, 0) == 1;
    MulGrows(1, q, Pow(2, 76));
    k := SearchUnit(q, 76);
  }

  lemma {:induction false} ZeroSurvives(r: Magnitude)
    requires Correct(0, SEVEN, r)
    ensures Survives(0, r)
  {
    PowPositive(2, SCALE);
    PowPositive(2, 2045);
    assert 0 * Pow(2, SCALE) == 0;
    assert Units(0, 1) == 0;
    assert IsDouble(0);
    if r.Finite? {
      assert Dist(0, SEVEN, Units(r.significand, r.exponent + SCALE)) <= Dist(0, SEVEN, 0);
    }
  }

  /** A remainder is at most half of 10^7, so units of 2^-24 and finer are fine enough. */
  lemma {:induction false} FineUnitIsNear(q: nat, k: int)
    requires HasUnit(q, k) && k >= 24
    ensures NearUnit(q, k)
  {
    PowerOf23();
    PowGrows(2, 24, k);
    assert Pow(2, 0) == 1;
  }

  lemma {:induction false} FineBelow(q: nat, k: int)
    requires HasUnit(q, k) && q < SEVEN * 0x2000_0000
    ensures k >= 24
  {
    if k <= 23 {
      PowerOf23();
      if k >= 0 {
        PowGrows(2, k, 23);
      }
      assert Pow(2, 0) == 1;
      MulGrows(1, Down(k), SIGNIFICANDS * SEVEN);
      MulAssociates(SIGNIFICANDS, SEVEN, Down(k));
      assert Up(k) <= 0x80_0000;
      MulGrows(Up(k), 0x80_0000, q);
      assert false;
    }
  }

  /** Just above 2^29 doubles lie 2^-23 apart, more than one ten-millionth. */
  lemma {:induction false} FirstLost(t: nat)
    requires t <= 3
    ensures HasUnit(SEVEN * 0x2000_0000 + t, 23) && (NearUnit(SEVEN * 0x2000_0000 + t, 23) <==> t < 3)
  {
    PowerOf23();
    assert Pow(2, 0) == 1;
    var q := SEVEN * 0x2000_0000 + t;
    assert q * 0x80_0000 == SEVEN * (0x2000_0000 * 0x80_0000) + t * 0x80_0000;
    Quotient(q * 0x80_0000, SEVEN, 0x2000_0000 * 0x80_0000 + t * 0x80_0000 / SEVEN);
  }

  /** Every text up to 536870912.0000002 survives reading and rounding, and 536870912.0000003 does not. */
  lemma {:induction false} SmallTextsComeBack(q: nat, r: Magnitude)
    requires Correct(q, SEVEN, r)
    ensures q < SEVEN * 0x2000_0000 + 3 ==> Survives(q, r)
    ensures q == SEVEN * 0x2000_0000 + 3 ==> !Survives(q, r)
  {
    if q == 0 {
      ZeroSurvives(r);
    } else if q < SEVEN * 0x2000_0000 {
      BelowTop();
      var k := UnitExists(q);
      FineBelow(q, k);
      FineUnitIsNear(q, k);
      ComesBackExactly(q, k, r);
    } else if q <= SEVEN * 0x2000_0000 + 3 {
      FirstLost(q - SEVEN * 0x2000_0000);
      ComesBackExactly(q, 23, r);
    }
  }

  lemma {:induction false} BelowTop()
    ensures SEVEN * 0x2000_0000 < SEVEN * Pow(2, 1024)
  {
    PowerOf53();
    PowGrows(2, 53, 1024);
  }

  ghost predicate AllSurvive(n: nat) {
    forall q: nat, r: Magnitude :: q <= n && Correct(q, SEVEN, r) ==> Survives(q, r)
  }

  /** The lost text is read as 2^29 + 3 * 2^-23. */
  lemma {:induction false} LostIsRead() returns (r: Magnitude)
    ensures Correct(SEVEN * 0x2000_0000 + 3, SEVEN, r)
  {
    var q, k := SEVEN * 0x2000_0000 + 3, 23;
    FirstLost(3);
    var w := UnitOnScale(k);
    UnitInBinade(q, k, w);
    UnitPositive(SEVEN, SCALE - k);
    OverflowInBinade(q * Pow(2, SCALE), SEVEN, SCALE - k);
    r := Finite(Nearest(q * Pow(2, SCALE), SEVEN * Pow(2, SCALE - k)), -k);
    InUnitsIsCorrect(q, SEVEN, r);
  }

  /** All texts up to n ten-millionths survive exactly for n below 2^29 * 10^7 + 3. */
  lemma {:induction false} SurvivalBound(n: nat)
    ensures AllSurvive(n) <==> n < SEVEN * 0x2000_0000 + 3
  {
    forall q: nat, r: Magnitude | q <= n && Correct(q, SEVEN, r) && n < SEVEN * 0x2000_0000 + 3 ensures Survives(q, r) {
      SmallTextsComeBack(q, r);
    }
    if n >= SEVEN * 0x2000_0000 + 3 {
      var r := LostIsRead();
      SmallTextsComeBack(SEVEN * 0x2000_0000 + 3, r);
    }
  }
}
