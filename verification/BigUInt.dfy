/**
 * The unsigned big integer of the decimal conversion: 32-bit limbs, least significant first, no leading
 * zero limb. Every operation is exact on the value.
 */
module BinaryBig {
  import opened Powers
  import opened Limbs
  import opened DecimalText

  const BASE: nat := 0x1_0000_0000

  // ---- One step of each limb loop ----

  lemma {:induction false} TwoToThe32()
    ensures Pow(2, 32) == BASE
  {
    assert Pow(2, 8) == 256;
    PowAdd(2, 8, 8);
    PowAdd(2, 16, 16);
  }

  lemma {:induction false} ShiftLimb(limb: nat, p: nat, q: nat, carry: nat)
    requires p * q == BASE && limb < BASE && carry < p && q > 0
    ensures limb * p == (limb * p) % BASE + BASE * (limb / q)
    ensures (limb * p) % BASE + carry < BASE && limb / q < p
  {
    var hi, r := limb / q, limb % q;
    assert limb == q * hi + r;
    MulSpreads(p, q * hi, r);
    MulAssociates(p, q, hi);
    assert limb * p == BASE * hi + r * p;
    MulGrows(r + 1, q, p);
    MulSpreads(p, r, 1);
    Remainder(BASE * hi + r * p, hi, r * p);
    if hi >= p {
      MulGrows(p, hi, q);
    }
  }

  lemma {:induction false} Remainder(a: nat, hi: nat, lo: nat)
    requires a == BASE * hi + lo && lo < BASE
    ensures a % BASE == lo
  {
  }

  lemma {:induction false} ShiftRightStep(x: nat, carry: nat, v: nat, w: nat)
    requires v == 2 * w + carry && carry <= 1 && x < BASE
    ensures x / 2 + carry * 0x8000_0000 < BASE
    ensures x + BASE * v == 2 * (x / 2 + carry * 0x8000_0000 + BASE * w) + x % 2
  {
  }

  lemma {:induction false} SubtractStep(v: nat, o: nat, w: nat, borrow: nat, x: nat, y: nat, p: nat, lo: nat, next: nat)
    requires v + o == w + borrow * p && x + next * BASE == lo + y + borrow
    ensures (v + lo * p) + (o + y * p) == (w + x * p) + next * (BASE * p)
  {
    MulSpreads(p, x, next * BASE);
    MulSpreads(p, lo, y + borrow);
    MulSpreads(p, y, borrow);
    MulAssociates(next, BASE, p);
  }

  /** The part of the subtrahend already used; beyond its end there is nothing. */
  ghost function Used(l: seq<nat>, i: nat): nat {
    if i <= |l| then Value(l[..i], BASE) else Value(l, BASE)
  }

  lemma {:induction false} UsedOneMore(l: seq<nat>, i: nat)
    ensures Used(l, i + 1) == Used(l, i) + (if i < |l| then l[i] else 0) * Pow(BASE, i)
  {
    if i < |l| {
      ValueOneMore(l, i, BASE);
    } else {
      assert l[..|l|] == l;
    }
  }

  // ---- The class ----

  lemma {:induction false} ZerosBelow(zeros: seq<nat>, l: seq<nat>)
    requires Digits(l, BASE) && Trimmed(l) && l != [] && forall i :: 0 <= i < |zeros| ==> zeros[i] == 0
    ensures Digits(zeros + l, BASE) && Trimmed(zeros + l) &&
      Value(zeros + l, BASE) == Value(l, BASE) * Pow(BASE, |zeros|)
  {
    ValueJoined(zeros, l, BASE);
    ZerosAreZero(zeros, BASE);
  }

  class BigUInt {
    var limbs: seq<nat>

    ghost predicate Valid()
      reads this
    {
      Digits(limbs, BASE) && Trimmed(limbs)
    }

    ghost function Val(): nat
      reads this
    {
      Value(limbs, BASE)
    }

    constructor (value: nat)
      requires value < BASE * BASE
      ensures Valid() && Val() == value
    {
      var l: seq<nat>, rest: nat := [], value;
      while rest != 0
        invariant Digits(l, BASE) && (rest == 0 ==> Trimmed(l))
        invariant Value(l, BASE) + rest * Pow(BASE, |l|) == value
        decreases rest
      {
        ValueAppend(l, rest % BASE, BASE);
        Remainders(rest, Pow(BASE, |l|));
        l := l + [rest % BASE];
        rest := rest / BASE;
      }
      limbs := l;
    }

    constructor Copy(other: BigUInt)
      requires other.Valid()
      ensures Valid() && Val() == other.Val()
    {
      limbs := other.limbs;
    }

    predicate IsZero()
      reads this
      requires Valid()
      ensures IsZero() <==> Val() == 0
    {
      ZeroIsEmpty(limbs, BASE);
      limbs == []
    }

    method MulAdd(factor: nat, addend: nat)
      requires Valid() && 0 < factor < BASE && addend < BASE
      modifies this
      ensures Valid() && Val() == old(Val()) * factor + addend
    {
      ghost var was := limbs;
      var carry: nat := addend;
      ScaledStart(limbs, factor, addend, BASE);
      for i: nat := 0 to |limbs|
        invariant |limbs| == |was| && carry < BASE && Scaled(limbs, was, i, factor, addend, carry, BASE)
      {
        ProductFits(limbs[i], factor, carry);
        var product := limbs[i] * factor + carry;
        ScaledOneMore(limbs, was, i, factor, addend, carry, product % BASE, product / BASE, BASE);
        limbs := limbs[i := product % BASE];
        carry := product / BASE;
      }
      ScaledEnd(limbs, was, factor, addend, carry, BASE);
      if carry != 0 {
        limbs := limbs + [carry];
      }
    }

    method MulPow10(count: nat)
      requires Valid()
      modifies this
      ensures Valid() && Val() == old(Val()) * Pow(10, count)
    {
      var left: nat := count;
      while left >= 9
        invariant 0 <= left <= count && Valid() && Val() * Pow(10, left) == old(Val()) * Pow(10, count)
      {
        NineMore(Val(), left);
        MulAdd(1000000000, 0);
        left := left - 9;
      }
      if left > 0 {
        SmallPower(left);
        MulAdd(SmallPow10(left), 0);
      }
    }

    method ShiftLeftRest(rest: nat)
      requires Valid() && 0 < rest < 32
      modifies this
      ensures Valid() && Val() == old(Val()) * Pow(2, rest)
    {
      ghost var was := limbs;
      var p, q := Pow(2, rest), Pow(2, 32 - rest);
      RestPowers(rest);
      var carry: nat := 0;
      ScaledStart(limbs, p, 0, BASE);
      for i: nat := 0 to |limbs|
        invariant |limbs| == |was| && carry < p && Scaled(limbs, was, i, p, 0, carry, BASE)
      {
        ShiftLimb(limbs[i], p, q, carry);
        var next, lo := limbs[i] / q, limbs[i] * p % BASE + carry;
        ScaledOneMore(limbs, was, i, p, 0, carry, lo, next, BASE);
        limbs := limbs[i := lo];
        carry := next;
      }
      ScaledEnd(limbs, was, p, 0, carry, BASE);
      if carry != 0 {
        limbs := limbs + [carry];
      }
    }

    method InsertZeros(words: nat)
      requires Valid() && limbs != []
      modifies this
      ensures Valid() && Val() == old(Val()) * Pow(BASE, words)
    {
      var zeros := seq(words, _ => 0);
      ZerosBelow(zeros, limbs);
      limbs := zeros + limbs;
    }

    method ShiftLeft(bits: nat)
      requires Valid()
      modifies this
      ensures Valid() && Val() == old(Val()) * Pow(2, bits)
    {
      var zero := IsZero();
      if zero || bits == 0 {
        return;
      }
      var words, rest := bits / 32, bits % 32;
      WordsAndRest(Val(), rest, words);
      if rest != 0 {
        RestPowers(rest);
        StaysPositive(Val(), Pow(2, rest));
        ShiftLeftRest(rest);
      }
      if words != 0 {
        ZeroIsEmpty(limbs, BASE);
        InsertZeros(words);
      }
    }

    method Trim()
      requires Digits(limbs, BASE)
      modifies this
      ensures Valid() && Val() == old(Val())
    {
      while limbs != [] && limbs[|limbs| - 1] == 0
        invariant Digits(limbs, BASE) && Val() == old(Val())
        decreases |limbs|
      {
        limbs := limbs[..|limbs| - 1];
      }
    }

    method ShiftRightOne()
      requires Valid()
      modifies this
      ensures Valid() && Val() == old(Val()) / 2
    {
      ghost var was := limbs;
      var carry: nat := 0;
      var i: nat := |limbs|;
      while i > 0
        invariant i <= |limbs| == |was| && limbs[..i] == was[..i] && Digits(limbs, BASE) && carry <= 1
        invariant Value(was[i..], BASE) == 2 * Value(limbs[i..], BASE) + carry
      {
        i := i - 1;
        var x := limbs[i];
        assert x == was[..i + 1][i] == limbs[..i + 1][i];
        ShiftRightStep(x, carry, Value(was[i + 1..], BASE), Value(limbs[i + 1..], BASE));
        ghost var above := limbs[i + 1..];
        limbs := limbs[i := x / 2 + carry * 0x8000_0000];
        assert limbs[i + 1..] == above;
        ValueSuffix(was, i, BASE);
        ValueSuffix(limbs, i, BASE);
        carry := x % 2;
      }
      assert limbs[0..] == limbs && was[0..] == was;
      Trim();
    }

    static method BitsOf(limb: nat) returns (bits: nat)
      requires limb > 0
      ensures bits > 0 && Pow(2, bits - 1) <= limb < Pow(2, bits)
    {
      var top: nat := limb;
      bits := 0;
      while top != 0
        invariant top * Pow(2, bits) <= limb < (top + 1) * Pow(2, bits)
        invariant top == 0 ==> bits > 0 && Pow(2, bits - 1) <= limb
        decreases top
      {
        HalveTop(top, limb, bits);
        bits := bits + 1;
        top := top / 2;
      }
    }

    method BitLength() returns (bits: nat)
      requires Valid()
      ensures Val() == 0 ==> bits == 0
      ensures Val() > 0 ==> bits > 0 && Pow(2, bits - 1) <= Val() < Pow(2, bits)
    {
      var zero := IsZero();
      if zero {
        return 0;
      }
      var n: nat := |limbs| - 1;
      bits := BitsOf(limbs[n]);
      ValueBelow(limbs[..n], BASE);
      TopBits(Value(limbs[..n], BASE), limbs[n], n, bits);
      return n * 32 + bits;
    }

    static method SubtractLimb(x: nat, y: nat, borrow: nat) returns (lo: nat, next: nat)
      requires x < BASE && y < BASE && borrow <= 1
      ensures lo < BASE && next <= 1 && lo + borrow + y == x + next * BASE
    {
      var value: int := x - borrow - y;
      next := if value < 0 then 1 else 0;
      lo := if value < 0 then value + BASE else value;
    }

    method Subtract(other: BigUInt)
      requires Valid() && other.Valid() && other != this && Val() >= other.Val()
      modifies this
      ensures Valid() && Val() == old(Val()) - other.Val()
    {
      ghost var was := limbs;
      if |limbs| < |other.limbs| {
        LongerIsGreater(limbs, other.limbs, BASE);
      }
      var borrow: nat := 0;
      for i: nat := 0 to |limbs|
        invariant |limbs| == |was| && limbs[i..] == was[i..] && Digits(limbs, BASE) && borrow <= 1
        invariant other.limbs == old(other.limbs)
        invariant Value(limbs[..i], BASE) + Used(other.limbs, i) == Value(was[..i], BASE) + borrow * Pow(BASE, i)
      {
        var y := if i < |other.limbs| then other.limbs[i] else 0;
        assert limbs[i] == was[i];
        var lo, next := SubtractLimb(limbs[i], y, borrow);
        SubtractStep(Value(limbs[..i], BASE), Used(other.limbs, i), Value(was[..i], BASE), borrow, was[i], y,
          Pow(BASE, i), lo, next);
        UsedOneMore(other.limbs, i);
        ValueOneMore(was, i, BASE);
        PutLimb(limbs, i, lo, BASE);
        limbs := limbs[i := lo];
        borrow := next;
      }
      assert limbs[..|limbs|] == limbs && was[..|was|] == was;
      assert other.limbs[..|other.limbs|] == other.limbs;
      ValueBelow(limbs, BASE);
      assert borrow == 0;
      Trim();
    }
  }

  lemma {:induction false} Remainders(rest: nat, p: nat)
    ensures rest % BASE * p + rest / BASE * (BASE * p) == rest * p
  {
    MulAssociates(rest / BASE, BASE, p);
    MulSpreads(p, rest % BASE, rest / BASE * BASE);
  }

  lemma {:induction false} ProductFits(limb: nat, factor: nat, carry: nat)
    requires limb < BASE && factor < BASE && carry < BASE
    ensures limb * factor + carry < BASE * BASE && (limb * factor + carry) / BASE < BASE
    ensures limb > 0 && factor > 0 ==> limb * factor > 0
  {
    MulGrows(limb, BASE - 1, factor);
  }

  function SmallPow10(n: nat): nat
    requires n <= 9
  {
    [1, 10, 100, 1000, 10000, 100000, 1000000, 10000000, 100000000, 1000000000][n]
  }

  lemma {:induction false} SmallPower(n: nat)
    requires n <= 9
    ensures SmallPow10(n) == Pow(10, n)
  {
    assert Pow(10, 9) == 1000000000;
    if n < 9 {
      assert n == 0 || n == 1 || n == 2 || n == 3 || n == 4 || n == 5 || n == 6 || n == 7 || n == 8;
    }
  }

  lemma {:induction false} NineMore(v: nat, left: nat)
    requires left >= 9
    ensures v * 1000000000 * Pow(10, left - 9) == v * Pow(10, left)
  {
    PowAdd(10, 9, left - 9);
    SmallPower(9);
    MulAssociates(v, 1000000000, Pow(10, left - 9));
  }

  lemma {:induction false} WordsAndRest(v: nat, rest: nat, words: nat)
    ensures v * Pow(2, rest) * Pow(BASE, words) == v * Pow(2, words * 32 + rest)
  {
    TwoToThe32();
    PowOfPow(2, 32, words);
    PowAdd(2, rest, 32 * words);
    MulAssociates(v, Pow(2, rest), Pow(BASE, words));
  }

  lemma {:induction false} RestPowers(rest: nat)
    requires 0 < rest < 32
    ensures Pow(2, rest) * Pow(2, 32 - rest) == BASE && 0 < Pow(2, rest) <= BASE && Pow(2, 32 - rest) > 0
  {
    TwoToThe32();
    PowAdd(2, rest, 32 - rest);
    PowPositive(2, rest);
    PowPositive(2, 32 - rest);
    MulGrows(1, Pow(2, 32 - rest), Pow(2, rest));
  }

  lemma {:induction false} StaysPositive(v: nat, p: nat)
    requires v > 0 && p > 0
    ensures v * p > 0
  {
    MulGrows(1, v, p);
  }

  lemma {:induction false} HalveTop(top: nat, limb: nat, bits: nat)
    requires top > 0 && top * Pow(2, bits) <= limb < (top + 1) * Pow(2, bits)
    ensures top / 2 * Pow(2, bits + 1) <= limb < (top / 2 + 1) * Pow(2, bits + 1)
    ensures top / 2 == 0 ==> Pow(2, bits) <= limb
  {
    var p := Pow(2, bits);
    MulAssociates(top / 2, 2, p);
    MulGrows(top / 2 * 2, top, p);
    MulAssociates(top / 2 + 1, 2, p);
    MulGrows(top + 1, (top / 2 + 1) * 2, p);
  }

  lemma {:induction false} TopBits(low: nat, top: nat, n: nat, bits: nat)
    requires low < Pow(BASE, n) && bits > 0 && Pow(2, bits - 1) <= top < Pow(2, bits)
    ensures Pow(2, n * 32 + bits - 1) <= low + top * Pow(BASE, n) < Pow(2, n * 32 + bits)
  {
    var b := Pow(BASE, n);
    WordsAndRest(1, bits - 1, n);
    WordsAndRest(1, bits, n);
    MulGrows(Pow(2, bits - 1), top, b);
    MulGrows(top + 1, Pow(2, bits), b);
    MulSpreads(b, top, 1);
  }

  /** -1, 0 or 1 as a is less than, equal to or greater than b. */
  method Compare(a: BigUInt, b: BigUInt) returns (order: int)
    requires a.Valid() && b.Valid()
    ensures order == if a.Val() < b.Val() then -1 else if a.Val() == b.Val() then 0 else 1
  {
    if |a.limbs| != |b.limbs| {
      if |a.limbs| < |b.limbs| {
        LongerIsGreater(a.limbs, b.limbs, BASE);
        return -1;
      }
      LongerIsGreater(b.limbs, a.limbs, BASE);
      return 1;
    }
    var i: nat := |a.limbs|;
    while i > 0
      invariant i <= |a.limbs| && a.limbs[i..] == b.limbs[i..]
    {
      i := i - 1;
      if a.limbs[i] != b.limbs[i] {
        if a.limbs[i] < b.limbs[i] {
          TopDecides(a.limbs, b.limbs, i, BASE);
          return -1;
        }
        TopDecides(b.limbs, a.limbs, i, BASE);
        return 1;
      }
      assert a.limbs[i..] == [a.limbs[i]] + a.limbs[i + 1..];
      assert b.limbs[i..] == [b.limbs[i]] + b.limbs[i + 1..];
    }
    assert a.limbs == a.limbs[0..] && b.limbs == b.limbs[0..];
    return 0;
  }

  /** Nine digits at a time, the odd ones first. */
  method FromDecimal(digits: string) returns (r: BigUInt)
    requires AllDigits(digits)
    ensures fresh(r) && r.Valid() && r.Val() == Decimal(digits)
  {
    r := new BigUInt(0);
    var head: nat, chunks: nat := |digits| % 9, |digits| / 9;
    assert digits[..0] == [];
    if head != 0 {
      Chunk(r, digits, 0, head);
    }
    for c: nat := 0 to chunks
      invariant fresh(r) && r.Valid() && r.Val() == Decimal(digits[..head + 9 * c])
    {
      Chunk(r, digits, head + 9 * c, 9);
    }
    assert digits[..head + 9 * chunks] == digits;
  }

  method ChunkValue(chunk: string) returns (value: nat, scale: nat)
    requires |chunk| <= 9
    ensures value == Decimal(chunk) && scale == Pow(10, |chunk|) && 0 < scale < BASE && value < BASE
  {
    value, scale := 0, 1;
    for i: nat := 0 to |chunk|
      invariant value == Decimal(chunk[..i]) && scale == Pow(10, i)
    {
      assert chunk[..i + 1][..i] == chunk[..i];
      value := value * 10 + DigitOf(chunk[i]);
      scale := scale * 10;
    }
    assert chunk[..|chunk|] == chunk;
    DecimalBelow(chunk);
    SmallPower(|chunk|);
  }

  method Chunk(r: BigUInt, digits: string, pos: nat, count: nat)
    requires r.Valid() && 0 < count <= 9 && pos + count <= |digits|
    requires r.Val() == Decimal(digits[..pos])
    modifies r
    ensures r.Valid() && r.Val() == Decimal(digits[..pos + count])
  {
    var value, scale := ChunkValue(digits[pos..pos + count]);
    assert digits[..pos + count] == digits[..pos] + digits[pos..pos + count];
    DecimalJoined(digits[..pos], digits[pos..pos + count]);
    r.MulAdd(scale, value);
  }
}
