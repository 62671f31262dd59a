/**
 * The exact fixed-point text of a double: the scaled significand as a big integer, rounded half to even by
 * looking at its bits. The writer's big integer is the one of the decimal conversion with a few more
 * operations.
 */
module FixedFormat {
  import opened Powers
  import opened Limbs
  import opened DecimalText
  import opened DecimalLimbs
  import opened BinaryBig
  import opened NearestDouble

  // ---- Bits of a number in 32-bit limbs ----

  lemma {:induction false} WordAndRest(index: nat)
    ensures Pow(2, index) == Pow(BASE, index / 32) * Pow(2, index % 32) && Pow(2, index) > 0
  {
    WordsAndRest(1, index % 32, index / 32);
    assert Pow(2, index % 32) * Pow(BASE, index / 32) == Pow(BASE, index / 32) * Pow(2, index % 32);
    PowPositive(2, index);
  }

  lemma {:induction false} RestSplits(rest: nat)
    requires rest < 32
    ensures Pow(2, rest) * Pow(2, 32 - rest) == BASE && Pow(2, rest) > 0 && Pow(2, 32 - rest) % 2 == 0
  {
    TwoToThe32();
    PowSum(2, rest, 32 - rest, 32);
    PowPositive(2, rest);
    assert Pow(2, 32 - rest) == 2 * Pow(2, 31 - rest);
  }

  lemma {:induction false} AroundLimb(l: seq<nat>, w: nat)
    requires w < |l|
    ensures Value(l, BASE) == Value(l[..w], BASE) + Pow(BASE, w) * (l[w] + BASE * Value(l[w + 1..], BASE))
  {
    assert l == l[..w] + l[w..];
    ValueJoined(l[..w], l[w..], BASE);
    ValueSuffix(l, w, BASE);
  }

  lemma {:induction false} UniqueDivision(x: nat, p: nat, q: nat, m: nat)
    requires p > 0 && m < p && x == q * p + m
    ensures x / p == q && x % p == m
  {
    assert p * (q + 1) == q * p + p;
    Quotient(x, p, q);
  }

  /** Dividing limb and the limbs above by p when p * q is the base. */
  lemma {:induction false} LimbDivision(x: nat, h: nat, p: nat, q: nat)
    requires p > 0 && p * q == BASE
    ensures (x + BASE * h) / p == x / p + q * h && (x + BASE * h) % p == x % p
  {
    var k, m := x / p, x % p;
    assert x == p * k + m;
    MulAssociates(p, q, h);
    MulSpreads(p, k, q * h);
    UniqueDivision(x + BASE * h, p, k + q * h, m);
  }

  /** The same with a lower part below the limb. */
  lemma {:induction false} SplitDivision(low: nat, y: nat, word: nat, p: nat)
    requires low < word && p > 0
    ensures word * p > 0 && (low + word * y) / (word * p) == y / p &&
      (low + word * y) % (word * p) == low + word * (y % p)
  {
    var k, m := y / p, y % p;
    assert y == p * k + m;
    MulSpreads(word, p * k, m);
    MulAssociates(word, p, k);
    MulGrows(m + 1, p, word);
    MulSpreads(word, m, 1);
    assert word * p * k == k * (word * p);
    UniqueDivision(low + word * y, word * p, k, low + word * m);
  }

  lemma {:induction false} EvenTimes(q: nat, h: nat)
    requires q % 2 == 0
    ensures (q * h) % 2 == 0
  {
    MulAssociates(2, q / 2, h);
  }

  lemma {:induction false} BitArithmetic(low: nat, x: nat, h: nat, word: nat, p: nat, q: nat)
    requires low < word && p > 0 && p * q == BASE && q % 2 == 0
    ensures word * p > 0 && ((low + word * (x + BASE * h)) / (word * p)) % 2 == (x / p) % 2
    ensures (low + word * (x + BASE * h)) % (word * p) == low + word * (x % p)
  {
    SplitDivision(low, x + BASE * h, word, p);
    LimbDivision(x, h, p, q);
    EvenTimes(q, h);
    SameParity(x / p, q * h);
  }

  lemma {:induction false} SameParity(x: nat, even: nat)
    requires even % 2 == 0
    ensures (x + even) % 2 == x % 2
  {
  }

  lemma {:induction false} BitOfLimb(l: seq<nat>, index: nat)
    requires Digits(l, BASE) && index / 32 < |l|
    ensures Pow(2, index) > 0 && Pow(2, index % 32) > 0
    ensures (Value(l, BASE) / Pow(2, index)) % 2 == (l[index / 32] / Pow(2, index % 32)) % 2
    ensures Value(l, BASE) % Pow(2, index) ==
      Value(l[..index / 32], BASE) + Pow(BASE, index / 32) * (l[index / 32] % Pow(2, index % 32))
  {
    var w, rest := index / 32, index % 32;
    WordAndRest(index);
    RestSplits(rest);
    AroundLimb(l, w);
    ValueBelow(l[..w], BASE);
    BitArithmetic(Value(l[..w], BASE), l[w], Value(l[w + 1..], BASE), Pow(BASE, w), Pow(2, rest), Pow(2, 32 - rest));
  }

  lemma {:induction false} BeyondTop(l: seq<nat>, index: nat)
    requires Digits(l, BASE) && index / 32 >= |l|
    ensures Pow(2, index) > 0 && Value(l, BASE) / Pow(2, index) == 0 && Value(l, BASE) % Pow(2, index) == Value(l, BASE)
  {
    ValueBelow(l, BASE);
    PowGrows(BASE, |l|, index / 32);
    WordAndRest(index);
    RestSplits(index % 32);
    MulGrows(1, Pow(2, index % 32), Pow(BASE, index / 32));
    UniqueDivision(Value(l, BASE), Pow(2, index), 0, Value(l, BASE));
  }

  lemma {:induction false} ZeroLimbs(l: seq<nat>)
    ensures Value(l, BASE) == 0 <==> forall i :: 0 <= i < |l| ==> l[i] == 0
  {
    if l != [] {
      var n := |l| - 1;
      ZeroLimbs(l[..n]);
      PowPositive(BASE, n);
      if l[n] != 0 {
        MulGrows(1, l[n], Pow(BASE, n));
      } else {
        assert forall i :: 0 <= i < n ==> l[i] == l[..n][i];
      }
    }
  }

  /** Bit `index` of the number. */
  method Bit(n: BigUInt, index: nat) returns (set_: bool)
    requires n.Valid()
    ensures Pow(2, index) > 0 && set_ == ((n.Val() / Pow(2, index)) % 2 == 1)
  {
    var w := index / 32;
    if w >= |n.limbs| {
      BeyondTop(n.limbs, index);
      return false;
    }
    BitOfLimb(n.limbs, index);
    return n.limbs[w] / Pow(2, index % 32) % 2 == 1;
  }

  lemma {:induction false} AnyPart(low: nat, word: nat, m: nat)
    requires word > 0
    ensures low + word * m != 0 <==> low != 0 || m != 0
  {
    if m > 0 {
      MulGrows(1, m, word);
    }
  }

  /** Whether any bit strictly below `index` is set. */
  method AnyBelow(n: BigUInt, index: nat) returns (any: bool)
    requires n.Valid()
    ensures Pow(2, index) > 0 && any == (n.Val() % Pow(2, index) != 0)
  {
    var w := index / 32;
    var stop: nat := if w < |n.limbs| then w else |n.limbs|;
    ZeroLimbs(n.limbs[..stop]);
    if w < |n.limbs| {
      BitOfLimb(n.limbs, index);
      PowPositive(BASE, w);
      AnyPart(Value(n.limbs[..w], BASE), Pow(BASE, w), n.limbs[w] % Pow(2, index % 32));
    } else {
      BeyondTop(n.limbs, index);
      assert n.limbs[..stop] == n.limbs;
    }
    for i: nat := 0 to stop
      invariant forall k :: 0 <= k < i ==> n.limbs[k] == 0
    {
      if n.limbs[i] != 0 {
        assert n.limbs[..stop][i] != 0;
        return true;
      }
    }
    assert forall k :: 0 <= k < stop ==> n.limbs[..stop][k] == 0;
    if w < |n.limbs| && index % 32 != 0 {
      return n.limbs[w] % Pow(2, index % 32) != 0;
    }
    assert index % 32 == 0 ==> Pow(2, index % 32) == 1;
    return false;
  }

  // ---- Shifting right by any number of bits ----

  /** A limb after the shift: its high part, and the low bits of the limb above. */
  function ShiftedLimb(l: seq<nat>, i: nat, p: nat, q: nat): nat
    requires i < |l| && p > 0
  {
    l[i] / p + (if i + 1 < |l| then l[i + 1] * q % BASE else 0)
  }

  lemma {:induction false} HighLimbMoves(x: nat, p: nat, q: nat)
    requires p > 0 && p * q == BASE
    ensures x * q % BASE == x % p * q && x % p * q <= BASE - q
  {
    var k, m := x / p, x % p;
    assert x == p * k + m;
    MulSpreads(q, p * k, m);
    assert p * k * q == BASE * k by {
      MulAssociates(p, k, q);
      MulAssociates(p, q, k);
      assert k * q == q * k;
    }
    MulGrows(m + 1, p, q);
    MulSpreads(q, m, 1);
    if q > 0 {
      Remainder(BASE * k + m * q, k, m * q);
    }
  }

  lemma {:induction false} LowLimbFits(x: nat, p: nat, q: nat)
    requires p > 0 && p * q == BASE && x < BASE
    ensures x / p < q
  {
    if x / p >= q {
      MulGrows(q, x / p, p);
    }
  }

  lemma {:induction false} ShiftedStep(x: nat, t: nat, t0: nat, p: nat, q: nat)
    requires p > 0 && p * q == BASE && t % p == t0 % p
    ensures (x + BASE * t) / p == x / p + t0 % p * q + BASE * (t / p)
  {
    LimbDivision(x, t, p, q);
    var k, m := t / p, t % p;
    assert t == p * k + m;
    MulSpreads(q, p * k, m);
    assert q * (p * k) == BASE * k by {
      MulAssociates(q, p, k);
      assert q * p == p * q;
    }
  }

  lemma {:induction false} ShiftedValue(l: seq<nat>, out: seq<nat>, i: nat, p: nat, q: nat)
    requires p > 0 && p * q == BASE && Digits(l, BASE) && i <= |l| == |out|
    requires forall k: nat :: k < |l| ==> out[k] == ShiftedLimb(l, k, p, q)
    ensures Value(out[i..], BASE) == Value(l[i..], BASE) / p
    decreases |l| - i
  {
    if i < |l| {
      ShiftedValue(l, out, i + 1, p, q);
      ValueSuffix(l, i, BASE);
      ValueSuffix(out, i, BASE);
      var t := Value(l[i + 1..], BASE);
      if i + 1 < |l| {
        ValueSuffix(l, i + 1, BASE);
        LimbDivision(l[i + 1], Value(l[i + 2..], BASE), p, q);
        HighLimbMoves(l[i + 1], p, q);
        ShiftedStep(l[i], t, l[i + 1], p, q);
      } else {
        assert l[i + 1..] == [] && t == 0;
        assert out[i + 1..] == [];
        LimbDivision(l[i], 0, p, q);
      }
    } else {
      assert l[i..] == [] && out[i..] == [];
      UniqueDivision(0, p, 0, 0);
    }
  }

  /** A limb moved right, with the low bits of the one above it on top. */
  method ShiftedPair(low: nat, high: nat, p: nat, q: nat) returns (limb: nat)
    requires low < BASE && high < BASE && p > 0 && q > 0 && p * q == BASE
    ensures limb == low / p + high * q % BASE == low / p + high % p * q && limb < BASE
  {
    HighLimbMoves(high, p, q);
    LowLimbFits(low, p, q);
    limb := low / p + high * q % BASE;
  }

  method ShiftLimbs(l: seq<nat>, rest: nat) returns (out: seq<nat>)
    requires Digits(l, BASE) && 0 < rest < 32
    ensures Digits(out, BASE) && |out| == |l| && Pow(2, rest) > 0 && Value(out, BASE) == Value(l, BASE) / Pow(2, rest)
  {
    var p, q := Pow(2, rest), Pow(2, 32 - rest);
    RestSplits(rest);
    out := l;
    for i: nat := 0 to |l|
      invariant |out| == |l| && out[i..] == l[i..] && Digits(out, BASE)
      invariant forall k: nat :: k < i ==> out[k] == ShiftedLimb(l, k, p, q)
    {
      assert out[i] == out[i..][0] && (i + 1 < |l| ==> out[i + 1] == out[i..][1]);
      var high := if i + 1 < |out| then out[i + 1] else 0;
      var limb := ShiftedPair(out[i], high, p, q);
      out := out[i := limb];
      assert out[i + 1..] == l[i..][1..];
    }
    ShiftedValue(l, out, 0, p, q);
    assert out[0..] == out && l[0..] == l;
  }

  lemma {:induction false} WordsOff(l: seq<nat>, bits: nat)
    requires Digits(l, BASE) && bits / 32 < |l|
    ensures Pow(2, bits) > 0 && Pow(2, bits % 32) > 0
    ensures Value(l, BASE) / Pow(2, bits) == Value(l[bits / 32..], BASE) / Pow(2, bits % 32)
  {
    var w := bits / 32;
    WordAndRest(bits);
    RestSplits(bits % 32);
    assert l == l[..w] + l[w..];
    ValueJoined(l[..w], l[w..], BASE);
    ValueBelow(l[..w], BASE);
    SplitDivision(Value(l[..w], BASE), Value(l[w..], BASE), Pow(BASE, w), Pow(2, bits % 32));
  }

  method ShiftRight(n: BigUInt, bits: nat)
    requires n.Valid()
    modifies n
    ensures n.Valid() && Pow(2, bits) > 0 && n.Val() == old(n.Val()) / Pow(2, bits)
  {
    var words, rest := bits / 32, bits % 32;
    if words >= |n.limbs| {
      BeyondTop(n.limbs, bits);
      n.limbs := [];
      return;
    }
    WordsOff(n.limbs, bits);
    var out := n.limbs[words..];
    if rest != 0 {
      out := ShiftLimbs(out, rest);
    } else {
      assert Pow(2, rest) == 1;
    }
    n.limbs := out;
    n.Trim();
  }

  // ---- Decimal text ----

  method DivideLimb(x: nat, rem: nat, d: nat) returns (k: nat, m: nat)
    requires d > 0 && rem < d && x < BASE
    ensures k < BASE && m < d && rem * BASE + x == d * k + m
  {
    var current := rem * BASE + x;
    k, m := current / d, current % d;
    assert current == d * k + m;
    MulGrows(rem + 1, d, BASE);
    if k >= BASE {
      MulGrows(BASE, k, d);
    }
  }

  lemma {:induction false} DivideStep(x: nat, v: nat, w: nat, rem: nat, d: nat, k: nat, m: nat)
    requires v == d * w + rem && rem * BASE + x == d * k + m
    ensures x + BASE * v == d * (k + BASE * w) + m
  {
    MulSpreads(BASE, d * w, rem);
    MulSpreads(d, k, BASE * w);
    MulAssociates(BASE, d, w);
    MulAssociates(d, BASE, w);
  }

  /** Divide in place by a small divisor, from the top limb down. */
  method DivSmall(n: BigUInt, divisor: nat) returns (remainder: nat)
    requires n.Valid() && 0 < divisor < BASE
    modifies n
    ensures n.Valid() && remainder < divisor && old(n.Val()) == divisor * n.Val() + remainder
  {
    ghost var was := n.limbs;
    remainder := 0;
    var i: nat := |n.limbs|;
    while i > 0
      invariant i <= |n.limbs| == |was| && n.limbs[..i] == was[..i] && Digits(n.limbs, BASE) && remainder < divisor
      invariant Value(was[i..], BASE) == divisor * Value(n.limbs[i..], BASE) + remainder
    {
      i := i - 1;
      var x := n.limbs[i];
      assert x == was[..i + 1][i] == n.limbs[..i + 1][i];
      var k, m := DivideLimb(x, remainder, divisor);
      DivideStep(x, Value(was[i + 1..], BASE), Value(n.limbs[i + 1..], BASE), remainder, divisor, k, m);
      ghost var above := n.limbs[i + 1..];
      n.limbs := n.limbs[i := k];
      assert n.limbs[i + 1..] == above;
      ValueSuffix(was, i, BASE);
      ValueSuffix(n.limbs, i, BASE);
      remainder := m;
    }
    assert n.limbs[0..] == n.limbs && was[0..] == was;
    n.Trim();
  }

  lemma {:induction false} ChunkStep(done: nat, work: nat, quotient: nat, rem: nat, p: nat, total: nat)
    requires total == done + p * work && work == LIMB_BASE * quotient + rem
    ensures total == (done + rem * p) + (LIMB_BASE * p) * quotient
  {
    MulSpreads(p, LIMB_BASE * quotient, rem);
    MulAssociates(p, LIMB_BASE, quotient);
  }

  method ToDecimal(n: BigUInt) returns (text: string)
    requires n.Valid()
    ensures Canonical(text) && Decimal(text) == n.Val()
  {
    var zero := n.IsZero();
    if zero {
      assert "0"[..0] == [];
      return "0";
    }
    var work := new BigUInt.Copy(n);
    var chunks: seq<nat> := [];
    ghost var total := n.Val();
    var done := false;
    while !done
      invariant fresh(work) && work.Valid() && Digits(chunks, LIMB_BASE) && n.Val() == total
      invariant Value(chunks, LIMB_BASE) + Pow(LIMB_BASE, |chunks|) * work.Val() == total
      invariant if done then work.Val() == 0 && WellFormed(chunks) else work.Val() > 0
      decreases work.Val()
    {
      ghost var before := work.Val();
      var rem := DivSmall(work, LIMB_BASE);
      ChunkStep(Value(chunks, LIMB_BASE), before, work.Val(), rem, Pow(LIMB_BASE, |chunks|), total);
      ValueAppend(chunks, rem, LIMB_BASE);
      chunks := chunks + [rem];
      done := work.IsZero();
    }
    text := Print(chunks);
  }
}
