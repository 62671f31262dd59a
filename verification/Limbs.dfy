/** Little-endian numbers over limbs of any base. */
module Limbs {
  import opened Powers

  ghost predicate Digits(l: seq<nat>, b: nat) {
    forall i :: 0 <= i < |l| ==> l[i] < b
  }

  /** No leading zero limb. */
  ghost predicate Trimmed(l: seq<nat>) {
    l != [] ==> l[|l| - 1] != 0
  }

  ghost function Value(l: seq<nat>, b: nat): nat {
    if l == [] then 0 else Value(l[..|l| - 1], b) + l[|l| - 1] * Pow(b, |l| - 1)
  }

  lemma {:induction false} ValueOneMore(l: seq<nat>, i: nat, b: nat)
    requires i < |l|
    ensures Value(l[..i + 1], b) == Value(l[..i], b) + l[i] * Pow(b, i)
  {
    assert l[..i + 1][..i] == l[..i];
  }

  lemma {:induction false} ValueAppend(l: seq<nat>, x: nat, b: nat)
    ensures Value(l + [x], b) == Value(l, b) + x * Pow(b, |l|)
  {
    assert (l + [x])[..|l|] == l;
  }

  lemma {:induction false} ValueBelow(l: seq<nat>, b: nat)
    requires Digits(l, b)
    ensures Value(l, b) < Pow(b, |l|)
  {
    if l != [] {
      var n: nat := |l| - 1;
      ValueBelow(l[..n], b);
      MulGrows(l[n] + 1, b, Pow(b, n));
      assert (l[n] + 1) * Pow(b, n) == l[n] * Pow(b, n) + Pow(b, n);
    }
  }

  lemma {:induction false} ValueAtLeast(l: seq<nat>, b: nat)
    requires Digits(l, b) && Trimmed(l) && l != []
    ensures Pow(b, |l| - 1) <= Value(l, b)
  {
    MulGrows(1, l[|l| - 1], Pow(b, |l| - 1));
  }

  lemma {:induction false} ZeroIsEmpty(l: seq<nat>, b: nat)
    requires Digits(l, b) && Trimmed(l)
    ensures l == [] <==> Value(l, b) == 0
  {
    if l != [] {
      ValueAtLeast(l, b);
      PowPositive(b, |l| - 1);
    }
  }

  /** Limbs in front shift the value. */
  lemma {:induction false} ValueJoined(k: seq<nat>, l: seq<nat>, b: nat)
    ensures Value(k + l, b) == Value(k, b) + Pow(b, |k|) * Value(l, b)
  {
    if l == [] {
      assert k + l == k;
    } else {
      var n: nat := |l| - 1;
      ValueJoined(k, l[..n], b);
      assert (k + l)[..|k| + n] == k + l[..n];
      PowAdd(b, |k|, n);
      var p, q, v, x := Pow(b, |k|), Pow(b, n), Value(l[..n], b), l[n];
      MulSpreads(p, v, x * q);
      MulAssociates(p, x, q);
      MulAssociates(x, p, q);
    }
  }

  lemma {:induction false} ValueOfOne(x: nat, b: nat)
    ensures Value([x], b) == x
  {
    assert [x][..0] == [];
  }

  lemma {:induction false} ValueSuffix(l: seq<nat>, i: nat, b: nat)
    requires i < |l|
    ensures Value(l[i..], b) == l[i] + b * Value(l[i + 1..], b)
  {
    assert l[i..] == [l[i]] + l[i + 1..];
    ValueJoined([l[i]], l[i + 1..], b);
    ValueOfOne(l[i], b);
    assert Pow(b, 1) == b;
  }

  lemma {:induction false} LongerIsGreater(k: seq<nat>, l: seq<nat>, b: nat)
    requires Digits(k, b) && Digits(l, b) && Trimmed(l) && |k| < |l| && b > 0
    ensures Value(k, b) < Value(l, b)
  {
    ValueBelow(k, b);
    ValueAtLeast(l, b);
    PowGrows(b, |k|, |l| - 1);
  }

  /** The first difference from the top decides. */
  lemma {:induction false} TopDecides(k: seq<nat>, l: seq<nat>, i: nat, b: nat)
    requires Digits(k, b) && Digits(l, b) && |k| == |l| && i < |k|
    requires k[i + 1..] == l[i + 1..] && k[i] < l[i]
    ensures Value(k, b) < Value(l, b)
  {
    assert k == k[..i + 1] + k[i + 1..] && l == l[..i + 1] + l[i + 1..];
    ValueJoined(k[..i + 1], k[i + 1..], b);
    ValueJoined(l[..i + 1], l[i + 1..], b);
    ValueOneMore(k, i, b);
    ValueOneMore(l, i, b);
    ValueBelow(k[..i], b);
    MulGrows(k[i] + 1, l[i], Pow(b, i));
    assert (k[i] + 1) * Pow(b, i) == k[i] * Pow(b, i) + Pow(b, i);
  }

  ghost function Zeros(n: nat): (z: seq<nat>)
    ensures |z| == n && forall i :: 0 <= i < n ==> z[i] == 0
  {
    seq(n, i => 0)
  }

  lemma {:induction false} ZerosAreZero(z: seq<nat>, b: nat)
    requires forall i :: 0 <= i < |z| ==> z[i] == 0
    ensures Value(z, b) == 0
  {
    if z != [] {
      ZerosAreZero(z[..|z| - 1], b);
    }
  }

  // ---- Multiplying limb by limb with a carry ----

  lemma {:induction false} PutLimb(l: seq<nat>, i: nat, x: nat, b: nat)
    requires i < |l|
    ensures l[i := x][..i] == l[..i] && l[i := x][i + 1..] == l[i + 1..]
    ensures Value(l[i := x][..i + 1], b) == Value(l[..i], b) + x * Pow(b, i)
  {
    assert l[i := x][..i] == l[..i];
    ValueOneMore(l[i := x], i, b);
  }

  lemma {:induction false} MulAddStep(v: nat, w: nat, limb: nat, factor: nat, addend: nat, carry: nat, lo: nat,
      hi: nat, p: nat, b: nat)
    requires v + carry * p == w * factor + addend && limb * factor + carry == lo + b * hi
    ensures (v + lo * p) + hi * (b * p) == (w + limb * p) * factor + addend
  {
    MulSpreads(p, limb * factor, carry);
    MulSpreads(p, lo, b * hi);
    MulAssociates(hi, b, p);
    MulAssociates(limb, factor, p);
    MulAssociates(limb, p, factor);
    MulSpreads(factor, w, limb * p);
  }

  /** The first i limbs of `l` and the carry hold the first i limbs of `was` times the factor plus the addend. */
  ghost predicate Scaled(l: seq<nat>, was: seq<nat>, i: nat, factor: nat, addend: nat, carry: nat, b: nat) {
    && i <= |l| == |was| && l[i..] == was[i..] && Digits(l, b)
    && Value(l[..i], b) + carry * Pow(b, i) == Value(was[..i], b) * factor + addend
    && (i > 0 && was[i - 1] > 0 ==> l[i - 1] > 0 || carry > 0)
  }

  lemma {:induction false} ScaledStart(l: seq<nat>, factor: nat, addend: nat, b: nat)
    requires Digits(l, b)
    ensures Scaled(l, l, 0, factor, addend, addend, b)
  {
  }

  lemma {:induction false} ScaledOneMore(l: seq<nat>, was: seq<nat>, i: nat, factor: nat, addend: nat, carry: nat,
      lo: nat, hi: nat, b: nat)
    requires i < |l| && Scaled(l, was, i, factor, addend, carry, b) && factor > 0
    requires lo < b && l[i] * factor + carry == lo + b * hi
    ensures Scaled(l[i := lo], was, i + 1, factor, addend, hi, b)
  {
    assert l[i] == l[i..][0] == was[i..][0] == was[i];
    MulAddStep(Value(l[..i], b), Value(was[..i], b), was[i], factor, addend, carry, lo, hi, Pow(b, i), b);
    ValueOneMore(was, i, b);
    PutLimb(l, i, lo, b);
    assert was[i + 1..] == was[i..][1..] == l[i..][1..] == l[i + 1..];
    MulGrows(1, factor, was[i]);
  }

  lemma {:induction false} ScaledEnd(l: seq<nat>, was: seq<nat>, factor: nat, addend: nat, carry: nat, b: nat)
    requires Scaled(l, was, |l|, factor, addend, carry, b) && Trimmed(was) && carry < b
    ensures Digits(l, b) && (carry == 0 ==> Trimmed(l)) && Digits(l + [carry], b)
    ensures Value(l + [carry], b) == Value(was, b) * factor + addend
    ensures carry == 0 ==> Value(l, b) == Value(was, b) * factor + addend
  {
    assert l[..|l|] == l && was[..|was|] == was;
    ValueAppend(l, carry, b);
  }
}
