/** Limbs of nine decimal digits, and printing them. */
module DecimalLimbs {
  import opened Powers
  import opened Limbs
  import opened DecimalText

  const LIMB_BASE: nat := 1000000000

  /** One limb at least, and no leading zero limb behind which there are others. */
  ghost predicate WellFormed(l: seq<nat>) {
    l != [] && Digits(l, LIMB_BASE) && (|l| > 1 ==> Trimmed(l))
  }

  lemma {:induction false} NineDigits()
    ensures Pow(10, 9) == LIMB_BASE
  {
    assert Pow(10, 4) == 10000;
    PowAdd(10, 4, 4);
    PowAdd(10, 8, 1);
    assert Pow(10, 1) == 10;
  }

  lemma {:induction false} FirstNotZero(s: string, n: nat)
    requires Canonical(s) && Decimal(s) == n
    ensures n > 0 ==> s[0] != '0'
  {
    if |s| == 1 {
      assert s[..0] == [];
    }
  }

  /** The top limb as it is, every other limb in nine digits. */
  method Print(limbs: seq<nat>) returns (text: string)
    requires WellFormed(limbs)
    ensures Canonical(text) && Decimal(text) == Value(limbs, LIMB_BASE)
  {
    var i: nat := |limbs| - 1;
    text := TextOf(limbs[i]);
    ValueSuffix(limbs, i, LIMB_BASE);
    FirstNotZero(text, limbs[i]);
    while i > 0
      invariant i < |limbs| && AllDigits(text) && text != [] && Decimal(text) == Value(limbs[i..], LIMB_BASE)
      invariant |limbs| > 1 ==> text[0] != '0'
      invariant |limbs| == 1 ==> Canonical(text)
    {
      i := i - 1;
      NineDigits();
      var part := Padded(limbs[i], 9);
      DecimalJoined(text, part);
      ValueSuffix(limbs, i, LIMB_BASE);
      text := text + part;
    }
    assert limbs[0..] == limbs;
  }
}
