/** Rows of decimal digits and the numbers they spell. */
module DecimalText {
  import opened Powers

  function DigitOf(c: char): nat {
    if '0' <= c <= '9' then c as int - '0' as int else 0
  }

  ghost predicate AllDigits(s: string) {
    forall i :: 0 <= i < |s| ==> '0' <= s[i] <= '9'
  }

  /** The number a row of decimal digits spells. */
  function Decimal(s: string): nat {
    if s == [] then 0 else Decimal(s[..|s| - 1]) * 10 + DigitOf(s[|s| - 1])
  }

  lemma {:induction false} DecimalJoined(s: string, t: string)
    ensures Decimal(s + t) == Decimal(s) * Pow(10, |t|) + Decimal(t)
  {
    if t == [] {
      assert s + t == s;
    } else {
      var n: nat := |t| - 1;
      DecimalJoined(s, t[..n]);
      assert (s + t)[..|s| + n] == s + t[..n];
      MulAssociates(Decimal(s), 10, Pow(10, n));
      MulAssociates(Decimal(s), Pow(10, n), 10);
    }
  }

  lemma {:induction false} DecimalBelow(s: string)
    ensures Decimal(s) < Pow(10, |s|)
  {
    if s != [] {
      DecimalBelow(s[..|s| - 1]);
    }
  }

  /** No leading zero, except for zero itself. */
  ghost predicate Canonical(s: string) {
    AllDigits(s) && s != [] && (|s| > 1 ==> s[0] != '0')
  }

  lemma {:induction false} CanonicalAtLeast(s: string)
    requires Canonical(s) && |s| > 1
    ensures Pow(10, |s| - 1) <= Decimal(s)
  {
    var front := s[..|s| - 1];
    if |s| > 2 {
      CanonicalAtLeast(front);
    } else {
      assert front[..0] == [];
      assert Decimal(front) == DigitOf(s[0]) >= 1;
      assert Pow(10, 1) == 10;
    }
  }

  lemma {:induction false} CanonicalLength(s: string, t: string)
    requires Canonical(s) && Canonical(t) && |s| < |t|
    ensures Decimal(s) < Decimal(t)
  {
    DecimalBelow(s);
    CanonicalAtLeast(t);
    PowGrows(10, |s|, |t| - 1);
  }

  lemma {:induction false} LastDigit(x: nat, d: nat, y: nat, e: nat)
    requires d < 10 && e < 10 && x * 10 + d == y * 10 + e
    ensures x == y && d == e
  {
  }

  lemma {:induction false} SameLengthSameText(s: string, t: string)
    requires AllDigits(s) && AllDigits(t) && |s| == |t| && Decimal(s) == Decimal(t)
    ensures s == t
  {
    if s != [] {
      var n := |s| - 1;
      LastDigit(Decimal(s[..n]), DigitOf(s[n]), Decimal(t[..n]), DigitOf(t[n]));
      SameLengthSameText(s[..n], t[..n]);
      assert s == s[..n] + [s[n]] && t == t[..n] + [t[n]];
    }
  }

  /** A number has one canonical text. */
  lemma {:induction false} CanonicalUnique(s: string, t: string)
    requires Canonical(s) && Canonical(t) && Decimal(s) == Decimal(t)
    ensures s == t
  {
    if |s| < |t| {
      CanonicalLength(s, t);
    } else if |t| < |s| {
      CanonicalLength(t, s);
    } else {
      SameLengthSameText(s, t);
    }
  }

  function DigitChar(d: nat): char
    requires d < 10
  {
    d as char + '0'
  }

  /** The shortest text of n. */
  function TextOf(n: nat): (s: string)
    ensures Canonical(s) && Decimal(s) == n
  {
    if n < 10 then
      assert [DigitChar(n)][..0] == [];
      [DigitChar(n)]
    else
      var front := TextOf(n / 10);
      assert (front + [DigitChar(n % 10)])[..|front|] == front;
      assert front != "0";
      front + [DigitChar(n % 10)]
  }

  /** n in exactly w digits, zeros in front. */
  function Padded(n: nat, w: nat): (s: string)
    requires n < Pow(10, w)
    ensures AllDigits(s) && |s| == w && Decimal(s) == n
  {
    if w == 0 then []
    else
      var front := Padded(n / 10, w - 1);
      assert (front + [DigitChar(n % 10)])[..|front|] == front;
      front + [DigitChar(n % 10)]
  }
}
