/** How the parser reads numbers, words and opening brackets that stand at a position of a text. */
module JsonReading {
  import opened Options
  import opened JsonText

  predicate IsNonFinite(n: string) {
    n == "NaN" || n == "Infinity" || n == "-Infinity"
  }

  /** The text s stands at pos. */
  ghost predicate At(t: string, pos: nat, s: string) {
    pos + |s| <= |t| && forall k {:trigger s[k]} :: 0 <= k < |s| ==> t[pos + k] == s[k]
  }

  lemma {:induction false} AtSlice(t: string, pos: nat, s: string)
    requires At(t, pos, s)
    ensures t[pos..pos + |s|] == s
  {
  }

  lemma {:induction false} AtJoin(t: string, pos: nat, a: string, b: string)
    requires At(t, pos, a + b)
    ensures At(t, pos, a) && At(t, pos + |a|, b)
  {
    forall k | 0 <= k < |a| ensures t[pos + k] == a[k] {
      assert (a + b)[k] == a[k];
    }
    forall k | 0 <= k < |b| ensures t[pos + |a| + k] == b[k] {
      var j := |a| + k;
      assert (a + b)[j] == b[k];
    }
  }

  lemma {:induction false} AtJoin3(t: string, pos: nat, a: string, b: string, c: string)
    requires At(t, pos, a + b + c)
    ensures At(t, pos, a) && At(t, pos + |a|, b) && At(t, pos + |a| + |b|, c)
  {
    AtJoin(t, pos, a + b, c);
    AtJoin(t, pos, a, b);
  }

  lemma {:induction false} AtJoin5(t: string, pos: nat, a: string, b: string, c: string, d: string, e: string)
    requires At(t, pos, a + b + c + d + e)
    ensures At(t, pos, a) && At(t, pos + |a|, b) && At(t, pos + |a| + |b|, c)
    ensures At(t, pos + |a| + |b| + |c|, d) && At(t, pos + |a| + |b| + |c| + |d|, e)
  {
    AtJoin(t, pos, a + b + c + d, e);
    AtJoin(t, pos, a + b + c, d);
    AtJoin3(t, pos, a, b, c);
  }

  lemma {:induction false} AtChar(t: string, pos: nat, s: string, k: nat)
    requires At(t, pos, s) && k < |s|
    ensures pos + k < |t| && t[pos + k] == s[k]
  {
  }

  lemma {:induction false} AssociatesText(a: string, b: string, c: string)
    ensures a + b + c == a + (b + c)
  {
  }

  // ---- Spaces ----

  lemma {:induction false} SkipRun(t: string, pos: nat, n: nat)
    requires pos + n <= |t| && (forall k :: pos <= k < pos + n ==> IsSpace(t[k]))
    requires pos + n == |t| || !IsSpace(t[pos + n])
    ensures SkipSpace(t, pos) == pos + n
    decreases n
  {
    if n > 0 {
      SkipRun(t, pos + 1, n - 1);
    }
  }

  // ---- Numbers ----

  /** Nothing that could go on a number stands here. */
  predicate Stops(t: string, pos: nat) {
    pos >= |t| || !(IsDigit(t[pos]) || t[pos] == '.' || t[pos] == 'e' || t[pos] == 'E')
  }

  lemma {:induction false} SameChars(t: string, pos: nat, n: string, k: nat)
    requires At(t, pos, n) && Stops(t, pos + |n|)
    ensures k < |n| ==> pos + k < |t| && t[pos + k] == n[k]
    ensures k <= |n| ==> DigitAt(t, pos + k) == DigitAt(n, k)
  {
    if k < |n| {
      AtChar(t, pos, n, k);
    }
  }

  lemma {:induction false} DigitsRead(t: string, pos: nat, n: string, k: nat)
    requires At(t, pos, n) && Stops(t, pos + |n|) && k <= |n|
    ensures SkipDigits(t, pos + k) == pos + SkipDigits(n, k)
    decreases |n| - k
  {
    SameChars(t, pos, n, k);
    if DigitAt(n, k) {
      DigitsRead(t, pos, n, k + 1);
    }
  }

  lemma {:induction false} IntegerReads(t: string, pos: nat, n: string)
    requires At(t, pos, n) && Stops(t, pos + |n|) && n != []
    ensures SignEnd(t, pos) == pos + SignEnd(n, 0)
    ensures var i := IntegerEnd(n, SignEnd(n, 0));
      i.Some? ==> IntegerEnd(t, SignEnd(t, pos)) == Some(pos + i.value) && i.value <= |n|
  {
    SameChars(t, pos, n, 0);
    var k := SignEnd(n, 0);
    SameChars(t, pos, n, k);
    if k < |n| {
      DigitsRead(t, pos, n, k);
    }
  }

  lemma {:induction false} FractionReads(t: string, pos: nat, n: string, k: nat)
    requires At(t, pos, n) && Stops(t, pos + |n|) && k <= |n|
    ensures FractionEnd(t, pos + k) == pos + FractionEnd(n, k)
  {
    SameChars(t, pos, n, k);
    if k < |n| {
      SameChars(t, pos, n, k + 1);
      DigitsRead(t, pos, n, k + 1);
    }
  }

  lemma {:induction false} ExponentReads(t: string, pos: nat, n: string, k: nat)
    requires At(t, pos, n) && Stops(t, pos + |n|) && k <= |n| && ExponentEnd(n, k) == |n|
    ensures ExponentEnd(t, pos + k) == pos + |n|
  {
    SameChars(t, pos, n, k);
    if k < |n| {
      var p := ProbeExponent(n, k);
      SameChars(t, pos, n, k + 1);
      assert ProbeExponent(t, pos + k) == pos + p;
      SameChars(t, pos, n, p);
      DigitsRead(t, pos, n, p);
    }
  }

  lemma {:induction false} NumberReads(t: string, pos: nat, n: string)
    requires IsNumberText(n) && At(t, pos, n) && Stops(t, pos + |n|)
    ensures NumberEnd(t, pos) == Some(pos + |n|)
  {
    IntegerReads(t, pos, n);
    var i := IntegerEnd(n, SignEnd(n, 0)).value;
    FractionReads(t, pos, n, i);
    ExponentReads(t, pos, n, FractionEnd(n, i));
  }

  /** A number literal starts with a digit, or with a sign and a digit. */
  lemma {:induction false} NumberStarts(n: string)
    requires IsNumberText(n)
    ensures n != [] && (IsDigit(n[0]) || (n[0] == '-' && |n| > 1 && IsDigit(n[1])))
  {
  }

  lemma {:induction false} LiteralStarts(t: string, pos: nat, literal: string, k: nat)
    requires k < |literal| && (pos + k >= |t| || t[pos + k] != literal[k])
    ensures !LiteralAt(t, pos, literal)
  {
    if pos + |literal| <= |t| {
      assert t[pos..pos + |literal|][k] == t[pos + k];
    }
  }

  lemma {:induction false} NumberValueReads(o: ParseOptions, t: string, pos: nat, depth: nat, n: string)
    requires IsNumberText(n) && At(t, pos, n) && Stops(t, pos + |n|)
    ensures ValueAt(o, t, pos, depth) == Done(Number(n), pos + |n|)
  {
    NumberStarts(n);
    AtChar(t, pos, n, 0);
    if n[0] == '-' {
      AtChar(t, pos, n, 1);
    }
    NumberReads(t, pos, n);
    NumberScalar(o, t, pos, pos + |n|);
    AtSlice(t, pos, n);
  }

  lemma {:induction false} NumberScalar(o: ParseOptions, t: string, pos: nat, end: nat)
    requires pos < |t| && (IsDigit(t[pos]) || (t[pos] == '-' && DigitAt(t, pos + 1))) &&
      NumberEnd(t, pos) == Some(end) && end <= |t|
    ensures pos <= end && ScalarAt(o, t, pos) == Done(Number(t[pos..end]), end)
  {
    NumberMoves(t, pos);
    LiteralStarts(t, pos, "null", 0);
    LiteralStarts(t, pos, "true", 0);
    LiteralStarts(t, pos, "false", 0);
    LiteralStarts(t, pos, "NaN", 0);
    LiteralStarts(t, pos, "Infinity", 0);
    LiteralStarts(t, pos, "-Infinity", if t[pos] == '-' then 1 else 0);
  }

  lemma {:induction false} NonFiniteReads(o: ParseOptions, t: string, pos: nat, depth: nat, n: string)
    requires IsNonFinite(n) && o.pythonCompat && At(t, pos, n)
    ensures ValueAt(o, t, pos, depth) == Done(Number(n), pos + |n|)
  {
    AtChar(t, pos, n, 0);
    LiteralStarts(t, pos, "null", 0);
    LiteralStarts(t, pos, "true", 0);
    LiteralStarts(t, pos, "false", 0);
    if n[0] != 'N' {
      LiteralStarts(t, pos, "NaN", 0);
    }
    if n[0] == '-' {
      LiteralStarts(t, pos, "Infinity", 0);
    }
    assert t[pos..pos + |n|] == n;
  }

  lemma {:induction false} LiteralReads(o: ParseOptions, t: string, pos: nat, depth: nat, v: Json, pretty: bool,
      indent: nat)
    requires (v.Null? || v.Bool?) && At(t, pos, Text(v, pretty, indent))
    ensures ValueAt(o, t, pos, depth) == Done(v, pos + |Text(v, pretty, indent)|)
  {
    var s := Text(v, pretty, indent);
    AtChar(t, pos, s, 0);
    assert t[pos..pos + |s|] == s;
    if v != Null {
      LiteralStarts(t, pos, "null", 0);
    }
    if v == Bool(false) {
      LiteralStarts(t, pos, "true", 0);
    }
  }

  // ---- What the parser cuts out as a number ----

  /** n is the part of t from pos on. */
  ghost predicate Part(t: string, pos: nat, n: string) {
    pos + |n| <= |t| && n == t[pos..pos + |n|]
  }

  lemma {:induction false} PartDigits(t: string, pos: nat, n: string, k: nat)
    requires Part(t, pos, n) && k <= |n| && SkipDigits(t, pos + k) <= pos + |n|
    ensures SkipDigits(n, k) == SkipDigits(t, pos + k) - pos
    decreases |n| - k
  {
    if k < |n| && DigitAt(n, k) {
      PartDigits(t, pos, n, k + 1);
    }
  }

  lemma {:induction false} PartInteger(t: string, pos: nat, n: string, i: nat)
    requires Part(t, pos, n) && IntegerEnd(t, SignEnd(t, pos)) == Some(i) && i <= pos + |n|
    ensures pos < i && IntegerEnd(n, SignEnd(n, 0)) == Some(i - pos)
  {
    var k := SignEnd(t, pos) - pos;
    assert DigitAt(t, pos + k) && pos + k < i;
    assert n[0] == t[pos] && n[k] == t[pos + k];
    if t[pos + k] != '0' {
      PartDigits(t, pos, n, k);
    }
  }

  lemma {:induction false} PartFraction(t: string, pos: nat, n: string, k: nat, f: nat)
    requires Part(t, pos, n) && k <= |n| && FractionEnd(t, pos + k) == f <= pos + |n|
    requires k < |n| && t[pos + k] == '.' ==> DigitAt(t, pos + k + 1)
    ensures FractionEnd(n, k) == f - pos
  {
    if k < |n| && t[pos + k] == '.' {
      assert f == SkipDigits(t, pos + k + 1) && f > pos + k + 1;
      PartDigits(t, pos, n, k + 1);
      assert n[k + 1] == t[pos + k + 1];
    }
  }

  lemma {:induction false} PartExponent(t: string, pos: nat, n: string, k: nat)
    requires Part(t, pos, n) && k <= |n| && ExponentEnd(t, pos + k) == pos + |n|
    ensures ExponentEnd(n, k) == |n|
  {
    if k < |n| {
      var p := ProbeExponent(t, pos + k);
      assert DigitAt(t, p) && SkipDigits(t, p) == pos + |n| && p < pos + |n|;
      assert n[k] == t[pos + k] && n[k + 1] == t[pos + k + 1] && n[p - pos] == t[p];
      assert ProbeExponent(n, k) == p - pos;
      PartDigits(t, pos, n, p - pos);
    }
  }

  /** What the parser cuts out as a number is a number literal. */
  lemma {:induction false} NumberIsLiteral(t: string, pos: nat, end: nat)
    requires pos <= |t| && NumberEnd(t, pos) == Some(end)
    ensures pos < end <= |t| && IsNumberText(t[pos..end])
  {
    NumberMoves(t, pos);
    var i := IntegerEnd(t, SignEnd(t, pos)).value;
    var n := t[pos..end];
    PartInteger(t, pos, n, i);
    var f := FractionEnd(t, i);
    PartFraction(t, pos, n, i - pos, f);
    PartExponent(t, pos, n, f - pos);
  }

  // ---- Arrays and objects ----

  lemma {:induction false} ArrayOpens(o: ParseOptions, t: string, pos: nat, depth: nat, p: nat)
    requires pos < |t| && t[pos] == '[' && depth < MAX_DEPTH && SkipSpace(t, pos + 1) == p < |t| && t[p] != ']'
    ensures ValueAt(o, t, pos, depth) == ArrayRest(o, t, p, depth, [])
  {
  }

  lemma {:induction false} ObjectOpens(o: ParseOptions, t: string, pos: nat, depth: nat, p: nat)
    requires pos < |t| && t[pos] == '{' && depth < MAX_DEPTH && SkipSpace(t, pos + 1) == p < |t| && t[p] != '}'
    ensures ValueAt(o, t, pos, depth) == ObjectRest(o, t, p, depth, [])
  {
  }
}
