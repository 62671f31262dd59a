/**
 * The grammar of JSON as a relation between ranges of a text and values (sections 2 to 7 of RFC 8259, with the
 * options and the depth limit of the parser), and the theorem that the parser accepts exactly the texts it derives.
 * Where several readings of a text are conceivable the relation does not say which one to try.
 */
module JsonGrammar {
  import opened Options
  import opened JsonText
  import opened JsonReading

  // ---- Numbers ----

  ghost predicate DigitRun(n: string, from: nat, to: nat) {
    from < to <= |n| && forall k :: from <= k < to ==> IsDigit(n[k])
  }

  /** An optional sign up to a, an integer without a needless zero up to b, a fraction up to c, an exponent. */
  ghost predicate NumberParts(n: string, a: nat, b: nat, c: nat) {
    && a < b <= c <= |n|
    && (a == 0 || (a == 1 && n[0] == '-'))
    && DigitRun(n, a, b) && (n[a] == '0' ==> b == a + 1)
    && (b == c || (n[b] == '.' && DigitRun(n, b + 1, c)))
    && (c == |n| || (n[c] in {'e', 'E'} && ExponentPart(n, c + 1)))
  }

  ghost predicate ExponentPart(n: string, from: nat) {
    DigitRun(n, from, |n|) || (from < |n| && n[from] in {'+', '-'} && DigitRun(n, from + 1, |n|))
  }

  ghost predicate IsNumber(n: string) {
    exists a: nat, b: nat, c: nat :: NumberParts(n, a, b, c)
  }

  lemma {:induction false} SkipsRun(n: string, from: nat, to: nat)
    requires from <= to <= |n| && (forall k :: from <= k < to ==> IsDigit(n[k])) && (to == |n| || !IsDigit(n[to]))
    ensures SkipDigits(n, from) == to
    decreases |n| - from
  {
    if from < to {
      SkipsRun(n, from + 1, to);
    }
  }

  lemma {:induction false} SkippedRun(n: string, from: nat)
    requires from <= |n|
    ensures forall k :: from <= k < SkipDigits(n, from) ==> IsDigit(n[k])
    decreases |n| - from
  {
    if DigitAt(n, from) {
      SkippedRun(n, from + 1);
    }
  }

  lemma {:induction false} ExponentOfParts(n: string, c: nat)
    requires c <= |n| && (c == |n| || (n[c] in {'e', 'E'} && ExponentPart(n, c + 1)))
    ensures ExponentEnd(n, c) == |n|
  {
    if c < |n| {
      var p := ProbeExponent(n, c);
      assert DigitRun(n, p, |n|);
      SkipsRun(n, p, |n|);
    }
  }

  lemma {:induction false} ExponentHasParts(n: string, c: nat)
    requires c <= |n| && ExponentEnd(n, c) == |n|
    ensures c == |n| || (n[c] in {'e', 'E'} && ExponentPart(n, c + 1))
  {
    if c < |n| {
      SkippedRun(n, ProbeExponent(n, c));
    }
  }

  lemma {:induction false} FractionOfParts(n: string, a: nat, b: nat, c: nat)
    requires NumberParts(n, a, b, c)
    ensures FractionEnd(n, b) == c
  {
    if b < c {
      SkipsRun(n, b + 1, c);
    }
  }

  lemma {:induction false} IntegerOfParts(n: string, a: nat, b: nat, c: nat)
    requires NumberParts(n, a, b, c)
    ensures IntegerEnd(n, SignEnd(n, 0)) == Some(b)
  {
    assert IsDigit(n[a]);
    if n[a] != '0' {
      SkipsRun(n, a, b);
    }
  }

  /** The scanner accepts exactly the number literals. */
  lemma {:induction false} NumbersExactly(n: string)
    ensures IsNumberText(n) <==> IsNumber(n)
  {
    if IsNumber(n) {
      var a: nat, b: nat, c: nat :| NumberParts(n, a, b, c);
      IntegerOfParts(n, a, b, c);
      FractionOfParts(n, a, b, c);
      ExponentOfParts(n, c);
    }
    if IsNumberText(n) {
      var a := SignEnd(n, 0);
      var b := IntegerEnd(n, a).value;
      SkippedRun(n, a);
      assert a < b;
      var c := FractionEnd(n, b);
      if b < c {
        SkippedRun(n, b + 1);
      }
      ExponentHasParts(n, c);
      assert NumberParts(n, a, b, c);
    }
  }

  // ---- Strings ----

  predicate High(code: nat) {
    0xD800 <= code <= 0xDBFF
  }

  /** The escape of a low surrogate stands here. */
  predicate LowAt(t: string, pos: nat) {
    LiteralAt(t, pos, "\\u") && Hex4(t, pos + 2).Done? && 0xDC00 <= Hex4(t, pos + 2).value <= 0xDFFF
  }

  function ShortMeaning(c: char): Option<char> {
    if c in {'"', '\\', '/'} then Some(c)
    else if c == 'b' then Some(8 as char)
    else if c == 'f' then Some(12 as char)
    else if c == 'n' then Some('\n')
    else if c == 'r' then Some('\r')
    else if c == 't' then Some('\t')
    else None
  }

  ghost predicate IsPlain(o: ParseOptions, t: string, lo: nat, hi: nat, x: string) {
    && hi == lo + 1 <= |t| && t[lo] !in {'"', '\\'} && x == [t[lo]]
    && (o.strictControlChars ==> t[lo] as int >= 0x20)
  }

  ghost predicate IsShort(t: string, lo: nat, hi: nat, x: string) {
    hi == lo + 2 <= |t| && t[lo] == '\\' && ShortMeaning(t[lo + 1]).Some? && x == [ShortMeaning(t[lo + 1]).value]
  }

  /** A four-digit escape; a high surrogate before a low one is not taken alone. */
  ghost predicate IsCode(t: string, lo: nat, hi: nat, x: string) {
    && hi == lo + 6 && LiteralAt(t, lo, "\\u") && Hex4(t, lo + 2).Done?
    && x == Utf8(Hex4(t, lo + 2).value) && !(High(Hex4(t, lo + 2).value) && LowAt(t, hi))
  }

  /** Two escapes that are the surrogates of one code point. */
  ghost predicate IsPair(t: string, lo: nat, hi: nat, x: string) {
    && hi == lo + 12 && LiteralAt(t, lo, "\\u") && Hex4(t, lo + 2).Done? && High(Hex4(t, lo + 2).value)
    && LowAt(t, lo + 6)
    && x == Utf8(0x10000 + (Hex4(t, lo + 2).value - 0xD800) * 0x400 + (Hex4(t, lo + 8).value - 0xDC00))
  }

  ghost predicate IsPiece(o: ParseOptions, t: string, lo: nat, hi: nat, x: string) {
    IsPlain(o, t, lo, hi, x) || IsShort(t, lo, hi, x) || IsCode(t, lo, hi, x) || IsPair(t, lo, hi, x)
  }

  function Width(lo: nat, hi: nat): nat {
    if lo <= hi then hi - lo else 0
  }

  /** The characters between the quotes, and what they stand for. */
  ghost predicate IsBody(o: ParseOptions, t: string, lo: nat, hi: nat, s: string)
    decreases Width(lo, hi)
  {
    || (lo == hi && s == [])
    || exists mid: nat, x: string, rest: string ::
      lo < mid <= hi && IsPiece(o, t, lo, mid, x) && s == x + rest && IsBody(o, t, mid, hi, rest)
  }

  ghost predicate IsString(o: ParseOptions, t: string, lo: nat, hi: nat, s: string) {
    lo + 2 <= hi <= |t| && t[lo] == '"' && t[hi - 1] == '"' && IsBody(o, t, lo + 1, hi - 1, s)
  }

  lemma {:induction false} LiteralTwo(t: string, pos: nat)
    ensures LiteralAt(t, pos, "\\u") <==> pos + 2 <= |t| && t[pos] == '\\' && t[pos + 1] == 'u'
  {
    if pos + 2 <= |t| {
      assert t[pos..pos + 2] == [t[pos], t[pos + 1]];
      assert "\\u" == ['\\', 'u'];
    }
  }

  /** An escape the parser reads is a piece. */
  lemma {:induction false} EscapeIsPiece(o: ParseOptions, t: string, lo: nat)
    requires lo < |t| && t[lo] == '\\' && EscapeAt(t, lo + 1).Done?
    ensures IsPiece(o, t, lo, EscapeAt(t, lo + 1).pos, EscapeAt(t, lo + 1).value)
  {
    LiteralTwo(t, lo);
    var e := EscapeAt(t, lo + 1);
    if t[lo + 1] == 'u' {
      LiteralTwo(t, lo + 6);
      assert IsCode(t, lo, e.pos, e.value) || IsPair(t, lo, e.pos, e.value);
    } else {
      assert IsShort(t, lo, e.pos, e.value);
    }
  }

  /** The parser reads an escape piece, unless a broken escape follows a high surrogate. */
  lemma {:induction false} PieceIsEscape(t: string, lo: nat, hi: nat, x: string)
    requires IsShort(t, lo, hi, x) || IsCode(t, lo, hi, x) || IsPair(t, lo, hi, x)
    requires LiteralAt(t, hi, "\\u") ==> Hex4(t, hi + 2).Done?
    ensures lo < |t| && t[lo] == '\\' && EscapeAt(t, lo + 1) == Done(x, hi)
  {
    LiteralTwo(t, lo);
    LiteralTwo(t, lo + 6);
  }

  /** A backslash and u inside a body start a whole escape. */
  lemma {:induction false} BodyGoesOn(o: ParseOptions, t: string, lo: nat, hi: nat, s: string)
    requires IsBody(o, t, lo, hi, s) && hi < |t| && t[hi] == '"' && LiteralAt(t, lo, "\\u")
    ensures Hex4(t, lo + 2).Done?
  {
    LiteralTwo(t, lo);
    var mid: nat, x: string, rest: string :|
      lo < mid <= hi && IsPiece(o, t, lo, mid, x) && s == x + rest && IsBody(o, t, mid, hi, rest);
  }

  lemma {:induction false} BodyReads(o: ParseOptions, t: string, lo: nat, hi: nat, s: string, out: string)
    requires lo <= hi < |t| && IsBody(o, t, lo, hi, s) && t[hi] == '"'
    ensures StringRest(o, t, lo, out) == Done(out + s, hi + 1)
    decreases |t| - lo
  {
    if lo == hi && s == [] {
      assert out + s == out;
    } else {
      var mid: nat, x: string, rest: string :|
        lo < mid <= hi && IsPiece(o, t, lo, mid, x) && s == x + rest && IsBody(o, t, mid, hi, rest);
      PieceReads(o, t, lo, mid, hi, x, rest, out);
      BodyReads(o, t, mid, hi, rest, out + x);
      AssociatesText(out, x, rest);
    }
  }

  lemma {:induction false} PieceReads(o: ParseOptions, t: string, lo: nat, mid: nat, hi: nat, x: string, rest: string,
      out: string)
    requires lo < mid <= hi < |t| && t[hi] == '"' && IsPiece(o, t, lo, mid, x) && IsBody(o, t, mid, hi, rest)
    ensures StringRest(o, t, lo, out) == StringRest(o, t, mid, out + x)
  {
    if !IsPlain(o, t, lo, mid, x) {
      if LiteralAt(t, mid, "\\u") {
        BodyGoesOn(o, t, mid, hi, rest);
      }
      PieceIsEscape(t, lo, mid, x);
    }
  }

  lemma {:induction false} BodyOfRest(o: ParseOptions, t: string, lo: nat, out: string) returns (s: string)
    requires StringRest(o, t, lo, out).Done?
    ensures var r := StringRest(o, t, lo, out);
      r.value == out + s && lo < r.pos <= |t| && t[r.pos - 1] == '"' && IsBody(o, t, lo, r.pos - 1, s)
    decreases |t| - lo
  {
    if t[lo] == '"' {
      s := [];
      assert out + s == out;
    } else if t[lo] == '\\' {
      var e := EscapeAt(t, lo + 1);
      EscapeIsPiece(o, t, lo);
      var rest := BodyOfRest(o, t, e.pos, out + e.value);
      s := e.value + rest;
      AssociatesText(out, e.value, rest);
    } else {
      var x := [t[lo]];
      var rest := BodyOfRest(o, t, lo + 1, out + x);
      s := x + rest;
      assert IsPiece(o, t, lo, lo + 1, x);
      AssociatesText(out, x, rest);
    }
  }

  lemma {:induction false} StringsExactly(o: ParseOptions, t: string, lo: nat, hi: nat, s: string)
    requires lo < |t| && t[lo] == '"'
    ensures StringRest(o, t, lo + 1, []) == Done(s, hi) <==> IsString(o, t, lo, hi, s)
  {
    if IsString(o, t, lo, hi, s) {
      BodyReads(o, t, lo + 1, hi - 1, s, []);
      assert [] + s == s;
    }
    if StringRest(o, t, lo + 1, []) == Done(s, hi) {
      var body := BodyOfRest(o, t, lo + 1, []);
      assert [] + body == body;
    }
  }

  // ---- Values ----

  ghost predicate OnlySpaces(t: string, lo: nat, hi: nat) {
    lo <= hi <= |t| && forall k :: lo <= k < hi ==> IsSpace(t[k])
  }

  /** A word of the language stands in the range. */
  ghost predicate IsWord(o: ParseOptions, s: string, v: Json) {
    match v
    case Null => s == "null"
    case Bool(b) => s == if b then "true" else "false"
    case Number(n) => s == n && (IsNumber(n) || (o.pythonCompat && IsNonFinite(n)))
    case _ => false
  }

  /** The range is a text of the value, `depth` arrays and objects deep. */
  ghost predicate IsValue(o: ParseOptions, t: string, lo: nat, hi: nat, depth: nat, v: Json)
    decreases Width(lo, hi), 0
  {
    && lo < hi <= |t|
    && match v
       case String(s) => IsString(o, t, lo, hi, s)
       case Array(items) => t[lo] == '[' && depth < MAX_DEPTH &&
         if items == [] then IsEmpty(t, lo + 1, hi, ']') else IsItems(o, t, lo + 1, hi, depth, items)
       case Object(members) => t[lo] == '{' && depth < MAX_DEPTH &&
         if members == [] then IsEmpty(t, lo + 1, hi, '}')
         else exists raw: seq<(string, Json)> :: IsMembers(o, t, lo + 1, hi, depth, raw) && members == SetAll([], raw)
       case _ => IsWord(o, t[lo..hi], v)
  }

  ghost predicate IsEmpty(t: string, lo: nat, hi: nat, close: char) {
    lo < hi <= |t| && OnlySpaces(t, lo, hi - 1) && t[hi - 1] == close
  }

  /** Behind a bracket or a comma: spaces and the items. */
  ghost predicate IsItems(o: ParseOptions, t: string, lo: nat, hi: nat, depth: nat, items: seq<Json>)
    decreases Width(lo, hi), 3
  {
    exists p: nat :: lo <= p && OnlySpaces(t, lo, p) && FromItem(o, t, p, hi, depth, items)
  }

  /** An item and what follows it. */
  ghost predicate FromItem(o: ParseOptions, t: string, p: nat, hi: nat, depth: nat, items: seq<Json>)
    decreases Width(p, hi), 2
  {
    items != [] && exists q: nat ::
      p < q < hi && IsValue(o, t, p, q, depth + 1, items[0]) && BehindItem(o, t, q, hi, depth, items[1..])
  }

  /** Spaces, and the closing bracket or a comma and the other items. */
  ghost predicate BehindItem(o: ParseOptions, t: string, q: nat, hi: nat, depth: nat, others: seq<Json>)
    decreases Width(q, hi), 1
  {
    exists r: nat :: q <= r < hi <= |t| && OnlySpaces(t, q, r) &&
      if others == [] then t[r] == ']' && r + 1 == hi else t[r] == ',' && IsItems(o, t, r + 1, hi, depth, others)
  }

  /** A key at p, its colon, and the value's place at c. */
  ghost predicate IsKey(o: ParseOptions, t: string, p: nat, c: nat, key: string) {
    exists k: nat :: p < k < c && IsString(o, t, p, k, key) && BehindKey(t, k, c)
  }

  ghost predicate BehindKey(t: string, k: nat, c: nat) {
    exists m: nat :: k <= m < c <= |t| && OnlySpaces(t, k, m) && t[m] == ':' && OnlySpaces(t, m + 1, c)
  }

  /** The members as they stand in the text, known keys repeated. */
  ghost predicate IsMembers(o: ParseOptions, t: string, lo: nat, hi: nat, depth: nat, raw: seq<(string, Json)>)
    decreases Width(lo, hi), 3
  {
    exists p: nat :: lo <= p && OnlySpaces(t, lo, p) && FromKey(o, t, p, hi, depth, raw)
  }

  ghost predicate FromKey(o: ParseOptions, t: string, p: nat, hi: nat, depth: nat, raw: seq<(string, Json)>)
    decreases Width(p, hi), 2
  {
    raw != [] && exists c: nat :: p < c < hi && IsKey(o, t, p, c, raw[0].0) && FromValue(o, t, c, hi, depth, raw)
  }

  ghost predicate FromValue(o: ParseOptions, t: string, c: nat, hi: nat, depth: nat, raw: seq<(string, Json)>)
    decreases Width(c, hi), 2
  {
    raw != [] && exists q: nat ::
      c < q < hi && IsValue(o, t, c, q, depth + 1, raw[0].1) && BehindMember(o, t, q, hi, depth, raw[1..])
  }

  ghost predicate BehindMember(o: ParseOptions, t: string, q: nat, hi: nat, depth: nat, others: seq<(string, Json)>)
    decreases Width(q, hi), 1
  {
    exists r: nat :: q <= r < hi <= |t| && OnlySpaces(t, q, r) &&
      if others == [] then t[r] == '}' && r + 1 == hi else t[r] == ',' && IsMembers(o, t, r + 1, hi, depth, others)
  }

  /** What the members mean: the last value of a key, in the place of its first one. */
  function SetAll(members: seq<(string, Json)>, raw: seq<(string, Json)>): seq<(string, Json)>
    decreases |raw|
  {
    if raw == [] then members else SetAll(Set(members, raw[0].0, raw[0].1), raw[1..])
  }

  ghost predicate IsDocument(o: ParseOptions, t: string, lo: nat, hi: nat, v: Json) {
    OnlySpaces(t, 0, lo) && IsValue(o, t, lo, hi, 0, v) && OnlySpaces(t, hi, |t|)
  }

  // ---- What is derived is read ----

  lemma {:induction false} SkipsSpaces(t: string, lo: nat, p: nat)
    requires OnlySpaces(t, lo, p) && (p == |t| || !IsSpace(t[p]))
    ensures SkipSpace(t, lo) == p
  {
    SkipRun(t, lo, p - lo);
  }

  lemma {:induction false} SliceStands(t: string, lo: nat, hi: nat)
    requires lo <= hi <= |t|
    ensures At(t, lo, t[lo..hi])
  {
  }

  lemma {:induction false} WordStarts(o: ParseOptions, s: string, v: Json)
    requires IsWord(o, s, v)
    ensures s != [] && !IsSpace(s[0]) && s[0] !in {']', '}', '[', '{', '"'}
  {
    if v.Number? && IsNumber(s) {
      NumbersExactly(s);
      NumberStarts(s);
    }
  }

  lemma {:induction false} DerivedStarts(o: ParseOptions, t: string, lo: nat, hi: nat, depth: nat, v: Json)
    requires IsValue(o, t, lo, hi, depth, v)
    ensures lo < |t| && !IsSpace(t[lo]) && t[lo] !in {']', '}'}
  {
    if v.Null? || v.Bool? || v.Number? {
      WordStarts(o, t[lo..hi], v);
      assert t[lo..hi][0] == t[lo];
    }
  }

  lemma {:induction false} WordReads(o: ParseOptions, t: string, lo: nat, hi: nat, depth: nat, v: Json)
    requires lo <= hi <= |t| && IsWord(o, t[lo..hi], v) && Stops(t, hi)
    ensures ValueAt(o, t, lo, depth) == Done(v, hi)
  {
    SliceStands(t, lo, hi);
    if v.Number? {
      NumbersExactly(v.number);
      if IsNumber(v.number) {
        NumberValueReads(o, t, lo, depth, v.number);
      } else {
        NonFiniteReads(o, t, lo, depth, v.number);
      }
    } else {
      LiteralReads(o, t, lo, depth, v, false, 0);
    }
  }

  lemma {:induction false} StringValueReads(o: ParseOptions, t: string, lo: nat, hi: nat, depth: nat, s: string)
    requires IsString(o, t, lo, hi, s)
    ensures ValueAt(o, t, lo, depth) == Done(String(s), hi)
  {
    StringsExactly(o, t, lo, hi, s);
  }

  lemma {:induction false} BehindKeyIsRead(t: string, e: nat, c: nat)
    requires BehindKey(t, e, c) && c < |t| && !IsSpace(t[c])
    ensures e <= |t| && SkipSpace(t, e) < |t| && t[SkipSpace(t, e)] == ':' && SkipSpace(t, SkipSpace(t, e) + 1) == c
  {
    var m: nat :| e <= m < c <= |t| && OnlySpaces(t, e, m) && t[m] == ':' && OnlySpaces(t, m + 1, c);
    SkipsSpaces(t, e, m);
    SkipsSpaces(t, m + 1, c);
  }

  lemma {:induction false} KeyStringIsRead(o: ParseOptions, t: string, p: nat, e: nat, key: string)
    requires IsString(o, t, p, e, key) && SkipSpace(t, e) < |t| && t[SkipSpace(t, e)] == ':'
    ensures t[p] == '"' && KeyAt(o, t, p) == Done(key, SkipSpace(t, e) + 1)
  {
    StringsExactly(o, t, p, e, key);
  }

  lemma {:induction false} KeyIsRead(o: ParseOptions, t: string, p: nat, c: nat, key: string) returns (k: nat)
    requires IsKey(o, t, p, c, key) && c < |t| && !IsSpace(t[c])
    ensures p < |t| && t[p] == '"' && KeyAt(o, t, p) == Done(key, k) && k <= |t| && SkipSpace(t, k) == c
  {
    var e: nat :| p < e < c && IsString(o, t, p, e, key) && BehindKey(t, e, c);
    BehindKeyIsRead(t, e, c);
    KeyStringIsRead(o, t, p, e, key);
    k := SkipSpace(t, e) + 1;
  }

  lemma {:induction false} EmptyIsRead(o: ParseOptions, t: string, lo: nat, hi: nat, depth: nat, v: Json)
    requires v in {Array([]), Object([])} && IsValue(o, t, lo, hi, depth, v)
    ensures ValueAt(o, t, lo, depth) == Done(v, hi)
  {
    SkipsSpaces(t, lo + 1, hi - 1);
  }

  lemma {:induction false} DerivedIsRead(o: ParseOptions, t: string, lo: nat, hi: nat, depth: nat, v: Json)
    requires IsValue(o, t, lo, hi, depth, v) && Stops(t, hi)
    ensures ValueAt(o, t, lo, depth) == Done(v, hi)
    decreases Width(lo, hi), 0
  {
    match v
    case String(s) => StringValueReads(o, t, lo, hi, depth, s);
    case Array(items) =>
      if items == [] {
        EmptyIsRead(o, t, lo, hi, depth, v);
      } else {
        var p := ItemsAreRead(o, t, lo + 1, hi, depth, items, []);
        assert [] + items == items;
        ArrayOpens(o, t, lo, depth, p);
      }
    case Object(members) =>
      if members == [] {
        EmptyIsRead(o, t, lo, hi, depth, v);
      } else {
        var raw :| IsMembers(o, t, lo + 1, hi, depth, raw) && members == SetAll([], raw);
        var p := MembersAreRead(o, t, lo + 1, hi, depth, raw, []);
        ObjectOpens(o, t, lo, depth, p);
      }
    case _ => WordReads(o, t, lo, hi, depth, v);
  }

  lemma {:induction false} ArrayFrom(o: ParseOptions, t: string, lo: nat, p: nat, depth: nat, before: seq<Json>)
    requires lo <= |t| && p <= |t| && SkipSpace(t, lo) == p == SkipSpace(t, p)
    ensures ArrayRest(o, t, lo, depth, before) == ArrayRest(o, t, p, depth, before)
  {
  }

  lemma {:induction false} NothingAdded(before: seq<Json>, others: seq<Json>)
    requires others == []
    ensures before + others == before
  {
  }

  lemma {:induction false} BehindItemPlace(o: ParseOptions, t: string, q: nat, hi: nat, depth: nat, others: seq<Json>)
    returns (r: nat)
    requires BehindItem(o, t, q, hi, depth, others)
    ensures Stops(t, q) && q <= r < hi <= |t| && SkipSpace(t, q) == r
    ensures others == [] ==> t[r] == ']' && r + 1 == hi
    ensures others != [] ==> t[r] == ',' && IsItems(o, t, r + 1, hi, depth, others)
  {
    r :| q <= r < hi <= |t| && OnlySpaces(t, q, r) &&
      if others == [] then t[r] == ']' && r + 1 == hi else t[r] == ',' && IsItems(o, t, r + 1, hi, depth, others);
    SkipsSpaces(t, q, r);
  }

  /** The items from lo on are read, with the spaces in front of them or without. */
  lemma {:induction false} ItemsAreRead(o: ParseOptions, t: string, lo: nat, hi: nat, depth: nat, items: seq<Json>,
      before: seq<Json>)
    returns (p: nat)
    requires IsItems(o, t, lo, hi, depth, items)
    ensures lo <= p < |t| && SkipSpace(t, lo) == p && t[p] != ']'
    ensures ArrayRest(o, t, lo, depth, before) == Done(Array(before + items), hi)
    ensures ArrayRest(o, t, p, depth, before) == Done(Array(before + items), hi)
    decreases Width(lo, hi), 3
  {
    p :| lo <= p && OnlySpaces(t, lo, p) && FromItem(o, t, p, hi, depth, items);
    FromItemIsRead(o, t, p, hi, depth, items, before);
    SkipsSpaces(t, lo, p);
    SkipsSpaces(t, p, p);
    ArrayFrom(o, t, lo, p, depth, before);
  }

  lemma {:induction false} FromItemIsRead(o: ParseOptions, t: string, p: nat, hi: nat, depth: nat, items: seq<Json>,
      before: seq<Json>)
    requires FromItem(o, t, p, hi, depth, items)
    ensures p < |t| && !IsSpace(t[p]) && t[p] != ']'
    ensures ArrayRest(o, t, p, depth, before) == Done(Array(before + items), hi)
    decreases Width(p, hi), 2
  {
    var v := items[0];
    var q: nat :| p < q < hi && IsValue(o, t, p, q, depth + 1, v) && BehindItem(o, t, q, hi, depth, items[1..]);
    var _ := BehindItemPlace(o, t, q, hi, depth, items[1..]);
    DerivedStarts(o, t, p, q, depth + 1, v);
    DerivedIsRead(o, t, p, q, depth + 1, v);
    BehindItemIsRead(o, t, q, hi, depth, items[1..], before + [v]);
    SkipsSpaces(t, p, p);
    ArrayOfParts(o, t, p, q, depth, v, before);
    assert before + [v] + items[1..] == before + items;
  }

  lemma {:induction false} ArrayOfParts(o: ParseOptions, t: string, p: nat, q: nat, depth: nat, v: Json,
      before: seq<Json>)
    requires p <= |t| && SkipSpace(t, p) == p && ValueAt(o, t, p, depth + 1) == Done(v, q)
    ensures q <= |t| && ArrayRest(o, t, p, depth, before) == AfterItem(o, t, SkipSpace(t, q), depth, before + [v])
  {
  }

  lemma {:induction false} AfterItemAt(o: ParseOptions, t: string, r: nat, depth: nat, before: seq<Json>)
    requires r < |t|
    ensures t[r] == ',' ==> AfterItem(o, t, r, depth, before) == ArrayRest(o, t, r + 1, depth, before)
    ensures t[r] == ']' ==> AfterItem(o, t, r, depth, before) == Done(Array(before), r + 1)
  {
  }

  lemma {:induction false} BehindItemIsRead(o: ParseOptions, t: string, q: nat, hi: nat, depth: nat, others: seq<Json>,
      before: seq<Json>)
    requires BehindItem(o, t, q, hi, depth, others)
    ensures q <= |t| && AfterItem(o, t, SkipSpace(t, q), depth, before) == Done(Array(before + others), hi)
    decreases Width(q, hi), 1
  {
    var r := BehindItemPlace(o, t, q, hi, depth, others);
    AfterItemAt(o, t, r, depth, before);
    if others == [] {
      NothingAdded(before, others);
    } else {
      var _ := ItemsAreRead(o, t, r + 1, hi, depth, others, before);
    }
  }

  lemma {:induction false} ObjectFrom(o: ParseOptions, t: string, lo: nat, p: nat, depth: nat,
      before: seq<(string, Json)>)
    requires lo <= |t| && p <= |t| && SkipSpace(t, lo) == p == SkipSpace(t, p)
    ensures ObjectRest(o, t, lo, depth, before) == ObjectRest(o, t, p, depth, before)
  {
  }

  lemma {:induction false} BehindMemberPlace(o: ParseOptions, t: string, q: nat, hi: nat, depth: nat,
      others: seq<(string, Json)>)
    returns (r: nat)
    requires BehindMember(o, t, q, hi, depth, others)
    ensures Stops(t, q) && q <= r < hi <= |t| && SkipSpace(t, q) == r
    ensures others == [] ==> t[r] == '}' && r + 1 == hi
    ensures others != [] ==> t[r] == ',' && IsMembers(o, t, r + 1, hi, depth, others)
  {
    r :| q <= r < hi <= |t| && OnlySpaces(t, q, r) &&
      if others == [] then t[r] == '}' && r + 1 == hi else t[r] == ',' && IsMembers(o, t, r + 1, hi, depth, others);
    SkipsSpaces(t, q, r);
  }

  lemma {:induction false} MembersAreRead(o: ParseOptions, t: string, lo: nat, hi: nat, depth: nat,
      raw: seq<(string, Json)>, before: seq<(string, Json)>)
    returns (p: nat)
    requires IsMembers(o, t, lo, hi, depth, raw)
    ensures lo <= p < |t| && SkipSpace(t, lo) == p && t[p] != '}'
    ensures ObjectRest(o, t, lo, depth, before) == Done(Object(SetAll(before, raw)), hi)
    ensures ObjectRest(o, t, p, depth, before) == Done(Object(SetAll(before, raw)), hi)
    decreases Width(lo, hi), 3
  {
    p :| lo <= p && OnlySpaces(t, lo, p) && FromKey(o, t, p, hi, depth, raw);
    FromKeyIsRead(o, t, p, hi, depth, raw, before);
    SkipsSpaces(t, lo, p);
    SkipsSpaces(t, p, p);
    ObjectFrom(o, t, lo, p, depth, before);
  }

  lemma {:induction false} FromKeyIsRead(o: ParseOptions, t: string, p: nat, hi: nat, depth: nat,
      raw: seq<(string, Json)>, before: seq<(string, Json)>)
    requires FromKey(o, t, p, hi, depth, raw)
    ensures p < |t| && t[p] == '"' && ObjectRest(o, t, p, depth, before) == Done(Object(SetAll(before, raw)), hi)
    decreases Width(p, hi), 2
  {
    var c: nat :| p < c < hi && IsKey(o, t, p, c, raw[0].0) && FromValue(o, t, c, hi, depth, raw);
    var q := FromValueIsRead(o, t, c, hi, depth, raw, Set(before, raw[0].0, raw[0].1));
    var k := KeyIsRead(o, t, p, c, raw[0].0);
    SkipsSpaces(t, p, p);
    ObjectOfParts(o, t, p, k, c, q, depth, raw[0], before);
  }

  lemma {:induction false} ObjectOfParts(o: ParseOptions, t: string, p: nat, k: nat, c: nat, q: nat, depth: nat,
      m: (string, Json), before: seq<(string, Json)>)
    requires p <= |t| && SkipSpace(t, p) == p && KeyAt(o, t, p) == Done(m.0, k) && k <= |t| && SkipSpace(t, k) == c
    requires ValueAt(o, t, c, depth + 1) == Done(m.1, q)
    ensures q <= |t|
    ensures ObjectRest(o, t, p, depth, before) == AfterMember(o, t, SkipSpace(t, q), depth, Set(before, m.0, m.1))
  {
    assert MemberAt(o, t, p, depth) == Done(m, SkipSpace(t, q));
  }

  lemma {:induction false} FromValueIsRead(o: ParseOptions, t: string, c: nat, hi: nat, depth: nat,
      raw: seq<(string, Json)>, before: seq<(string, Json)>)
    returns (q: nat)
    requires FromValue(o, t, c, hi, depth, raw)
    ensures c < |t| && !IsSpace(t[c]) && ValueAt(o, t, c, depth + 1) == Done(raw[0].1, q) && q <= |t|
    ensures AfterMember(o, t, SkipSpace(t, q), depth, before) == Done(Object(SetAll(before, raw[1..])), hi)
    decreases Width(c, hi), 2
  {
    q :| c < q < hi && IsValue(o, t, c, q, depth + 1, raw[0].1) && BehindMember(o, t, q, hi, depth, raw[1..]);
    var _ := BehindMemberPlace(o, t, q, hi, depth, raw[1..]);
    DerivedStarts(o, t, c, q, depth + 1, raw[0].1);
    DerivedIsRead(o, t, c, q, depth + 1, raw[0].1);
    BehindMemberIsRead(o, t, q, hi, depth, raw[1..], before);
  }

  lemma {:induction false} BehindMemberIsRead(o: ParseOptions, t: string, q: nat, hi: nat, depth: nat,
      others: seq<(string, Json)>, before: seq<(string, Json)>)
    requires BehindMember(o, t, q, hi, depth, others)
    ensures q <= |t| && AfterMember(o, t, SkipSpace(t, q), depth, before) == Done(Object(SetAll(before, others)), hi)
    decreases Width(q, hi), 1
  {
    var r := BehindMemberPlace(o, t, q, hi, depth, others);
    if others != [] {
      var _ := MembersAreRead(o, t, r + 1, hi, depth, others, before);
    }
  }

  // ---- What is read is derived ----

  lemma {:induction false} SkippedSpaces(t: string, lo: nat)
    requires lo <= |t|
    ensures OnlySpaces(t, lo, SkipSpace(t, lo))
    decreases |t| - lo
  {
    if lo < |t| && IsSpace(t[lo]) {
      SkippedSpaces(t, lo + 1);
    }
  }

  lemma {:induction false} ScalarIsDerived(o: ParseOptions, t: string, lo: nat, depth: nat)
    requires lo < |t| && ScalarAt(o, t, lo).Done?
    ensures var r := ScalarAt(o, t, lo); IsValue(o, t, lo, r.pos, depth, r.value)
  {
    if NumberEnd(t, lo).Some? {
      NumberIsWord(o, t, lo);
    }
    ScalarIsWord(o, t, lo);
  }

  lemma {:induction false} NumberIsWord(o: ParseOptions, t: string, lo: nat)
    requires lo < |t| && NumberEnd(t, lo).Some?
    ensures var end := NumberEnd(t, lo).value; lo < end <= |t| && IsWord(o, t[lo..end], Number(t[lo..end]))
  {
    var end := NumberEnd(t, lo).value;
    NumberIsLiteral(t, lo, end);
    NumbersExactly(t[lo..end]);
  }

  lemma {:induction false} ScalarIsWord(o: ParseOptions, t: string, lo: nat)
    requires lo < |t| && ScalarAt(o, t, lo).Done?
    requires var end := NumberEnd(t, lo);
      end.Some? ==> lo < end.value <= |t| && IsWord(o, t[lo..end.value], Number(t[lo..end.value]))
    ensures var r := ScalarAt(o, t, lo); IsWord(o, t[lo..r.pos], r.value)
  {
  }

  lemma {:induction false} ReadIsDerived(o: ParseOptions, t: string, lo: nat, depth: nat)
    requires lo <= |t| && ValueAt(o, t, lo, depth).Done?
    ensures var r := ValueAt(o, t, lo, depth); IsValue(o, t, lo, r.pos, depth, r.value)
    decreases |t| - lo, 1
  {
    var r := ValueAt(o, t, lo, depth);
    if t[lo] == '{' {
      var p := SkipSpace(t, lo + 1);
      SkippedSpaces(t, lo + 1);
      if !(p < |t| && t[p] == '}') {
        var raw := MembersAreDerived(o, t, lo + 1, p, depth, []);
        SetAllKeeps([], raw);
      }
    } else if t[lo] == '[' {
      var p := SkipSpace(t, lo + 1);
      SkippedSpaces(t, lo + 1);
      if !(p < |t| && t[p] == ']') {
        var items := ItemsAreDerived(o, t, lo + 1, p, depth, []);
        assert [] + items == items;
      }
    } else if t[lo] == '"' {
      StringsExactly(o, t, lo, r.pos, r.value.text);
    } else {
      ScalarIsDerived(o, t, lo, depth);
    }
  }

  lemma {:induction false} SetAllKeeps(members: seq<(string, Json)>, raw: seq<(string, Json)>)
    requires members != [] || raw != []
    ensures SetAll(members, raw) != []
    decreases |raw|
  {
    if raw != [] {
      SetAllKeeps(Set(members, raw[0].0, raw[0].1), raw[1..]);
    }
  }

  lemma {:induction false} JoinSpaces(t: string, lo: nat, mid: nat, hi: nat)
    requires OnlySpaces(t, lo, mid) && OnlySpaces(t, mid, hi)
    ensures OnlySpaces(t, lo, hi)
  {
  }

  lemma {:induction false} ItemsFromItem(o: ParseOptions, t: string, lo: nat, p: nat, hi: nat, depth: nat,
      items: seq<Json>)
    requires OnlySpaces(t, lo, p) && FromItem(o, t, p, hi, depth, items)
    ensures IsItems(o, t, lo, hi, depth, items)
  {
  }

  lemma {:induction false} ItemFirst(o: ParseOptions, t: string, p: nat, q: nat, hi: nat, depth: nat, v: Json,
      others: seq<Json>)
    requires q < hi && IsValue(o, t, p, q, depth + 1, v) && BehindItem(o, t, q, hi, depth, others)
    ensures FromItem(o, t, p, hi, depth, [v] + others)
  {
    assert ([v] + others)[1..] == others;
  }

  /** What the array parser reads from p on, behind spaces from lo on. */
  lemma {:induction false} ItemsAreDerived(o: ParseOptions, t: string, lo: nat, p: nat, depth: nat, before: seq<Json>)
    returns (items: seq<Json>)
    requires OnlySpaces(t, lo, p) && ArrayRest(o, t, p, depth, before).Done?
    ensures var r := ArrayRest(o, t, p, depth, before);
      r.value == Array(before + items) && IsItems(o, t, lo, r.pos, depth, items)
    decreases |t| - p, 3
  {
    var start := SkipSpace(t, p);
    var v := ValueAt(o, t, start, depth + 1);
    SkippedSpaces(t, p);
    JoinSpaces(t, lo, p, start);
    ReadIsDerived(o, t, start, depth + 1);
    var others := BehindItemIsDerived(o, t, v.pos, depth, before + [v.value]);
    items := [v.value] + others;
    assert before + [v.value] + others == before + items;
    var hi := AfterItem(o, t, SkipSpace(t, v.pos), depth, before + [v.value]).pos;
    ItemFirst(o, t, start, v.pos, hi, depth, v.value, others);
    ItemsFromItem(o, t, lo, start, hi, depth, items);
  }

  lemma {:induction false} BehindItemIsDerived(o: ParseOptions, t: string, q: nat, depth: nat, before: seq<Json>)
    returns (others: seq<Json>)
    requires q <= |t| && AfterItem(o, t, SkipSpace(t, q), depth, before).Done?
    ensures var r := AfterItem(o, t, SkipSpace(t, q), depth, before);
      q < r.pos && r.value == Array(before + others) && BehindItem(o, t, q, r.pos, depth, others)
    decreases |t| - q, 4
  {
    var r := SkipSpace(t, q);
    SkippedSpaces(t, q);
    if t[r] == ',' {
      others := ItemsAreDerived(o, t, r + 1, r + 1, depth, before);
      OthersFollow(o, t, q, r, AfterItem(o, t, r, depth, before).pos, depth, others);
    } else {
      others := [];
      NothingAdded(before, others);
      NoneFollows(o, t, q, r, depth);
    }
  }

  lemma {:induction false} NoneFollows(o: ParseOptions, t: string, q: nat, r: nat, depth: nat)
    requires q <= r < |t| && OnlySpaces(t, q, r) && t[r] == ']'
    ensures BehindItem(o, t, q, r + 1, depth, [])
  {
  }

  lemma {:induction false} OthersFollow(o: ParseOptions, t: string, q: nat, r: nat, hi: nat, depth: nat,
      others: seq<Json>)
    requires q <= r < hi <= |t| && OnlySpaces(t, q, r) && t[r] == ',' && IsItems(o, t, r + 1, hi, depth, others)
    ensures BehindItem(o, t, q, hi, depth, others)
  {
    ItemsNotEmpty(o, t, r + 1, hi, depth, others);
  }

  lemma {:induction false} ItemsNotEmpty(o: ParseOptions, t: string, lo: nat, hi: nat, depth: nat, items: seq<Json>)
    requires IsItems(o, t, lo, hi, depth, items)
    ensures items != []
  {
  }

  lemma {:induction false} KeyIsDerived(o: ParseOptions, t: string, p: nat)
    requires p <= |t| && KeyAt(o, t, p).Done?
    ensures var k := KeyAt(o, t, p); IsKey(o, t, p, SkipSpace(t, k.pos), k.value)
  {
    var s := StringRest(o, t, p + 1, []);
    StringsExactly(o, t, p, s.pos, s.value);
    SkippedSpaces(t, s.pos);
    SkippedSpaces(t, KeyAt(o, t, p).pos);
  }

  lemma {:induction false} MembersFromKey(o: ParseOptions, t: string, lo: nat, p: nat, c: nat, hi: nat, depth: nat,
      raw: seq<(string, Json)>)
    requires raw != [] && OnlySpaces(t, lo, p) && c < hi && IsKey(o, t, p, c, raw[0].0) &&
      FromValue(o, t, c, hi, depth, raw)
    ensures IsMembers(o, t, lo, hi, depth, raw)
  {
    assert FromKey(o, t, p, hi, depth, raw);
  }

  lemma {:induction false} ValueFirst(o: ParseOptions, t: string, c: nat, q: nat, hi: nat, depth: nat,
      m: (string, Json), others: seq<(string, Json)>)
    requires q < hi && IsValue(o, t, c, q, depth + 1, m.1) && BehindMember(o, t, q, hi, depth, others)
    ensures FromValue(o, t, c, hi, depth, [m] + others)
  {
    assert ([m] + others)[1..] == others;
  }

  lemma {:induction false} SetAllFirst(before: seq<(string, Json)>, m: (string, Json), others: seq<(string, Json)>)
    ensures SetAll(before, [m] + others) == SetAll(Set(before, m.0, m.1), others)
  {
    assert ([m] + others)[1..] == others;
  }

  /** The key behind the spaces at p, the place c of its value, and where the value ends. */
  lemma {:induction false} MemberIsDerived(o: ParseOptions, t: string, p: nat, depth: nat)
    returns (c: nat, q: nat)
    requires p <= |t| && MemberAt(o, t, p, depth).Done?
    ensures var m := MemberAt(o, t, p, depth);
      && p < c < q <= |t| && IsKey(o, t, SkipSpace(t, p), c, m.value.0)
      && ValueAt(o, t, c, depth + 1) == Done(m.value.1, q) && m.pos == SkipSpace(t, q)
  {
    var key := KeyAt(o, t, SkipSpace(t, p));
    KeyIsDerived(o, t, SkipSpace(t, p));
    c := SkipSpace(t, key.pos);
    q := ValueAt(o, t, c, depth + 1).pos;
  }

  lemma {:induction false} MembersAreDerived(o: ParseOptions, t: string, lo: nat, p: nat, depth: nat,
      before: seq<(string, Json)>)
    returns (raw: seq<(string, Json)>)
    requires OnlySpaces(t, lo, p) && ObjectRest(o, t, p, depth, before).Done?
    ensures var r := ObjectRest(o, t, p, depth, before);
      r.value == Object(SetAll(before, raw)) && IsMembers(o, t, lo, r.pos, depth, raw)
    decreases |t| - p, 3
  {
    var m, start := MemberAt(o, t, p, depth).value, SkipSpace(t, p);
    var c, q := MemberIsDerived(o, t, p, depth);
    var next := Set(before, m.0, m.1);
    SkippedSpaces(t, p);
    JoinSpaces(t, lo, p, start);
    ReadIsDerived(o, t, c, depth + 1);
    var others := BehindMemberIsDerived(o, t, q, depth, next);
    raw := [m] + others;
    SetAllFirst(before, m, others);
    var hi := AfterMember(o, t, SkipSpace(t, q), depth, next).pos;
    ValueFirst(o, t, c, q, hi, depth, m, others);
    MembersFromKey(o, t, lo, start, c, hi, depth, raw);
  }

  lemma {:induction false} BehindMemberIsDerived(o: ParseOptions, t: string, q: nat, depth: nat,
      before: seq<(string, Json)>)
    returns (others: seq<(string, Json)>)
    requires q <= |t| && AfterMember(o, t, SkipSpace(t, q), depth, before).Done?
    ensures var r := AfterMember(o, t, SkipSpace(t, q), depth, before);
      q < r.pos && r.value == Object(SetAll(before, others)) && BehindMember(o, t, q, r.pos, depth, others)
    decreases |t| - q, 4
  {
    var r := SkipSpace(t, q);
    SkippedSpaces(t, q);
    if t[r] == ',' {
      others := MembersAreDerived(o, t, r + 1, r + 1, depth, before);
      OtherMembersFollow(o, t, q, r, AfterMember(o, t, r, depth, before).pos, depth, others);
    } else {
      others := [];
      NoMemberFollows(o, t, q, r, depth);
    }
  }

  lemma {:induction false} NoMemberFollows(o: ParseOptions, t: string, q: nat, r: nat, depth: nat)
    requires q <= r < |t| && OnlySpaces(t, q, r) && t[r] == '}'
    ensures BehindMember(o, t, q, r + 1, depth, [])
  {
  }

  lemma {:induction false} OtherMembersFollow(o: ParseOptions, t: string, q: nat, r: nat, hi: nat, depth: nat,
      others: seq<(string, Json)>)
    requires q <= r < hi <= |t| && OnlySpaces(t, q, r) && t[r] == ',' && IsMembers(o, t, r + 1, hi, depth, others)
    ensures BehindMember(o, t, q, hi, depth, others)
  {
    MembersNotEmpty(o, t, r + 1, hi, depth, others);
  }

  lemma {:induction false} MembersNotEmpty(o: ParseOptions, t: string, lo: nat, hi: nat, depth: nat,
      raw: seq<(string, Json)>)
    requires IsMembers(o, t, lo, hi, depth, raw)
    ensures raw != []
  {
  }

  // ---- The parser accepts exactly the language ----

  /** A document parses as v exactly when the grammar derives it as v. */
  lemma {:induction false} AcceptsExactly(o: ParseOptions, t: string, v: Json)
    ensures Document(o, t) == Some(v) <==> exists lo: nat, hi: nat :: IsDocument(o, t, lo, hi, v)
  {
    if lo: nat, hi: nat :| IsDocument(o, t, lo, hi, v) {
      DerivedStarts(o, t, lo, hi, 0, v);
      DerivedIsRead(o, t, lo, hi, 0, v);
      SkipsSpaces(t, 0, lo);
      SkipsSpaces(t, hi, |t|);
    }
    if Document(o, t) == Some(v) {
      var lo := SkipSpace(t, 0);
      SkippedSpaces(t, 0);
      ReadIsDerived(o, t, lo, 0);
      SkippedSpaces(t, ValueAt(o, t, lo, 0).pos);
      assert IsDocument(o, t, lo, ValueAt(o, t, lo, 0).pos, v);
    }
  }

  /** So the grammar gives a text one meaning. */
  lemma {:induction false} OneMeaning(o: ParseOptions, t: string, lo: nat, hi: nat, v: Json, lo2: nat, hi2: nat,
      w: Json)
    requires IsDocument(o, t, lo, hi, v) && IsDocument(o, t, lo2, hi2, w)
    ensures v == w
  {
    AcceptsExactly(o, t, v);
    AcceptsExactly(o, t, w);
  }
}
