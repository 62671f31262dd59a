/** The parser and the writer: a cursor that moves over the text, and text appended to an output. */
module JsonCode {
  import opened Options
  import opened JsonText
  import opened JsonLayout
  import opened JsonReading
  import opened JsonRoundTrip
  import opened JsonParsed

  /** A method's result and the position it left agree with what stands in the text. None is an error. */
  predicate Agrees<T(==)>(r: Parsed<T>, v: Option<T>, pos: nat) {
    if r.Fail? then v.None? else v == Some(r.value) && pos == r.pos
  }

  // ---- Number texts ----

  method SkipDigitsFrom(text: string, start: nat) returns (pos: nat)
    requires start <= |text|
    ensures pos == SkipDigits(text, start)
  {
    pos := start;
    while DigitAt(text, pos)
      invariant pos <= |text| && SkipDigits(text, pos) == SkipDigits(text, start)
      decreases |text| - pos
    {
      pos := pos + 1;
    }
  }

  /** A point or an exponent letter without digits behind it makes the text no literal. */
  method IsJsonNumberText(text: string) returns (ok: bool)
    ensures ok == IsNumberText(text)
  {
    var pos: nat := 0;
    if pos < |text| && text[pos] == '-' {
      pos := pos + 1;
    }
    if !DigitAt(text, pos) {
      return false;
    }
    if text[pos] == '0' {
      pos := pos + 1;
    } else {
      pos := SkipDigitsFrom(text, pos);
    }
    assert IntegerEnd(text, SignEnd(text, 0)) == Some(pos);
    ok := TailIsWhole(text, pos);
  }

  /** Behind the integer digits stand a fraction and an exponent, each optional, and nothing else. */
  method TailIsWhole(text: string, start: nat) returns (ok: bool)
    requires start <= |text|
    ensures ok == (ExponentEnd(text, FractionEnd(text, start)) == |text|)
  {
    var pos := start;
    if pos < |text| && text[pos] == '.' {
      pos := pos + 1;
      if !DigitAt(text, pos) {
        return false;
      }
      pos := SkipDigitsFrom(text, pos);
    }
    assert FractionEnd(text, start) == pos;
    ok := ExponentIsWhole(text, pos);
  }

  method ExponentIsWhole(text: string, start: nat) returns (ok: bool)
    requires start <= |text|
    ensures ok == (ExponentEnd(text, start) == |text|)
  {
    var pos := start;
    if pos < |text| && (text[pos] == 'e' || text[pos] == 'E') {
      pos := pos + 1;
      if pos < |text| && (text[pos] == '+' || text[pos] == '-') {
        pos := pos + 1;
      }
      if !DigitAt(text, pos) {
        return false;
      }
      pos := SkipDigitsFrom(text, pos);
    }
    ok := pos == |text|;
  }

  // ---- The parser ----

  /** The value of the first k hexadecimal digits at pos. */
  function HexPrefix(t: string, pos: nat, k: nat): (r: Option<nat>)
    requires pos + k <= |t|
  {
    if k == 0 then Some(0)
    else
      var high, digit := HexPrefix(t, pos, k - 1), HexValue(t[pos + k - 1]);
      if high.Some? && digit.Some? then Some(high.value * 16 + digit.value) else None
  }

  lemma {:induction false} HexPrefixOfFour(t: string, pos: nat)
    requires pos + 4 <= |t|
    ensures Hex4(t, pos) == if HexPrefix(t, pos, 4).Some? then Done(HexPrefix(t, pos, 4).value, pos + 4) else Fail
  {
    assert HexPrefix(t, pos, 0) == Some(0);
    assert HexPrefix(t, pos, 1) == HexValue(t[pos]);
    assert HexPrefix(t, pos, 2) == if HexPrefix(t, pos, 1).Some? && HexValue(t[pos + 1]).Some? then
      Some(HexPrefix(t, pos, 1).value * 16 + HexValue(t[pos + 1]).value) else None;
    assert HexPrefix(t, pos, 3) == if HexPrefix(t, pos, 2).Some? && HexValue(t[pos + 2]).Some? then
      Some(HexPrefix(t, pos, 2).value * 16 + HexValue(t[pos + 2]).value) else None;
  }

  lemma {:induction false} HexNext(t: string, pos: nat, k: nat)
    requires pos + k < |t| && HexPrefix(t, pos, k).Some?
    ensures var digit := HexValue(t[pos + k]);
      HexPrefix(t, pos, k + 1) == if digit.Some? then Some(HexPrefix(t, pos, k).value * 16 + digit.value) else None
  {
  }

  lemma {:induction false} HexStops(t: string, pos: nat, k: nat, n: nat)
    requires k <= n && pos + n <= |t| && HexPrefix(t, pos, k).None?
    ensures HexPrefix(t, pos, n).None?
  {
    if k < n {
      HexStops(t, pos, k, n - 1);
    }
  }

  class Parser {
    const text: string
    const options: ParseOptions
    var pos: nat

    constructor (text: string, options: ParseOptions)
      ensures this.text == text && this.options == options && pos == 0
    {
      this.text, this.options, this.pos := text, options, 0;
    }

    predicate Valid()
      reads this
    {
      pos <= |text|
    }

    method SkipWhitespace()
      requires Valid()
      modifies this
      ensures Valid() && pos == SkipSpace(text, old(pos))
    {
      while pos < |text|
        invariant pos <= |text| && SkipSpace(text, pos) == SkipSpace(text, old(pos))
      {
        if IsSpace(text[pos]) {
          pos := pos + 1;
        } else {
          break;
        }
      }
    }

    method Consume(literal: string) returns (found: bool)
      requires Valid()
      modifies this
      ensures Valid() && found == LiteralAt(text, old(pos), literal)
      ensures pos == if found then old(pos) + |literal| else old(pos)
    {
      found := pos + |literal| <= |text| && text[pos..pos + |literal|] == literal;
      if found {
        pos := pos + |literal|;
      }
    }

    /** A point or an exponent letter without its digits ends the number before it. */
    method ParseNumber() returns (v: Option<Json>)
      requires Valid() && pos < |text|
      modifies this
      ensures Valid()
      ensures var end := NumberEnd(text, old(pos));
        if end.None? then v.None? else old(pos) <= pos == end.value && v == Some(Number(text[old(pos)..pos]))
    {
      var start := pos;
      if text[pos] == '-' {
        pos := pos + 1;
      }
      if !DigitAt(text, pos) {
        return None;
      }
      if text[pos] == '0' {
        pos := pos + 1;
      } else {
        pos := SkipDigitsFrom(text, pos);
      }
      assert IntegerEnd(text, SignEnd(text, start)) == Some(pos);
      SkipFraction();
      SkipExponent();
      v := Some(Number(text[start..pos]));
    }

    method SkipFraction()
      requires Valid()
      modifies this
      ensures Valid() && pos == FractionEnd(text, old(pos))
    {
      if pos + 1 < |text| && text[pos] == '.' && DigitAt(text, pos + 1) {
        pos := SkipDigitsFrom(text, pos + 1);
      }
    }

    method SkipExponent()
      requires Valid()
      modifies this
      ensures Valid() && pos == ExponentEnd(text, old(pos))
    {
      if pos < |text| && (text[pos] == 'e' || text[pos] == 'E') {
        var probe := pos + 1;
        if probe < |text| && (text[probe] == '+' || text[probe] == '-') {
          probe := probe + 1;
        }
        if DigitAt(text, probe) {
          pos := SkipDigitsFrom(text, probe);
        }
      }
    }

    method ParseHex4() returns (v: Option<nat>)
      requires Valid()
      modifies this
      ensures Valid() && Agrees(Hex4(text, old(pos)), v, pos)
    {
      if pos + 4 > |text| {
        return None;
      }
      ghost var start := pos;
      HexPrefixOfFour(text, start);
      var value: nat := 0;
      for index: nat := 0 to 4
        invariant pos == start + index <= start + 4 <= |text|
        invariant HexPrefix(text, start, index) == Some(value)
      {
        var digit := HexValue(text[pos]);
        HexNext(text, start, index);
        pos := pos + 1;
        if digit.None? {
          HexStops(text, start, index + 1, 4);
          return None;
        }
        value := value * 16 + digit.value;
      }
      v := Some(value);
    }

    /** Behind "\u". */
    method ParseUnicode() returns (v: Option<string>)
      requires Valid()
      modifies this
      ensures Valid() && Agrees(UnicodeAt(text, old(pos)), v, pos)
    {
      var first := ParseHex4();
      if first.None? {
        return None;
      }
      var code := first.value;
      if 0xD800 <= code <= 0xDBFF {
        SecondEscape(text, pos);
        if pos + 6 <= |text| && text[pos] == '\\' && text[pos + 1] == 'u' {
          v := ParsePair(code);
          return;
        }
      }
      v := Some(Utf8(code));
    }

    /** The escape behind a high surrogate: a low one pairs up, any other is left in place. */
    method ParsePair(high: nat) returns (v: Option<string>)
      requires Valid() && pos + 6 <= |text| && 0xD800 <= high <= 0xDBFF
      modifies this
      ensures Valid() && Agrees(PairAt(text, old(pos), high), v, pos)
    {
      var save := pos;
      pos := pos + 2;
      var low := ParseHex4();
      if low.None? {
        return None;
      }
      if 0xDC00 <= low.value <= 0xDFFF {
        v := Some(Utf8(0x10000 + (high - 0xD800) * 0x400 + (low.value - 0xDC00)));
      } else {
        pos := save;
        v := Some(Utf8(high));
      }
    }

    /** Behind a backslash. */
    method ParseEscape() returns (v: Option<string>)
      requires Valid()
      modifies this
      ensures Valid() && Agrees(EscapeAt(text, old(pos)), v, pos)
    {
      if pos >= |text| {
        return None;
      }
      var escape := text[pos];
      pos := pos + 1;
      match escape
      case '"' => v := Some("\"");
      case '\\' => v := Some("\\");
      case '/' => v := Some("/");
      case 'b' => v := Some([8 as char]);
      case 'f' => v := Some([12 as char]);
      case 'n' => v := Some("\n");
      case 'r' => v := Some("\r");
      case 't' => v := Some("\t");
      case 'u' => v := ParseUnicode();
      case _ => v := None;
    }

    method ParseString() returns (v: Option<string>)
      requires Valid() && pos < |text|
      modifies this
      ensures Valid() && Agrees(StringRest(options, text, old(pos) + 1, []), v, pos)
    {
      ghost var whole := StringRest(options, text, pos + 1, []);
      pos := pos + 1;
      var out: string := [];
      while true
        invariant Valid() && StringRest(options, text, pos, out) == whole
        decreases |text| - pos
      {
        if pos >= |text| {
          return None;
        }
        var c := text[pos];
        if c == '"' {
          pos := pos + 1;
          return Some(out);
        }
        if c == '\\' {
          pos := pos + 1;
          var escaped := ParseEscape();
          if escaped.None? {
            return None;
          }
          out := out + escaped.value;
        } else if c as int < 0x20 && options.strictControlChars {
          return None;
        } else {
          out := out + [c];
          pos := pos + 1;
        }
      }
    }

    method ParseScalar() returns (v: Option<Json>)
      requires Valid() && pos < |text|
      modifies this
      ensures Valid() && Agrees(ScalarAt(options, text, old(pos)), v, pos)
    {
      var found := Consume("null");
      if found {
        return Some(Null);
      }
      found := Consume("true");
      if found {
        return Some(Bool(true));
      }
      found := Consume("false");
      if found {
        return Some(Bool(false));
      }
      if options.pythonCompat {
        found := Consume("NaN");
        if found {
          return Some(Number("NaN"));
        }
        found := Consume("Infinity");
        if found {
          return Some(Number("Infinity"));
        }
        found := Consume("-Infinity");
        if found {
          return Some(Number("-Infinity"));
        }
      }
      if text[pos] == '-' || IsDigit(text[pos]) {
        v := ParseNumber();
      } else {
        v := None;
      }
    }

    method ParseValue(depth: nat) returns (v: Option<Json>)
      requires Valid()
      modifies this
      ensures Valid() && Agrees(ValueAt(options, text, old(pos), depth), v, pos)
      decreases |text| - pos, 1
    {
      if pos >= |text| {
        return None;
      }
      if text[pos] == '{' {
        v := ParseObject(depth);
      } else if text[pos] == '[' {
        v := ParseArray(depth);
      } else if text[pos] == '"' {
        var s := ParseString();
        v := if s.None? then None else Some(String(s.value));
      } else {
        v := ParseScalar();
      }
    }

    method ParseArray(depth: nat) returns (v: Option<Json>)
      requires Valid() && pos < |text| && text[pos] == '['
      modifies this
      ensures Valid() && Agrees(ValueAt(options, text, old(pos), depth), v, pos)
      decreases |text| - pos, 0
    {
      if depth >= MAX_DEPTH {
        return None;
      }
      pos := pos + 1;
      SkipWhitespace();
      if pos < |text| && text[pos] == ']' {
        pos := pos + 1;
        return Some(Array([]));
      }
      v := ParseItems(depth);
    }

    /** An item and what follows it: a comma and more of them, or the end of the array. */
    method NextItem(depth: nat, items: seq<Json>) returns (more: bool, next: seq<Json>, v: Option<Json>)
      requires Valid()
      modifies this
      ensures Valid() && (more ==> old(pos) < pos)
      ensures more ==> ArrayRest(options, text, old(pos), depth, items) == ArrayRest(options, text, pos, depth, next)
      ensures !more ==> Agrees(ArrayRest(options, text, old(pos), depth, items), v, pos)
      decreases |text| - pos, 3
    {
      more, next, v := false, items, None;
      SkipWhitespace();
      var item := ParseValue(depth + 1);
      if item.None? {
        return;
      }
      SkipWhitespace();
      next := items + [item.value];
      more, v := BehindItem(depth, next);
    }

    method BehindItem(ghost depth: nat, items: seq<Json>) returns (more: bool, v: Option<Json>)
      requires Valid()
      modifies this
      ensures Valid() && old(pos) <= pos && (more ==> old(pos) < pos)
      ensures more ==> AfterItem(options, text, old(pos), depth, items) == ArrayRest(options, text, pos, depth, items)
      ensures !more ==> Agrees(AfterItem(options, text, old(pos), depth, items), v, pos)
    {
      more, v := false, None;
      if pos >= |text| {
        return;
      }
      if text[pos] == ',' {
        pos := pos + 1;
        more := true;
      } else if text[pos] == ']' {
        pos := pos + 1;
        v := Some(Array(items));
      }
    }

    method ParseItems(depth: nat) returns (v: Option<Json>)
      requires Valid()
      modifies this
      ensures Valid() && Agrees(ArrayRest(options, text, old(pos), depth, []), v, pos)
      decreases |text| - pos, 4
    {
      var result: seq<Json> := [];
      var more := true;
      v := None;
      while more
        invariant Valid() && (more ==> old(pos) <= pos)
        invariant more ==> ArrayRest(options, text, pos, depth, result) == ArrayRest(options, text, old(pos), depth, [])
        invariant !more ==> Agrees(ArrayRest(options, text, old(pos), depth, []), v, pos)
        decreases if more then |text| - pos + 1 else 0
      {
        more, result, v := NextItem(depth, result);
      }
    }

    method ParseKey() returns (v: Option<string>)
      requires Valid()
      modifies this
      ensures Valid() && Agrees(KeyAt(options, text, old(pos)), v, pos)
    {
      if pos >= |text| || text[pos] != '"' {
        return None;
      }
      v := ParseString();
      if v.None? {
        return None;
      }
      SkipWhitespace();
      if pos >= |text| || text[pos] != ':' {
        return None;
      }
      pos := pos + 1;
    }

    /** A key, a colon and a value. */
    method ParseMember(depth: nat) returns (v: Option<(string, Json)>)
      requires Valid()
      modifies this
      ensures Valid() && Agrees(MemberAt(options, text, old(pos), depth), v, pos)
      decreases |text| - pos, 2
    {
      SkipWhitespace();
      var key := ParseKey();
      if key.None? {
        return None;
      }
      SkipWhitespace();
      var value := ParseValue(depth + 1);
      if value.None? {
        return None;
      }
      SkipWhitespace();
      v := Some((key.value, value.value));
    }

    /** A member and what follows it: a comma and more of them, or the end of the object. A known key keeps its
        place. */
    method NextMember(depth: nat, members: seq<(string, Json)>)
      returns (more: bool, next: seq<(string, Json)>, v: Option<Json>)
      requires Valid()
      modifies this
      ensures Valid() && (more ==> old(pos) < pos)
      ensures more ==>
        ObjectRest(options, text, old(pos), depth, members) == ObjectRest(options, text, pos, depth, next)
      ensures !more ==> Agrees(ObjectRest(options, text, old(pos), depth, members), v, pos)
      decreases |text| - pos, 3
    {
      more, next, v := false, members, None;
      var member := ParseMember(depth);
      if member.None? {
        return;
      }
      next := SetMember(members, member.value.0, member.value.1);
      more, v := BehindMember(depth, next);
    }

    method BehindMember(ghost depth: nat, members: seq<(string, Json)>) returns (more: bool, v: Option<Json>)
      requires Valid()
      modifies this
      ensures Valid() && old(pos) <= pos && (more ==> old(pos) < pos)
      ensures more ==>
        AfterMember(options, text, old(pos), depth, members) == ObjectRest(options, text, pos, depth, members)
      ensures !more ==> Agrees(AfterMember(options, text, old(pos), depth, members), v, pos)
    {
      more, v := false, None;
      if pos >= |text| {
        return;
      }
      if text[pos] == ',' {
        pos := pos + 1;
        more := true;
      } else if text[pos] == '}' {
        pos := pos + 1;
        v := Some(Object(members));
      }
    }

    method ParseMembers(depth: nat) returns (v: Option<Json>)
      requires Valid()
      modifies this
      ensures Valid() && Agrees(ObjectRest(options, text, old(pos), depth, []), v, pos)
      decreases |text| - pos, 4
    {
      var result: seq<(string, Json)> := [];
      var more := true;
      v := None;
      while more
        invariant Valid() && (more ==> old(pos) <= pos)
        invariant more ==>
          ObjectRest(options, text, pos, depth, result) == ObjectRest(options, text, old(pos), depth, [])
        invariant !more ==> Agrees(ObjectRest(options, text, old(pos), depth, []), v, pos)
        decreases if more then |text| - pos + 1 else 0
      {
        more, result, v := NextMember(depth, result);
      }
    }

    method ParseObject(depth: nat) returns (v: Option<Json>)
      requires Valid() && pos < |text| && text[pos] == '{'
      modifies this
      ensures Valid() && Agrees(ValueAt(options, text, old(pos), depth), v, pos)
      decreases |text| - pos, 0
    {
      if depth >= MAX_DEPTH {
        return None;
      }
      pos := pos + 1;
      SkipWhitespace();
      if pos < |text| && text[pos] == '}' {
        pos := pos + 1;
        return Some(Object([]));
      }
      v := ParseMembers(depth);
    }

    method ParseDocument() returns (v: Option<Json>)
      requires pos == 0
      modifies this
      ensures v == Document(options, text)
    {
      SkipWhitespace();
      v := ParseValue(0);
      if v.None? {
        return;
      }
      SkipWhitespace();
      if pos != |text| {
        v := None;
      }
    }
  }

  lemma {:induction false} SecondEscape(t: string, pos: nat)
    ensures pos + 6 <= |t| && t[pos] == '\\' && t[pos + 1] == 'u' <==> LiteralAt(t, pos, "\\u") && pos + 6 <= |t|
  {
    if pos + 6 <= |t| {
      assert t[pos..pos + 2] == [t[pos], t[pos + 1]];
    }
  }

  lemma {:induction false} SetGoesOn(members: seq<(string, Json)>, i: nat, key: string, value: Json)
    requires i < |members| && members[i].0 != key
    requires Set(members, key, value) == members[..i] + Set(members[i..], key, value)
    ensures Set(members, key, value) == members[..i + 1] + Set(members[i + 1..], key, value)
  {
    assert members[i..][1..] == members[i + 1..];
    assert members[..i] + [members[i]] == members[..i + 1];
  }

  lemma {:induction false} SetHits(members: seq<(string, Json)>, i: nat, key: string, value: Json)
    requires i < |members| && members[i].0 == key
    requires Set(members, key, value) == members[..i] + Set(members[i..], key, value)
    ensures Set(members, key, value) == members[i := (key, value)]
  {
    assert members[i..][1..] == members[i + 1..];
  }

  /** Replaces the value of the first member with this key, or appends a member. */
  method SetMember(members: seq<(string, Json)>, key: string, value: Json) returns (r: seq<(string, Json)>)
    ensures r == Set(members, key, value)
  {
    for i := 0 to |members|
      invariant Set(members, key, value) == members[..i] + Set(members[i..], key, value)
    {
      if members[i].0 == key {
        SetHits(members, i, key, value);
        return members[i := (key, value)];
      }
      SetGoesOn(members, i, key, value);
    }
    assert members[..|members|] == members;
    r := members + [(key, value)];
  }

  // ---- The writer ----

  method JsonQuote(s: string) returns (out: string)
    ensures out == Quoted(s)
    ensures Quotes(s, out)
  {
    QuotesExactly(s, Quoted(s));
    out := "\"";
    for i := 0 to |s|
      invariant "\"" + Escaped(s) == out + Escaped(s[i..])
    {
      assert s[i..][0] == s[i] && s[i..][1..] == s[i + 1..];
      AssociatesText(out, EscapeChar(s[i]), Escaped(s[i + 1..]));
      out := out + EscapeChar(s[i]);
    }
    out := out + "\"";
  }

  class Writer {
    const pretty: bool
    var out: string

    constructor (pretty: bool)
      ensures this.pretty == pretty && out == []
    {
      this.pretty, this.out := pretty, [];
    }

    method AppendNewLine(level: nat)
      modifies this
      ensures out == old(out) + NewLine(pretty, level)
    {
      if pretty {
        out := out + "\n";
        out := out + Spaces(level * 2);
      }
    }

    method Write(v: Json, indent: nat)
      modifies this
      ensures out == old(out) + Text(v, pretty, indent)
      decreases v, 2
    {
      match v
      case Null => out := out + "null";
      case Bool(b) => out := out + if b then "true" else "false";
      case Number(n) => out := out + n;
      case String(s) => var q := JsonQuote(s); out := out + q;
      case Array(_) => WriteArray(v, indent);
      case Object(_) => WriteObject(v, indent);
    }

    method WriteItem(v: Json, i: nat, indent: nat)
      requires v.Array? && i < |v.items|
      modifies this
      ensures out ==
        old(out) + (if i > 0 then "," else "") + NewLine(pretty, indent + 1) + Text(v.items[i], pretty, indent + 1)
      decreases v, 0
    {
      if i > 0 {
        out := out + ",";
      }
      AppendNewLine(indent + 1);
      Write(v.items[i], indent + 1);
    }

    /** What stands before the value of a member. */
    method AppendKey(quoted: string, first: bool, level: nat)
      modifies this
      ensures out == old(out) + (if first then "" else ",") + NewLine(pretty, level) + quoted + Colon(pretty)
    {
      if !first {
        out := out + ",";
      }
      AppendNewLine(level);
      out := out + quoted;
      out := out + Colon(pretty);
    }

    method WriteMember(v: Json, i: nat, indent: nat)
      requires v.Object? && i < |v.members|
      modifies this
      ensures out == old(out) + (if i > 0 then "," else "") + NewLine(pretty, indent + 1) + Quoted(v.members[i].0) +
                     Colon(pretty) + Text(v.members[i].1, pretty, indent + 1)
      decreases v, 0
    {
      var m := v.members[i];
      var quoted := JsonQuote(m.0);
      AppendKey(quoted, i == 0, indent + 1);
      Write(m.1, indent + 1);
    }

    method WriteArray(v: Json, indent: nat)
      requires v.Array?
      modifies this
      ensures out == old(out) + Text(v, pretty, indent)
      decreases v, 1
    {
      ghost var whole := out + Text(v, pretty, indent);
      out := out + "[";
      ArrayTextOpens(v, pretty, indent, old(out));
      for i := 0 to |v.items|
        invariant out + ItemsTail(v, i, pretty, indent) == whole
      {
        ItemsTailSteps(v, i, pretty, indent, out);
        WriteItem(v, i, indent);
      }
      if v.items != [] {
        AppendNewLine(indent);
      }
      out := out + "]";
    }

    method WriteObject(v: Json, indent: nat)
      requires v.Object?
      modifies this
      ensures out == old(out) + Text(v, pretty, indent)
      decreases v, 1
    {
      ghost var whole := out + Text(v, pretty, indent);
      out := out + "{";
      ObjectTextOpens(v, pretty, indent, old(out));
      for i := 0 to |v.members|
        invariant out + MembersTail(v, i, pretty, indent) == whole
      {
        MembersTailSteps(v, i, pretty, indent, out);
        WriteMember(v, i, indent);
      }
      if v.members != [] {
        AppendNewLine(indent);
      }
      out := out + "}";
    }
  }

  /** What is still to write of an array before item i. */
  function ItemsTail(v: Json, i: nat, pretty: bool, indent: nat): string
    requires v.Array? && i <= |v.items|
  {
    if i < |v.items| then (if i > 0 then "," else "") + ItemsFrom(v, i, pretty, indent)
    else (if i > 0 then NewLine(pretty, indent) else "") + "]"
  }

  function MembersTail(v: Json, i: nat, pretty: bool, indent: nat): string
    requires v.Object? && i <= |v.members|
  {
    if i < |v.members| then (if i > 0 then "," else "") + MembersFrom(v, i, pretty, indent)
    else (if i > 0 then NewLine(pretty, indent) else "") + "}"
  }

  lemma {:induction false} ArrayTextOpens(v: Json, pretty: bool, indent: nat, out: string)
    requires v.Array?
    ensures out + Text(v, pretty, indent) == (out + "[") + ItemsTail(v, 0, pretty, indent)
  {
    if v.items != [] {
      assert "" + ItemsFrom(v, 0, pretty, indent) == ItemsFrom(v, 0, pretty, indent);
      AssociatesText(out, "[", ItemsFrom(v, 0, pretty, indent));
    }
  }

  lemma {:induction false} ObjectTextOpens(v: Json, pretty: bool, indent: nat, out: string)
    requires v.Object?
    ensures out + Text(v, pretty, indent) == (out + "{") + MembersTail(v, 0, pretty, indent)
  {
    if v.members != [] {
      assert "" + MembersFrom(v, 0, pretty, indent) == MembersFrom(v, 0, pretty, indent);
      AssociatesText(out, "{", MembersFrom(v, 0, pretty, indent));
    }
  }

  lemma {:induction false} FourPieces(out: string, a: string, b: string, c: string, d: string)
    ensures out + (a + (b + c + d)) == out + a + b + c + d
  {
  }

  lemma {:induction false} SixPieces(out: string, a: string, b: string, c: string, d: string, e: string, f: string)
    ensures out + (a + (b + c + d + e + f)) == out + a + b + c + d + e + f
  {
  }

  lemma {:induction false} ItemsTailSteps(v: Json, i: nat, pretty: bool, indent: nat, out: string)
    requires v.Array? && i < |v.items|
    ensures out + ItemsTail(v, i, pretty, indent) ==
      out + (if i > 0 then "," else "") + NewLine(pretty, indent + 1) + Text(v.items[i], pretty, indent + 1) +
      ItemsTail(v, i + 1, pretty, indent)
  {
    FourPieces(out, if i > 0 then "," else "", NewLine(pretty, indent + 1), Text(v.items[i], pretty, indent + 1),
      ItemEnd(v, i, pretty, indent));
  }

  lemma {:induction false} MembersTailSteps(v: Json, i: nat, pretty: bool, indent: nat, out: string)
    requires v.Object? && i < |v.members|
    ensures out + MembersTail(v, i, pretty, indent) ==
      out + (if i > 0 then "," else "") + NewLine(pretty, indent + 1) + Quoted(v.members[i].0) + Colon(pretty) +
      Text(v.members[i].1, pretty, indent + 1) + MembersTail(v, i + 1, pretty, indent)
  {
    SixPieces(out, if i > 0 then "," else "", NewLine(pretty, indent + 1), Quoted(v.members[i].0), Colon(pretty),
      Text(v.members[i].1, pretty, indent + 1), MemberEnd(v, i, pretty, indent));
  }

  // ---- The two entry points ----

  /** A value comes out when the document parses, and writing it, compact or pretty, gives a text of the same value. */
  method JsonParse(text: string, options: ParseOptions) returns (v: Option<Json>)
    ensures v == Document(options, text)
    ensures v.Some? ==> Good(options.pythonCompat, v.value, 0)
    ensures v.Some? ==> Document(options, Text(v.value, false, 0)) == v == Document(options, Text(v.value, true, 0))
  {
    var parser := new Parser(text, options);
    v := parser.ParseDocument();
    if v.Some? {
      DocumentIsGood(options, text);
      ParseUndoesWrite(options, v.value, false);
      ParseUndoesWrite(options, v.value, true);
    }
  }

  /**
    * The text is the value in the layout asked for. It parses back to the value, under the options asked for,
    * exactly when the value is a good one.
    */
  method JsonWrite(v: Json, pretty: bool) returns (text: string)
    ensures text == Text(v, pretty, 0)
    ensures Laid(v, pretty, 0, text)
    ensures forall o: ParseOptions :: Document(o, text) == Some(v) <==> Good(o.pythonCompat, v, 0)
  {
    var writer := new Writer(pretty);
    writer.Write(v, 0);
    text := writer.out;
    assert [] + Text(v, pretty, 0) == Text(v, pretty, 0);
    LaidExactly(v, pretty, 0, text);
    forall o: ParseOptions ensures Document(o, text) == Some(v) <==> Good(o.pythonCompat, v, 0) {
      RoundTripExactly(o, v, pretty);
    }
  }
}
