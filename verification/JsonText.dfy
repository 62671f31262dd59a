/** JSON values, the text the writer makes of them, and what the parser reads at a position of a text. */
module JsonText {
  import opened Options

  /** A character stands for a byte of the text. */
  datatype Json =
    | Null
    | Bool(value: bool)
    | Number(number: string)
    | String(text: string)
    | Array(items: seq<Json>)
    | Object(members: seq<(string, Json)>)

  datatype ParseOptions = ParseOptions(pythonCompat: bool, strictControlChars: bool)

  const MAX_DEPTH: nat := 512

  // ---- Writing ----

  function HexDigit(d: nat): char
    requires d < 16
  {
    if d < 10 then d as char + '0' else (d - 10) as char + 'a'
  }

  /** A byte below space as \u00xx. */
  function UnicodeEscape(c: char): string
    requires c as int < 0x20
  {
    ['\\', 'u', '0', '0', HexDigit(c as int / 16), HexDigit(c as int % 16)]
  }

  /** The letter of a two-character escape. */
  function EscapeLetter(c: char): Option<char> {
    if c == '"' || c == '\\' then Some(c)
    else if c == '\n' then Some('n')
    else if c == '\r' then Some('r')
    else if c == '\t' then Some('t')
    else if c as int == 8 then Some('b')
    else if c as int == 12 then Some('f')
    else None
  }

  function EscapeChar(c: char): string {
    match EscapeLetter(c)
    case Some(letter) => ['\\', letter]
    case None => if c as int < 0x20 then UnicodeEscape(c) else [c]
  }

  function Escaped(s: string): string {
    if s == [] then [] else EscapeChar(s[0]) + Escaped(s[1..])
  }

  function Quoted(s: string): string {
    "\"" + Escaped(s) + "\""
  }

  function Spaces(n: nat): (s: string)
    ensures |s| == n && forall i :: 0 <= i < n ==> s[i] == ' '
  {
    seq(n, _ => ' ')
  }

  function NewLine(pretty: bool, level: nat): string {
    if pretty then "\n" + Spaces(level * 2) else ""
  }

  function Text(v: Json, pretty: bool, indent: nat): string
    decreases v, if v.Array? then |v.items| + 1 else if v.Object? then |v.members| + 1 else 0
  {
    match v
    case Null => "null"
    case Bool(b) => if b then "true" else "false"
    case Number(n) => n
    case String(s) => Quoted(s)
    case Array(items) => if items == [] then "[]" else "[" + ItemsFrom(v, 0, pretty, indent)
    case Object(members) => if members == [] then "{}" else "{" + MembersFrom(v, 0, pretty, indent)
  }

  /** The items from i on, up to and with the closing bracket. */
  function ItemsFrom(v: Json, i: nat, pretty: bool, indent: nat): string
    requires v.Array? && i < |v.items|
    decreases v, |v.items| - i
  {
    NewLine(pretty, indent + 1) + Text(v.items[i], pretty, indent + 1) +
    if i + 1 < |v.items| then "," + ItemsFrom(v, i + 1, pretty, indent) else NewLine(pretty, indent) + "]"
  }

  function Colon(pretty: bool): string {
    if pretty then ": " else ":"
  }

  function MembersFrom(v: Json, i: nat, pretty: bool, indent: nat): string
    requires v.Object? && i < |v.members|
    decreases v, |v.members| - i
  {
    NewLine(pretty, indent + 1) + Quoted(v.members[i].0) + Colon(pretty) + Text(v.members[i].1, pretty, indent + 1) +
    if i + 1 < |v.members| then "," + MembersFrom(v, i + 1, pretty, indent) else NewLine(pretty, indent) + "}"
  }

  // ---- Reading ----

  datatype Parsed<+T> = Fail | Done(value: T, pos: nat)

  predicate IsSpace(c: char) {
    c == ' ' || c == '\t' || c == '\n' || c == '\r'
  }

  predicate IsDigit(c: char) {
    '0' <= c <= '9'
  }

  predicate DigitAt(t: string, pos: nat) {
    pos < |t| && IsDigit(t[pos])
  }

  function SkipSpace(t: string, pos: nat): (p: nat)
    requires pos <= |t|
    ensures pos <= p <= |t|
    decreases |t| - pos
  {
    if pos < |t| && IsSpace(t[pos]) then SkipSpace(t, pos + 1) else pos
  }

  function SkipDigits(t: string, pos: nat): (p: nat)
    requires pos <= |t|
    ensures pos <= p <= |t|
    decreases |t| - pos
  {
    if DigitAt(t, pos) then SkipDigits(t, pos + 1) else pos
  }

  predicate LiteralAt(t: string, pos: nat, literal: string) {
    pos + |literal| <= |t| && t[pos..pos + |literal|] == literal
  }

  /** Behind the sign: one zero or a row of digits that starts otherwise. */
  function IntegerEnd(t: string, pos: nat): Option<nat>
    requires pos <= |t|
  {
    if !DigitAt(t, pos) then None
    else if t[pos] == '0' then Some(pos + 1)
    else Some(SkipDigits(t, pos))
  }

  function SignEnd(t: string, pos: nat): (p: nat)
    requires pos <= |t|
    ensures pos <= p <= |t|
  {
    if pos < |t| && t[pos] == '-' then pos + 1 else pos
  }

  /** A point counts only when a digit follows. */
  function FractionEnd(t: string, pos: nat): (p: nat)
    requires pos <= |t|
    ensures pos <= p <= |t|
  {
    if pos < |t| && t[pos] == '.' && DigitAt(t, pos + 1) then SkipDigits(t, pos + 1) else pos
  }

  function ProbeExponent(t: string, pos: nat): (p: nat)
    requires pos < |t|
    ensures p <= pos + 2
  {
    if pos + 1 < |t| && (t[pos + 1] == '+' || t[pos + 1] == '-') then pos + 2 else pos + 1
  }

  /** An exponent counts only when it has digits. */
  function ExponentEnd(t: string, pos: nat): (p: nat)
    requires pos <= |t|
    ensures pos <= p <= |t|
  {
    if pos < |t| && (t[pos] == 'e' || t[pos] == 'E') && DigitAt(t, ProbeExponent(t, pos)) then
      SkipDigits(t, ProbeExponent(t, pos))
    else pos
  }

  function NumberEnd(t: string, pos: nat): Option<nat>
    requires pos <= |t|
  {
    var i := IntegerEnd(t, SignEnd(t, pos));
    if i.None? then None else Some(ExponentEnd(t, FractionEnd(t, i.value)))
  }

  /** Exactly one number literal: a point and an exponent letter need their digits. */
  predicate IsNumberText(t: string) {
    NumberEnd(t, 0) == Some(|t|)
  }

  function HexValue(c: char): Option<nat> {
    if '0' <= c <= '9' then Some(c as int - '0' as int)
    else if 'a' <= c <= 'f' then Some(c as int - 'a' as int + 10)
    else if 'A' <= c <= 'F' then Some(c as int - 'A' as int + 10)
    else None
  }

  function Hex4(t: string, pos: nat): (r: Parsed<nat>)
    ensures r.Done? ==> r.pos == pos + 4 <= |t| && r.value < 0x10000
  {
    if pos + 4 > |t| then Fail
    else
      var a, b, c, d := HexValue(t[pos]), HexValue(t[pos + 1]), HexValue(t[pos + 2]), HexValue(t[pos + 3]);
      if a.Some? && b.Some? && c.Some? && d.Some? then
        Done(((a.value * 16 + b.value) * 16 + c.value) * 16 + d.value, pos + 4)
      else Fail
  }

  /** The bytes of a code point; lone surrogates are kept. */
  function Utf8(code: nat): string
    requires code < 0x110000
  {
    if code < 0x80 then [code as char]
    else if code < 0x800 then [(0xC0 + code / 0x40) as char, (0x80 + code % 0x40) as char]
    else if code < 0x10000 then
      [(0xE0 + code / 0x1000) as char, (0x80 + code / 0x40 % 0x40) as char, (0x80 + code % 0x40) as char]
    else
      [(0xF0 + code / 0x40000) as char, (0x80 + code / 0x1000 % 0x40) as char, (0x80 + code / 0x40 % 0x40) as char,
       (0x80 + code % 0x40) as char]
  }

  /** Behind a high surrogate, at the backslash of the next escape. */
  function PairAt(t: string, pos: nat, high: nat): (r: Parsed<string>)
    requires 0xD800 <= high <= 0xDBFF && pos <= |t|
    ensures r.Done? ==> pos <= r.pos <= |t|
  {
    var second := Hex4(t, pos + 2);
    if second.Fail? then Fail
    else if 0xDC00 <= second.value <= 0xDFFF then
      Done(Utf8(0x10000 + (high - 0xD800) * 0x400 + (second.value - 0xDC00)), second.pos)
    else Done(Utf8(high), pos)
  }

  /** Behind "\u": a high surrogate pairs up with a low one that follows as another escape. */
  function UnicodeAt(t: string, pos: nat): (r: Parsed<string>)
    ensures r.Done? ==> pos < r.pos <= |t|
  {
    var first := Hex4(t, pos);
    if first.Fail? then Fail
    else if 0xD800 <= first.value <= 0xDBFF && LiteralAt(t, first.pos, "\\u") && first.pos + 6 <= |t| then
      PairAt(t, first.pos, first.value)
    else Done(Utf8(first.value), first.pos)
  }

  /** Behind a backslash. */
  function EscapeAt(t: string, pos: nat): (r: Parsed<string>)
    ensures r.Done? ==> pos < r.pos <= |t|
  {
    if pos >= |t| then Fail
    else if t[pos] == '"' || t[pos] == '\\' || t[pos] == '/' then Done([t[pos]], pos + 1)
    else if t[pos] == 'b' then Done([8 as char], pos + 1)
    else if t[pos] == 'f' then Done([12 as char], pos + 1)
    else if t[pos] == 'n' then Done("\n", pos + 1)
    else if t[pos] == 'r' then Done("\r", pos + 1)
    else if t[pos] == 't' then Done("\t", pos + 1)
    else if t[pos] == 'u' then UnicodeAt(t, pos + 1)
    else Fail
  }

  /** The rest of a string behind its opening quote. */
  function StringRest(o: ParseOptions, t: string, pos: nat, out: string): (r: Parsed<string>)
    ensures r.Done? ==> pos < r.pos <= |t|
    decreases |t| - pos
  {
    if pos >= |t| then Fail
    else if t[pos] == '"' then Done(out, pos + 1)
    else if t[pos] == '\\' then
      var e := EscapeAt(t, pos + 1);
      if e.Fail? then Fail else StringRest(o, t, e.pos, out + e.value)
    else if t[pos] as int < 0x20 && o.strictControlChars then Fail
    else StringRest(o, t, pos + 1, out + [t[pos]])
  }

  /** Replace the value of a known key where it stands, or append. */
  function Set(members: seq<(string, Json)>, key: string, value: Json): seq<(string, Json)> {
    if members == [] then [(key, value)]
    else if members[0].0 == key then [(key, value)] + members[1..]
    else [members[0]] + Set(members[1..], key, value)
  }

  function ScalarAt(o: ParseOptions, t: string, pos: nat): (r: Parsed<Json>)
    requires pos < |t|
    ensures r.Done? ==> pos < r.pos <= |t|
  {
    if LiteralAt(t, pos, "null") then Done(Null, pos + 4)
    else if LiteralAt(t, pos, "true") then Done(Bool(true), pos + 4)
    else if LiteralAt(t, pos, "false") then Done(Bool(false), pos + 5)
    else if o.pythonCompat && LiteralAt(t, pos, "NaN") then Done(Number("NaN"), pos + 3)
    else if o.pythonCompat && LiteralAt(t, pos, "Infinity") then Done(Number("Infinity"), pos + 8)
    else if o.pythonCompat && LiteralAt(t, pos, "-Infinity") then Done(Number("-Infinity"), pos + 9)
    else
      var end := NumberEnd(t, pos);
      if end.None? then Fail
      else
        NumberMoves(t, pos);
        Done(Number(t[pos..end.value]), end.value)
  }

  lemma {:induction false} NumberMoves(t: string, pos: nat)
    requires pos <= |t| && NumberEnd(t, pos).Some?
    ensures pos < NumberEnd(t, pos).value <= |t|
  {
  }

  function ValueAt(o: ParseOptions, t: string, pos: nat, depth: nat): (r: Parsed<Json>)
    requires pos <= |t|
    ensures r.Done? ==> pos < r.pos <= |t|
    decreases |t| - pos, 1
  {
    if pos >= |t| then Fail
    else if t[pos] == '{' then
      if depth >= MAX_DEPTH then Fail
      else
        var p := SkipSpace(t, pos + 1);
        if p < |t| && t[p] == '}' then Done(Object([]), p + 1) else ObjectRest(o, t, p, depth, [])
    else if t[pos] == '[' then
      if depth >= MAX_DEPTH then Fail
      else
        var p := SkipSpace(t, pos + 1);
        if p < |t| && t[p] == ']' then Done(Array([]), p + 1) else ArrayRest(o, t, p, depth, [])
    else if t[pos] == '"' then
      var s := StringRest(o, t, pos + 1, []);
      if s.Fail? then Fail else Done(String(s.value), s.pos)
    else ScalarAt(o, t, pos)
  }

  /** The next item and what follows it. */
  function ArrayRest(o: ParseOptions, t: string, pos: nat, depth: nat, items: seq<Json>): (r: Parsed<Json>)
    requires pos <= |t|
    ensures r.Done? ==> pos < r.pos <= |t|
    decreases |t| - pos, 2
  {
    var v := ValueAt(o, t, SkipSpace(t, pos), depth + 1);
    if v.Fail? then Fail else AfterItem(o, t, SkipSpace(t, v.pos), depth, items + [v.value])
  }

  /** The rest of an array behind an item and the spaces that follow it. */
  function AfterItem(o: ParseOptions, t: string, pos: nat, depth: nat, items: seq<Json>): (r: Parsed<Json>)
    requires pos <= |t|
    ensures r.Done? ==> pos < r.pos <= |t|
    decreases |t| - pos, 4
  {
    if pos >= |t| then Fail
    else if t[pos] == ',' then ArrayRest(o, t, pos + 1, depth, items)
    else if t[pos] == ']' then Done(Array(items), pos + 1)
    else Fail
  }

  function KeyAt(o: ParseOptions, t: string, pos: nat): (r: Parsed<string>)
    requires pos <= |t|
    ensures r.Done? ==> pos < r.pos <= |t|
  {
    if pos >= |t| || t[pos] != '"' then Fail
    else
      var key := StringRest(o, t, pos + 1, []);
      if key.Fail? then Fail
      else
        var p := SkipSpace(t, key.pos);
        if p >= |t| || t[p] != ':' then Fail else Done(key.value, p + 1)
  }

  /** A member and the spaces behind it. */
  function MemberAt(o: ParseOptions, t: string, pos: nat, depth: nat): (r: Parsed<(string, Json)>)
    requires pos <= |t|
    ensures r.Done? ==> pos < r.pos <= |t|
    decreases |t| - pos, 2
  {
    var key := KeyAt(o, t, SkipSpace(t, pos));
    if key.Fail? then Fail
    else
      var v := ValueAt(o, t, SkipSpace(t, key.pos), depth + 1);
      if v.Fail? then Fail else Done((key.value, v.value), SkipSpace(t, v.pos))
  }

  function ObjectRest(o: ParseOptions, t: string, pos: nat, depth: nat, members: seq<(string, Json)>): (r: Parsed<Json>)
    requires pos <= |t|
    ensures r.Done? ==> pos < r.pos <= |t|
    decreases |t| - pos, 3
  {
    var m := MemberAt(o, t, pos, depth);
    if m.Fail? then Fail else AfterMember(o, t, m.pos, depth, Set(members, m.value.0, m.value.1))
  }

  /** The rest of an object behind a member and the spaces that follow it. */
  function AfterMember(o: ParseOptions, t: string, pos: nat, depth: nat,
      members: seq<(string, Json)>): (r: Parsed<Json>)
    requires pos <= |t|
    ensures r.Done? ==> pos < r.pos <= |t|
    decreases |t| - pos, 4
  {
    if pos >= |t| then Fail
    else if t[pos] == ',' then ObjectRest(o, t, pos + 1, depth, members)
    else if t[pos] == '}' then Done(Object(members), pos + 1)
    else Fail
  }

  /** A whole document: one value, spaces around it, nothing else. */
  function Document(o: ParseOptions, t: string): Option<Json> {
    var v := ValueAt(o, t, SkipSpace(t, 0), 0);
    if v.Fail? || SkipSpace(t, v.pos) != |t| then None else Some(v.value)
  }
}
