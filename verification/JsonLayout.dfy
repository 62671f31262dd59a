/** The written text, character by character: brackets, commas, line breaks, two spaces a level, and escapes. */
module JsonLayout {
  import opened Options
  import opened JsonText

  // ---- Strings ----

  /** x is the hexadecimal digit d in lower case. */
  predicate LowerHex(d: int, x: char) {
    HexValue(x) == Some(d) && !('A' <= x <= 'F')
  }

  /** The seven short escapes, the six characters of any other control character, and everything else as it is. */
  predicate WritesChar(c: char, piece: string) {
    if c == '"' then piece == "\\\""
    else if c == '\\' then piece == "\\\\"
    else if c == '\n' then piece == "\\n"
    else if c == '\r' then piece == "\\r"
    else if c == '\t' then piece == "\\t"
    else if c as int == 8 then piece == "\\b"
    else if c as int == 12 then piece == "\\f"
    else if c < ' ' then
      |piece| == 6 && piece[..4] == "\\u00" && LowerHex(c as int / 16, piece[4]) && LowerHex(c as int % 16, piece[5])
    else piece == [c]
  }

  function Flat(pieces: seq<string>): string {
    if pieces == [] then "" else pieces[0] + Flat(pieces[1..])
  }

  ghost predicate Pieces(s: string, pieces: seq<string>) {
    |pieces| == |s| && forall i :: 0 <= i < |s| ==> WritesChar(s[i], pieces[i])
  }

  ghost predicate Quotes(s: string, t: string) {
    exists pieces: seq<string> :: Pieces(s, pieces) && t == "\"" + Flat(pieces) + "\""
  }

  // ---- Values ----

  /** Texts in a row, one separator between two of them. */
  function Joined(parts: seq<string>, separator: string): string
    requires parts != []
  {
    if |parts| == 1 then parts[0] else parts[0] + separator + Joined(parts[1..], separator)
  }

  /** Pretty, each part has a line of its own, two spaces further in than the closing bracket. */
  function Bracketed(open: string, parts: seq<string>, close: string, pretty: bool, indent: nat): string
    requires parts != []
  {
    if pretty then
      open + "\n" + Spaces(2 * (indent + 1)) + Joined(parts, ",\n" + Spaces(2 * (indent + 1))) +
      "\n" + Spaces(2 * indent) + close
    else open + Joined(parts, ",") + close
  }

  ghost predicate ItemParts(v: Json, pretty: bool, indent: nat, parts: seq<string>)
    requires v.Array?
    decreases v, 0
  {
    && |parts| == |v.items|
    && forall i :: 0 <= i < |v.items| ==> Laid(v.items[i], pretty, indent + 1, parts[i])
  }

  predicate Member(key: string, text: string, pretty: bool, part: string) {
    part == key + (if pretty then ": " else ":") + text
  }

  ghost predicate MemberPart(v: Json, i: nat, pretty: bool, indent: nat, part: string)
    requires v.Object? && i < |v.members|
    decreases v, 0
  {
    exists key: string, text: string ::
      Member(key, text, pretty, part) && Quotes(v.members[i].0, key) && Laid(v.members[i].1, pretty, indent + 1, text)
  }

  ghost predicate MemberParts(v: Json, pretty: bool, indent: nat, parts: seq<string>)
    requires v.Object?
    decreases v, 1
  {
    && |parts| == |v.members|
    && forall i :: 0 <= i < |v.members| ==> MemberPart(v, i, pretty, indent, parts[i])
  }

  /** t is the value written at a level of indentation. */
  ghost predicate Laid(v: Json, pretty: bool, indent: nat, t: string)
    decreases v, 2
  {
    match v
    case Null => t == "null"
    case Bool(b) => t == if b then "true" else "false"
    case Number(n) => t == n
    case String(s) => Quotes(s, t)
    case Array(items) =>
      if items == [] then t == "[]"
      else exists parts: seq<string> ::
        ItemParts(v, pretty, indent, parts) && t == Bracketed("[", parts, "]", pretty, indent)
    case Object(members) =>
      if members == [] then t == "{}"
      else exists parts: seq<string> ::
        MemberParts(v, pretty, indent, parts) && t == Bracketed("{", parts, "}", pretty, indent)
  }

  // ---- The writer's strings ----

  lemma {:induction false} CharExactly(c: char, piece: string)
    ensures WritesChar(c, piece) <==> piece == EscapeChar(c)
  {
    if c as int < 0x20 && EscapeLetter(c).None? {
      DigitExactly(c as int / 16);
      DigitExactly(c as int % 16);
      if WritesChar(c, piece) {
        assert piece == piece[..4] + [piece[4], piece[5]];
      }
    }
  }

  lemma {:induction false} DigitExactly(d: nat)
    requires d < 16
    ensures forall x: char :: LowerHex(d, x) <==> x == HexDigit(d)
  {
  }

  lemma {:induction false} PiecesExactly(s: string, pieces: seq<string>)
    requires Pieces(s, pieces)
    ensures Flat(pieces) == Escaped(s)
    decreases |s|
  {
    if s != [] {
      CharExactly(s[0], pieces[0]);
      PiecesExactly(s[1..], pieces[1..]);
    }
  }

  lemma {:induction false} QuotesExactly(s: string, t: string)
    ensures Quotes(s, t) <==> t == Quoted(s)
  {
    var pieces := seq(|s|, i requires 0 <= i < |s| => EscapeChar(s[i]));
    forall i | 0 <= i < |s| ensures WritesChar(s[i], pieces[i]) {
      CharExactly(s[i], pieces[i]);
    }
    PiecesExactly(s, pieces);
    if Quotes(s, t) {
      var given: seq<string> :| Pieces(s, given) && t == "\"" + Flat(given) + "\"";
      PiecesExactly(s, given);
    }
  }

  // ---- The writer's arrays and objects ----

  lemma {:induction false} JoinStep(line: string, part: string, others: string, end: string)
    ensures (line + part) + ("," + (line + others + end)) == line + (part + ("," + line) + others) + end
  {
  }

  lemma {:induction false} ItemsJoined(v: Json, i: nat, pretty: bool, indent: nat, parts: seq<string>)
    requires v.Array? && i < |v.items| == |parts|
    requires forall k :: 0 <= k < |parts| ==> parts[k] == Text(v.items[k], pretty, indent + 1)
    ensures ItemsFrom(v, i, pretty, indent) ==
      NewLine(pretty, indent + 1) + Joined(parts[i..], "," + NewLine(pretty, indent + 1)) +
      (NewLine(pretty, indent) + "]")
    decreases |v.items| - i
  {
    if i + 1 < |v.items| {
      ItemsJoined(v, i + 1, pretty, indent, parts);
      assert parts[i..][1..] == parts[i + 1..];
      JoinStep(NewLine(pretty, indent + 1), parts[i], Joined(parts[i + 1..], "," + NewLine(pretty, indent + 1)),
        NewLine(pretty, indent) + "]");
    }
  }

  /** What the writer puts for one member. */
  function MemberText(v: Json, i: nat, pretty: bool, indent: nat): string
    requires v.Object? && i < |v.members|
  {
    Quoted(v.members[i].0) + Colon(pretty) + Text(v.members[i].1, pretty, indent + 1)
  }

  lemma {:induction false} MemberTextStands(v: Json, i: nat, pretty: bool, indent: nat)
    requires v.Object? && i < |v.members|
    ensures MembersFrom(v, i, pretty, indent) ==
      NewLine(pretty, indent + 1) + MemberText(v, i, pretty, indent) +
      if i + 1 < |v.members| then "," + MembersFrom(v, i + 1, pretty, indent) else NewLine(pretty, indent) + "}"
  {
    var line, key, colon := NewLine(pretty, indent + 1), Quoted(v.members[i].0), Colon(pretty);
    var text := Text(v.members[i].1, pretty, indent + 1);
    assert line + key + colon + text == line + (key + colon + text);
  }

  lemma {:induction false} MembersJoined(v: Json, i: nat, pretty: bool, indent: nat, parts: seq<string>)
    requires v.Object? && i < |v.members| == |parts|
    requires forall k :: 0 <= k < |parts| ==> parts[k] == MemberText(v, k, pretty, indent)
    ensures MembersFrom(v, i, pretty, indent) ==
      NewLine(pretty, indent + 1) + Joined(parts[i..], "," + NewLine(pretty, indent + 1)) +
      (NewLine(pretty, indent) + "}")
    decreases |v.members| - i
  {
    MemberTextStands(v, i, pretty, indent);
    if i + 1 < |v.members| {
      MembersJoined(v, i + 1, pretty, indent, parts);
      assert parts[i..][1..] == parts[i + 1..];
      JoinStep(NewLine(pretty, indent + 1), parts[i], Joined(parts[i + 1..], "," + NewLine(pretty, indent + 1)),
        NewLine(pretty, indent) + "}");
    }
  }

  /** The line breaks of the writer are those of the layout. */
  lemma {:induction false} BracketedLines(open: string, parts: seq<string>, close: string, pretty: bool, indent: nat)
    requires parts != []
    ensures Bracketed(open, parts, close, pretty, indent) ==
      open + (NewLine(pretty, indent + 1) + Joined(parts, "," + NewLine(pretty, indent + 1)) +
              (NewLine(pretty, indent) + close))
  {
    if pretty {
      var inner, outer := Spaces(2 * (indent + 1)), Spaces(2 * indent);
      assert ",\n" + inner == "," + ("\n" + inner);
      var joined := Joined(parts, ",\n" + inner);
      assert open + "\n" + inner + joined + "\n" + outer + close ==
        open + (("\n" + inner) + joined + (("\n" + outer) + close));
    } else {
      assert "," + "" == ",";
      var joined := Joined(parts, ",");
      assert open + joined + close == open + ("" + joined + ("" + close));
    }
  }

  /** The layout gives every value exactly one text, and the writer's text is that one. */
  lemma {:induction false} LaidExactly(v: Json, pretty: bool, indent: nat, t: string)
    ensures Laid(v, pretty, indent, t) <==> t == Text(v, pretty, indent)
    decreases v, 2
  {
    if v.String? {
      QuotesExactly(v.text, t);
    } else if v.Array? && v.items != [] {
      ArrayExactly(v, pretty, indent, t);
    } else if v.Object? && v.members != [] {
      ObjectExactly(v, pretty, indent, t);
    }
  }

  lemma {:induction false} ArrayExactly(v: Json, pretty: bool, indent: nat, t: string)
    requires v.Array? && v.items != []
    ensures Laid(v, pretty, indent, t) <==> t == Text(v, pretty, indent)
    decreases v, 1
  {
    var parts := seq(|v.items|, i requires 0 <= i < |v.items| => Text(v.items[i], pretty, indent + 1));
    ItemsExactly(v, pretty, indent, parts);
    ItemsJoined(v, 0, pretty, indent, parts);
    assert parts[0..] == parts;
    BracketedLines("[", parts, "]", pretty, indent);
    if Laid(v, pretty, indent, t) {
      var given: seq<string> :| ItemParts(v, pretty, indent, given) && t == Bracketed("[", given, "]", pretty, indent);
      ItemsExactly(v, pretty, indent, given);
      assert given == parts;
    }
  }

  lemma {:induction false} ItemsExactly(v: Json, pretty: bool, indent: nat, parts: seq<string>)
    requires v.Array? && |parts| == |v.items|
    ensures ItemParts(v, pretty, indent, parts) <==>
      forall i :: 0 <= i < |v.items| ==> parts[i] == Text(v.items[i], pretty, indent + 1)
    decreases v, 0
  {
    forall i | 0 <= i < |v.items|
      ensures Laid(v.items[i], pretty, indent + 1, parts[i]) <==> parts[i] == Text(v.items[i], pretty, indent + 1)
    {
      LaidExactly(v.items[i], pretty, indent + 1, parts[i]);
    }
  }

  lemma {:induction false} ObjectExactly(v: Json, pretty: bool, indent: nat, t: string)
    requires v.Object? && v.members != []
    ensures Laid(v, pretty, indent, t) <==> t == Text(v, pretty, indent)
    decreases v, 1
  {
    var parts := seq(|v.members|, i requires 0 <= i < |v.members| => MemberText(v, i, pretty, indent));
    forall i | 0 <= i < |v.members| ensures MemberPart(v, i, pretty, indent, parts[i]) {
      MemberExactly(v, i, pretty, indent, parts[i]);
    }
    MembersJoined(v, 0, pretty, indent, parts);
    assert parts[0..] == parts;
    BracketedLines("{", parts, "}", pretty, indent);
    if Laid(v, pretty, indent, t) {
      var given: seq<string> :|
        MemberParts(v, pretty, indent, given) && t == Bracketed("{", given, "}", pretty, indent);
      forall i | 0 <= i < |v.members| ensures given[i] == parts[i] {
        MemberExactly(v, i, pretty, indent, given[i]);
      }
      assert given == parts;
    }
  }

  lemma {:induction false} MemberExactly(v: Json, i: nat, pretty: bool, indent: nat, part: string)
    requires v.Object? && i < |v.members|
    ensures MemberPart(v, i, pretty, indent, part) <==> part == MemberText(v, i, pretty, indent)
    decreases v, 0
  {
    var m := v.members[i];
    assert m in v.members && m.1 < v;
    QuotesExactly(m.0, Quoted(m.0));
    LaidExactly(m.1, pretty, indent + 1, Text(m.1, pretty, indent + 1));
    assert Member(Quoted(m.0), Text(m.1, pretty, indent + 1), pretty, MemberText(v, i, pretty, indent));
    if MemberPart(v, i, pretty, indent, part) {
      var key: string, text: string :|
        Member(key, text, pretty, part) && Quotes(m.0, key) && Laid(m.1, pretty, indent + 1, text);
      QuotesExactly(m.0, key);
      LaidExactly(m.1, pretty, indent + 1, text);
    }
  }
}
