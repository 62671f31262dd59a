/** Parsing what the writer wrote gives the value back, compact or pretty: the written text is derived as the value. */
module JsonRoundTrip {
  import opened Options
  import opened JsonText
  import opened JsonReading
  import opened JsonGrammar

  /** Values the writer can write so that they come back: numbers are literals (or, for a compatible parser,
      one of Python's three names), keys are unique, and the nesting from here on stays within the limit. */
  ghost predicate Good(compat: bool, v: Json, depth: nat)
    decreases v
  {
    match v
    case Null => true
    case Bool(_) => true
    case Number(n) => IsNumberText(n) || (compat && IsNonFinite(n))
    case String(_) => true
    case Array(items) => depth < MAX_DEPTH && forall i :: 0 <= i < |items| ==> Good(compat, items[i], depth + 1)
    case Object(members) =>
      && depth < MAX_DEPTH && UniqueKeys(members)
      && forall i :: 0 <= i < |members| ==> Good(compat, members[i].1, depth + 1)
  }

  ghost predicate UniqueKeys(members: seq<(string, Json)>) {
    forall i, j :: 0 <= i < j < |members| ==> members[i].0 != members[j].0
  }

  // ---- Strings ----

  lemma {:induction false} HexOfDigit(d: nat)
    requires d < 16
    ensures HexValue(HexDigit(d)) == Some(d)
  {
  }

  lemma {:induction false} ControlIsCode(t: string, pos: nat, c: char)
    requires c as int < 0x20 && At(t, pos, UnicodeEscape(c))
    ensures IsCode(t, pos, pos + 6, [c])
  {
    var e := UnicodeEscape(c);
    AtChar(t, pos, e, 0);
    AtChar(t, pos, e, 1);
    AtChar(t, pos, e, 2);
    AtChar(t, pos, e, 3);
    AtChar(t, pos, e, 4);
    AtChar(t, pos, e, 5);
    HexOfDigit(c as int / 16);
    HexOfDigit(c as int % 16);
    LiteralTwo(t, pos);
    assert HexValue('0') == Some(0);
    assert Hex4(t, pos + 2) == Done(c as int, pos + 6);
  }

  lemma {:induction false} WrittenPiece(o: ParseOptions, t: string, pos: nat, c: char)
    requires At(t, pos, EscapeChar(c))
    ensures IsPiece(o, t, pos, pos + |EscapeChar(c)|, [c])
  {
    var e := EscapeChar(c);
    AtChar(t, pos, e, 0);
    if |e| == 2 {
      AtChar(t, pos, e, 1);
      assert IsShort(t, pos, pos + 2, [c]);
    } else if |e| == 6 {
      ControlIsCode(t, pos, c);
    } else {
      assert IsPlain(o, t, pos, pos + 1, [c]);
    }
  }

  lemma {:induction false} EscapedSplits(t: string, pos: nat, s: string) returns (mid: nat)
    requires s != [] && At(t, pos, Escaped(s))
    ensures At(t, pos, EscapeChar(s[0])) && At(t, mid, Escaped(s[1..]))
    ensures pos < mid == pos + |EscapeChar(s[0])| && mid + |Escaped(s[1..])| == pos + |Escaped(s)|
  {
    AtJoin(t, pos, EscapeChar(s[0]), Escaped(s[1..]));
    mid := pos + |EscapeChar(s[0])|;
  }

  lemma {:induction false} WrittenBody(o: ParseOptions, t: string, pos: nat, s: string)
    requires At(t, pos, Escaped(s))
    ensures IsBody(o, t, pos, pos + |Escaped(s)|, s)
    decreases |s|
  {
    if s != [] {
      var mid := EscapedSplits(t, pos, s);
      WrittenPiece(o, t, pos, s[0]);
      WrittenBody(o, t, mid, s[1..]);
      PieceAndBody(o, t, pos, mid, pos + |Escaped(s)|, s);
    }
  }

  lemma {:induction false} PieceAndBody(o: ParseOptions, t: string, lo: nat, mid: nat, hi: nat, s: string)
    requires s != [] && lo < mid <= hi && IsPiece(o, t, lo, mid, [s[0]]) && IsBody(o, t, mid, hi, s[1..])
    ensures IsBody(o, t, lo, hi, s)
  {
    assert s == [s[0]] + s[1..];
  }

  lemma {:induction false} WrittenString(o: ParseOptions, t: string, pos: nat, s: string)
    requires At(t, pos, Quoted(s))
    ensures IsString(o, t, pos, pos + |Quoted(s)|, s)
  {
    AtJoin3(t, pos, "\"", Escaped(s), "\"");
    AtChar(t, pos, "\"", 0);
    AtChar(t, pos + 1 + |Escaped(s)|, "\"", 0);
    WrittenBody(o, t, pos + 1, s);
  }

  // ---- Words and spaces ----

  /** The text of v stands at pos and ends at `end`. */
  ghost predicate TextLies(v: Json, pretty: bool, indent: nat, t: string, pos: nat, end: nat) {
    At(t, pos, Text(v, pretty, indent)) && end == pos + |Text(v, pretty, indent)|
  }

  lemma {:induction false} ChildIsGood(compat: bool, v: Json, i: nat, depth: nat)
    requires Good(compat, v, depth)
    ensures v.Array? && i < |v.items| ==> Good(compat, v.items[i], depth + 1)
    ensures v.Object? && i < |v.members| ==> Good(compat, v.members[i].1, depth + 1) && UniqueKeys(v.members)
  {
  }

  lemma {:induction false} WrittenWord(o: ParseOptions, v: Json, pretty: bool, indent: nat, t: string, pos: nat,
      end: nat, depth: nat)
    requires (v.Null? || v.Bool? || v.Number?) && Good(o.pythonCompat, v, depth)
    requires TextLies(v, pretty, indent, t, pos, end)
    ensures IsValue(o, t, pos, end, depth, v)
  {
    AtSlice(t, pos, Text(v, pretty, indent));
    if v.Number? && IsNumberText(v.number) {
      NumbersExactly(v.number);
      NumberStarts(v.number);
    }
  }

  lemma {:induction false} NewLineIsSpaces(t: string, pos: nat, pretty: bool, level: nat)
    requires At(t, pos, NewLine(pretty, level))
    ensures OnlySpaces(t, pos, pos + |NewLine(pretty, level)|)
  {
    var line := NewLine(pretty, level);
    forall k: nat | pos <= k < pos + |line| ensures IsSpace(t[k]) {
      AtChar(t, pos, line, k - pos);
    }
  }

  /** Spaces and a closing bracket. */
  lemma {:induction false} WrittenClose(t: string, pos: nat, pretty: bool, level: nat, close: char) returns (r: nat)
    requires At(t, pos, NewLine(pretty, level) + [close])
    ensures r == pos + |NewLine(pretty, level)| && OnlySpaces(t, pos, r) && r < |t| && t[r] == close
  {
    AtJoin(t, pos, NewLine(pretty, level), [close]);
    NewLineIsSpaces(t, pos, pretty, level);
    r := pos + |NewLine(pretty, level)|;
    AtChar(t, r, [close], 0);
  }

  lemma {:induction false} WrittenComma(t: string, pos: nat, rest: string)
    requires At(t, pos, "," + rest)
    ensures pos < |t| && t[pos] == ',' && OnlySpaces(t, pos, pos) && At(t, pos + 1, rest)
  {
    AtJoin(t, pos, ",", rest);
    AtChar(t, pos, ",", 0);
  }

  lemma {:induction false} WrittenEmpty(t: string, pos: nat, open: char, close: char)
    requires At(t, pos, [open, close])
    ensures pos + 2 <= |t| && t[pos] == open && IsEmpty(t, pos + 1, pos + 2, close)
  {
    AtChar(t, pos, [open, close], 0);
    AtChar(t, pos, [open, close], 1);
  }

  // ---- Values ----

  lemma {:induction false} WrittenValue(o: ParseOptions, v: Json, pretty: bool, indent: nat, t: string, pos: nat,
      end: nat, depth: nat)
    requires Good(o.pythonCompat, v, depth) && TextLies(v, pretty, indent, t, pos, end)
    ensures IsValue(o, t, pos, end, depth, v)
    decreases v, 3
  {
    match v
    case String(s) => WrittenString(o, t, pos, s);
    case Array(items) => WrittenArray(o, v, pretty, indent, t, pos, end, depth);
    case Object(members) => WrittenObject(o, v, pretty, indent, t, pos, end, depth);
    case _ => WrittenWord(o, v, pretty, indent, t, pos, end, depth);
  }

  lemma {:induction false} WrittenArray(o: ParseOptions, v: Json, pretty: bool, indent: nat, t: string, pos: nat,
      end: nat, depth: nat)
    requires v.Array? && Good(o.pythonCompat, v, depth) && TextLies(v, pretty, indent, t, pos, end)
    ensures IsValue(o, t, pos, end, depth, v)
    decreases v, 2
  {
    if v.items == [] {
      WrittenEmpty(t, pos, '[', ']');
    } else {
      AtJoin(t, pos, "[", ItemsFrom(v, 0, pretty, indent));
      AtChar(t, pos, "[", 0);
      WrittenItems(o, v, 0, pretty, indent, t, pos + 1, end, depth);
      assert v.items[0..] == v.items;
    }
  }

  lemma {:induction false} WrittenObject(o: ParseOptions, v: Json, pretty: bool, indent: nat, t: string, pos: nat,
      end: nat, depth: nat)
    requires v.Object? && Good(o.pythonCompat, v, depth) && TextLies(v, pretty, indent, t, pos, end)
    ensures IsValue(o, t, pos, end, depth, v)
    decreases v, 2
  {
    if v.members == [] {
      WrittenEmpty(t, pos, '{', '}');
    } else {
      AtJoin(t, pos, "{", MembersFrom(v, 0, pretty, indent));
      AtChar(t, pos, "{", 0);
      WrittenMembers(o, v, 0, pretty, indent, t, pos + 1, end, depth);
      AllMembers(v.members);
    }
  }

  lemma {:induction false} AllMembers(members: seq<(string, Json)>)
    requires UniqueKeys(members)
    ensures members[0..] == members && SetAll([], members) == members
  {
    assert [] + members == members;
    SetAllAppends([], members);
  }

  // ---- Arrays ----

  function ItemEnd(v: Json, i: nat, pretty: bool, indent: nat): string
    requires v.Array? && i < |v.items|
  {
    if i + 1 < |v.items| then "," + ItemsFrom(v, i + 1, pretty, indent) else NewLine(pretty, indent) + "]"
  }

  /** The pieces of one item and where they stand. */
  lemma {:induction false} ItemSplits(v: Json, i: nat, pretty: bool, indent: nat, t: string, pos: nat)
    requires v.Array? && i < |v.items| && At(t, pos, ItemsFrom(v, i, pretty, indent))
    ensures var line, text := NewLine(pretty, indent + 1), Text(v.items[i], pretty, indent + 1);
      && At(t, pos, line) && At(t, pos + |line|, text)
      && At(t, pos + |line| + |text|, ItemEnd(v, i, pretty, indent))
      && |ItemsFrom(v, i, pretty, indent)| == |line| + |text| + |ItemEnd(v, i, pretty, indent)|
  {
    var line, text, rest :=
      NewLine(pretty, indent + 1), Text(v.items[i], pretty, indent + 1), ItemEnd(v, i, pretty, indent);
    AtJoin3(t, pos, line, text, rest);
  }

  /** The items from i on stand at pos and end at `end`. */
  ghost predicate ItemsLie(v: Json, i: nat, pretty: bool, indent: nat, t: string, pos: nat, end: nat)
    requires v.Array? && i < |v.items|
  {
    At(t, pos, ItemsFrom(v, i, pretty, indent)) && end == pos + |ItemsFrom(v, i, pretty, indent)|
  }

  lemma {:induction false} ItemStands(v: Json, i: nat, pretty: bool, indent: nat, t: string, pos: nat, end: nat)
    returns (p: nat, q: nat)
    requires v.Array? && i < |v.items| && ItemsLie(v, i, pretty, indent, t, pos, end)
    ensures OnlySpaces(t, pos, p) && TextLies(v.items[i], pretty, indent + 1, t, p, q)
    ensures At(t, q, ItemEnd(v, i, pretty, indent)) && end == q + |ItemEnd(v, i, pretty, indent)|
  {
    p := pos + |NewLine(pretty, indent + 1)|;
    q := p + |Text(v.items[i], pretty, indent + 1)|;
    ItemSplits(v, i, pretty, indent, t, pos);
    NewLineIsSpaces(t, pos, pretty, indent + 1);
  }

  lemma {:induction false} WrittenItems(o: ParseOptions, v: Json, i: nat, pretty: bool, indent: nat, t: string,
      pos: nat, end: nat, depth: nat)
    requires v.Array? && i < |v.items| && Good(o.pythonCompat, v, depth) && ItemsLie(v, i, pretty, indent, t, pos, end)
    ensures IsItems(o, t, pos, end, depth, v.items[i..])
    decreases v, 1, |v.items| - i
  {
    var p, q := ItemStands(v, i, pretty, indent, t, pos, end);
    ChildIsGood(o.pythonCompat, v, i, depth);
    WrittenValue(o, v.items[i], pretty, indent + 1, t, p, q, depth + 1);
    WrittenOthers(o, v, i, pretty, indent, t, q, end, depth);
    ItemsOfParts(o, t, pos, p, q, end, depth, v.items, i);
  }

  lemma {:induction false} ItemsOfParts(o: ParseOptions, t: string, pos: nat, p: nat, q: nat, end: nat, depth: nat,
      items: seq<Json>, i: nat)
    requires i < |items| && OnlySpaces(t, pos, p) && IsValue(o, t, p, q, depth + 1, items[i])
    requires q < end && BehindItem(o, t, q, end, depth, items[i + 1..])
    ensures IsItems(o, t, pos, end, depth, items[i..])
  {
    ItemFirst(o, t, p, q, end, depth, items[i], items[i + 1..]);
    assert [items[i]] + items[i + 1..] == items[i..];
    ItemsFromItem(o, t, pos, p, end, depth, items[i..]);
  }

  lemma {:induction false} WrittenOthers(o: ParseOptions, v: Json, i: nat, pretty: bool, indent: nat, t: string,
      q: nat, end: nat, depth: nat)
    requires v.Array? && i < |v.items| && Good(o.pythonCompat, v, depth)
    requires At(t, q, ItemEnd(v, i, pretty, indent)) && end == q + |ItemEnd(v, i, pretty, indent)|
    ensures q < end && BehindItem(o, t, q, end, depth, v.items[i + 1..])
    decreases v, 1, |v.items| - i, 0
  {
    if i + 1 < |v.items| {
      WrittenComma(t, q, ItemsFrom(v, i + 1, pretty, indent));
      WrittenItems(o, v, i + 1, pretty, indent, t, q + 1, end, depth);
    } else {
      var r := WrittenClose(t, q, pretty, indent, ']');
    }
  }

  // ---- Objects ----

  lemma {:induction false} SetAppends(members: seq<(string, Json)>, key: string, value: Json)
    requires forall i :: 0 <= i < |members| ==> members[i].0 != key
    ensures Set(members, key, value) == members + [(key, value)]
  {
    if members != [] {
      SetAppends(members[1..], key, value);
      assert members == [members[0]] + members[1..];
    }
  }

  lemma {:induction false} SetAllAppends(before: seq<(string, Json)>, members: seq<(string, Json)>)
    requires UniqueKeys(before + members)
    ensures SetAll(before, members) == before + members
    decreases |members|
  {
    if members == [] {
      assert before + members == before;
    } else {
      var m, others := members[0], members[1..];
      assert (before + members)[|before|] == m;
      forall i | 0 <= i < |before| ensures before[i].0 != m.0 {
        assert (before + members)[i] == before[i];
      }
      SetAppends(before, m.0, m.1);
      assert before + [m] + others == before + members;
      SetAllAppends(before + [m], others);
    }
  }

  function MemberEnd(v: Json, i: nat, pretty: bool, indent: nat): string
    requires v.Object? && i < |v.members|
  {
    if i + 1 < |v.members| then "," + MembersFrom(v, i + 1, pretty, indent) else NewLine(pretty, indent) + "}"
  }

  /** Where the pieces of member i stand: its key at p, the colon at k, the value at c and what follows at q. */
  ghost predicate MemberLies(v: Json, i: nat, pretty: bool, indent: nat, t: string, p: nat, k: nat, c: nat, q: nat)
    requires v.Object? && i < |v.members|
  {
    && At(t, p, Quoted(v.members[i].0)) && k == p + |Quoted(v.members[i].0)|
    && At(t, k, Colon(pretty)) && c == k + |Colon(pretty)|
    && At(t, c, Text(v.members[i].1, pretty, indent + 1)) && q == c + |Text(v.members[i].1, pretty, indent + 1)|
    && At(t, q, MemberEnd(v, i, pretty, indent))
  }

  lemma {:induction false} MemberDefinition(v: Json, i: nat, pretty: bool, indent: nat)
    requires v.Object? && i < |v.members|
    ensures MembersFrom(v, i, pretty, indent) ==
      NewLine(pretty, indent + 1) + Quoted(v.members[i].0) + Colon(pretty) + Text(v.members[i].1, pretty, indent + 1) +
      MemberEnd(v, i, pretty, indent)
  {
  }

  lemma {:induction false} FivePlaces(t: string, pos: nat, all: string, a: string, b: string, c: string, d: string,
      e: string)
    returns (p: nat, k: nat, m: nat, q: nat)
    requires At(t, pos, all) && all == a + b + c + d + e
    ensures At(t, pos, a) && p == pos + |a| && At(t, p, b) && k == p + |b| && At(t, k, c) && m == k + |c| && At(t, m, d)
    ensures q == m + |d| && At(t, q, e) && pos + |all| == q + |e|
  {
    AtJoin5(t, pos, a, b, c, d, e);
    p := pos + |a|;
    k := p + |b|;
    m := k + |c|;
    q := m + |d|;
  }

  lemma {:induction false} MemberSplits(v: Json, i: nat, pretty: bool, indent: nat, t: string, pos: nat)
    returns (p: nat, k: nat, c: nat, q: nat)
    requires v.Object? && i < |v.members| && At(t, pos, MembersFrom(v, i, pretty, indent))
    ensures At(t, pos, NewLine(pretty, indent + 1)) && p == pos + |NewLine(pretty, indent + 1)|
    ensures MemberLies(v, i, pretty, indent, t, p, k, c, q)
    ensures pos + |MembersFrom(v, i, pretty, indent)| == q + |MemberEnd(v, i, pretty, indent)|
  {
    MemberDefinition(v, i, pretty, indent);
    p, k, c, q :=
      FivePlaces(t, pos, MembersFrom(v, i, pretty, indent), NewLine(pretty, indent + 1), Quoted(v.members[i].0),
      Colon(pretty), Text(v.members[i].1, pretty, indent + 1), MemberEnd(v, i, pretty, indent));
  }

  /** The members from i on stand at pos and end at `end`. */
  ghost predicate MembersLie(v: Json, i: nat, pretty: bool, indent: nat, t: string, pos: nat, end: nat)
    requires v.Object? && i < |v.members|
  {
    At(t, pos, MembersFrom(v, i, pretty, indent)) && end == pos + |MembersFrom(v, i, pretty, indent)|
  }

  lemma {:induction false} WrittenColon(t: string, k: nat, pretty: bool)
    requires At(t, k, Colon(pretty))
    ensures BehindKey(t, k, k + |Colon(pretty)|)
  {
    AtChar(t, k, Colon(pretty), 0);
    if pretty {
      AtChar(t, k, Colon(pretty), 1);
    }
    assert OnlySpaces(t, k, k) && OnlySpaces(t, k + 1, k + |Colon(pretty)|);
  }

  lemma {:induction false} WrittenKey(o: ParseOptions, t: string, p: nat, key: string, pretty: bool)
    requires At(t, p, Quoted(key)) && At(t, p + |Quoted(key)|, Colon(pretty))
    ensures IsKey(o, t, p, p + |Quoted(key)| + |Colon(pretty)|, key)
  {
    WrittenString(o, t, p, key);
    WrittenColon(t, p + |Quoted(key)|, pretty);
  }

  lemma {:induction false} MemberStands(o: ParseOptions, v: Json, i: nat, pretty: bool, indent: nat, t: string,
      pos: nat, end: nat)
    returns (p: nat, c: nat, q: nat)
    requires v.Object? && i < |v.members| && MembersLie(v, i, pretty, indent, t, pos, end)
    ensures OnlySpaces(t, pos, p) && IsKey(o, t, p, c, v.members[i].0)
    ensures TextLies(v.members[i].1, pretty, indent + 1, t, c, q)
    ensures At(t, q, MemberEnd(v, i, pretty, indent)) && end == q + |MemberEnd(v, i, pretty, indent)|
  {
    var k;
    p, k, c, q := MemberSplits(v, i, pretty, indent, t, pos);
    NewLineIsSpaces(t, pos, pretty, indent + 1);
    WrittenKey(o, t, p, v.members[i].0, pretty);
  }

  lemma {:induction false} WrittenMembers(o: ParseOptions, v: Json, i: nat, pretty: bool, indent: nat, t: string,
      pos: nat, end: nat, depth: nat)
    requires v.Object? && i < |v.members| && Good(o.pythonCompat, v, depth)
    requires MembersLie(v, i, pretty, indent, t, pos, end)
    ensures IsMembers(o, t, pos, end, depth, v.members[i..])
    decreases v, 1, |v.members| - i
  {
    var p, c, q := MemberStands(o, v, i, pretty, indent, t, pos, end);
    ChildIsGood(o.pythonCompat, v, i, depth);
    WrittenValue(o, v.members[i].1, pretty, indent + 1, t, c, q, depth + 1);
    WrittenRest(o, v, i, pretty, indent, t, q, end, depth);
    MembersOfParts(o, t, pos, p, c, q, end, depth, v.members, i);
  }

  lemma {:induction false} MembersOfParts(o: ParseOptions, t: string, pos: nat, p: nat, c: nat, q: nat, end: nat,
      depth: nat, members: seq<(string, Json)>, i: nat)
    requires i < |members| && OnlySpaces(t, pos, p) && IsKey(o, t, p, c, members[i].0) &&
      IsValue(o, t, c, q, depth + 1, members[i].1)
    requires q < end && BehindMember(o, t, q, end, depth, members[i + 1..])
    ensures IsMembers(o, t, pos, end, depth, members[i..])
  {
    ValueFirst(o, t, c, q, end, depth, members[i], members[i + 1..]);
    assert [members[i]] + members[i + 1..] == members[i..];
    MembersFromKey(o, t, pos, p, c, end, depth, members[i..]);
  }

  lemma {:induction false} WrittenRest(o: ParseOptions, v: Json, i: nat, pretty: bool, indent: nat, t: string,
      q: nat, end: nat, depth: nat)
    requires v.Object? && i < |v.members| && Good(o.pythonCompat, v, depth)
    requires At(t, q, MemberEnd(v, i, pretty, indent)) && end == q + |MemberEnd(v, i, pretty, indent)|
    ensures q < end && BehindMember(o, t, q, end, depth, v.members[i + 1..])
    decreases v, 1, |v.members| - i, 0
  {
    if i + 1 < |v.members| {
      WrittenComma(t, q, MembersFrom(v, i + 1, pretty, indent));
      WrittenMembers(o, v, i + 1, pretty, indent, t, q + 1, end, depth);
    } else {
      var r := WrittenClose(t, q, pretty, indent, '}');
    }
  }

  /** The round trip, for every options of the parser and both forms of the writer. */
  lemma {:induction false} ParseUndoesWrite(o: ParseOptions, v: Json, pretty: bool)
    requires Good(o.pythonCompat, v, 0)
    ensures Document(o, Text(v, pretty, 0)) == Some(v)
  {
    var t := Text(v, pretty, 0);
    WrittenValue(o, v, pretty, 0, t, 0, |t|, 0);
    assert IsDocument(o, t, 0, |t|, v);
    AcceptsExactly(o, t, v);
  }
}
