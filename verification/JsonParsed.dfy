/** What the parser can return: exactly the values the writer can send back to it. */
module JsonParsed {
  import opened Options
  import opened JsonText
  import opened JsonReading
  import opened JsonRoundTrip

  ghost predicate GoodItems(compat: bool, items: seq<Json>, depth: nat) {
    forall i :: 0 <= i < |items| ==> Good(compat, items[i], depth)
  }

  ghost predicate GoodMembers(compat: bool, members: seq<(string, Json)>, depth: nat) {
    UniqueKeys(members) && forall i :: 0 <= i < |members| ==> Good(compat, members[i].1, depth)
  }

  /** Setting a member keeps the other keys in their places. */
  lemma {:induction false} SetKeys(members: seq<(string, Json)>, key: string, value: Json)
    ensures var s := Set(members, key, value);
      && |members| <= |s| <= |members| + 1
      && (forall i :: 0 <= i < |members| ==> s[i].0 == members[i].0 && (s[i] == members[i] || s[i] == (key, value)))
      && (|s| > |members| ==> s[|members|] == (key, value) && forall i :: 0 <= i < |members| ==> members[i].0 != key)
  {
    if members != [] && members[0].0 != key {
      SetKeys(members[1..], key, value);
      var s, rest := Set(members, key, value), Set(members[1..], key, value);
      forall i | 0 < i < |members| ensures s[i] == rest[i - 1] && members[i] == members[1..][i - 1] {
      }
    }
  }

  lemma {:induction false} SetIsGood(compat: bool, members: seq<(string, Json)>, key: string, value: Json, depth: nat)
    requires GoodMembers(compat, members, depth) && Good(compat, value, depth)
    ensures GoodMembers(compat, Set(members, key, value), depth)
  {
    SetKeys(members, key, value);
  }

  lemma {:induction false} ScalarIsGood(o: ParseOptions, t: string, pos: nat, depth: nat)
    requires pos < |t| && ScalarAt(o, t, pos).Done?
    ensures Good(o.pythonCompat, ScalarAt(o, t, pos).value, depth)
  {
    var end := NumberEnd(t, pos);
    if end.Some? {
      NumberIsLiteral(t, pos, end.value);
    }
  }

  lemma {:induction false} ValueIsGood(o: ParseOptions, t: string, pos: nat, depth: nat)
    requires pos <= |t| && ValueAt(o, t, pos, depth).Done?
    ensures Good(o.pythonCompat, ValueAt(o, t, pos, depth).value, depth)
    decreases |t| - pos, 1
  {
    if t[pos] == '{' {
      var p := SkipSpace(t, pos + 1);
      if !(p < |t| && t[p] == '}') {
        MembersAreGood(o, t, p, depth, []);
      }
    } else if t[pos] == '[' {
      var p := SkipSpace(t, pos + 1);
      if !(p < |t| && t[p] == ']') {
        ItemsAreGood(o, t, p, depth, []);
      }
    } else if t[pos] != '"' {
      ScalarIsGood(o, t, pos, depth);
    }
  }

  lemma {:induction false} ItemsAreGood(o: ParseOptions, t: string, pos: nat, depth: nat, items: seq<Json>)
    requires pos <= |t| && ArrayRest(o, t, pos, depth, items).Done?
    requires depth < MAX_DEPTH && GoodItems(o.pythonCompat, items, depth + 1)
    ensures Good(o.pythonCompat, ArrayRest(o, t, pos, depth, items).value, depth)
    decreases |t| - pos, 2
  {
    var v := ValueAt(o, t, SkipSpace(t, pos), depth + 1);
    ValueIsGood(o, t, SkipSpace(t, pos), depth + 1);
    var p := SkipSpace(t, v.pos);
    assert GoodItems(o.pythonCompat, items + [v.value], depth + 1);
    if t[p] == ',' {
      ItemsAreGood(o, t, p + 1, depth, items + [v.value]);
    }
  }

  lemma {:induction false} MembersAreGood(o: ParseOptions, t: string, pos: nat, depth: nat,
      members: seq<(string, Json)>)
    requires pos <= |t| && ObjectRest(o, t, pos, depth, members).Done?
    requires depth < MAX_DEPTH && GoodMembers(o.pythonCompat, members, depth + 1)
    ensures Good(o.pythonCompat, ObjectRest(o, t, pos, depth, members).value, depth)
    decreases |t| - pos, 2
  {
    var key, v, c, p := MemberParts(o, t, pos, depth, members);
    ValueIsGood(o, t, c, depth + 1);
    SetIsGood(o.pythonCompat, members, key, v, depth + 1);
    if t[p] == ',' {
      MembersAreGood(o, t, p + 1, depth, Set(members, key, v));
    } else {
      ObjectIsGood(o.pythonCompat, Set(members, key, v), depth);
    }
  }

  lemma {:induction false} ObjectIsGood(compat: bool, members: seq<(string, Json)>, depth: nat)
    requires depth < MAX_DEPTH && GoodMembers(compat, members, depth + 1)
    ensures Good(compat, Object(members), depth)
  {
  }

  /** What the rest of an object is made of: a member with its value at c, and at p a comma or the closing brace. */
  lemma {:induction false} MemberParts(o: ParseOptions, t: string, pos: nat, depth: nat, members: seq<(string, Json)>)
    returns (key: string, v: Json, c: nat, p: nat)
    requires pos <= |t| && ObjectRest(o, t, pos, depth, members).Done?
    ensures pos < c <= |t| && ValueAt(o, t, c, depth + 1).Done? && ValueAt(o, t, c, depth + 1).value == v
    ensures pos < p < |t| &&
      (t[p] != ',' ==> ObjectRest(o, t, pos, depth, members).value == Object(Set(members, key, v)))
    ensures t[p] == ',' ==>
      ObjectRest(o, t, pos, depth, members) == ObjectRest(o, t, p + 1, depth, Set(members, key, v))
  {
    var m := MemberAt(o, t, pos, depth);
    key, v, p := m.value.0, m.value.1, m.pos;
    c := MemberValue(o, t, pos, depth);
    BehindMember(o, t, p, depth, Set(members, key, v));
  }

  lemma {:induction false} BehindMember(o: ParseOptions, t: string, p: nat, depth: nat, members: seq<(string, Json)>)
    requires p <= |t| && AfterMember(o, t, p, depth, members).Done?
    ensures p < |t|
    ensures t[p] != ',' ==> t[p] == '}' && AfterMember(o, t, p, depth, members) == Done(Object(members), p + 1)
    ensures t[p] == ',' ==> AfterMember(o, t, p, depth, members) == ObjectRest(o, t, p + 1, depth, members)
  {
  }

  lemma {:induction false} MemberValue(o: ParseOptions, t: string, pos: nat, depth: nat) returns (c: nat)
    requires pos <= |t| && MemberAt(o, t, pos, depth).Done?
    ensures pos < c <= |t| && ValueAt(o, t, c, depth + 1).Done?
    ensures ValueAt(o, t, c, depth + 1).value == MemberAt(o, t, pos, depth).value.1
  {
    c := SkipSpace(t, KeyAt(o, t, SkipSpace(t, pos)).pos);
  }

  /** Whatever a document holds, the value read from it is one the writer can write. */
  lemma {:induction false} DocumentIsGood(o: ParseOptions, t: string)
    requires Document(o, t).Some?
    ensures Good(o.pythonCompat, Document(o, t).value, 0)
  {
    ValueIsGood(o, t, SkipSpace(t, 0), 0);
  }

  /** The values that survive writing and parsing are exactly the good ones. */
  lemma {:induction false} RoundTripExactly(o: ParseOptions, v: Json, pretty: bool)
    ensures Document(o, Text(v, pretty, 0)) == Some(v) <==> Good(o.pythonCompat, v, 0)
  {
    if Good(o.pythonCompat, v, 0) {
      ParseUndoesWrite(o, v, pretty);
    }
    if Document(o, Text(v, pretty, 0)) == Some(v) {
      DocumentIsGood(o, Text(v, pretty, 0));
    }
  }

  /** A document that parses can be rewritten in either form without changing what it says. */
  lemma {:induction false} RewriteKeepsMeaning(o: ParseOptions, t: string, pretty: bool)
    requires Document(o, t).Some?
    ensures Document(o, Text(Document(o, t).value, pretty, 0)) == Document(o, t)
  {
    DocumentIsGood(o, t);
    ParseUndoesWrite(o, Document(o, t).value, pretty);
  }
}
