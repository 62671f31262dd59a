/**
 * The match bookkeeping: three item lists with their multiplicity index and the two name dictionaries,
 * changed by AddMatch and Cleanup.
 */
module Matching {
  import opened Options
  import opened Items
  import opened CleanupSieve
  import opened SetFacts

  datatype Chooser = Best | Partial | Unreliable {
    function Index(): (i: nat)
      ensures i < 3
    {
      match this case Best => 0 case Partial => 1 case Unreliable => 2
    }
  }

  datatype Entry = Entry(other: Text, ratio: real)

  /** A dictionary with its insertion order. */
  datatype NameDict = NameDict(order: seq<Text>, entries: map<Text, Entry>) {
    ghost predicate Valid() {
      && (forall k :: k in order <==> k in entries)
      && (forall i, j :: 0 <= i < j < |order| ==> order[i] != order[j])
    }

    /** A new key goes to the end, a known key keeps its position. */
    function Put(key: Text, entry: Entry): NameDict {
      NameDict(if key in entries then order else order + [key], entries[key := entry])
    }

    lemma {:induction false} PutValid(key: Text, entry: Entry)
      requires Valid()
      ensures Put(key, entry).Valid()
    {
    }
  }

  const EMPTY := NameDict([], map[])

  // ---- The dictionaries a cleanup rebuilds ----

  function Owner(it: Item, mirrored: bool): Text {
    if mirrored then it.name2 else it.name1
  }

  function EntryOf(it: Item, mirrored: bool): Entry {
    Entry(Owner(it, !mirrored), it.ratio)
  }

  function DictOf(items: seq<Item>, mirrored: bool): NameDict {
    if items == [] then EMPTY
    else
      var last := items[|items| - 1];
      DictOf(items[..|items| - 1], mirrored).Put(Owner(last, mirrored), EntryOf(last, mirrored))
  }

  lemma {:induction false} DictAppend(items: seq<Item>, it: Item, mirrored: bool)
    ensures DictOf(items + [it], mirrored) == DictOf(items, mirrored).Put(Owner(it, mirrored), EntryOf(it, mirrored))
  {
    assert (items + [it])[..|items|] == items;
  }

  lemma {:induction false} DictOneMore(before: seq<Item>, items: seq<Item>, j: nat, mirrored: bool)
    requires j < |items|
    ensures DictOf(before + items[..j + 1], mirrored) ==
      DictOf(before + items[..j], mirrored).Put(Owner(items[j], mirrored), EntryOf(items[j], mirrored))
  {
    assert before + items[..j + 1] == (before + items[..j]) + [items[j]];
    DictAppend(before + items[..j], items[j], mirrored);
  }

  // ---- What they hold, in the items' own fields ----

  /** The item has the name k on that side. */
  ghost predicate Bears(x: Item, mirrored: bool, k: Text) {
    k == if mirrored then x.name2 else x.name1
  }

  ghost predicate LastBearer(items: seq<Item>, mirrored: bool, k: Text, p: nat) {
    p < |items| && Bears(items[p], mirrored, k) && forall q :: p < q < |items| ==> !Bears(items[q], mirrored, k)
  }

  ghost predicate FirstBearer(items: seq<Item>, mirrored: bool, k: Text, p: nat) {
    p < |items| && Bears(items[p], mirrored, k) && forall q: nat :: q < p ==> !Bears(items[q], mirrored, k)
  }

  ghost predicate Borne(items: seq<Item>, mirrored: bool, k: Text) {
    exists p: nat :: p < |items| && Bears(items[p], mirrored, k)
  }

  /** The name stands for the name on the other side and the ratio of the last item that bears it. */
  ghost predicate HasLast(d: NameDict, items: seq<Item>, mirrored: bool, k: Text) {
    exists p: nat :: LastBearer(items, mirrored, k, p) && k in d.entries &&
      d.entries[k] == if mirrored then Entry(items[p].name1, items[p].ratio) else Entry(items[p].name2, items[p].ratio)
  }

  /** The names that items bear, and no others, each with the entry of the last item that bears it. */
  ghost predicate HasNames(d: NameDict, items: seq<Item>, mirrored: bool) {
    && d.Valid()
    && (forall k :: k in d.entries <==> Borne(items, mirrored, k))
    && (forall k :: k in d.entries ==> HasLast(d, items, mirrored, k))
  }

  ghost predicate KeysAt(order: seq<Text>, items: seq<Item>, mirrored: bool, ps: seq<nat>) {
    && |ps| == |order|
    && (forall i :: 0 <= i < |ps| ==> FirstBearer(items, mirrored, order[i], ps[i]))
    && (forall i, j :: 0 <= i < j < |ps| ==> ps[i] < ps[j])
  }

  /** The keys stand in the order of the first items that bear them. */
  ghost predicate InFirstOrder(d: NameDict, items: seq<Item>, mirrored: bool) {
    exists ps: seq<nat> :: KeysAt(d.order, items, mirrored, ps)
  }

  lemma {:induction false} BorneNext(items: seq<Item>, x: Item, mirrored: bool, k: Text)
    ensures Borne(items + [x], mirrored, k) <==> Borne(items, mirrored, k) || Bears(x, mirrored, k)
  {
    var next := items + [x];
    if p: nat :| p < |items| && Bears(items[p], mirrored, k) {
      assert Bears(next[p], mirrored, k);
    }
    if Bears(x, mirrored, k) {
      assert Bears(next[|items|], mirrored, k);
    }
  }

  lemma {:induction false} LastNext(d: NameDict, items: seq<Item>, x: Item, mirrored: bool, k: Text)
    requires Bears(x, mirrored, k) || HasLast(d, items, mirrored, k)
    ensures HasLast(d.Put(Owner(x, mirrored), EntryOf(x, mirrored)), items + [x], mirrored, k)
  {
    var next := items + [x];
    if Bears(x, mirrored, k) {
      assert LastBearer(next, mirrored, k, |items|);
    } else {
      var p: nat :| LastBearer(items, mirrored, k, p) && k in d.entries &&
        d.entries[k] ==
          if mirrored then Entry(items[p].name1, items[p].ratio) else Entry(items[p].name2, items[p].ratio);
      assert LastBearer(next, mirrored, k, p);
    }
  }

  lemma {:induction false} NamesNext(d: NameDict, items: seq<Item>, x: Item, mirrored: bool)
    requires HasNames(d, items, mirrored)
    ensures HasNames(d.Put(Owner(x, mirrored), EntryOf(x, mirrored)), items + [x], mirrored)
  {
    var next, e := items + [x], d.Put(Owner(x, mirrored), EntryOf(x, mirrored));
    d.PutValid(Owner(x, mirrored), EntryOf(x, mirrored));
    forall k ensures k in e.entries <==> Borne(next, mirrored, k) {
      BorneNext(items, x, mirrored, k);
    }
    forall k | k in e.entries ensures HasLast(e, next, mirrored, k) {
      LastNext(d, items, x, mirrored, k);
    }
  }

  lemma {:induction false} KeysStay(order: seq<Text>, items: seq<Item>, x: Item, mirrored: bool, ps: seq<nat>)
    requires KeysAt(order, items, mirrored, ps)
    ensures KeysAt(order, items + [x], mirrored, ps)
  {
    forall i | 0 <= i < |ps| ensures FirstBearer(items + [x], mirrored, order[i], ps[i]) {
      assert FirstBearer(items, mirrored, order[i], ps[i]);
    }
  }

  lemma {:induction false} KeysGrow(order: seq<Text>, items: seq<Item>, mirrored: bool, ps: seq<nat>, k: Text, p: nat)
    requires KeysAt(order, items, mirrored, ps) && FirstBearer(items, mirrored, k, p)
    requires forall i :: 0 <= i < |ps| ==> ps[i] < p
    ensures KeysAt(order + [k], items, mirrored, ps + [p])
  {
  }

  lemma {:induction false} KeysNext(order: seq<Text>, items: seq<Item>, x: Item, mirrored: bool, ps: seq<nat>)
    requires KeysAt(order, items, mirrored, ps)
    ensures KeysAt(order, items + [x], mirrored, ps)
    ensures !Borne(items, mirrored, Owner(x, mirrored)) ==>
      KeysAt(order + [Owner(x, mirrored)], items + [x], mirrored, ps + [|items|])
  {
    var next, k := items + [x], Owner(x, mirrored);
    KeysStay(order, items, x, mirrored, ps);
    if !Borne(items, mirrored, k) {
      assert FirstBearer(next, mirrored, k, |items|);
      forall i | 0 <= i < |ps| ensures ps[i] < |items| {
        assert FirstBearer(items, mirrored, order[i], ps[i]);
      }
      KeysGrow(order, next, mirrored, ps, k, |items|);
    }
  }

  /** A dictionary that is rebuilt from a list has exactly the names its items bear, each with the entry of the last
      item that bears it, in the order of the first ones. */
  lemma {:induction false} DictMeaning(items: seq<Item>, mirrored: bool)
    ensures HasNames(DictOf(items, mirrored), items, mirrored) && InFirstOrder(DictOf(items, mirrored), items, mirrored)
  {
    if items == [] {
      assert KeysAt(EMPTY.order, items, mirrored, []);
    } else {
      var front, last := items[..|items| - 1], items[|items| - 1];
      assert items == front + [last];
      DictMeaning(front, mirrored);
      var d := DictOf(front, mirrored);
      NamesNext(d, front, last, mirrored);
      var ps: seq<nat> :| KeysAt(d.order, front, mirrored, ps);
      KeysNext(d.order, front, last, mirrored, ps);
    }
  }

  // ---- The state as a value ----

  datatype Outcome = Raised | RejectedBetter | Duplicate | Appended

  datatype Verdict = NoneName | Better | NotBetter

  predicate StartsSub(t: Text) {
    t.Text? && "sub_" <= t.text
  }

  ghost predicate NamesIn(lists: seq<seq<Item>>, names1: set<Text>, names2: set<Text>) {
    forall i: nat, x :: i < |lists| && x in lists[i] ==> x.name1 in names1 && x.name2 in names2
  }

  datatype Matches = Matches(lists: seq<seq<Item>>, primary: NameDict, secondary: NameDict, total1: int, total2: int) {
    ghost predicate Valid() {
      |lists| == 3 && primary.Valid() && secondary.Valid()
    }

    /** A recorded name pair only blocks the pair of equal names; otherwise a strictly greater ratio of
        either name blocks. The prefix test of a missing name cannot be answered. */
    function BetterMatch(n1: Text, n2: Text, ratio: real): Verdict {
      if n1.Null? || (!StartsSub(n1) && n2.Null?) then NoneName
      else if !StartsSub(n1) && !StartsSub(n2) && n1 in primary.entries then
        if primary.entries[n1].other == n1 then Better else NotBetter
      else if n1 in primary.entries && primary.entries[n1].ratio > ratio then Better
      else if n2 in secondary.entries && secondary.entries[n2].ratio > ratio then Better
      else NotBetter
    }

    function StoredRatio(n1: Text, n2: Text, ratio: real): real {
      if n1 == n2 then 1.0 else ratio
    }

    function Outcome(n1: Text, n2: Text, ratio: real, it: Item, c: Option<Chooser>): Outcome
      requires |lists| == 3
    {
      var verdict := if StoredRatio(n1, n2, ratio) == 1.0 then NotBetter else BetterMatch(n1, n2, ratio);
      if verdict == NoneName then Raised
      else if verdict == Better then RejectedBetter
      else if c.Some? && it !in lists[c.value.Index()] then Appended
      else Duplicate
    }

    function Added(n1: Text, n2: Text, ratio: real, it: Item, c: Option<Chooser>): Matches
      requires |lists| == 3
    {
      var outcome := Outcome(n1, n2, ratio, it, c);
      if outcome == Raised || outcome == RejectedBetter then this
      else
        Matches(
          if outcome == Appended then lists[c.value.Index() := lists[c.value.Index()] + [it]] else lists,
          primary.Put(n1, Entry(n2, StoredRatio(n1, n2, ratio))),
          secondary.Put(n2, Entry(n1, StoredRatio(n1, n2, ratio))),
          total1, total2)
    }

    function CleanedUp(): Matches {
      Matches(KeptLists(lists), DictOf(Flat(KeptLists(lists)), false), DictOf(Flat(KeptLists(lists)), true), total1,
        total2)
    }

    /** Best and partial items, duplicates counted. */
    function TotalMatched(): nat
      requires |lists| == 3
    {
      |lists[0]| + |lists[1]|
    }

    ghost predicate NoRepeats() {
      forall i: nat, x :: i < |lists| ==> multiset(lists[i])[x] <= 1
    }

    ghost predicate NamesFrom(names1: set<Text>, names2: set<Text>) {
      NamesIn(lists, names1, names2)
    }
  }

  lemma {:induction false} AddedAccepted(was: Matches, n1: Text, n2: Text, ratio: real, it: Item, c: Option<Chooser>,
      outcome: Outcome)
    requires |was.lists| == 3
    requires was.StoredRatio(n1, n2, ratio) == 1.0 || was.BetterMatch(n1, n2, ratio) == NotBetter
    requires outcome == if c.Some? && it !in was.lists[c.value.Index()] then Appended else Duplicate
    ensures was.Outcome(n1, n2, ratio, it, c) == outcome
    ensures was.Added(n1, n2, ratio, it, c) ==
      Matches(
        if outcome == Appended then was.lists[c.value.Index() := was.lists[c.value.Index()] + [it]] else was.lists,
        was.primary.Put(n1, Entry(n2, was.StoredRatio(n1, n2, ratio))),
        was.secondary.Put(n2, Entry(n1, was.StoredRatio(n1, n2, ratio))),
        was.total1, was.total2)
  {
  }

  /** The two cleanups in a row of the convergence loop: the second one finds nothing to do, in the lists and
      in both dictionaries with their key order, so an iteration starts from the previous total. */
  lemma {:induction false} CleanupIdempotent(s: Matches)
    ensures s.CleanedUp().CleanedUp() == s.CleanedUp()
  {
    KeptListsAgain(s.lists);
  }

  /** After a cleanup the dictionaries are those of the items that were kept: for each name of one side the name on the
      other and the ratio of the last kept item that bears it, the names in the order in which they came. */
  lemma {:induction false} CleanedDictionaries(s: Matches)
    ensures var t := s.CleanedUp();
      && HasNames(t.primary, Flat(t.lists), false) && InFirstOrder(t.primary, Flat(t.lists), false)
      && HasNames(t.secondary, Flat(t.lists), true) && InFirstOrder(t.secondary, Flat(t.lists), true)
  {
    DictMeaning(Flat(KeptLists(s.lists)), false);
    DictMeaning(Flat(KeptLists(s.lists)), true);
  }

  // ---- The total is bounded by the name pairs ----

  lemma {:induction false} FlatElements(lists: seq<seq<Item>>, x: Item)
    ensures x in Flat(lists) <==> exists i: nat :: i < |lists| && x in lists[i]
  {
    if lists != [] {
      var n := |lists| - 1;
      FlatElements(lists[..n], x);
      if x in lists[n] {
        assert n < |lists| && x in lists[n];
      }
      if i: nat :| i < n && x in lists[..n][i] {
        assert x in lists[i];
      }
      if i: nat :| i < |lists| && x in lists[i] && i != n {
        assert x in lists[..n][i];
      }
    }
  }

  /** A cleanup only drops items. */
  lemma {:induction false} CleanupDrops(lists: seq<seq<Item>>, i: nat, x: Item)
    requires i < |lists| && x in KeptLists(lists)[i]
    ensures x in lists[i]
  {
    SortedDescends(lists[i]);
    KeptDescends(SieveAt(lists, i), SortDescending(lists[i]));
    assert x in multiset(SortDescending(lists[i]));
  }

  lemma {:induction false} KeptNames(lists: seq<seq<Item>>, kept: seq<seq<Item>>, names1: set<Text>, names2: set<Text>)
    requires OnlyDrops(lists, kept) && NamesIn(lists, names1, names2)
    ensures NamesIn(kept, names1, names2)
  {
  }

  ghost predicate OnlyDrops(lists: seq<seq<Item>>, kept: seq<seq<Item>>) {
    |kept| == |lists| && forall i: nat, x :: i < |kept| && x in kept[i] ==> x in lists[i]
  }

  lemma {:induction false} CleanupOnlyDrops(lists: seq<seq<Item>>)
    ensures OnlyDrops(lists, KeptLists(lists))
  {
    var kept := KeptLists(lists);
    forall i: nat, x | i < |kept| && x in kept[i] ensures x in lists[i] {
      CleanupDrops(lists, i, x);
    }
  }

  ghost function Pairs(a: set<Text>, b: set<Text>): (p: set<(Text, Text)>) {
    set x, y | x in a && y in b :: (x, y)
  }

  lemma {:induction false} RowSize(x: Text, b: set<Text>)
    ensures |Pairs({x}, b)| == |b|
    decreases |b|
  {
    if b == {} {
      assert Pairs({x}, b) == {};
    } else {
      var y :| y in b;
      RowSize(x, b - {y});
      assert Pairs({x}, b) == Pairs({x}, b - {y}) + {(x, y)};
    }
  }

  lemma {:induction false} PairsSize(a: set<Text>, b: set<Text>)
    ensures |Pairs(a, b)| == |a| * |b|
    decreases |a|
  {
    if a == {} {
      assert Pairs(a, b) == {};
    } else {
      var x :| x in a;
      PairsSize(a - {x}, b);
      RowSize(x, b);
      assert Pairs(a, b) == Pairs(a - {x}, b) + Pairs({x}, b);
      assert Pairs(a - {x}, b) !! Pairs({x}, b);
      assert (|a| - 1) * |b| + |b| == |a| * |b|;
    }
  }

  function NamePair(it: Item): (Text, Text) {
    (it.name1, it.name2)
  }

  ghost function NamePairs(items: seq<Item>): (p: seq<(Text, Text)>)
    ensures |p| == |items|
  {
    seq(|items|, i requires 0 <= i < |items| => NamePair(items[i]))
  }

  lemma {:induction false} KeysBoundItems(items: seq<Item>, names1: set<Text>, names2: set<Text>)
    requires KeysDistinct(items)
    requires forall x :: x in items ==> x.name1 in names1 && x.name2 in names2
    ensures |items| <= |names1| * |names2|
  {
    var p := NamePairs(items);
    forall i, j | 0 <= i < j < |p| ensures p[i] != p[j] {
      assert NameKey(items[i]) != NameKey(items[j]);
    }
    DistinctSize(p);
    forall t | t in SetOf(p) ensures t in Pairs(names1, names2) {
      var i: nat :| i < |p| && p[i] == t;
      assert items[i] in items;
    }
    SubsetSize(SetOf(p), Pairs(names1, names2));
    PairsSize(names1, names2);
  }

  lemma {:induction false} FlatSize(lists: seq<seq<Item>>)
    requires |lists| == 3
    ensures |Flat(lists)| == |lists[0]| + |lists[1]| + |lists[2]|
  {
    assert lists[..2][..1] == lists[..1] && lists[..1][..0] == [];
    assert lists[..2][1] == lists[1] && lists[..1][0] == lists[0];
    assert Flat(lists[..1]) == Flat([]) + lists[0];
    assert Flat(lists[..2]) == Flat(lists[..1]) + lists[1];
    assert Flat(lists) == Flat(lists[..2]) + lists[2];
  }

  lemma {:induction false} CleanupKeepsNames(s: Matches, names1: set<Text>, names2: set<Text>)
    requires s.NamesFrom(names1, names2)
    ensures s.CleanedUp().NamesFrom(names1, names2)
  {
    CleanupOnlyDrops(s.lists);
    KeptNames(s.lists, KeptLists(s.lists), names1, names2);
  }

  /** After a cleanup there are at most as many items as pairs of names from the two exports. */
  lemma {:induction false} TotalBounded(s: Matches, names1: set<Text>, names2: set<Text>)
    requires |s.lists| == 3 && s.NamesFrom(names1, names2)
    ensures s.CleanedUp().TotalMatched() <= |names1| * |names2|
    ensures s.CleanedUp().NamesFrom(names1, names2)
  {
    var kept := KeptLists(s.lists);
    CleanupKeepsNames(s, names1, names2);
    forall x | x in Flat(kept) ensures x.name1 in names1 && x.name2 in names2 {
      FlatElements(kept, x);
    }
    CleanupKeysUnique(s.lists);
    KeysBoundItems(Flat(kept), names1, names2);
    FlatSize(kept);
  }

  // ---- The object ----

  ghost predicate Counts(m: map<Item, nat>, items: seq<Item>) {
    && (forall x :: x in m <==> x in items)
    && (forall x :: x in m ==> m[x] == multiset(items)[x])
  }

  lemma {:induction false} CountsOneMore(m: map<Item, nat>, items: seq<Item>, x: Item)
    requires Counts(m, items)
    ensures Counts(m[x := (if x in m then m[x] else 0) + 1], items + [x])
  {
    var t := m[x := (if x in m then m[x] else 0) + 1];
    assert multiset(items + [x]) == multiset(items) + multiset{x};
    forall y ensures y in t <==> y in items + [x] {
      if y in items {
        assert y in items + [x];
      }
    }
    assert x !in m ==> x !in multiset(items);
    forall y | y in t ensures t[y] == multiset(items + [x])[y] {
    }
  }

  class MatchState {
    const lists: array<seq<Item>>
    const members: array<map<Item, nat>>
    var primary: NameDict
    var secondary: NameDict
    var total1: int
    var total2: int

    ghost predicate Valid()
      reads this, lists, members
    {
      && lists.Length == 3 && members.Length == 3
      && (forall i: nat :: i < 3 ==> Counts(members[i], lists[i]))
      && primary.Valid() && secondary.Valid()
    }

    ghost function State(): Matches
      reads this, lists
    {
      Matches(lists[..], primary, secondary, total1, total2)
    }

    constructor ()
      ensures Valid() && fresh(lists) && fresh(members)
      ensures State() == Matches([[], [], []], EMPTY, EMPTY, 0, 0)
    {
      lists := new seq<Item>[3](_ => []);
      members := new map<Item, nat>[3](_ => map[]);
      primary, secondary, total1, total2 := EMPTY, EMPTY, 0, 0;
    }

    function HasBetterMatch(n1: Text, n2: Text, ratio: real): (v: Verdict)
      reads this, lists
      ensures v == NoneName <==> n1.Null? || (n2.Null? && !StartsSub(n1))
      ensures v != NoneName && !StartsSub(n1) && !StartsSub(n2) && n1 in primary.entries ==>
        (v == Better <==> primary.entries[n1].other == n1)
      ensures v != NoneName && (StartsSub(n1) || StartsSub(n2) || n1 !in primary.entries) ==>
        (v == Better <==>
          || (n1 in primary.entries && primary.entries[n1].ratio > ratio)
          || (n2 in secondary.entries && secondary.entries[n2].ratio > ratio))
    {
      Matches(lists[..], primary, secondary, total1, total2).BetterMatch(n1, n2, ratio)
    }

    /** Whether either name is already matched with ratio 1.0. */
    predicate HasBestMatch(n1: Text, n2: Text)
      reads this
    {
      (n1 in primary.entries && primary.entries[n1].ratio == 1.0) ||
        (n2 in secondary.entries && secondary.entries[n2].ratio == 1.0)
    }

    /** Append unless the index knows the item. */
    method Append(i: nat, it: Item) returns (added: bool)
      requires lists.Length == 3 && members.Length == 3 && i < 3
      requires forall k: nat :: k < 3 ==> Counts(members[k], lists[k])
      modifies lists, members
      ensures forall k: nat :: k < 3 ==> Counts(members[k], lists[k])
      ensures added == (it !in old(lists[i]))
      ensures lists[..] == if added then old(lists[..])[i := old(lists[i]) + [it]] else old(lists[..])
    {
      added := it !in members[i];
      if added {
        CountsOneMore(members[i], lists[i], it);
        lists[i] := lists[i] + [it];
        members[i] := members[i][it := 1];
      }
    }

    method AppendIfChosen(it: Item, c: Option<Chooser>) returns (outcome: Outcome)
      requires lists.Length == 3 && members.Length == 3
      requires forall k: nat :: k < 3 ==> Counts(members[k], lists[k])
      modifies lists, members
      ensures forall k: nat :: k < 3 ==> Counts(members[k], lists[k])
      ensures outcome == if c.Some? && it !in old(lists[c.value.Index()]) then Appended else Duplicate
      ensures lists[..] ==
        if outcome == Appended then old(lists[..])[c.value.Index() := old(lists[c.value.Index()]) + [it]]
          else old(lists[..])
    {
      outcome := Duplicate;
      if c.Some? {
        var added := Append(c.value.Index(), it);
        outcome := if added then Appended else Duplicate;
      }
    }

    /** The last writer wins in both dictionaries. */
    method Record(n1: Text, n2: Text, stored: real)
      requires primary.Valid() && secondary.Valid()
      modifies `primary, `secondary
      ensures primary.Valid() && secondary.Valid()
      ensures primary == old(primary).Put(n1, Entry(n2, stored)) &&
        secondary == old(secondary).Put(n2, Entry(n1, stored))
    {
      primary.PutValid(n1, Entry(n2, stored));
      secondary.PutValid(n2, Entry(n1, stored));
      primary := primary.Put(n1, Entry(n2, stored));
      secondary := secondary.Put(n2, Entry(n1, stored));
    }

    method AddMatch(n1: Text, n2: Text, ratio: real, it: Item, c: Option<Chooser>) returns (outcome: Outcome)
      requires Valid()
      modifies this, lists, members
      ensures Valid()
      ensures State() == old(State()).Added(n1, n2, ratio, it, c)
      ensures outcome == old(State()).Outcome(n1, n2, ratio, it, c)
    {
      ghost var was := State();
      var stored := if n1 == n2 then 1.0 else ratio;
      if stored != 1.0 {
        var verdict := HasBetterMatch(n1, n2, stored);
        if verdict == NoneName {
          return Raised;
        }
        if verdict == Better {
          return RejectedBetter;
        }
      }
      outcome := Accept(n1, n2, stored, it, c);
      AddedAccepted(was, n1, n2, ratio, it, c, outcome);
    }

    /** The item goes into the chosen list unless it is there; the dictionaries are written in any case. */
    method Accept(n1: Text, n2: Text, stored: real, it: Item, c: Option<Chooser>) returns (outcome: Outcome)
      requires Valid()
      modifies this, lists, members
      ensures Valid() && total1 == old(total1) && total2 == old(total2)
      ensures outcome == if c.Some? && it !in old(lists[c.value.Index()]) then Appended else Duplicate
      ensures lists[..] ==
        if outcome == Appended then old(lists[..])[c.value.Index() := old(lists[c.value.Index()]) + [it]]
          else old(lists[..])
      ensures primary == old(primary).Put(n1, Entry(n2, stored)) &&
        secondary == old(secondary).Put(n2, Entry(n1, stored))
    {
      outcome := AppendIfChosen(it, c);
      Record(n1, n2, stored);
    }

    static method CountItems(items: seq<Item>) returns (m: map<Item, nat>)
      ensures Counts(m, items)
    {
      m := map[];
      for j: nat := 0 to |items|
        invariant Counts(m, items[..j])
      {
        CountsOneMore(m, items[..j], items[j]);
        assert items[..j + 1] == items[..j] + [items[j]];
        m := m[items[j] := (if items[j] in m then m[items[j]] else 0) + 1];
      }
      assert items[..|items|] == items;
    }

    /** Run the sieve over one sorted list. */
    static method Sift(s: Sieve, sorted: seq<Item>) returns (kept: seq<Item>, after: Sieve)
      ensures kept == Kept(s, sorted) && after == After(s, sorted)
    {
      var dones, eaRatios := s.dones, s.eaRatios;
      kept := [];
      for j: nat := 0 to |sorted|
        invariant kept == Kept(s, sorted[..j]) && Sieve(dones, eaRatios) == After(s, sorted[..j])
      {
        KeptOneMore(s, sorted, j);
        var it := sorted[j];
        var key := NameKey(it);
        if key in dones {
          continue;
        }
        var ratio := if it.name1 == it.name2 then 1.0 else it.ratio;
        dones := dones + {key};
        if it.ea1 in eaRatios && eaRatios[it.ea1] > ratio {
          continue;
        }
        eaRatios := eaRatios[it.ea1 := ratio];
        kept := kept + [it];
      }
      assert sorted[..|sorted|] == sorted;
      after := Sieve(dones, eaRatios);
    }

    static method SiftAll(was: seq<seq<Item>>) returns (out: seq<seq<Item>>)
      ensures out == KeptLists(was)
    {
      var sieve := START;
      out := [];
      for i: nat := 0 to |was|
        invariant sieve == SieveAt(was, i) && out == KeptLists(was)[..i]
      {
        var kept, after := Sift(sieve, SortDescending(was[i]));
        KeptListsOneMore(was, i);
        sieve := after;
        out := out + [kept];
      }
    }

    /** Put every item of one kept list into both dictionaries. */
    method PutAll(before: seq<Item>, items: seq<Item>)
      requires primary == DictOf(before, false) && secondary == DictOf(before, true)
      modifies `primary, `secondary
      ensures primary == DictOf(before + items, false) && secondary == DictOf(before + items, true)
    {
      assert before + items[..0] == before;
      for j: nat := 0 to |items|
        invariant primary == DictOf(before + items[..j], false) && secondary == DictOf(before + items[..j], true)
      {
        DictOneMore(before, items, j, false);
        DictOneMore(before, items, j, true);
        primary := primary.Put(items[j].name1, Entry(items[j].name2, items[j].ratio));
        secondary := secondary.Put(items[j].name2, Entry(items[j].name1, items[j].ratio));
      }
      assert items[..|items|] == items;
    }

    method RebuildDicts(out: seq<seq<Item>>)
      modifies `primary, `secondary
      ensures primary == DictOf(Flat(out), false) && secondary == DictOf(Flat(out), true)
    {
      primary, secondary := EMPTY, EMPTY;
      for i: nat := 0 to |out|
        invariant primary == DictOf(Flat(out[..i]), false) && secondary == DictOf(Flat(out[..i]), true)
      {
        PutAll(Flat(out[..i]), out[i]);
        assert out[..i + 1][..i] == out[..i];
      }
      assert out[..|out|] == out;
    }

    method ReplaceLists(out: seq<seq<Item>>)
      requires lists.Length == 3 && members.Length == 3 && |out| == 3
      modifies lists, members
      ensures lists[..] == out
      ensures forall k: nat :: k < 3 ==> Counts(members[k], lists[k])
    {
      for i: nat := 0 to 3
        invariant forall k: nat :: k < i ==> lists[k] == out[k] && Counts(members[k], lists[k])
      {
        lists[i] := out[i];
        members[i] := CountItems(out[i]);
      }
    }

    method Cleanup()
      requires Valid()
      modifies this, lists, members
      ensures Valid()
      ensures State() == old(State()).CleanedUp()
      ensures HasNames(primary, Flat(lists[..]), false) && InFirstOrder(primary, Flat(lists[..]), false)
      ensures HasNames(secondary, Flat(lists[..]), true) && InFirstOrder(secondary, Flat(lists[..]), true)
    {
      var out := SiftAll(lists[..]);
      RebuildDicts(out);
      ReplaceLists(out);
      DictMeaning(Flat(out), false);
      DictMeaning(Flat(out), true);
    }

    /** Whether one side has as many matched names as functions. */
    predicate AllFunctionsMatched()
      reads this
    {
      |primary.entries| == total1 || |secondary.entries| == total2
    }

    function TotalMatchedFunctions(): nat
      requires lists.Length == 3
      reads lists
    {
      |lists[0]| + |lists[1]|
    }

    function SortedResults(c: Chooser): (r: seq<Item>)
      requires lists.Length == 3
      reads lists
      ensures r == SortDescending(lists[c.Index()])
    {
      SortDescending(lists[c.Index()])
    }
  }
}
