/**
 * The final pass: the items that tie for the best ratio of an address go to the multimatch list, the
 * others that are best on both addresses go to their own list. `items` is always the best, partial and
 * unreliable list, sorted, one after the other.
 */
module FinalPass {
  import opened Items
  import opened CleanupSieve

  function PairOf(x: Item): string {
    PairKey(x.ea1, x.ea2)
  }

  function Side(x: Item, mirrored: bool): Text {
    if mirrored then x.ea2 else x.ea1
  }

  /** Lists of items by address, with the order in which the addresses came. */
  datatype MultiDict = MultiDict(order: seq<Text>, lists: map<Text, seq<Item>>) {
    function Append(ea: Text, x: Item): MultiDict {
      if ea in lists then MultiDict(order, lists[ea := lists[ea] + [x]])
      else MultiDict(order + [ea], lists[ea := [x]])
    }

    ghost predicate Valid() {
      && (forall e :: e in order <==> e in lists)
      && (forall i, j :: 0 <= i < j < |order| ==> order[i] != order[j])
    }
  }

  const NOTHING := MultiDict([], map[])

  lemma {:induction false} AppendKeeps(d: MultiDict, e: Text, x: Item)
    requires d.Valid()
    ensures d.Append(e, x).Valid()
  {
  }

  // ---- First pass: the best ratio of every address and the items that reach it ----

  function Raise(best: map<Text, real>, e: Text, r: real): map<Text, real> {
    if e in best && best[e] > r then best else best[e := r]
  }

  datatype Maxes = Maxes(
    dones: set<string>,
    maxMain: map<Text, real>,
    maxDiff: map<Text, real>,
    multiMain: MultiDict,
    multiDiff: MultiDict) {

    /** An item below the best ratio of its ea1 does not reach the ea2 side. */
    function Visit(x: Item): Maxes {
      if PairOf(x) in dones then this
      else
        var m := this.(dones := dones + {PairOf(x)}, maxMain := Raise(maxMain, x.ea1, x.ratio));
        if m.maxMain[x.ea1] > x.ratio then m
        else
          var n := m.(multiMain := multiMain.Append(x.ea1, x), maxDiff := Raise(maxDiff, x.ea2, x.ratio));
          if n.maxDiff[x.ea2] > x.ratio then n else n.(multiDiff := multiDiff.Append(x.ea2, x))
    }
  }

  const UNVISITED := Maxes({}, map[], map[], NOTHING, NOTHING)

  function Visited(items: seq<Item>): Maxes {
    if items == [] then UNVISITED else Visited(items[..|items| - 1]).Visit(items[|items| - 1])
  }

  ghost predicate SamePair(y: Item, k: string) {
    PairOf(y) == k
  }

  ghost predicate Dicts(m: Maxes) {
    m.multiMain.Valid() && m.multiDiff.Valid()
  }

  lemma {:induction false} VisitDicts(m: Maxes, x: Item)
    requires Dicts(m)
    ensures Dicts(m.Visit(x))
  {
    AppendKeeps(m.multiMain, x.ea1, x);
    AppendKeeps(m.multiDiff, x.ea2, x);
  }

  lemma {:induction false} VisitedDicts(items: seq<Item>)
    ensures Dicts(Visited(items))
  {
    if items != [] {
      VisitedDicts(items[..|items| - 1]);
      VisitDicts(Visited(items[..|items| - 1]), items[|items| - 1]);
    }
  }

  // ---- Second pass: the multimatch list and the ignored addresses ----

  datatype Picked = Picked(dones: set<string>, chooser: seq<Item>, ignored: set<Text>) {
    /** The address is ignored only when one of its items is new here. */
    function Pick(ea: Text, x: Item): Picked {
      if PairOf(x) in dones then this
      else Picked(dones + {PairOf(x)}, chooser + [x], ignored + {ea})
    }
  }

  function PickList(p: Picked, ea: Text, items: seq<Item>): Picked {
    if items == [] then p else PickList(p, ea, items[..|items| - 1]).Pick(ea, items[|items| - 1])
  }

  function PickDict(p: Picked, d: MultiDict, n: nat): Picked
    requires n <= |d.order| && d.Valid()
  {
    if n == 0 then p
    else
      var ea := d.order[n - 1];
      assert ea in d.order;
      var before := PickDict(p, d, n - 1);
      if |d.lists[ea]| > 1 then PickList(before, ea, d.lists[ea]) else before
  }

  lemma {:induction false} PickDictLast(p: Picked, d: MultiDict, n: nat)
    requires n < |d.order| && d.Valid()
    ensures d.order[n] in d.lists
    ensures PickDict(p, d, n + 1) ==
      if |d.lists[d.order[n]]| > 1 then PickList(PickDict(p, d, n), d.order[n], d.lists[d.order[n]])
        else PickDict(p, d, n)
  {
    assert d.order[n] in d.order;
  }

  // ---- Third pass: the items left for their own lists ----

  datatype Test = Skip | Take | Miss(ea: Text)

  datatype Final = Final(
    maxMain: map<Text, real>,
    maxDiff: map<Text, real>,
    ignoreMain: set<Text>,
    ignoreDiff: set<Text>,
    multimatch: seq<Item>) {

    /** A lookup of an address that was never recorded raises. */
    function Check(x: Item): Test {
      if x.ea1 in ignoreMain || x.ea2 in ignoreDiff then Skip
      else if x.ea1 !in maxMain then Miss(x.ea1)
      else if x.ratio < maxMain[x.ea1] then Skip
      else if x.ea2 !in maxDiff then Miss(x.ea2)
      else if x.ratio < maxDiff[x.ea2] then Skip
      else Take
    }
  }

  function MainPick(m: Maxes): Picked
    requires Dicts(m)
  {
    PickDict(Picked({}, [], {}), m.multiMain, |m.multiMain.order|)
  }

  function DiffPick(m: Maxes): Picked
    requires Dicts(m)
  {
    PickDict(Picked(MainPick(m).dones, MainPick(m).chooser, {}), m.multiDiff, |m.multiDiff.order|)
  }

  function FinalOf(items: seq<Item>): Final {
    VisitedDicts(items);
    var m := Visited(items);
    Final(m.maxMain, m.maxDiff, MainPick(m).ignored, DiffPick(m).ignored, DiffPick(m).chooser)
  }

  // ---- Rows with descending ratios and plain addresses ----

  ghost predicate AllPlain(items: seq<Item>) {
    forall x :: x in items ==> Plain(x.ea1) && Plain(x.ea2)
  }

  ghost predicate Ready(items: seq<Item>) {
    Descending(items) && AllPlain(items)
  }

  // ---- From the three lists to the sorted row of items ----

  lemma {:induction false} SortedElements(items: seq<Item>)
    ensures forall x :: x in SortDescending(items) <==> x in items
  {
    SortedDescends(items);
    assert forall x :: x in SortDescending(items) <==> x in multiset(SortDescending(items));
  }

  lemma {:induction false} FlatOfThree(lists: seq<seq<Item>>)
    requires |lists| == 3
    ensures Flat(Sorted(lists)) == SortDescending(lists[0]) + SortDescending(lists[1]) + SortDescending(lists[2])
  {
    var s := Sorted(lists);
    assert s[..2][..1] == s[..1] && s[..1][..0] == [];
    assert Flat(s[..1]) == Flat([]) + s[0];
    assert Flat(s[..2]) == Flat(s[..1]) + s[1];
    assert Flat(s) == Flat(s[..2]) + s[2];
  }

  /** Under the default configuration the row descends: best items have ratio 1.0, partial items less, and
      the unreliable list is empty. */
  lemma {:induction false} DefaultIsReady(lists: seq<seq<Item>>)
    requires |lists| == 3 && lists[2] == [] && AllPlain(Flat(Sorted(lists)))
    requires forall x :: x in lists[0] ==> x.ratio == 1.0
    requires forall x :: x in lists[1] ==> x.ratio < 1.0
    ensures Ready(Flat(Sorted(lists)))
  {
    FlatOfThree(lists);
    var s, t := SortDescending(lists[0]), SortDescending(lists[1]);
    SortedElements(lists[0]);
    SortedElements(lists[1]);
    SortedDescends(lists[1]);
    var row: seq<Item> := s + t;
    assert Flat(Sorted(lists)) == row;
    forall p, q | 0 <= p < q < |row| ensures row[p].ratio >= row[q].ratio {
      assert p < |s| ==> s[p] in lists[0];
      assert q < |s| ==> s[q] in lists[0];
      assert q >= |s| ==> t[q - |s|] in lists[1];
    }
  }

  lemma {:induction false} NothingCrowded(p: Picked, d: MultiDict, n: nat)
    requires n <= |d.order| && d.Valid() && forall e :: e in d.lists ==> |d.lists[e]| <= 1
    ensures PickDict(p, d, n) == p
  {
    if n > 0 {
      NothingCrowded(p, d, n - 1);
      PickDictLast(p, d, n - 1);
    }
  }
}