/**
 * When the last pass of the final pass looks up a best ratio that was never recorded. Items come in any order and
 * with any ratios and addresses.
 */
module MissedLookups {
  import opened Items
  import opened CleanupSieve
  import opened FinalPass
  import opened FirstPass
  import opened FinalLists
  import opened FinalStage

  /** With plain addresses the lookup of an item misses exactly when it is best on its ea1, no two items tie there, and
      every first item of a pair with its ea2 was rejected on its own ea1. */
  lemma {:induction false} MissOfItems(items: seq<Item>, x: Item)
    requires AllPlain(items) && x in items
    ensures FinalOf(items).Check(x).Miss? <==>
      TopOfMain(items, x) && !Tied(items, x.ea1, false) && forall p: nat :: !ReachesOn(items, p, x.ea2)
  {
    MissExactly(items, x);
    var i: nat :| i < |items| && items[i] == x;
    var p := FirstTwin(items, i);
    assert items[p] in items;
    PlainKeysDiffer(items[p].ea1, items[p].ea2, x.ea1, x.ea2);
    assert FreshOn(items, p, x.ea1);
    forall q: nat | EnteredOn(items, q, x.ea2, true) ensures ReachesOn(items, q, x.ea2) {
    }
  }

  /** When of items with one pair key the first has no smaller ratio, no lookup misses, whatever the ratios. */
  lemma {:induction false} NeverMisses(items: seq<Item>, i: nat)
    requires TwinsOrdered(items) && i < |items|
    ensures !FinalOf(items).Check(items[i]).Miss?
  {
    var x := items[i];
    var p := FirstTwin(items, i);
    MissExactly(items, x);
    assert p < i ==> TwinOk(items[p], items[i]);
    assert FreshOn(items, p, x.ea1);
    if TopOfMain(items, x) {
      TopReaches(items, p);
      assert ReachesOn(items, p, x.ea2);
    }
  }

  lemma {:induction false} DistinctPairsNeverMiss(items: seq<Item>, i: nat)
    requires PairsDistinct(items) && i < |items|
    ensures !FinalOf(items).Check(items[i]).Miss?
  {
    NeverMisses(items, i);
  }

  /** Descending ratios and plain addresses are enough. */
  lemma {:induction false} ReadyNeverMisses(items: seq<Item>, i: nat)
    requires Ready(items) && i < |items|
    ensures !FinalOf(items).Check(items[i]).Miss?
  {
    ReadyTwins(items);
    NeverMisses(items, i);
  }

  /** When an address belongs to one function, a cleaned-up row never misses, whatever the ratios. */
  lemma {:induction false} CleanedNeverMisses(lists: seq<seq<Item>>, i: nat)
    requires var items := Flat(KeptLists(lists)); AllPlain(items) && NamedOnce(items) && i < |items|
    ensures !FinalOf(Flat(KeptLists(lists))).Check(Flat(KeptLists(lists))[i]).Miss?
  {
    CleanedPairsDistinct(lists);
    DistinctPairsNeverMiss(Flat(KeptLists(lists)), i);
  }

  // ---- A cleaned-up row that misses ----

  lemma {:induction false} VisitThree(w: Item, x: Item, y: Item)
    requires w.ea1 == x.ea1 && PairOf(w) != PairOf(x) == PairOf(y) && x.ratio < w.ratio
    ensures Visited([w, x, y]) == Maxes({PairOf(w), PairOf(x)}, map[w.ea1 := w.ratio], map[w.ea2 := w.ratio],
      MultiDict([w.ea1], map[w.ea1 := [w]]), MultiDict([w.ea2], map[w.ea2 := [w]]))
  {
    assert [w][..0] == [] && [w, x][..1] == [w] && [w, x, y][..2] == [w, x];
    var m := UNVISITED.Visit(w);
    assert Visited([w]) == Visited([w][..0]).Visit([w][0]) == m;
    assert Visited([w, x]) == m.Visit(x);
    assert Visited([w, x, y]) == m.Visit(x).Visit(y);
  }

  /** An item of equal names counts as 1.0 in the cleanup, so it stays behind a greater ratio of its ea1. */
  lemma {:induction false} CleanupKeepsThree(w: Item, x: Item, y: Item)
    requires w.ea1 == x.ea1 == y.ea1 && w.ratio >= x.ratio && Counted(w) <= 1.0 && x.name1 == x.name2 &&
      y.name1 == y.name2
    requires NameKey(w) != NameKey(x) && NameKey(w) != NameKey(y) && NameKey(x) != NameKey(y)
    ensures Sorted([[w, x], [y], []]) == [[w, x], [y], []] && KeptLists([[w, x], [y], []]) == [[w, x], [y], []]
  {
    KeepsTwo(START, w, x);
    var s := After(START, [w, x]);
    KeepsOne(s, y);
    ThreeStay([[w, x], [y], []], s);
  }

  lemma {:induction false} ThreeStay(lists: seq<seq<Item>>, s: Sieve)
    requires |lists| == 3 && Descending(lists[0]) && Descending(lists[1]) && lists[2] == []
    requires Kept(START, lists[0]) == lists[0] && s == After(START, lists[0]) && Kept(s, lists[1]) == lists[1]
    ensures Sorted(lists) == lists && KeptLists(lists) == lists
  {
    FirstSieve(lists);
    forall i: nat | i < 3 ensures Sorted(lists)[i] == lists[i] && KeptLists(lists)[i] == lists[i] {
      RowStays(lists, i, SieveAt(lists, i));
    }
  }

  lemma {:induction false} RowStays(lists: seq<seq<Item>>, i: nat, s: Sieve)
    requires i < |lists| && SieveAt(lists, i) == s && Descending(lists[i]) && Kept(s, lists[i]) == lists[i]
    ensures Sorted(lists)[i] == lists[i] && KeptLists(lists)[i] == lists[i]
  {
    SortedAlready(lists[i]);
  }

  lemma {:induction false} FirstSieve(lists: seq<seq<Item>>)
    requires |lists| == 3
    requires Descending(lists[0])
    ensures SieveAt(lists, 0) == START && SieveAt(lists, 1) == After(START, lists[0])
  {
    SortedAlready(lists[0]);
  }

  lemma {:induction false} KeepsOne(s: Sieve, w: Item)
    requires s.Keeps(w)
    ensures After(s, [w]) == s.Next(w) && Kept(s, [w]) == [w]
  {
    assert [w][..0] == [];
  }

  lemma {:induction false} KeepsTwo(s: Sieve, w: Item, x: Item)
    requires s.Keeps(w) && s.Next(w).Keeps(x)
    ensures After(s, [w, x]) == s.Next(w).Next(x) && Kept(s, [w, x]) == [w, x]
  {
    KeepsOne(s, w);
    assert [w, x][..1] == [w];
  }

  lemma {:induction false} FlatOfTwo(w: Item, x: Item, y: Item)
    ensures Flat([[w, x], [y], []]) == [w, x, y]
  {
    var lists := [[w, x], [y], []];
    assert lists[..2] == [[w, x], [y]] && lists[..2][..1] == [[w, x]] && lists[..2][..1][..0] == [];
    assert Flat(lists[..2][..1]) == [w, x];
    assert Flat(lists[..2]) == [w, x, y];
  }

  /** A row the cleanup leaves as it is and whose last item misses: y has the address pair of x, which w rejects. */
  lemma {:induction false} LookupCanMiss(w: Item, x: Item, y: Item)
    requires w.ea1 == x.ea1 == y.ea1 && x.ea2 == y.ea2 && PairOf(w) != PairOf(x) && w.ea2 != x.ea2
    requires x.ratio < w.ratio <= y.ratio && Counted(w) <= 1.0 && x.name1 == x.name2 && y.name1 == y.name2
    requires NameKey(w) != NameKey(x) && NameKey(w) != NameKey(y) && NameKey(x) != NameKey(y)
    ensures var lists := [[w, x], [y], []];
      KeptLists(lists) == lists == Sorted(lists) && FinalOf(Flat(lists)).Check(y) == Miss(y.ea2)
  {
    CleanupKeepsThree(w, x, y);
    FlatOfTwo(w, x, y);
    ThirdMisses(w, x, y);
  }

  lemma {:induction false} ThirdMisses(w: Item, x: Item, y: Item)
    requires w.ea1 == x.ea1 == y.ea1 && x.ea2 == y.ea2 && PairOf(w) != PairOf(x) && w.ea2 != x.ea2
    requires x.ratio < w.ratio <= y.ratio
    ensures FinalOf([w, x, y]).Check(y) == Miss(y.ea2)
  {
    VisitedDicts([w, x, y]);
    VisitThree(w, x, y);
    var p := Picked({}, [], {});
    NothingCrowded(p, MultiDict([w.ea1], map[w.ea1 := [w]]), 1);
    NothingCrowded(p, MultiDict([w.ea2], map[w.ea2 := [w]]), 1);
  }

  /** Such items with numbers, and with the name and the mangled name of each address. */
  lemma {:induction false} MissingRow() returns (lists: seq<seq<Item>>, y: Item)
    ensures |lists| == 3 && KeptLists(lists) == lists == Sorted(lists) && y in Flat(lists)
    ensures FinalOf(Flat(lists)).Check(y).Miss?
  {
    var w := Item(Text("1"), Text("f"), Text("2"), Text("q"), "", 0.8, 0, 0);
    var x := Item(Text("1"), Text("f"), Text("3"), Text("f"), "", 0.5, 0, 0);
    y := Item(Text("1"), Text("g"), Text("3"), Text("g"), "", 0.9, 0, 0);
    assert PairOf(w)[2] == '2' && PairOf(x)[2] == '3';
    assert NameKey(w)[0] == 'f' && NameKey(x)[0] == 'f' && NameKey(y)[0] == 'g';
    assert NameKey(w)[2] == 'q' && NameKey(x)[2] == 'f';
    assert "2"[0] != "3"[0];
    assert "f"[0] != "q"[0];
    lists := [[w, x], [y], []];
    LookupCanMiss(w, x, y);
    FlatOfTwo(w, x, y);
  }
}
