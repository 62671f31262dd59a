/**
 * What the first pass of the final pass records, said of the items alone. Items come in any order and with any
 * ratios and addresses.
 */
module FirstPass {
  import opened Items
  import opened FinalPass

  /** No earlier item has the same pair key, so the first pass looks at this one. */
  ghost predicate Fresh(items: seq<Item>, p: nat) {
    p < |items| && forall q: nat :: q < p ==> PairOf(items[q]) != PairOf(items[p])
  }

  /** When p is visited, the recorded ratio of its ea1 is the greater one of q. */
  ghost predicate Rejects(items: seq<Item>, q: nat, p: nat) {
    q < p < |items| && Fresh(items, q) && items[q].ea1 == items[p].ea1 && items[q].ratio > items[p].ratio
  }

  /** The first pass gets to the ea2 side of p. */
  ghost predicate Reaches(items: seq<Item>, p: nat) {
    Fresh(items, p) && forall q: nat :: !Rejects(items, q, p)
  }

  /** When p is visited, the recorded ratio of its ea2 is the greater one of q. */
  ghost predicate Outdoes(items: seq<Item>, q: nat, p: nat) {
    q < p < |items| && Reaches(items, q) && items[q].ea2 == items[p].ea2 && items[q].ratio > items[p].ratio
  }

  ghost predicate Tops(items: seq<Item>, p: nat) {
    Reaches(items, p) && forall q: nat :: !Outdoes(items, q, p)
  }

  ghost predicate FreshOn(items: seq<Item>, p: nat, ea1: Text) {
    Fresh(items, p) && items[p].ea1 == ea1
  }

  ghost predicate ReachesOn(items: seq<Item>, p: nat, ea2: Text) {
    Reaches(items, p) && items[p].ea2 == ea2
  }

  // ---- The pairs and the ratios recorded after n items ----

  ghost predicate SeenPairs(dones: set<string>, items: seq<Item>, n: nat)
    requires n <= |items|
  {
    forall k :: k in dones <==> exists p: nat :: p < n && SamePair(items[p], k)
  }

  ghost predicate MainAttained(items: seq<Item>, n: nat, e: Text, r: real)
    requires n <= |items|
  {
    exists p: nat :: p < n && FreshOn(items, p, e) && items[p].ratio == r
  }

  /** The recorded ratio of an ea1 is the greatest of the fresh items with it. */
  ghost predicate MainRecorded(main: map<Text, real>, items: seq<Item>, n: nat)
    requires n <= |items|
  {
    && (forall e :: e in main ==> MainAttained(items, n, e, main[e]))
    && (forall p: nat :: p < n && Fresh(items, p) ==> items[p].ea1 in main && items[p].ratio <= main[items[p].ea1])
  }

  ghost predicate DiffAttained(items: seq<Item>, n: nat, e: Text, r: real)
    requires n <= |items|
  {
    exists p: nat :: p < n && ReachesOn(items, p, e) && items[p].ratio == r
  }

  /** The recorded ratio of an ea2 is the greatest of the items that reached its side. */
  ghost predicate DiffRecorded(diff: map<Text, real>, items: seq<Item>, n: nat)
    requires n <= |items|
  {
    && (forall e :: e in diff ==> DiffAttained(items, n, e, diff[e]))
    && (forall p: nat :: p < n && Reaches(items, p) ==> items[p].ea2 in diff && items[p].ratio <= diff[items[p].ea2])
  }

  lemma {:induction false} SeenNext(dones: set<string>, items: seq<Item>, n: nat)
    requires n < |items| && SeenPairs(dones, items, n)
    ensures SeenPairs(dones + {PairOf(items[n])}, items, n + 1)
    ensures PairOf(items[n]) !in dones <==> Fresh(items, n)
  {
    var t := dones + {PairOf(items[n])};
    forall k ensures k in t <==> exists p: nat :: p < n + 1 && SamePair(items[p], k) {
      if k in dones {
        var p: nat :| p < n && SamePair(items[p], k);
      } else if SamePair(items[n], k) {
        assert n < n + 1;
      }
    }
    if PairOf(items[n]) in dones {
      var p: nat :| p < n && SamePair(items[p], PairOf(items[n]));
    }
    forall q: nat | q < n && PairOf(items[q]) == PairOf(items[n]) ensures PairOf(items[n]) in dones {
      assert SamePair(items[q], PairOf(items[n]));
    }
  }

  lemma {:induction false} MainAttainedNext(items: seq<Item>, n: nat, e: Text, r: real)
    requires n < |items|
    ensures MainAttained(items, n, e, r) ==> MainAttained(items, n + 1, e, r)
    ensures FreshOn(items, n, e) && items[n].ratio == r ==> MainAttained(items, n + 1, e, r)
  {
    if MainAttained(items, n, e, r) {
      var p: nat :| p < n && FreshOn(items, p, e) && items[p].ratio == r;
      assert p < n + 1;
    }
  }

  lemma {:induction false} DiffAttainedNext(items: seq<Item>, n: nat, e: Text, r: real)
    requires n < |items|
    ensures DiffAttained(items, n, e, r) ==> DiffAttained(items, n + 1, e, r)
    ensures ReachesOn(items, n, e) && items[n].ratio == r ==> DiffAttained(items, n + 1, e, r)
  {
    if DiffAttained(items, n, e, r) {
      var p: nat :| p < n && ReachesOn(items, p, e) && items[p].ratio == r;
      assert p < n + 1;
    }
  }

  ghost function MainAfter(main: map<Text, real>, items: seq<Item>, n: nat): map<Text, real>
    requires n < |items|
  {
    if Fresh(items, n) then Raise(main, items[n].ea1, items[n].ratio) else main
  }

  ghost function DiffAfter(diff: map<Text, real>, items: seq<Item>, n: nat): map<Text, real>
    requires n < |items|
  {
    if Reaches(items, n) then Raise(diff, items[n].ea2, items[n].ratio) else diff
  }

  lemma {:induction false} MainNext(main: map<Text, real>, items: seq<Item>, n: nat)
    requires n < |items| && MainRecorded(main, items, n)
    ensures MainRecorded(MainAfter(main, items, n), items, n + 1)
  {
    var t := MainAfter(main, items, n);
    forall e | e in t ensures MainAttained(items, n + 1, e, t[e]) {
      MainAttainedNext(items, n, e, t[e]);
    }
    forall p: nat | p < n + 1 && Fresh(items, p) ensures items[p].ea1 in t && items[p].ratio <= t[items[p].ea1] {
      MainBoundNext(main, items, n, p);
    }
  }

  lemma {:induction false} MainBoundNext(main: map<Text, real>, items: seq<Item>, n: nat, p: nat)
    requires p <= n < |items| && Fresh(items, p)
    requires p < n ==> items[p].ea1 in main && items[p].ratio <= main[items[p].ea1]
    ensures var t := MainAfter(main, items, n); items[p].ea1 in t && items[p].ratio <= t[items[p].ea1]
  {
  }

  lemma {:induction false} DiffNext(diff: map<Text, real>, items: seq<Item>, n: nat)
    requires n < |items| && DiffRecorded(diff, items, n)
    ensures DiffRecorded(DiffAfter(diff, items, n), items, n + 1)
  {
    var t := DiffAfter(diff, items, n);
    forall e | e in t ensures DiffAttained(items, n + 1, e, t[e]) {
      DiffAttainedNext(items, n, e, t[e]);
    }
    forall p: nat | p < n + 1 && Reaches(items, p) ensures items[p].ea2 in t && items[p].ratio <= t[items[p].ea2] {
      DiffBoundNext(diff, items, n, p);
    }
  }

  lemma {:induction false} DiffBoundNext(diff: map<Text, real>, items: seq<Item>, n: nat, p: nat)
    requires p <= n < |items| && Reaches(items, p)
    requires p < n ==> items[p].ea2 in diff && items[p].ratio <= diff[items[p].ea2]
    ensures var t := DiffAfter(diff, items, n); items[p].ea2 in t && items[p].ratio <= t[items[p].ea2]
  {
  }

  /** A fresh item gets to the ea2 side exactly when its ratio is not below the recorded one of its ea1. */
  lemma {:induction false} ReachesWhen(main: map<Text, real>, items: seq<Item>, n: nat)
    requires n < |items| && MainRecorded(main, items, n) && Fresh(items, n)
    ensures Reaches(items, n) <==> !(items[n].ea1 in main && main[items[n].ea1] > items[n].ratio)
  {
    var x := items[n];
    if x.ea1 in main && main[x.ea1] > x.ratio {
      assert MainAttained(items, n, x.ea1, main[x.ea1]);
      var p: nat :| p < n && FreshOn(items, p, x.ea1) && items[p].ratio == main[x.ea1];
      assert Rejects(items, p, n);
    }
  }

  /** And tops its ea2 exactly when its ratio is not below the recorded one there either. */
  lemma {:induction false} TopsWhen(diff: map<Text, real>, items: seq<Item>, n: nat)
    requires n < |items| && DiffRecorded(diff, items, n) && Reaches(items, n)
    ensures Tops(items, n) <==> !(items[n].ea2 in diff && diff[items[n].ea2] > items[n].ratio)
  {
    var x := items[n];
    if x.ea2 in diff && diff[x.ea2] > x.ratio {
      assert DiffAttained(items, n, x.ea2, diff[x.ea2]);
      var p: nat :| p < n && ReachesOn(items, p, x.ea2) && items[p].ratio == diff[x.ea2];
      assert Outdoes(items, p, n);
    }
  }

  ghost predicate Recorded(m: Maxes, items: seq<Item>, n: nat)
    requires n <= |items|
  {
    SeenPairs(m.dones, items, n) && MainRecorded(m.maxMain, items, n) && DiffRecorded(m.maxDiff, items, n)
  }

  // ---- The lists by address ----

  ghost function ListsOn(m: Maxes, mirrored: bool): MultiDict {
    if mirrored then m.multiDiff else m.multiMain
  }

  /** Item p goes to the list of its address on that side. */
  ghost predicate Entered(items: seq<Item>, p: nat, mirrored: bool) {
    if mirrored then Tops(items, p) else Reaches(items, p)
  }

  ghost predicate EnteredOn(items: seq<Item>, p: nat, e: Text, mirrored: bool) {
    p < |items| && Entered(items, p, mirrored) && Side(items[p], mirrored) == e
  }

  /** How a visit changes the record, for an item that is seen, falls below the ratio of its ea1, and so on. */
  lemma {:induction false} VisitCases(m: Maxes, x: Item, isNew: bool, reaches: bool, tops: bool)
    requires isNew <==> PairOf(x) !in m.dones
    requires reaches <==> isNew && !(x.ea1 in m.maxMain && m.maxMain[x.ea1] > x.ratio)
    requires tops <==> reaches && !(x.ea2 in m.maxDiff && m.maxDiff[x.ea2] > x.ratio)
    ensures m.Visit(x).dones == m.dones + {PairOf(x)}
    ensures m.Visit(x).maxMain == if isNew then Raise(m.maxMain, x.ea1, x.ratio) else m.maxMain
    ensures m.Visit(x).maxDiff == if reaches then Raise(m.maxDiff, x.ea2, x.ratio) else m.maxDiff
    ensures m.Visit(x).multiMain == if reaches then m.multiMain.Append(x.ea1, x) else m.multiMain
    ensures m.Visit(x).multiDiff == if tops then m.multiDiff.Append(x.ea2, x) else m.multiDiff
  {
  }

  ghost function ListsNext(m: Maxes, items: seq<Item>, n: nat, mirrored: bool): MultiDict
    requires n < |items|
  {
    if Entered(items, n, mirrored) then ListsOn(m, mirrored).Append(Side(items[n], mirrored), items[n])
    else ListsOn(m, mirrored)
  }

  lemma {:induction false} VisitNext(m: Maxes, items: seq<Item>, n: nat)
    requires n < |items| && Recorded(m, items, n)
    ensures var t := m.Visit(items[n]);
      && t.dones == m.dones + {PairOf(items[n])}
      && t.maxMain == MainAfter(m.maxMain, items, n) && t.maxDiff == DiffAfter(m.maxDiff, items, n)
    ensures forall mirrored :: ListsOn(m.Visit(items[n]), mirrored) == ListsNext(m, items, n, mirrored)
  {
    SeenNext(m.dones, items, n);
    if Fresh(items, n) {
      ReachesWhen(m.maxMain, items, n);
    }
    if Reaches(items, n) {
      TopsWhen(m.maxDiff, items, n);
    }
    VisitCases(m, items[n], Fresh(items, n), Reaches(items, n), Tops(items, n));
  }

  lemma {:induction false} RecordedNext(m: Maxes, items: seq<Item>, n: nat)
    requires n < |items| && Recorded(m, items, n)
    ensures Recorded(m.Visit(items[n]), items, n + 1)
  {
    VisitNext(m, items, n);
    SeenNext(m.dones, items, n);
    MainNext(m.maxMain, items, n);
    DiffNext(m.maxDiff, items, n);
  }

  lemma {:induction false} VisitedRecords(items: seq<Item>, n: nat)
    requires n <= |items|
    ensures Recorded(Visited(items[..n]), items, n)
  {
    if n > 0 {
      VisitedRecords(items, n - 1);
      assert items[..n][..n - 1] == items[..n - 1];
      RecordedNext(Visited(items[..n - 1]), items, n - 1);
    }
  }

  lemma {:induction false} FinalRecords(items: seq<Item>)
    ensures MainRecorded(FinalOf(items).maxMain, items, |items|) &&
      DiffRecorded(FinalOf(items).maxDiff, items, |items|)
  {
    VisitedDicts(items);
    VisitedRecords(items, |items|);
    assert items[..|items|] == items;
  }

  // ---- The order of the lists and of their items, as positions in the row ----

  ghost predicate Ascending(ps: seq<nat>) {
    forall i, j :: 0 <= i < j < |ps| ==> ps[i] < ps[j]
  }

  /** The list holds the items at these positions, in this order. */
  ghost predicate Picks(items: seq<Item>, ps: seq<nat>, list: seq<Item>) {
    |list| == |ps| && forall i :: 0 <= i < |ps| ==> ps[i] < |items| && list[i] == items[ps[i]]
  }

  ghost predicate Exactly(items: seq<Item>, n: nat, mirrored: bool, e: Text, ps: seq<nat>) {
    forall p: nat :: p in ps <==> p < n && EnteredOn(items, p, e, mirrored)
  }

  /** The positions of one address: those below n that entered its list. */
  ghost predicate Group(items: seq<Item>, n: nat, mirrored: bool, e: Text, list: seq<Item>, ps: seq<nat>) {
    ps != [] && Ascending(ps) && Picks(items, ps, list) && Exactly(items, n, mirrored, e, ps)
  }

  ghost predicate AllGroups(d: MultiDict, items: seq<Item>, n: nat, mirrored: bool, groups: seq<seq<nat>>)
    requires |groups| == |d.order| && d.Valid()
  {
    forall i: nat :: i < |groups| ==>
      d.order[i] in d.lists && Group(items, n, mirrored, d.order[i], d.lists[d.order[i]], groups[i])
  }

  ghost predicate FirstsAscend(groups: seq<seq<nat>>) {
    forall i, j :: 0 <= i < j < |groups| ==> groups[i] != [] && groups[j] != [] && groups[i][0] < groups[j][0]
  }

  /** The addresses stand in the order of their first items. */
  ghost predicate Grouped(d: MultiDict, items: seq<Item>, n: nat, mirrored: bool, groups: seq<seq<nat>>) {
    && |groups| == |d.order| && d.Valid() && AllGroups(d, items, n, mirrored, groups) && FirstsAscend(groups)
    && (forall p: nat :: p < n && p < |items| && Entered(items, p, mirrored) ==> Side(items[p], mirrored) in d.lists)
  }

  lemma {:induction false} GroupGrows(items: seq<Item>, n: nat, mirrored: bool, e: Text, list: seq<Item>, ps: seq<nat>)
    requires n < |items| && EnteredOn(items, n, e, mirrored) && Group(items, n, mirrored, e, list, ps)
    ensures Group(items, n + 1, mirrored, e, list + [items[n]], ps + [n])
  {
    var t := ps + [n];
    forall i | 0 <= i < |ps| ensures t[i] < n {
      assert ps[i] in ps;
    }
    forall p: nat ensures p in t <==> p < n + 1 && EnteredOn(items, p, e, mirrored) {
      assert p in t <==> p in ps || p == n;
    }
  }

  lemma {:induction false} GroupStays(items: seq<Item>, n: nat, mirrored: bool, e: Text, list: seq<Item>, ps: seq<nat>)
    requires n < |items| && !EnteredOn(items, n, e, mirrored) && Group(items, n, mirrored, e, list, ps)
    ensures Group(items, n + 1, mirrored, e, list, ps)
  {
  }

  lemma {:induction false} GroupStarts(items: seq<Item>, n: nat, mirrored: bool, e: Text)
    requires n < |items| && EnteredOn(items, n, e, mirrored)
    requires forall p: nat :: p < n ==> !EnteredOn(items, p, e, mirrored)
    ensures Group(items, n + 1, mirrored, e, [items[n]], [n])
  {
  }

  /** Item n joins the list of an address that is known. */
  lemma {:induction false} GroupedJoins(d: MultiDict, items: seq<Item>, n: nat, mirrored: bool, groups: seq<seq<nat>>,
      i: nat)
    requires n < |items| && Grouped(d, items, n, mirrored, groups) && Entered(items, n, mirrored)
    requires i < |d.order| && d.order[i] == Side(items[n], mirrored)
    ensures Grouped(d.Append(Side(items[n], mirrored), items[n]), items, n + 1, mirrored,
      groups[i := groups[i] + [n]])
  {
    var e, t := d.order[i], groups[i := groups[i] + [n]];
    assert e in d.order;
    var dd := d.Append(e, items[n]);
    forall k: nat | k < |t|
      ensures dd.order[k] in dd.lists && Group(items, n + 1, mirrored, dd.order[k], dd.lists[dd.order[k]], t[k])
    {
      assert Group(items, n, mirrored, d.order[k], d.lists[d.order[k]], groups[k]);
      if k == i {
        GroupGrows(items, n, mirrored, e, d.lists[e], groups[k]);
      } else {
        GroupStays(items, n, mirrored, d.order[k], d.lists[d.order[k]], groups[k]);
      }
    }
    assert AllGroups(dd, items, n + 1, mirrored, t);
  }

  /** Item n is the first of its address. */
  lemma {:induction false} GroupedStarts(d: MultiDict, items: seq<Item>, n: nat, mirrored: bool,
      groups: seq<seq<nat>>)
    requires n < |items| && Grouped(d, items, n, mirrored, groups) && Entered(items, n, mirrored)
    requires Side(items[n], mirrored) !in d.lists
    ensures Grouped(d.Append(Side(items[n], mirrored), items[n]), items, n + 1, mirrored, groups + [[n]])
  {
    var e, t := Side(items[n], mirrored), groups + [[n]];
    var dd := d.Append(e, items[n]);
    forall k: nat | k < |t|
      ensures dd.order[k] in dd.lists && Group(items, n + 1, mirrored, dd.order[k], dd.lists[dd.order[k]], t[k])
    {
      if k < |groups| {
        assert Group(items, n, mirrored, d.order[k], d.lists[d.order[k]], groups[k]);
        GroupStays(items, n, mirrored, d.order[k], d.lists[d.order[k]], groups[k]);
      } else {
        GroupStarts(items, n, mirrored, e);
      }
    }
    assert AllGroups(dd, items, n + 1, mirrored, t);
    FirstsBefore(d, items, n, mirrored, groups);
  }

  lemma {:induction false} FirstsBefore(d: MultiDict, items: seq<Item>, n: nat, mirrored: bool,
      groups: seq<seq<nat>>)
    requires |groups| == |d.order| && d.Valid() && AllGroups(d, items, n, mirrored, groups)
    ensures forall k :: 0 <= k < |groups| ==> groups[k] != [] && groups[k][0] < n
  {
    forall k | 0 <= k < |groups| ensures groups[k] != [] && groups[k][0] < n {
      assert Group(items, n, mirrored, d.order[k], d.lists[d.order[k]], groups[k]);
      assert groups[k][0] in groups[k];
    }
  }

  lemma {:induction false} GroupedPasses(d: MultiDict, items: seq<Item>, n: nat, mirrored: bool,
      groups: seq<seq<nat>>)
    requires n < |items| && Grouped(d, items, n, mirrored, groups) && !Entered(items, n, mirrored)
    ensures Grouped(d, items, n + 1, mirrored, groups)
  {
    forall k: nat | k < |groups|
      ensures d.order[k] in d.lists && Group(items, n + 1, mirrored, d.order[k], d.lists[d.order[k]], groups[k])
    {
      GroupStays(items, n, mirrored, d.order[k], d.lists[d.order[k]], groups[k]);
    }
  }

  /** The lists after n items: for each address the items that entered, in the order of the row. */
  lemma {:induction false} VisitedGroups(items: seq<Item>, n: nat, mirrored: bool) returns (groups: seq<seq<nat>>)
    requires n <= |items|
    ensures Grouped(ListsOn(Visited(items[..n]), mirrored), items, n, mirrored, groups)
    decreases n
  {
    if n == 0 {
      groups := [];
    } else {
      var m: nat := n - 1;
      groups := VisitedGroups(items, m, mirrored);
      VisitedRecords(items, m);
      assert items[..n][..m] == items[..m];
      VisitNext(Visited(items[..m]), items, m);
      var d, e := ListsOn(Visited(items[..m]), mirrored), Side(items[m], mirrored);
      if !Entered(items, m, mirrored) {
        GroupedPasses(d, items, m, mirrored, groups);
      } else if e in d.lists {
        var i: nat :| i < |d.order| && d.order[i] == e;
        GroupedJoins(d, items, m, mirrored, groups, i);
        groups := groups[i := groups[i] + [m]];
      } else {
        GroupedStarts(d, items, m, mirrored, groups);
        groups := groups + [[m]];
      }
    }
  }
}
