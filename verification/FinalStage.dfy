/**
 * The stage that ends a run: clean up, find the ties, and fill the four result lists. What it leaves is said of the row
 * of items alone: the sorted best, partial and unreliable list, one after the other.
 */
module FinalStage {
  import opened Options
  import opened Items
  import opened CleanupSieve
  import opened Matching
  import opened FinalPass
  import opened FirstPass
  import opened FinalLists

  function Taken(f: Final, items: seq<Item>): seq<Item> {
    if items == [] then []
    else
      Taken(f, items[..|items| - 1]) + if f.Check(items[|items| - 1]) == Take then [items[|items| - 1]] else []
  }

  class Choosers {
    var best: seq<Item>
    var partial: seq<Item>
    var unreliable: seq<Item>
    var multimatch: seq<Item>
  }

  lemma {:induction false} FlatOneMore(lists: seq<seq<Item>>, i: nat, j: nat)
    requires i < |lists| && j < |lists[i]|
    ensures Visited(Flat(lists[..i]) + lists[i][..j + 1]) ==
      Visited(Flat(lists[..i]) + lists[i][..j]).Visit(lists[i][j])
  {
    var before := Flat(lists[..i]);
    assert (before + lists[i][..j + 1])[..|before| + j] == before + lists[i][..j];
  }

  lemma {:induction false} FlatWholeList(lists: seq<seq<Item>>, i: nat)
    requires i < |lists|
    ensures Flat(lists[..i + 1]) == Flat(lists[..i]) + lists[i][..|lists[i]|]
  {
    assert lists[..i + 1][..i] == lists[..i];
  }

  method VisitItem(m: Maxes, x: Item) returns (r: Maxes)
    ensures r == m.Visit(x)
  {
    var key := PairOf(x);
    if key in m.dones {
      return m;
    }
    var maxMain, maxDiff := m.maxMain, m.maxDiff;
    if x.ea1 !in maxMain {
      maxMain := maxMain[x.ea1 := x.ratio];
    }
    r := m.(dones := m.dones + {key}, maxMain := maxMain);
    if maxMain[x.ea1] > x.ratio {
      return;
    }
    r := r.(maxMain := maxMain[x.ea1 := x.ratio], multiMain := m.multiMain.Append(x.ea1, x));
    if x.ea2 !in maxDiff {
      maxDiff := maxDiff[x.ea2 := x.ratio];
    }
    r := r.(maxDiff := maxDiff);
    if maxDiff[x.ea2] > x.ratio {
      return;
    }
    r := r.(maxDiff := maxDiff[x.ea2 := x.ratio], multiDiff := m.multiDiff.Append(x.ea2, x));
  }

  method FindUnresolved(lists: seq<seq<Item>>) returns (m: Maxes)
    ensures m == Visited(Flat(lists))
  {
    m := UNVISITED;
    for i: nat := 0 to |lists|
      invariant m == Visited(Flat(lists[..i]))
    {
      assert Flat(lists[..i]) + lists[i][..0] == Flat(lists[..i]);
      for j: nat := 0 to |lists[i]|
        invariant m == Visited(Flat(lists[..i]) + lists[i][..j])
      {
        FlatOneMore(lists, i, j);
        m := VisitItem(m, lists[i][j]);
      }
      FlatWholeList(lists, i);
    }
    assert lists[..|lists|] == lists;
  }

  /** Python's int() accepts both addresses of the item; adding it to a chooser raises otherwise. */
  ghost predicate Numbered(numeric: Text -> bool, x: Item) {
    numeric(x.ea1) && numeric(x.ea2)
  }

  ghost predicate AllNumbered(numeric: Text -> bool, items: seq<Item>) {
    forall x :: x in items ==> Numbered(numeric, x)
  }

  /** The address at which adding x raises. */
  method CheckAddresses(numeric: Text -> bool, x: Item) returns (bad: Option<Text>)
    ensures bad.None? <==> Numbered(numeric, x)
  {
    if !numeric(x.ea1) {
      return Some(x.ea1);
    }
    bad := if numeric(x.ea2) then None else Some(x.ea2);
  }

  lemma {:induction false} PickListAdds(p: Picked, ea: Text, items: seq<Item>, j: nat)
    requires j <= |items|
    ensures PickList(p, ea, items[..j]).chooser <= PickList(p, ea, items).chooser
  {
    if j == |items| {
      assert items[..j] == items;
    } else {
      PickListAdds(p, ea, items[..|items| - 1], j);
      assert items[..|items| - 1][..j] == items[..j];
    }
  }

  lemma {:induction false} PickDictAdds(p: Picked, d: MultiDict, i: nat, n: nat)
    requires i <= n <= |d.order| && d.Valid()
    ensures PickDict(p, d, i).chooser <= PickDict(p, d, n).chooser
    decreases n
  {
    if i < n {
      var m: nat := n - 1;
      PickDictAdds(p, d, i, m);
      PickAddsMore(p, d, m, PickDict(p, d, i).chooser);
      assert m + 1 == n;
    }
  }

  lemma {:induction false} PickAddsMore(p: Picked, d: MultiDict, n: nat, a: seq<Item>)
    requires n < |d.order| && d.Valid() && a <= PickDict(p, d, n).chooser
    ensures a <= PickDict(p, d, n + 1).chooser
  {
    PickAddsNext(p, d, n);
    PrefixJoins(a, PickDict(p, d, n).chooser, PickDict(p, d, n + 1).chooser);
  }

  lemma {:induction false} PrefixJoins(a: seq<Item>, b: seq<Item>, c: seq<Item>)
    requires a <= b <= c
    ensures a <= c
  {
  }

  lemma {:induction false} PickAddsNext(p: Picked, d: MultiDict, n: nat)
    requires n < |d.order| && d.Valid()
    ensures PickDict(p, d, n).chooser <= PickDict(p, d, n + 1).chooser
  {
    PickDictLast(p, d, n);
    PickWholeAdds(PickDict(p, d, n), d.order[n], d.lists[d.order[n]]);
  }

  lemma {:induction false} PickWholeAdds(p: Picked, ea: Text, items: seq<Item>)
    ensures p.chooser <= PickList(p, ea, items).chooser
  {
    PickListAdds(p, ea, items, 0);
    assert items[..0] == [];
  }

  lemma {:induction false} BadStays(numeric: Text -> bool, part: seq<Item>, whole: seq<Item>, x: Item)
    requires part <= whole && x in part && !Numbered(numeric, x)
    ensures !AllNumbered(numeric, whole)
  {
    var i: nat :| i < |part| && part[i] == x;
    assert whole[i] == x;
  }

  /** Adding stops at the first item whose addresses are no numbers. */
  method AddList(numeric: Text -> bool, p: Picked, ea: Text, items: seq<Item>) returns (r: Picked, bad: Option<Text>)
    requires AllNumbered(numeric, p.chooser)
    ensures bad.None? <==> AllNumbered(numeric, PickList(p, ea, items).chooser)
    ensures bad.None? ==> r == PickList(p, ea, items)
  {
    r, bad := p, None;
    for j: nat := 0 to |items|
      invariant r == PickList(p, ea, items[..j]) && AllNumbered(numeric, r.chooser) && bad.None?
    {
      assert items[..j + 1][..j] == items[..j];
      var key := PairOf(items[j]);
      if key !in r.dones {
        bad := CheckAddresses(numeric, items[j]);
        if bad.Some? {
          PickListAdds(p, ea, items, j + 1);
          assert items[j] in PickList(p, ea, items[..j + 1]).chooser;
          BadStays(numeric, PickList(p, ea, items[..j + 1]).chooser, PickList(p, ea, items).chooser, items[j]);
          return;
        }
        r := Picked(r.dones + {key}, r.chooser + [items[j]], r.ignored + {ea});
      }
    }
    assert items[..|items|] == items;
  }

  method AddMultimatchesToChooser(numeric: Text -> bool, p: Picked, multi: MultiDict)
    returns (r: Picked, bad: Option<Text>)
    requires multi.Valid() && AllNumbered(numeric, p.chooser)
    ensures bad.None? <==> AllNumbered(numeric, PickDict(p, multi, |multi.order|).chooser)
    ensures bad.None? ==> r == PickDict(p, multi, |multi.order|)
  {
    r, bad := p, None;
    for i: nat := 0 to |multi.order|
      invariant r == PickDict(p, multi, i) && AllNumbered(numeric, r.chooser) && bad.None?
    {
      var ea := multi.order[i];
      PickDictLast(p, multi, i);
      if |multi.lists[ea]| > 1 {
        r, bad := AddList(numeric, r, ea, multi.lists[ea]);
        if bad.Some? {
          PickDictAdds(p, multi, i + 1, |multi.order|);
          ghost var x :| x in PickDict(p, multi, i + 1).chooser && !Numbered(numeric, x);
          BadStays(numeric, PickDict(p, multi, i + 1).chooser, PickDict(p, multi, |multi.order|).chooser, x);
          return;
        }
      }
    }
  }

  /** The third pass raises at x: a lookup misses, or x is taken and its addresses are no numbers. */
  ghost predicate Raises(numeric: Text -> bool, f: Final, x: Item) {
    f.Check(x).Miss? || (f.Check(x) == Take && !Numbered(numeric, x))
  }

  ghost predicate NothingRaises(numeric: Text -> bool, f: Final, items: seq<Item>) {
    forall x :: x in items ==> !Raises(numeric, f, x)
  }

  method ChooseItems(numeric: Text -> bool, f: Final, items: seq<Item>) returns (taken: seq<Item>, error: Option<Text>)
    ensures error.None? <==> NothingRaises(numeric, f, items)
    ensures error.None? ==> taken == Taken(f, items)
  {
    taken, error := [], None;
    for j: nat := 0 to |items|
      invariant taken == Taken(f, items[..j]) && NothingRaises(numeric, f, items[..j]) && error.None?
    {
      assert items[..j + 1][..j] == items[..j] && items[j] in items;
      assert forall x :: x in items[..j + 1] ==> x in items[..j] || x == items[j];
      var x := items[j];
      if x.ea1 in f.ignoreMain || x.ea2 in f.ignoreDiff {
        continue;
      }
      if x.ea1 !in f.maxMain {
        return taken, Some(x.ea1);
      }
      if x.ratio < f.maxMain[x.ea1] {
        continue;
      }
      if x.ea2 !in f.maxDiff {
        return taken, Some(x.ea2);
      }
      if x.ratio < f.maxDiff[x.ea2] {
        continue;
      }
      error := CheckAddresses(numeric, x);
      if error.Some? {
        return;
      }
      taken := taken + [x];
    }
    assert items[..|items|] == items;
  }

  method Solve(numeric: Text -> bool, lists: seq<seq<Item>>) returns (f: Final, bad: Option<Text>)
    ensures bad.None? <==> AllNumbered(numeric, FinalOf(Flat(lists)).multimatch)
    ensures bad.None? ==> f == FinalOf(Flat(lists))
  {
    var m := FindUnresolved(lists);
    VisitedDicts(Flat(lists));
    f := Final(m.maxMain, m.maxDiff, {}, {}, []);
    var p, q;
    p, bad := AddMultimatchesToChooser(numeric, Picked({}, [], {}), m.multiMain);
    PickDictAdds(Picked(MainPick(m).dones, MainPick(m).chooser, {}), m.multiDiff, 0, |m.multiDiff.order|);
    if bad.Some? {
      ghost var x :| x in MainPick(m).chooser && !Numbered(numeric, x);
      BadStays(numeric, MainPick(m).chooser, DiffPick(m).chooser, x);
      return;
    }
    q, bad := AddMultimatchesToChooser(numeric, Picked(p.dones, p.chooser, {}), m.multiDiff);
    f := Final(m.maxMain, m.maxDiff, p.ignored, q.ignored, q.chooser);
  }

  method FillChoosers(numeric: Text -> bool, f: Final, sorted: seq<seq<Item>>, final: Choosers)
    returns (error: Option<Text>)
    requires |sorted| == 3
    modifies final`best, final`partial, final`unreliable
    ensures error.None? <==>
      NothingRaises(numeric, f, sorted[0]) && NothingRaises(numeric, f, sorted[1]) &&
        NothingRaises(numeric, f, sorted[2])
    ensures error.None? ==>
      final.best == Taken(f, sorted[0]) && final.partial == Taken(f, sorted[1]) &&
        final.unreliable == Taken(f, sorted[2])
  {
    var taken;
    taken, error := ChooseItems(numeric, f, sorted[0]);
    if error.Some? {
      return;
    }
    final.best := taken;
    taken, error := ChooseItems(numeric, f, sorted[1]);
    if error.Some? {
      return;
    }
    final.partial := taken;
    taken, error := ChooseItems(numeric, f, sorted[2]);
    final.unreliable := taken;
  }

  lemma {:induction false} RaisesOfThree(numeric: Text -> bool, f: Final, lists: seq<seq<Item>>)
    requires |lists| == 3
    ensures NothingRaises(numeric, f, Flat(Sorted(lists))) <==>
      && NothingRaises(numeric, f, Sorted(lists)[0]) && NothingRaises(numeric, f, Sorted(lists)[1])
      && NothingRaises(numeric, f, Sorted(lists)[2])
  {
    FlatOfThree(lists);
    var a, b, c := SortDescending(lists[0]), SortDescending(lists[1]), SortDescending(lists[2]);
    assert forall x :: x in a + b + c <==> x in a || x in b || x in c;
  }

  /** The ascending positions at which the list has a wanted item. */
  ghost predicate WantedAt(sorted: seq<Item>, wanted: Item -> bool, ps: seq<nat>) {
    Ascending(ps) && forall p: nat :: p in ps <==> p < |sorted| && wanted(sorted[p])
  }

  /** The list is the sorted one restricted to the wanted items. */
  ghost predicate Restricted(sorted: seq<Item>, wanted: Item -> bool, shown: seq<Item>) {
    exists ps: seq<nat> :: WantedAt(sorted, wanted, ps) && Picks(sorted, ps, shown)
  }

  ghost function Left(row: seq<Item>): Item -> bool {
    x => ToShow(row, x)
  }

  /** The list is the sorted one restricted to the items that are left for their own list. */
  ghost predicate Filled(row: seq<Item>, sorted: seq<Item>, shown: seq<Item>) {
    Restricted(sorted, Left(row), shown)
  }

  /** The list holds every item that ties for an address, once and in the order of the ties. */
  ghost predicate FilledWithTies(row: seq<Item>, multimatch: seq<Item>) {
    exists ps: seq<nat> :: Picks(row, ps, multimatch) && InMultimatchOrder(row, ps)
  }

  /** What the stage leaves behind for the cleaned-up lists. */
  ghost predicate Shown(lists: seq<seq<Item>>, best: seq<Item>, partial: seq<Item>, unreliable: seq<Item>,
      multimatch: seq<Item>)
    requires |lists| == 3
  {
    var row := Flat(Sorted(lists));
    && FilledWithTies(row, multimatch)
    && Filled(row, SortDescending(lists[0]), best)
    && Filled(row, SortDescending(lists[1]), partial)
    && Filled(row, SortDescending(lists[2]), unreliable)
  }

  /** The stage goes through: no lookup misses, and every item that is shown has addresses that are numbers. */
  ghost predicate GoesThrough(numeric: Text -> bool, lists: seq<seq<Item>>) {
    var row := Flat(Sorted(lists));
    && (forall p: nat :: p < |row| && Unresolved(row, p) ==> Numbered(numeric, row[p]))
    && (forall x :: x in row ==> !Misses(row, x) && (ToShow(row, x) ==> Numbered(numeric, x)))
  }

  lemma {:induction false} WantedNext(front: seq<Item>, x: Item, wanted: Item -> bool, ps: seq<nat>)
    requires WantedAt(front, wanted, ps)
    ensures WantedAt(front + [x], wanted, if wanted(x) then ps + [|front|] else ps)
  {
    var t := if wanted(x) then ps + [|front|] else ps;
    assert forall i :: 0 <= i < |ps| ==> ps[i] in ps;
    forall p: nat ensures p in t <==> p < |front + [x]| && wanted((front + [x])[p]) {
      assert wanted(x) ==> (p in t <==> p in ps || p == |front|);
    }
  }

  ghost function TakenBy(f: Final): Item -> bool {
    x => f.Check(x) == Take
  }

  lemma {:induction false} CollectedNext(front: seq<Item>, x: Item, wanted: Item -> bool, ps: seq<nat>, list: seq<Item>)
    requires WantedAt(front, wanted, ps) && Picks(front, ps, list)
    ensures var qs := if wanted(x) then ps + [|front|] else ps;
      WantedAt(front + [x], wanted, qs) && Picks(front + [x], qs, if wanted(x) then list + [x] else list)
  {
    WantedNext(front, x, wanted, ps);
  }

  lemma {:induction false} TakenAt(f: Final, items: seq<Item>) returns (ps: seq<nat>)
    ensures WantedAt(items, TakenBy(f), ps) && Picks(items, ps, Taken(f, items))
  {
    if items == [] {
      ps := [];
    } else {
      var front, last := items[..|items| - 1], items[|items| - 1];
      assert items == front + [last];
      var was := TakenAt(f, front);
      CollectedNext(front, last, TakenBy(f), was, Taken(f, front));
      ps := if TakenBy(f)(last) then was + [|front|] else was;
    }
  }

  /** What is taken from a sorted list fills its result list. */
  lemma {:induction false} TakenFills(row: seq<Item>, sorted: seq<Item>)
    ensures Filled(row, sorted, Taken(FinalOf(row), sorted))
  {
    var ps := TakenAt(FinalOf(row), sorted);
    forall x: Item ensures TakenBy(FinalOf(row))(x) == Left(row)(x) {
      TakenExactly(row, x);
    }
    assert WantedAt(sorted, Left(row), ps);
  }

  lemma {:induction false} TakenShown(lists: seq<seq<Item>>)
    requires |lists| == 3
    ensures var f := FinalOf(Flat(Sorted(lists)));
      Shown(lists, Taken(f, SortDescending(lists[0])), Taken(f, SortDescending(lists[1])),
        Taken(f, SortDescending(lists[2])), f.multimatch)
  {
    var row := Flat(Sorted(lists));
    TiesFill(row);
    TakenFills(row, SortDescending(lists[0]));
    TakenFills(row, SortDescending(lists[1]));
    TakenFills(row, SortDescending(lists[2]));
  }

  lemma {:induction false} TiesFill(row: seq<Item>)
    ensures FilledWithTies(row, FinalOf(row).multimatch)
    ensures forall x :: x in FinalOf(row).multimatch <==>
      exists p: nat :: p < |row| && Unresolved(row, p) && row[p] == x
  {
    var ps := MultimatchExactly(row);
    var multimatch := FinalOf(row).multimatch;
    forall x ensures x in multimatch <==> exists p: nat :: p < |row| && Unresolved(row, p) && row[p] == x {
      if x in multimatch {
        var i: nat :| i < |multimatch| && multimatch[i] == x;
        assert ps[i] in ps;
      }
      if p: nat :| p < |row| && Unresolved(row, p) && row[p] == x {
        assert p in ps;
        var i: nat :| i < |ps| && ps[i] == p;
        assert multimatch[i] == x;
      }
    }
  }

  lemma {:induction false} GoesThroughExactly(numeric: Text -> bool, lists: seq<seq<Item>>)
    ensures GoesThrough(numeric, lists) <==>
      AllNumbered(numeric, FinalOf(Flat(Sorted(lists))).multimatch) &&
        NothingRaises(numeric, FinalOf(Flat(Sorted(lists))), Flat(Sorted(lists)))
  {
    var row := Flat(Sorted(lists));
    TiesFill(row);
    forall x ensures Raises(numeric, FinalOf(row), x) <==> Misses(row, x) || (ToShow(row, x) && !Numbered(numeric, x)) {
      MissExactly(row, x);
      TakenExactly(row, x);
    }
  }

  method SortedLists(state: MatchState) returns (sorted: seq<seq<Item>>)
    requires state.Valid()
    ensures sorted == Sorted(state.State().lists)
  {
    sorted := [state.SortedResults(Best), state.SortedResults(Partial), state.SortedResults(Unreliable)];
  }

  /** Find the ties and fill the four result lists. */
  method FillFinal(numeric: Text -> bool, sorted: seq<seq<Item>>, final: Choosers, ghost lists: seq<seq<Item>>)
    returns (error: Option<Text>)
    requires |lists| == 3 && sorted == Sorted(lists)
    modifies final
    ensures error.None? <==> GoesThrough(numeric, lists)
    ensures error.None? ==> Shown(lists, final.best, final.partial, final.unreliable, final.multimatch)
  {
    var f;
    f, error := Solve(numeric, sorted);
    GoesThroughExactly(numeric, lists);
    if error.Some? {
      return;
    }
    RaisesOfThree(numeric, f, lists);
    TakenShown(lists);
    final.multimatch := f.multimatch;
    error := FillChoosers(numeric, f, sorted, final);
  }

  /** Clean up, then fill the four result lists; a missed lookup, or an item to be shown whose address is no number,
      ends the stage with an error. */
  method StageFinalPass(state: MatchState, final: Choosers, numeric: Text -> bool) returns (error: Option<Text>)
    requires state.Valid()
    modifies state, state.lists, state.members, final
    ensures state.Valid() && state.State() == old(state.State()).CleanedUp()
    ensures error.None? <==> GoesThrough(numeric, state.State().lists)
    ensures error.None? ==> Shown(state.State().lists, final.best, final.partial, final.unreliable, final.multimatch)
  {
    state.Cleanup();
    var sorted := SortedLists(state);
    error := FillFinal(numeric, sorted, final, state.State().lists);
  }

  // ---- What the filled lists guarantee ----

  ghost function Moved(n: nat, qs: seq<nat>): (moved: seq<nat>)
    ensures |moved| == |qs| && forall i :: 0 <= i < |qs| ==> moved[i] == n + qs[i]
  {
    seq(|qs|, i requires 0 <= i < |qs| => n + qs[i])
  }

  lemma {:induction false} PicksJoin(a: seq<Item>, b: seq<Item>, x: seq<Item>, y: seq<Item>, ps: seq<nat>, qs: seq<nat>)
    requires Picks(a, ps, x) && Picks(b, qs, y)
    ensures Picks(a + b, ps + Moved(|a|, qs), x + y)
  {
  }

  lemma {:induction false} MovedIn(n: nat, qs: seq<nat>, p: nat)
    ensures p in Moved(n, qs) <==> p >= n && p - n in qs
  {
    if p >= n && p - n in qs {
      var i: nat :| i < |qs| && qs[i] == p - n;
      assert Moved(n, qs)[i] == p;
    }
  }

  lemma {:induction false} WantedJoins(a: seq<Item>, b: seq<Item>, wanted: Item -> bool, ps: seq<nat>, qs: seq<nat>)
    requires WantedAt(a, wanted, ps) && WantedAt(b, wanted, qs)
    ensures WantedAt(a + b, wanted, ps + Moved(|a|, qs))
  {
    var moved := Moved(|a|, qs);
    var all := ps + moved;
    assert forall i :: 0 <= i < |ps| ==> ps[i] in ps;
    forall p: nat ensures p in all <==> p < |a + b| && wanted((a + b)[p]) {
      MovedIn(|a|, qs, p);
      assert p in all <==> p in ps || p in moved;
    }
  }

  /** Restricting two sorted lists one after the other is restricting the joined list. */
  lemma {:induction false} RestrictedJoins(a: seq<Item>, b: seq<Item>, wanted: Item -> bool, x: seq<Item>, y: seq<Item>)
    requires Restricted(a, wanted, x) && Restricted(b, wanted, y)
    ensures Restricted(a + b, wanted, x + y)
  {
    var ps: seq<nat> :| WantedAt(a, wanted, ps) && Picks(a, ps, x);
    var qs: seq<nat> :| WantedAt(b, wanted, qs) && Picks(b, qs, y);
    PicksJoin(a, b, x, y, ps, qs);
    WantedJoins(a, b, wanted, ps, qs);
  }

  /** The three result lists, one after the other, fill from the whole row. */
  lemma {:induction false} ShownFromRow(lists: seq<seq<Item>>, best: seq<Item>, partial: seq<Item>,
      unreliable: seq<Item>, multimatch: seq<Item>)
    requires |lists| == 3 && Shown(lists, best, partial, unreliable, multimatch)
    ensures Filled(Flat(Sorted(lists)), Flat(Sorted(lists)), best + partial + unreliable)
  {
    var row := Flat(Sorted(lists));
    FlatOfThree(lists);
    var a, b, c := SortDescending(lists[0]), SortDescending(lists[1]), SortDescending(lists[2]);
    RestrictedJoins(a, b, Left(row), best, partial);
    RestrictedJoins(a + b, c, Left(row), best + partial, unreliable);
  }

  lemma {:induction false} WantedItem(sorted: seq<Item>, wanted: Item -> bool, ps: seq<nat>, shown: seq<Item>, i: nat)
    requires WantedAt(sorted, wanted, ps) && Picks(sorted, ps, shown) && i < |shown|
    ensures ps[i] < |sorted| && sorted[ps[i]] == shown[i] && wanted(shown[i])
  {
    assert ps[i] in ps;
  }

  lemma {:induction false} RestrictedAt(sorted: seq<Item>, wanted: Item -> bool, shown: seq<Item>, x: Item)
    returns (p: nat)
    requires Restricted(sorted, wanted, shown) && x in shown
    ensures p < |sorted| && sorted[p] == x && wanted(x)
  {
    var ps: seq<nat> :| WantedAt(sorted, wanted, ps) && Picks(sorted, ps, shown);
    var i: nat :| i < |shown| && shown[i] == x;
    WantedItem(sorted, wanted, ps, shown, i);
    p := ps[i];
  }

  lemma {:induction false} RestrictedTwo(sorted: seq<Item>, wanted: Item -> bool, shown: seq<Item>, i: nat, j: nat)
    returns (p: nat, q: nat)
    requires Restricted(sorted, wanted, shown) && i < j < |shown|
    ensures p < q < |sorted| && sorted[p] == shown[i] && sorted[q] == shown[j]
    ensures wanted(shown[i]) && wanted(shown[j])
  {
    var ps: seq<nat> :| WantedAt(sorted, wanted, ps) && Picks(sorted, ps, shown);
    WantedItem(sorted, wanted, ps, shown, i);
    WantedItem(sorted, wanted, ps, shown, j);
    p, q := ps[i], ps[j];
  }

  lemma {:induction false} TiedItem(row: seq<Item>, multimatch: seq<Item>, y: Item) returns (q: nat)
    requires FilledWithTies(row, multimatch) && y in multimatch
    ensures q < |row| && Unresolved(row, q) && row[q] == y
  {
    var qs: seq<nat> :| Picks(row, qs, multimatch) && InMultimatchOrder(row, qs);
    var j: nat :| j < |multimatch| && multimatch[j] == y;
    assert qs[j] in qs;
    q := qs[j];
  }

  // ---- Rows in which the first item of a pair has the greatest ratio of the pair ----

  /** The pair of an item that is shown is not in multimatch. */
  lemma {:induction false} ShownNotTied(row: seq<Item>, i: nat, q: nat)
    requires TwinsOrdered(row) && i < |row| && ToShow(row, row[i]) && Unresolved(row, q)
    ensures PairOf(row[i]) != PairOf(row[q])
  {
    var p := TwinEntered(row, i);
    if PairOf(row[i]) == PairOf(row[q]) {
      FreshOnce(row, p, q);
      TiesBlock(row, p);
    }
  }

  /** The three lists form a one-to-one matching of addresses, and a pair that is in one of them is not in
      multimatch. */
  lemma {:induction false} ShownOneToOne(lists: seq<seq<Item>>, best: seq<Item>, partial: seq<Item>,
      unreliable: seq<Item>, multimatch: seq<Item>, x: Item, y: Item)
    requires |lists| == 3 && TwinsOrdered(Flat(Sorted(lists))) && Shown(lists, best, partial, unreliable, multimatch)
    requires x in best + partial + unreliable
    ensures y in best + partial + unreliable && PairOf(x) != PairOf(y) ==> x.ea1 != y.ea1 && x.ea2 != y.ea2
    ensures y in multimatch ==> PairOf(x) != PairOf(y)
  {
    var row, shown := Flat(Sorted(lists)), best + partial + unreliable;
    ShownFromRow(lists, best, partial, unreliable, multimatch);
    var i := RestrictedAt(row, Left(row), shown, x);
    if y in shown && PairOf(x) != PairOf(y) {
      var j := RestrictedAt(row, Left(row), shown, y);
      OneToOne(row, i, j);
    }
    if y in multimatch {
      var q := TiedItem(row, multimatch, y);
      ShownNotTied(row, i, q);
    }
  }

  ghost predicate BestOnBoth(items: seq<Item>, x: Item) {
    forall y :: y in items && (y.ea1 == x.ea1 || y.ea2 == x.ea2) ==> y.ratio <= x.ratio
  }

  ghost predicate HasPair(items: seq<Item>, k: string) {
    exists y :: y in items && SamePair(y, k)
  }

  /** An item that is best on both addresses is left for its own list unless its pair ties. */
  lemma {:induction false} BestIsShown(row: seq<Item>, i: nat) returns (p: nat)
    requires TwinsOrdered(row) && i < |row| && BestOnBoth(row, row[i])
    ensures p < |row| && Tops(row, p) && PairOf(row[p]) == PairOf(row[i])
    ensures ToShow(row, row[i]) || Unresolved(row, p)
  {
    forall q: nat | FreshOn(row, q, row[i].ea1) ensures row[q].ratio <= row[i].ratio {
      assert row[q] in row;
    }
    forall q: nat | ReachesOn(row, q, row[i].ea2) ensures row[q].ratio <= row[i].ratio {
      assert row[q] in row;
    }
    p := TwinEntered(row, i);
    assert FreshOn(row, p, row[i].ea1) && ReachesOn(row, p, row[i].ea2);
  }

  lemma {:induction false} RestrictedHas(sorted: seq<Item>, wanted: Item -> bool, shown: seq<Item>, p: nat)
    requires Restricted(sorted, wanted, shown) && p < |sorted| && wanted(sorted[p])
    ensures sorted[p] in shown
  {
    var ps: seq<nat> :| WantedAt(sorted, wanted, ps) && Picks(sorted, ps, shown);
    assert p in ps;
    var i: nat :| i < |ps| && ps[i] == p;
    assert shown[i] == sorted[p];
  }

  lemma {:induction false} TiesHave(row: seq<Item>, multimatch: seq<Item>, p: nat)
    requires FilledWithTies(row, multimatch) && p < |row| && Unresolved(row, p)
    ensures row[p] in multimatch
  {
    var ps: seq<nat> :| Picks(row, ps, multimatch) && InMultimatchOrder(row, ps);
    assert p in ps;
    var i: nat :| i < |ps| && ps[i] == p;
    assert multimatch[i] == row[p];
  }

  /** No top match is lost or doubled: an item with the greatest ratio of both its addresses has its pair in exactly
      one of multimatch and the other lists. */
  lemma {:induction false} TopMatchOnce(lists: seq<seq<Item>>, best: seq<Item>, partial: seq<Item>,
      unreliable: seq<Item>, multimatch: seq<Item>, x: Item)
    requires |lists| == 3 && TwinsOrdered(Flat(Sorted(lists))) && Shown(lists, best, partial, unreliable, multimatch)
    requires x in Flat(Sorted(lists)) && BestOnBoth(Flat(Sorted(lists)), x)
    ensures HasPair(multimatch, PairOf(x)) != HasPair(best + partial + unreliable, PairOf(x))
  {
    var row, shown := Flat(Sorted(lists)), best + partial + unreliable;
    ShownFromRow(lists, best, partial, unreliable, multimatch);
    var i: nat :| i < |row| && row[i] == x;
    var p := BestIsShown(row, i);
    if ToShow(row, x) {
      RestrictedHas(row, Left(row), shown, i);
      assert x in shown && SamePair(x, PairOf(x));
    } else {
      TiesHave(row, multimatch, p);
      assert row[p] in multimatch && SamePair(row[p], PairOf(x));
    }
    if HasPair(multimatch, PairOf(x)) && HasPair(shown, PairOf(x)) {
      var y :| y in shown && SamePair(y, PairOf(x));
      var z :| z in multimatch && SamePair(z, PairOf(x));
      ShownOneToOne(lists, best, partial, unreliable, multimatch, y, z);
    }
  }

  lemma {:induction false} TiedIsTop(row: seq<Item>, p: nat)
    requires Descending(row) && p < |row| && Unresolved(row, p)
    ensures TopOfMain(row, row[p])
  {
    forall q: nat | FreshOn(row, q, row[p].ea1) ensures row[q].ratio <= row[p].ratio {
      assert !Rejects(row, q, p);
      assert p < q ==> row[p].ratio >= row[q].ratio;
    }
  }

  lemma {:induction false} TopBeats(row: seq<Item>, x: Item, j: nat)
    requires TwinsOrdered(row) && TopOfMain(row, x) && j < |row| && row[j].ea1 == x.ea1
    ensures row[j].ratio <= x.ratio
  {
    var q := FirstTwin(row, j);
    assert q < j ==> TwinOk(row[q], row[j]);
    assert FreshOn(row, q, x.ea1);
  }

  /** With descending ratios nothing is shown that some item of its ea1 beats. */
  lemma {:induction false} ShownIsBest(lists: seq<seq<Item>>, best: seq<Item>, partial: seq<Item>,
      unreliable: seq<Item>, multimatch: seq<Item>, x: Item, y: Item)
    requires |lists| == 3 && Ready(Flat(Sorted(lists))) && Shown(lists, best, partial, unreliable, multimatch)
    requires x in best + partial + unreliable || x in multimatch
    requires y in Flat(Sorted(lists)) && y.ea1 == x.ea1
    ensures y.ratio <= x.ratio
  {
    var row, shown := Flat(Sorted(lists)), best + partial + unreliable;
    ShownFromRow(lists, best, partial, unreliable, multimatch);
    ReadyTwins(row);
    var j: nat :| j < |row| && row[j] == y;
    if x in multimatch {
      var p := TiedItem(row, multimatch, x);
      TiedIsTop(row, p);
    } else {
      var i := RestrictedAt(row, Left(row), shown, x);
    }
    TopBeats(row, x, j);
  }

  /** Multimatch shows every pair once, in any row. */
  lemma {:induction false} MultimatchOnce(row: seq<Item>, multimatch: seq<Item>, i: nat, j: nat)
    requires FilledWithTies(row, multimatch) && i < j < |multimatch|
    ensures PairOf(multimatch[i]) != PairOf(multimatch[j])
  {
    var ps: seq<nat> :| Picks(row, ps, multimatch) && InMultimatchOrder(row, ps);
    assert ps[i] in ps && ps[j] in ps;
    if PairOf(multimatch[i]) == PairOf(multimatch[j]) {
      FreshOnce(row, ps[i], ps[j]);
    }
  }

  // ---- Rows in which no address pair occurs twice ----

  /** Items with different pair keys. */
  ghost predicate PairsDistinct(items: seq<Item>) {
    forall i: nat, j: nat :: i < j < |items| ==> PairOf(items[i]) != PairOf(items[j])
  }

  /** One name for each address, on both sides. */
  ghost predicate NamedOnce(items: seq<Item>) {
    forall i: nat, j: nat :: i < |items| && j < |items| ==> SameNames(items[i], items[j])
  }

  ghost predicate SameNames(x: Item, y: Item) {
    (x.ea1 == y.ea1 ==> x.name1 == y.name1) && (x.ea2 == y.ea2 ==> x.name2 == y.name2)
  }

  /** When an address belongs to one function, a cleanup leaves no address pair twice. */
  lemma {:induction false} CleanedPairsDistinct(lists: seq<seq<Item>>)
    requires AllPlain(Flat(KeptLists(lists))) && NamedOnce(Flat(KeptLists(lists)))
    ensures PairsDistinct(Flat(KeptLists(lists)))
  {
    var items := Flat(KeptLists(lists));
    CleanupKeysUnique(lists);
    forall p: nat, q: nat | p < q < |items| ensures PairOf(items[p]) != PairOf(items[q]) {
      assert items[p] in items && items[q] in items;
      assert SameNames(items[p], items[q]) && NameKey(items[p]) != NameKey(items[q]);
      if PairOf(items[p]) == PairOf(items[q]) {
        PlainKeysDiffer(items[p].ea1, items[p].ea2, items[q].ea1, items[q].ea2);
      }
    }
  }

  /** In such a row an item that is shown has entered both lists of its addresses. */
  lemma {:induction false} ShownEntered(items: seq<Item>, p: nat)
    requires PairsDistinct(items) && p < |items| && ToShow(items, items[p])
    ensures Tops(items, p)
  {
    assert Fresh(items, p);
    TopReaches(items, p);
    forall q: nat ensures !Outdoes(items, q, p) {
      assert Outdoes(items, q, p) ==> ReachesOn(items, q, items[p].ea2);
    }
  }

  /** Two items that are shown share no address, whatever the ratios. */
  lemma {:induction false} ShownApart(items: seq<Item>, p: nat, q: nat)
    requires PairsDistinct(items) && p < q < |items| && ToShow(items, items[p]) && ToShow(items, items[q])
    ensures items[p].ea1 != items[q].ea1 && items[p].ea2 != items[q].ea2
  {
    ShownEntered(items, p);
    ShownEntered(items, q);
    if items[p].ea1 == items[q].ea1 {
      assert EnteredOn(items, p, items[p].ea1, false) && EnteredOn(items, q, items[p].ea1, false);
      assert Tied(items, items[p].ea1, false);
    }
    if items[p].ea2 == items[q].ea2 {
      assert EnteredOn(items, p, items[p].ea2, true) && EnteredOn(items, q, items[p].ea2, true);
    }
  }

  /** An item that is shown does not tie. */
  lemma {:induction false} ShownIsResolved(items: seq<Item>, p: nat)
    requires p < |items| && ToShow(items, items[p])
    ensures !Unresolved(items, p)
  {
    if TiedAt(items, p, true) {
      assert EnteredOn(items, p, items[p].ea2, true);
    }
  }

  lemma {:induction false} FilledApart(row: seq<Item>, shown: seq<Item>, i: nat, j: nat)
    requires PairsDistinct(row) && Filled(row, row, shown) && i < j < |shown|
    ensures shown[i].ea1 != shown[j].ea1 && shown[i].ea2 != shown[j].ea2
  {
    var p, q := RestrictedTwo(row, Left(row), shown, i, j);
    ShownApart(row, p, q);
  }

  lemma {:induction false} FilledUntied(row: seq<Item>, shown: seq<Item>, multimatch: seq<Item>, x: Item, y: Item)
    requires PairsDistinct(row) && Filled(row, row, shown) && FilledWithTies(row, multimatch)
    requires x in shown && y in multimatch
    ensures PairOf(x) != PairOf(y)
  {
    var p := RestrictedAt(row, Left(row), shown, x);
    var q := TiedItem(row, multimatch, y);
    ShownIsResolved(row, p);
    assert p != q;
    assert p < q ==> PairOf(row[p]) != PairOf(row[q]);
    assert q < p ==> PairOf(row[q]) != PairOf(row[p]);
  }

  /** When every address belongs to one function, the stage shows each function at most once in the best, partial and
      unreliable list together, and no pair of theirs in multimatch, whatever the ratios. */
  lemma {:induction false} OneEntryPerFunction(was: seq<seq<Item>>, best: seq<Item>, partial: seq<Item>,
      unreliable: seq<Item>, multimatch: seq<Item>, i: nat, j: nat)
    requires |was| == 3 && AllPlain(Flat(KeptLists(was))) && NamedOnce(Flat(KeptLists(was)))
    requires Shown(KeptLists(was), best, partial, unreliable, multimatch)
    ensures var shown := best + partial + unreliable; i < j < |shown| ==>
      shown[i].ea1 != shown[j].ea1 && shown[i].ea2 != shown[j].ea2
    ensures var shown := best + partial + unreliable; i < |shown| && j < |multimatch| ==>
      PairOf(shown[i]) != PairOf(multimatch[j])
  {
    var shown := best + partial + unreliable;
    SortedRow(was);
    CleanedPairsDistinct(was);
    ShownFromRow(KeptLists(was), best, partial, unreliable, multimatch);
    if i < j < |shown| {
      FilledApart(Flat(KeptLists(was)), shown, i, j);
    }
    if i < |shown| && j < |multimatch| {
      FilledUntied(Flat(KeptLists(was)), shown, multimatch, shown[i], multimatch[j]);
    }
  }

  /** The lists of a cleanup are sorted. */
  lemma {:induction false} SortedRow(was: seq<seq<Item>>)
    ensures Sorted(KeptLists(was)) == KeptLists(was)
  {
    forall i: nat | i < |was| ensures Sorted(KeptLists(was))[i] == KeptLists(was)[i] {
      SortedKept(was, i);
    }
  }
}
