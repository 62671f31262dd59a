/**
 * Which items a cleanup keeps: one sieve runs over the sorted best, partial and unreliable lists.
 * A name pair passes once; an address passes while no kept item of that address had a greater ratio.
 */
module CleanupSieve {
  import opened Items

  /** Equal names count as a perfect match in the address test, whatever ratio the item carries. */
  function Counted(it: Item): real {
    if it.name1 == it.name2 then 1.0 else it.ratio
  }

  function NameKey(it: Item): string {
    PairKey(it.name1, it.name2)
  }

  /** Name pairs already seen, and the ratio of the last kept item of each ea1. */
  datatype Sieve = Sieve(dones: set<string>, eaRatios: map<Text, real>) {
    predicate Keeps(it: Item) {
      NameKey(it) !in dones && !(it.ea1 in eaRatios && eaRatios[it.ea1] > Counted(it))
    }

    /** The pair is marked before the address test, so a rejected item still uses up its pair. */
    function Next(it: Item): Sieve {
      if NameKey(it) in dones then this
      else if Keeps(it) then Sieve(dones + {NameKey(it)}, eaRatios[it.ea1 := Counted(it)])
      else Sieve(dones + {NameKey(it)}, eaRatios)
    }
  }

  const START := Sieve({}, map[])

  function After(s: Sieve, items: seq<Item>): Sieve {
    if items == [] then s else After(s, items[..|items| - 1]).Next(items[|items| - 1])
  }

  function Kept(s: Sieve, items: seq<Item>): seq<Item> {
    if items == [] then []
    else
      Kept(s, items[..|items| - 1]) +
      if After(s, items[..|items| - 1]).Keeps(items[|items| - 1]) then [items[|items| - 1]] else []
  }

  lemma {:induction false} KeptOneMore(s: Sieve, items: seq<Item>, i: nat)
    requires i < |items|
    ensures After(s, items[..i + 1]) == After(s, items[..i]).Next(items[i])
    ensures Kept(s, items[..i + 1]) ==
      Kept(s, items[..i]) + if After(s, items[..i]).Keeps(items[i]) then [items[i]] else []
  {
    assert items[..i + 1][..i] == items[..i];
  }

  /** The sieve a list meets is the one the earlier sorted lists left behind. */
  function SieveAt(lists: seq<seq<Item>>, i: nat): Sieve
    requires i <= |lists|
  {
    if i == 0 then START else After(SieveAt(lists, i - 1), SortDescending(lists[i - 1]))
  }

  function KeptAt(lists: seq<seq<Item>>, i: nat): seq<Item>
    requires i < |lists|
  {
    Kept(SieveAt(lists, i), SortDescending(lists[i]))
  }

  function KeptLists(lists: seq<seq<Item>>): (kept: seq<seq<Item>>)
    ensures |kept| == |lists|
  {
    seq(|lists|, i requires 0 <= i < |lists| => KeptAt(lists, i))
  }

  lemma {:induction false} KeptListsOneMore(lists: seq<seq<Item>>, i: nat)
    requires i < |lists|
    ensures SieveAt(lists, i + 1) == After(SieveAt(lists, i), SortDescending(lists[i]))
    ensures KeptLists(lists)[..i + 1] == KeptLists(lists)[..i] + [Kept(SieveAt(lists, i), SortDescending(lists[i]))]
  {
    var k := KeptLists(lists);
    assert k[..i + 1] == k[..i] + [k[i]];
  }

  // ---- Keeping twice keeps the same ----

  lemma {:induction false} KeptAgain(s: Sieve, t: Sieve, items: seq<Item>)
    requires t.eaRatios == s.eaRatios && t.dones <= s.dones
    ensures Kept(t, Kept(s, items)) == Kept(s, items)
    ensures After(t, Kept(s, items)).eaRatios == After(s, items).eaRatios
    ensures After(t, Kept(s, items)).dones <= After(s, items).dones
  {
    if items != [] {
      var front, last := items[..|items| - 1], items[|items| - 1];
      KeptAgain(s, t, front);
      var kept := Kept(s, items);
      if After(s, front).Keeps(last) {
        assert kept[..|kept| - 1] == Kept(s, front);
      } else {
        assert kept == Kept(s, front);
      }
    }
  }

  lemma {:induction false} KeptDescends(s: Sieve, items: seq<Item>)
    requires Descending(items)
    ensures Descending(Kept(s, items))
    ensures forall x :: x in Kept(s, items) ==> x in items
  {
    if items != [] {
      var front, last := items[..|items| - 1], items[|items| - 1];
      KeptDescends(s, front);
      forall p: nat | p < |Kept(s, front)| ensures Kept(s, front)[p].ratio >= last.ratio {
        assert Kept(s, front)[p] in front;
      }
    }
  }

  ghost predicate Weaker(t: Sieve, s: Sieve) {
    t.eaRatios == s.eaRatios && t.dones <= s.dones
  }

  lemma {:induction false} KeptAtAgain(lists: seq<seq<Item>>, i: nat)
    requires i < |lists| && Weaker(SieveAt(KeptLists(lists), i), SieveAt(lists, i))
    ensures KeptAt(KeptLists(lists), i) == KeptAt(lists, i)
    ensures Weaker(SieveAt(KeptLists(lists), i + 1), SieveAt(lists, i + 1))
  {
    var s, t, sorted := SieveAt(lists, i), SieveAt(KeptLists(lists), i), SortDescending(lists[i]);
    SortedKept(lists, i);
    KeptAgain(s, t, sorted);
    assert SieveAt(lists, i + 1) == After(s, sorted);
    assert SieveAt(KeptLists(lists), i + 1) == After(t, Kept(s, sorted));
  }

  lemma {:induction false} SieveAgain(lists: seq<seq<Item>>, i: nat)
    requires i <= |lists|
    ensures Weaker(SieveAt(KeptLists(lists), i), SieveAt(lists, i))
  {
    if i > 0 {
      var j: nat := i - 1;
      SieveAgain(lists, j);
      KeptAtAgain(lists, j);
      assert j + 1 == i;
    }
  }

  lemma {:induction false} SortedKept(lists: seq<seq<Item>>, i: nat)
    requires i < |lists|
    ensures SortDescending(KeptLists(lists)[i]) == KeptLists(lists)[i] == KeptAt(lists, i)
  {
    SortedDescends(lists[i]);
    KeptDescends(SieveAt(lists, i), SortDescending(lists[i]));
    SortedAlready(KeptAt(lists, i));
  }

  /** The cleanup is idempotent on the lists. */
  lemma {:induction false} KeptListsAgain(lists: seq<seq<Item>>)
    ensures KeptLists(KeptLists(lists)) == KeptLists(lists)
  {
    forall i: nat | i < |lists| ensures KeptAt(KeptLists(lists), i) == KeptAt(lists, i) {
      SieveAgain(lists, i);
      KeptAtAgain(lists, i);
    }
    assert forall i: nat :: i < |lists| ==> KeptLists(KeptLists(lists))[i] == KeptLists(lists)[i];
  }

  // ---- Which items survive, said without the sieve ----

  function Flat(lists: seq<seq<Item>>): seq<Item> {
    if lists == [] then [] else Flat(lists[..|lists| - 1]) + lists[|lists| - 1]
  }

  function Sorted(lists: seq<seq<Item>>): (sorted: seq<seq<Item>>)
    ensures |sorted| == |lists|
  {
    seq(|lists|, i requires 0 <= i < |lists| => SortDescending(lists[i]))
  }

  /** The two names read the same, joined by a dash. */
  ghost predicate SameNamePair(x: Item, y: Item) {
    KeyText(x.name1) + "-" + KeyText(x.name2) == KeyText(y.name1) + "-" + KeyText(y.name2)
  }

  /** The item does not count for more, where equal names count as a perfect match. */
  ghost predicate NoBetter(x: Item, y: Item) {
    (if x.name1 == x.name2 then 1.0 else x.ratio) <= if y.name1 == y.name2 then 1.0 else y.ratio
  }

  /** No earlier item has the name pair, and no earlier survivor of the same ea1 counts for more. */
  ghost predicate Survives(items: seq<Item>, p: nat)
    requires p < |items|
    decreases p, 1
  {
    && (forall q: nat :: q < p ==> !SameNamePair(items[q], items[p]))
    && (forall x :: x in Survivors(items, p) && x.ea1 == items[p].ea1 ==> NoBetter(x, items[p]))
  }

  ghost function Survivors(items: seq<Item>, n: nat): seq<Item>
    requires n <= |items|
    decreases n, 0
  {
    if n == 0 then [] else Survivors(items, n - 1) + if Survives(items, n - 1) then [items[n - 1]] else []
  }

  ghost predicate SeenUpTo(s: Sieve, items: seq<Item>, n: nat)
    requires n <= |items|
  {
    forall k :: k in s.dones <==> exists q: nat :: q < n && NameKey(items[q]) == k
  }

  ghost predicate Covers(s: Sieve, kept: seq<Item>) {
    forall x :: x in kept ==> x.ea1 in s.eaRatios && Counted(x) <= s.eaRatios[x.ea1]
  }

  ghost predicate Attains(kept: seq<Item>, e: Text, r: real) {
    exists x :: x in kept && x.ea1 == e && Counted(x) == r
  }

  ghost predicate Attained(s: Sieve, kept: seq<Item>) {
    forall e :: e in s.eaRatios ==> Attains(kept, e, s.eaRatios[e])
  }

  lemma {:induction false} SeenOneMore(s: Sieve, items: seq<Item>, n: nat)
    requires n < |items| && SeenUpTo(s, items, n)
    ensures SeenUpTo(s.Next(items[n]), items, n + 1)
  {
  }

  lemma {:induction false} KeepsIsSurvives(s: Sieve, items: seq<Item>, n: nat)
    requires n < |items| && SeenUpTo(s, items, n) && Covers(s, Survivors(items, n)) && Attained(s, Survivors(items, n))
    ensures s.Keeps(items[n]) == Survives(items, n)
  {
    assert items[n].ea1 in s.eaRatios ==> Attains(Survivors(items, n), items[n].ea1, s.eaRatios[items[n].ea1]);
    assert forall q: nat :: q < n ==> (SameNamePair(items[q], items[n]) <==> NameKey(items[q]) == NameKey(items[n]));
  }

  lemma {:induction false} CoversOneMore(s: Sieve, kept: seq<Item>, x: Item)
    requires Covers(s, kept)
    ensures Covers(s.Next(x), kept + if s.Keeps(x) then [x] else [])
  {
  }

  lemma {:induction false} AttainedOneMore(s: Sieve, kept: seq<Item>, x: Item)
    requires Attained(s, kept)
    ensures Attained(s.Next(x), kept + if s.Keeps(x) then [x] else [])
  {
    var t, now := s.Next(x), kept + if s.Keeps(x) then [x] else [];
    forall e | e in t.eaRatios ensures Attains(now, e, t.eaRatios[e]) {
      if s.Keeps(x) && e == x.ea1 {
        assert x in now;
      } else {
        assert Attains(kept, e, s.eaRatios[e]);
      }
    }
  }

  ghost predicate Fits(s: Sieve, items: seq<Item>, n: nat)
    requires n <= |items|
  {
    SeenUpTo(s, items, n) && Covers(s, Survivors(items, n)) && Attained(s, Survivors(items, n))
  }

  lemma {:induction false} FitsOneMore(s: Sieve, items: seq<Item>, n: nat)
    requires n < |items| && Fits(s, items, n)
    ensures Fits(s.Next(items[n]), items, n + 1)
    ensures Survivors(items, n + 1) == Survivors(items, n) + if s.Keeps(items[n]) then [items[n]] else []
  {
    KeepsIsSurvives(s, items, n);
    SeenOneMore(s, items, n);
    CoversOneMore(s, Survivors(items, n), items[n]);
    AttainedOneMore(s, Survivors(items, n), items[n]);
  }

  lemma {:induction false} KeptSurvive(items: seq<Item>, n: nat)
    requires n <= |items|
    ensures Kept(START, items[..n]) == Survivors(items, n)
    ensures Fits(After(START, items[..n]), items, n)
  {
    if n > 0 {
      var m: nat := n - 1;
      KeptSurvive(items, m);
      KeptOneMore(START, items, m);
      FitsOneMore(After(START, items[..m]), items, m);
    }
  }

  lemma {:induction false} KeptJoined(s: Sieve, a: seq<Item>, b: seq<Item>)
    ensures Kept(s, a + b) == Kept(s, a) + Kept(After(s, a), b) && After(s, a + b) == After(After(s, a), b)
  {
    if b == [] {
      assert a + b == a;
    } else {
      KeptJoined(s, a, b[..|b| - 1]);
      assert (a + b)[..|a + b| - 1] == a + b[..|b| - 1];
    }
  }

  lemma {:induction false} FlatNext(lists: seq<seq<Item>>, i: nat)
    requires 0 < i <= |lists|
    ensures Flat(lists[..i]) == Flat(lists[..i - 1]) + lists[i - 1]
  {
    assert lists[..i][..i - 1] == lists[..i - 1];
  }

  lemma {:induction false} KeptFlat(lists: seq<seq<Item>>, i: nat)
    requires i <= |lists|
    ensures Flat(KeptLists(lists)[..i]) == Kept(START, Flat(Sorted(lists)[..i]))
    ensures SieveAt(lists, i) == After(START, Flat(Sorted(lists)[..i]))
  {
    if i > 0 {
      KeptFlat(lists, i - 1);
      FlatNext(KeptLists(lists), i);
      FlatNext(Sorted(lists), i);
      KeptJoined(START, Flat(Sorted(lists)[..i - 1]), SortDescending(lists[i - 1]));
    }
  }

  /** The kept lists, one after the other, are the survivors of the sorted lists. */
  lemma {:induction false} CleanupKeepsSurvivors(lists: seq<seq<Item>>)
    ensures Flat(KeptLists(lists)) == Survivors(Flat(Sorted(lists)), |Flat(Sorted(lists))|)
  {
    var all := Flat(Sorted(lists));
    KeptFlat(lists, |lists|);
    KeptSurvive(all, |all|);
    assert KeptLists(lists)[..|lists|] == KeptLists(lists) && Sorted(lists)[..|lists|] == Sorted(lists);
    assert all[..|all|] == all;
  }

  // ---- Name pairs are unique after a cleanup ----

  ghost predicate KeysDistinct(items: seq<Item>) {
    forall p, q :: 0 <= p < q < |items| ==> NameKey(items[p]) != NameKey(items[q])
  }

  lemma {:induction false} SurvivorsDistinct(items: seq<Item>, n: nat)
    requires n <= |items|
    ensures KeysDistinct(Survivors(items, n))
    ensures forall x :: x in Survivors(items, n) ==> x in items[..n]
  {
    if n > 0 {
      SurvivorsDistinct(items, n - 1);
      var kept := Survivors(items, n - 1);
      if Survives(items, n - 1) {
        forall p: nat | p < |kept| ensures NameKey(kept[p]) != NameKey(items[n - 1]) {
          assert kept[p] in items[..n - 1];
          var q: nat :| q < n - 1 && items[q] == kept[p];
        }
      }
      assert forall x :: x in items[..n - 1] ==> x in items[..n];
    }
  }

  /** After a cleanup no name pair occurs twice, within or across the three lists. */
  lemma {:induction false} CleanupKeysUnique(lists: seq<seq<Item>>)
    ensures KeysDistinct(Flat(KeptLists(lists)))
  {
    CleanupKeepsSurvivors(lists);
    SurvivorsDistinct(Flat(Sorted(lists)), |Flat(Sorted(lists))|);
  }
}
