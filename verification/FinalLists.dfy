/**
 * What the final pass shows, said of the row of items alone: which items tie, which go to the multimatch list and in
 * what order, and which are left for their own lists. Items come in any order and with any ratios and addresses.
 */
module FinalLists {
  import opened Items
  import opened FinalPass
  import opened FirstPass

  /** Two items entered the list of the address. */
  ghost predicate Tied(items: seq<Item>, e: Text, mirrored: bool) {
    exists p: nat, q: nat :: p < q && EnteredOn(items, p, e, mirrored) && EnteredOn(items, q, e, mirrored)
  }

  ghost predicate TiedAt(items: seq<Item>, p: nat, mirrored: bool) {
    p < |items| && Entered(items, p, mirrored) && Tied(items, Side(items[p], mirrored), mirrored)
  }

  /** The item ties for one of its addresses. */
  ghost predicate Unresolved(items: seq<Item>, p: nat) {
    TiedAt(items, p, false) || TiedAt(items, p, true)
  }

  ghost predicate EntersAfter(items: seq<Item>, r: nat, e: Text, mirrored: bool) {
    forall s: nat :: EnteredOn(items, s, e, mirrored) ==> r < s
  }

  /** The address of p came before that of q, or p came before q at one address. */
  ghost predicate Before(items: seq<Item>, p: nat, q: nat, mirrored: bool) {
    && p < |items| && q < |items|
    && if Side(items[p], mirrored) == Side(items[q], mirrored) then p < q
       else
         exists r: nat :: EnteredOn(items, r, Side(items[p], mirrored), mirrored) &&
           EntersAfter(items, r, Side(items[q], mirrored), mirrored)
  }

  /** Ties for an ea1 come first, then the other ties for an ea2. */
  ghost predicate ListedBefore(items: seq<Item>, p: nat, q: nat) {
    if TiedAt(items, p, false) && TiedAt(items, q, false) then Before(items, p, q, false)
    else TiedAt(items, p, false) || (!TiedAt(items, q, false) && Before(items, p, q, true))
  }

  /** These are the positions of all unresolved items, each once, in that order. */
  ghost predicate InMultimatchOrder(items: seq<Item>, ps: seq<nat>) {
    && (forall p: nat :: p in ps <==> p < |items| && Unresolved(items, p))
    && (forall i, j :: 0 <= i < j < |ps| ==> ps[i] != ps[j] && ListedBefore(items, ps[i], ps[j]))
  }

  /** An address is ignored when items tie for it; on the ea2 side one of them must not tie for its ea1 as well. */
  ghost predicate Blocked(items: seq<Item>, e: Text, mirrored: bool) {
    Tied(items, e, mirrored) && (mirrored ==> exists p: nat :: EnteredOn(items, p, e, true) && !TiedAt(items, p, false))
  }

  /** No fresh item of its ea1 has a greater ratio. */
  ghost predicate TopOfMain(items: seq<Item>, x: Item) {
    forall p: nat :: FreshOn(items, p, x.ea1) ==> items[p].ratio <= x.ratio
  }

  /** No item that reached the side of its ea2 has a greater ratio. */
  ghost predicate TopOfDiff(items: seq<Item>, x: Item) {
    forall p: nat :: ReachesOn(items, p, x.ea2) ==> items[p].ratio <= x.ratio
  }

  /** The item is left for its own list. */
  ghost predicate ToShow(items: seq<Item>, x: Item) {
    && !Blocked(items, x.ea1, false) && !Blocked(items, x.ea2, true)
    && (exists p: nat :: FreshOn(items, p, x.ea1)) && TopOfMain(items, x)
    && (exists p: nat :: ReachesOn(items, p, x.ea2)) && TopOfDiff(items, x)
  }

  /** The first item with the pair key of item i. */
  lemma {:induction false} FirstTwin(items: seq<Item>, i: nat) returns (p: nat)
    requires i < |items|
    ensures p <= i && Fresh(items, p) && PairOf(items[p]) == PairOf(items[i])
  {
    if Fresh(items, i) {
      p := i;
    } else {
      var q: nat :| q < i && PairOf(items[q]) == PairOf(items[i]);
      p := FirstTwin(items, q);
    }
  }

  /** Of items with one pair key the first has the addresses of the others and no smaller ratio. */
  ghost predicate TwinsOrdered(items: seq<Item>) {
    forall i: nat, j: nat :: i < j < |items| && PairOf(items[i]) == PairOf(items[j]) ==> TwinOk(items[i], items[j])
  }

  ghost predicate TwinOk(x: Item, y: Item) {
    x.ea1 == y.ea1 && x.ea2 == y.ea2 && x.ratio >= y.ratio
  }

  /** Descending ratios and plain addresses are enough for that. */
  lemma {:induction false} ReadyTwins(items: seq<Item>)
    requires Ready(items)
    ensures TwinsOrdered(items)
  {
    forall p: nat, q: nat | p < q < |items| && PairOf(items[p]) == PairOf(items[q]) ensures TwinOk(items[p], items[q]) {
      assert items[p] in items && items[q] in items;
      PlainKeysDiffer(items[p].ea1, items[p].ea2, items[q].ea1, items[q].ea2);
    }
  }

  /** Nothing rejects a fresh item that is best on its ea1. */
  lemma {:induction false} TopReaches(items: seq<Item>, p: nat)
    requires Fresh(items, p) && TopOfMain(items, items[p])
    ensures Reaches(items, p)
  {
    forall q: nat ensures !Rejects(items, q, p) {
      assert Rejects(items, q, p) ==> FreshOn(items, q, items[p].ea1);
    }
  }

  // ---- Picking items that are not in the list yet, as positions ----

  ghost function AddNew(chosen: seq<nat>, ps: seq<nat>): seq<nat> {
    if ps == [] then chosen
    else
      var before := AddNew(chosen, ps[..|ps| - 1]);
      if ps[|ps| - 1] in before then before else before + [ps[|ps| - 1]]
  }

  ghost function AddGroups(chosen: seq<nat>, groups: seq<seq<nat>>, n: nat): seq<nat>
    requires n <= |groups|
  {
    if n == 0 then chosen
    else
      var before := AddGroups(chosen, groups, n - 1);
      if |groups[n - 1]| > 1 then AddNew(before, groups[n - 1]) else before
  }

  ghost predicate NoneTwice(ps: seq<nat>) {
    forall i, j :: 0 <= i < j < |ps| ==> ps[i] != ps[j]
  }

  ghost predicate AllFresh(items: seq<Item>, ps: seq<nat>) {
    forall p :: p in ps ==> Fresh(items, p)
  }

  ghost predicate PairAt(items: seq<Item>, ps: seq<nat>, k: string) {
    exists p :: p in ps && p < |items| && SamePair(items[p], k)
  }

  /** The chosen items are those at the positions, and the done pairs are theirs. */
  ghost predicate Carries(items: seq<Item>, p: Picked, chosen: seq<nat>) {
    Picks(items, chosen, p.chooser) && AllFresh(items, chosen) && forall k :: k in p.dones <==> PairAt(items, chosen, k)
  }

  lemma {:induction false} FreshOnce(items: seq<Item>, p: nat, q: nat)
    requires Fresh(items, p) && Fresh(items, q) && PairOf(items[p]) == PairOf(items[q])
    ensures p == q
  {
  }

  /** A pair is done exactly when its position is chosen. */
  lemma {:induction false} DoneIsChosen(items: seq<Item>, p: Picked, chosen: seq<nat>, i: nat)
    requires Carries(items, p, chosen) && Fresh(items, i)
    ensures PairOf(items[i]) in p.dones <==> i in chosen
  {
    if PairOf(items[i]) in p.dones {
      assert PairAt(items, chosen, PairOf(items[i]));
      var q :| q in chosen && q < |items| && SamePair(items[q], PairOf(items[i]));
      FreshOnce(items, i, q);
    }
    if i in chosen {
      assert SamePair(items[i], PairOf(items[i]));
      assert PairAt(items, chosen, PairOf(items[i]));
    }
  }

  lemma {:induction false} PairAtNext(items: seq<Item>, ps: seq<nat>, i: nat, k: string)
    requires i < |items|
    ensures PairAt(items, ps + [i], k) <==> PairAt(items, ps, k) || SamePair(items[i], k)
  {
    var t := ps + [i];
    if PairAt(items, ps, k) {
      var q :| q in ps && q < |items| && SamePair(items[q], k);
      assert q in t;
    }
    if SamePair(items[i], k) {
      assert i in t;
    }
  }

  lemma {:induction false} DonesNext(items: seq<Item>, dones: set<string>, ps: seq<nat>, i: nat)
    requires i < |items| && forall k :: k in dones <==> PairAt(items, ps, k)
    ensures forall k :: k in dones + {PairOf(items[i])} <==> PairAt(items, ps + [i], k)
  {
    forall k ensures k in dones + {PairOf(items[i])} <==> PairAt(items, ps + [i], k) {
      PairAtNext(items, ps, i, k);
    }
  }

  lemma {:induction false} PicksNext(items: seq<Item>, ps: seq<nat>, list: seq<Item>, i: nat)
    requires Picks(items, ps, list) && AllFresh(items, ps) && Fresh(items, i)
    ensures Picks(items, ps + [i], list + [items[i]]) && AllFresh(items, ps + [i])
  {
  }

  lemma {:induction false} PickCarries(items: seq<Item>, p: Picked, chosen: seq<nat>, ea: Text, i: nat)
    requires Carries(items, p, chosen) && Fresh(items, i)
    ensures Carries(items, p.Pick(ea, items[i]), if i in chosen then chosen else chosen + [i])
    ensures p.Pick(ea, items[i]).ignored == if i in chosen then p.ignored else p.ignored + {ea}
  {
    DoneIsChosen(items, p, chosen, i);
    DonesNext(items, p.dones, chosen, i);
    PicksNext(items, chosen, p.chooser, i);
  }

  lemma {:induction false} AddNewMeaning(chosen: seq<nat>, ps: seq<nat>)
    ensures chosen <= AddNew(chosen, ps) && forall p :: p in AddNew(chosen, ps) <==> p in chosen || p in ps
    ensures NoneTwice(chosen) ==> NoneTwice(AddNew(chosen, ps))
    decreases |ps|
  {
    if ps != [] {
      var front, last := ps[..|ps| - 1], ps[|ps| - 1];
      AddNewMeaning(chosen, front);
      assert ps == front + [last];
    }
  }

  ghost predicate AllIn(ps: seq<nat>, chosen: seq<nat>) {
    forall p :: p in ps ==> p in chosen
  }

  lemma {:induction false} PickListCarries(items: seq<Item>, p: Picked, chosen: seq<nat>, ea: Text, list: seq<Item>,
      ps: seq<nat>)
    requires Carries(items, p, chosen) && Picks(items, ps, list) && AllFresh(items, ps)
    ensures Carries(items, PickList(p, ea, list), AddNew(chosen, ps))
    ensures PickList(p, ea, list).ignored == if AllIn(ps, chosen) then p.ignored else p.ignored + {ea}
    decreases |ps|
  {
    if ps != [] {
      var front, last := ps[..|ps| - 1], ps[|ps| - 1];
      assert ps == front + [last] && forall q :: q in front ==> q in ps;
      PickListCarries(items, p, chosen, ea, list[..|list| - 1], front);
      AddNewMeaning(chosen, front);
      PickCarries(items, PickList(p, ea, list[..|list| - 1]), AddNew(chosen, front), ea, last);
    }
  }

  /** Every group is the list of its address. */
  ghost predicate GroupsOf(d: MultiDict, items: seq<Item>, mirrored: bool, groups: seq<seq<nat>>) {
    Grouped(d, items, |items|, mirrored, groups)
  }

  lemma {:induction false} GroupIsFresh(d: MultiDict, items: seq<Item>, mirrored: bool, groups: seq<seq<nat>>, i: nat)
    requires GroupsOf(d, items, mirrored, groups) && i < |groups|
    ensures d.order[i] in d.lists && Group(items, |items|, mirrored, d.order[i], d.lists[d.order[i]], groups[i])
    ensures AllFresh(items, groups[i])
  {
    assert Group(items, |items|, mirrored, d.order[i], d.lists[d.order[i]], groups[i]);
  }

  /** The address has an item that was not chosen before its turn. */
  ghost predicate NewlyIgnored(d: MultiDict, chosen: seq<nat>, groups: seq<seq<nat>>, n: nat, e: Text)
    requires n <= |groups| == |d.order|
  {
    exists i: nat :: i < n && IgnoresAt(d, chosen, groups, i, e)
  }

  ghost predicate IgnoresAt(d: MultiDict, chosen: seq<nat>, groups: seq<seq<nat>>, i: nat, e: Text)
    requires i < |groups| == |d.order|
  {
    d.order[i] == e && |groups[i]| > 1 && !AllIn(groups[i], AddGroups(chosen, groups, i))
  }

  lemma {:induction false} PickDictCarries(items: seq<Item>, p: Picked, chosen: seq<nat>, d: MultiDict,
      mirrored: bool, groups: seq<seq<nat>>, n: nat)
    requires Carries(items, p, chosen) && GroupsOf(d, items, mirrored, groups) && n <= |groups|
    ensures Carries(items, PickDict(p, d, n), AddGroups(chosen, groups, n))
    ensures forall e :: e in PickDict(p, d, n).ignored <==> e in p.ignored || NewlyIgnored(d, chosen, groups, n, e)
    decreases n
  {
    if n > 0 {
      var m: nat := n - 1;
      PickDictCarries(items, p, chosen, d, mirrored, groups, m);
      GroupIsFresh(d, items, mirrored, groups, m);
      PickDictLast(p, d, m);
      var q := PickDict(p, d, m);
      PickListCarries(items, q, AddGroups(chosen, groups, m), d.order[m], d.lists[d.order[m]], groups[m]);
      IgnoredMore(p.ignored, q.ignored, PickDict(p, d, n).ignored, d, chosen, groups, m);
    }
  }

  lemma {:induction false} IgnoredMore(was: set<Text>, before: set<Text>, after: set<Text>, d: MultiDict,
      chosen: seq<nat>, groups: seq<seq<nat>>, n: nat)
    requires n < |groups| == |d.order|
    requires forall e :: e in before <==> e in was || NewlyIgnored(d, chosen, groups, n, e)
    requires after == if |groups[n]| > 1 && !AllIn(groups[n], AddGroups(chosen, groups, n)) then before + {d.order[n]}
      else before
    ensures forall e :: e in after <==> e in was || NewlyIgnored(d, chosen, groups, n + 1, e)
  {
    forall e ensures e in after <==> e in was || NewlyIgnored(d, chosen, groups, n + 1, e) {
      IgnoredNext(d, chosen, groups, n, e);
    }
  }

  lemma {:induction false} IgnoredNext(d: MultiDict, chosen: seq<nat>, groups: seq<seq<nat>>, n: nat, e: Text)
    requires n < |groups| == |d.order|
    ensures NewlyIgnored(d, chosen, groups, n + 1, e) <==>
      NewlyIgnored(d, chosen, groups, n, e) || IgnoresAt(d, chosen, groups, n, e)
  {
    if NewlyIgnored(d, chosen, groups, n, e) {
      var i: nat :| i < n && IgnoresAt(d, chosen, groups, i, e);
      assert i < n + 1;
    }
  }

  // ---- What has been added after n groups ----

  ghost predicate InGroup(groups: seq<seq<nat>>, n: nat, p: nat)
    requires n <= |groups|
  {
    exists i: nat :: i < n && |groups[i]| > 1 && p in groups[i]
  }

  lemma {:induction false} InGroupNext(groups: seq<seq<nat>>, n: nat, p: nat)
    requires n < |groups|
    ensures InGroup(groups, n + 1, p) <==> InGroup(groups, n, p) || (|groups[n]| > 1 && p in groups[n])
  {
    if InGroup(groups, n, p) {
      var i: nat :| i < n && |groups[i]| > 1 && p in groups[i];
      assert i < n + 1;
    }
  }

  lemma {:induction false} AddGroupsMeaning(chosen: seq<nat>, groups: seq<seq<nat>>, n: nat)
    requires n <= |groups|
    ensures chosen <= AddGroups(chosen, groups, n)
    ensures forall p :: p in AddGroups(chosen, groups, n) <==> p in chosen || InGroup(groups, n, p)
    ensures NoneTwice(chosen) ==> NoneTwice(AddGroups(chosen, groups, n))
    decreases n
  {
    if n > 0 {
      var m: nat := n - 1;
      AddGroupsMeaning(chosen, groups, m);
      AddNewMeaning(AddGroups(chosen, groups, m), groups[m]);
      forall p ensures InGroup(groups, n, p) <==> InGroup(groups, m, p) || (|groups[m]| > 1 && p in groups[m]) {
        InGroupNext(groups, m, p);
      }
    }
  }

  /** What is added from one ascending group is added in its order. */
  lemma {:induction false} AddNewAscends(chosen: seq<nat>, ps: seq<nat>) returns (more: seq<nat>)
    requires Ascending(ps)
    ensures AddNew(chosen, ps) == chosen + more && Ascending(more) && AllIn(more, ps)
    decreases |ps|
  {
    more := [];
    if ps != [] {
      var front, last := ps[..|ps| - 1], ps[|ps| - 1];
      assert ps == front + [last];
      more := AddNewAscends(chosen, front);
      if last !in AddNew(chosen, front) {
        AscendingNext(more, front, ps, last);
        more := more + [last];
      }
    }
  }

  lemma {:induction false} AscendingNext(more: seq<nat>, front: seq<nat>, ps: seq<nat>, last: nat)
    requires Ascending(more) && AllIn(more, front) && ps == front + [last] && Ascending(ps)
    ensures Ascending(more + [last])
  {
    forall i | 0 <= i < |more| ensures more[i] < last {
      assert more[i] in front;
      var k: nat :| k < |front| && front[k] == more[i];
      assert ps[k] < ps[|ps| - 1];
    }
  }

  ghost predicate Ordered(before: (nat, nat) -> bool, ps: seq<nat>) {
    forall i, j :: 0 <= i < j < |ps| ==> before(ps[i], ps[j])
  }

  /** The groups ascend, and the relation holds within each of them and from each to every later one. */
  ghost predicate OrderedGroups(before: (nat, nat) -> bool, groups: seq<seq<nat>>) {
    && (forall i: nat :: i < |groups| ==> Ascending(groups[i]))
    && (forall i: nat, p, q :: i < |groups| && p in groups[i] && q in groups[i] && p < q ==> before(p, q))
    && (forall i: nat, j: nat, p, q :: i < j < |groups| && p in groups[i] && q in groups[j] ==> before(p, q))
  }

  ghost predicate AllInGroups(groups: seq<seq<nat>>, n: nat, ps: seq<nat>)
    requires n <= |groups|
  {
    forall p :: p in ps ==> InGroup(groups, n, p)
  }

  /** The groups add their positions in order. */
  lemma {:induction false} AddGroupsOrder(before: (nat, nat) -> bool, chosen: seq<nat>, groups: seq<seq<nat>>, n: nat)
    returns (added: seq<nat>)
    requires OrderedGroups(before, groups) && n <= |groups|
    ensures AddGroups(chosen, groups, n) == chosen + added
    ensures Ordered(before, added) && AllInGroups(groups, n, added)
    decreases n
  {
    added := [];
    if n > 0 {
      var m: nat := n - 1;
      added := AddGroupsOrder(before, chosen, groups, m);
      var more := [];
      if |groups[m]| > 1 {
        more := AddNewAscends(AddGroups(chosen, groups, m), groups[m]);
      }
      AddedNext(before, groups, m, added, more);
      assert AddGroups(chosen, groups, n) == (chosen + added) + more == chosen + (added + more);
      added := added + more;
    }
  }

  lemma {:induction false} AddedNext(before: (nat, nat) -> bool, groups: seq<seq<nat>>, m: nat, added: seq<nat>,
      more: seq<nat>)
    requires OrderedGroups(before, groups) && m < |groups| && Ordered(before, added) && AllInGroups(groups, m, added)
    requires Ascending(more) && AllIn(more, groups[m]) && (more == [] || |groups[m]| > 1)
    ensures Ordered(before, added + more) && AllInGroups(groups, m + 1, added + more)
  {
    var all := added + more;
    forall p | p in all ensures InGroup(groups, m + 1, p) {
      InGroupNext(groups, m, p);
    }
    forall i, j | 0 <= i < j < |all| ensures before(all[i], all[j]) {
      if |added| <= i {
        assert more[i - |added|] in more && more[j - |added|] in more;
      } else if |added| <= j {
        assert added[i] in added && more[j - |added|] in more;
        var k: nat :| k < m && |groups[k]| > 1 && added[i] in groups[k];
      }
    }
  }

  ghost function BeforeOn(items: seq<Item>, mirrored: bool): (nat, nat) -> bool {
    (p: nat, q: nat) => Before(items, p, q, mirrored)
  }

  lemma {:induction false} WithinGroup(d: MultiDict, items: seq<Item>, mirrored: bool, groups: seq<seq<nat>>, i: nat,
      p: nat, q: nat)
    requires GroupsOf(d, items, mirrored, groups) && i < |groups| && p in groups[i] && q in groups[i] && p < q
    ensures Before(items, p, q, mirrored)
  {
    GroupIsFresh(d, items, mirrored, groups, i);
  }

  lemma {:induction false} AcrossGroups(d: MultiDict, items: seq<Item>, mirrored: bool, groups: seq<seq<nat>>, i: nat,
      j: nat, p: nat, q: nat)
    requires GroupsOf(d, items, mirrored, groups) && i < j < |groups| && p in groups[i] && q in groups[j]
    ensures Before(items, p, q, mirrored)
  {
    GroupIsFresh(d, items, mirrored, groups, i);
    GroupIsFresh(d, items, mirrored, groups, j);
    var r := groups[i][0];
    assert r in groups[i] && groups[i][0] < groups[j][0];
    assert EnteredOn(items, r, d.order[i], mirrored);
    forall s: nat | EnteredOn(items, s, d.order[j], mirrored) ensures r < s {
      assert s in groups[j];
      var k: nat :| k < |groups[j]| && groups[j][k] == s;
      assert k > 0 ==> groups[j][0] < groups[j][k];
    }
    assert EntersAfter(items, r, d.order[j], mirrored);
  }

  lemma {:induction false} GroupsInOrder(d: MultiDict, items: seq<Item>, mirrored: bool, groups: seq<seq<nat>>)
    requires GroupsOf(d, items, mirrored, groups)
    ensures OrderedGroups(BeforeOn(items, mirrored), groups)
  {
    forall i: nat | i < |groups| ensures Ascending(groups[i]) {
      GroupIsFresh(d, items, mirrored, groups, i);
    }
    forall i: nat, p, q | i < |groups| && p in groups[i] && q in groups[i] && p < q
      ensures Before(items, p, q, mirrored)
    {
      WithinGroup(d, items, mirrored, groups, i, p, q);
    }
    forall i: nat, j: nat, p, q | i < j < |groups| && p in groups[i] && q in groups[j]
      ensures Before(items, p, q, mirrored)
    {
      AcrossGroups(d, items, mirrored, groups, i, j, p, q);
    }
  }

  // ---- Ties are the groups of at least two ----

  lemma {:induction false} GroupTied(d: MultiDict, items: seq<Item>, mirrored: bool, groups: seq<seq<nat>>, i: nat)
    requires GroupsOf(d, items, mirrored, groups) && i < |groups|
    ensures |groups[i]| > 1 <==> Tied(items, d.order[i], mirrored)
  {
    GroupIsFresh(d, items, mirrored, groups, i);
    var g, e := groups[i], d.order[i];
    if |g| > 1 {
      assert g[0] in g && g[1] in g && g[0] < g[1];
      assert EnteredOn(items, g[0], e, mirrored) && EnteredOn(items, g[1], e, mirrored);
    }
    if Tied(items, e, mirrored) {
      var p: nat, q: nat :| p < q && EnteredOn(items, p, e, mirrored) && EnteredOn(items, q, e, mirrored);
      assert p in g && q in g;
      TwoLong(g, p, q);
    }
  }

  lemma {:induction false} TwoLong(g: seq<nat>, p: nat, q: nat)
    requires p in g && q in g && p != q
    ensures |g| > 1
  {
    var i: nat :| i < |g| && g[i] == p;
    var j: nat :| j < |g| && g[j] == q;
    assert i != j;
  }

  /** The group of an item that entered. */
  lemma {:induction false} GroupAt(d: MultiDict, items: seq<Item>, mirrored: bool, groups: seq<seq<nat>>, p: nat)
    returns (i: nat)
    requires GroupsOf(d, items, mirrored, groups) && p < |items| && Entered(items, p, mirrored)
    ensures i < |groups| && p in groups[i] && d.order[i] == Side(items[p], mirrored)
  {
    var e := Side(items[p], mirrored);
    assert e in d.lists && e in d.order;
    i :| i < |d.order| && d.order[i] == e;
    GroupIsFresh(d, items, mirrored, groups, i);
    assert EnteredOn(items, p, e, mirrored);
  }

  /** The items of the groups of at least two are those that tie. */
  lemma {:induction false} InGroupTied(d: MultiDict, items: seq<Item>, mirrored: bool, groups: seq<seq<nat>>, p: nat)
    requires GroupsOf(d, items, mirrored, groups)
    ensures InGroup(groups, |groups|, p) <==> TiedAt(items, p, mirrored)
  {
    if InGroup(groups, |groups|, p) {
      var i: nat :| i < |groups| && |groups[i]| > 1 && p in groups[i];
      GroupIsFresh(d, items, mirrored, groups, i);
      GroupTied(d, items, mirrored, groups, i);
      assert EnteredOn(items, p, d.order[i], mirrored);
    }
    if TiedAt(items, p, mirrored) {
      var i := GroupAt(d, items, mirrored, groups, p);
      GroupTied(d, items, mirrored, groups, i);
      assert i < |groups|;
    }
  }

  // ---- The two rounds ----

  ghost predicate BothGrouped(items: seq<Item>, mains: seq<seq<nat>>, diffs: seq<seq<nat>>) {
    GroupsOf(Visited(items).multiMain, items, false, mains) && GroupsOf(Visited(items).multiDiff, items, true, diffs)
  }

  lemma {:induction false} GroupsExist(items: seq<Item>) returns (mains: seq<seq<nat>>, diffs: seq<seq<nat>>)
    ensures BothGrouped(items, mains, diffs)
  {
    assert items[..|items|] == items;
    mains := VisitedGroups(items, |items|, false);
    diffs := VisitedGroups(items, |items|, true);
  }

  ghost function MainChosen(mains: seq<seq<nat>>): seq<nat> {
    AddGroups([], mains, |mains|)
  }

  ghost function AllChosen(mains: seq<seq<nat>>, diffs: seq<seq<nat>>): seq<nat> {
    AddGroups(MainChosen(mains), diffs, |diffs|)
  }

  lemma {:induction false} RoundsCarry(items: seq<Item>, mains: seq<seq<nat>>, diffs: seq<seq<nat>>)
    requires BothGrouped(items, mains, diffs)
    ensures Picks(items, AllChosen(mains, diffs), FinalOf(items).multimatch)
    ensures forall e :: e in FinalOf(items).ignoreMain <==>
      NewlyIgnored(Visited(items).multiMain, [], mains, |mains|, e)
    ensures forall e :: e in FinalOf(items).ignoreDiff <==>
      NewlyIgnored(Visited(items).multiDiff, MainChosen(mains), diffs, |diffs|, e)
  {
    VisitedDicts(items);
    var m := Visited(items);
    var p := Picked({}, [], {});
    assert forall k :: !PairAt(items, [], k);
    PickDictCarries(items, p, [], m.multiMain, false, mains, |mains|);
    var q := Picked(MainPick(m).dones, MainPick(m).chooser, {});
    assert Carries(items, q, MainChosen(mains));
    PickDictCarries(items, q, MainChosen(mains), m.multiDiff, true, diffs, |diffs|);
  }

  lemma {:induction false} MainChosenMeaning(items: seq<Item>, mains: seq<seq<nat>>)
    requires GroupsOf(Visited(items).multiMain, items, false, mains)
    ensures forall p :: p in MainChosen(mains) <==> TiedAt(items, p, false)
    ensures Ordered(BeforeOn(items, false), MainChosen(mains)) && NoneTwice(MainChosen(mains))
  {
    AddGroupsMeaning([], mains, |mains|);
    GroupsInOrder(Visited(items).multiMain, items, false, mains);
    var added := AddGroupsOrder(BeforeOn(items, false), [], mains, |mains|);
    assert [] + added == added;
    forall p: nat ensures p in MainChosen(mains) <==> TiedAt(items, p, false) {
      InGroupTied(Visited(items).multiMain, items, false, mains, p);
    }
  }

  lemma {:induction false} AllChosenMeaning(items: seq<Item>, mains: seq<seq<nat>>, diffs: seq<seq<nat>>)
    requires BothGrouped(items, mains, diffs)
    ensures MainChosen(mains) <= AllChosen(mains, diffs) && NoneTwice(AllChosen(mains, diffs))
    ensures forall p :: p in AllChosen(mains, diffs) <==> Unresolved(items, p)
    ensures Ordered(BeforeOn(items, true), AllChosen(mains, diffs)[|MainChosen(mains)|..])
  {
    MainChosenMeaning(items, mains);
    AddGroupsMeaning(MainChosen(mains), diffs, |diffs|);
    GroupsInOrder(Visited(items).multiDiff, items, true, diffs);
    var added := AddGroupsOrder(BeforeOn(items, true), MainChosen(mains), diffs, |diffs|);
    assert AllChosen(mains, diffs)[|MainChosen(mains)|..] == added;
    forall p: nat ensures p in AllChosen(mains, diffs) <==> Unresolved(items, p) {
      InGroupTied(Visited(items).multiDiff, items, true, diffs, p);
    }
  }

  lemma {:induction false} NotInFront(first: seq<nat>, all: seq<nat>, i: nat)
    requires first <= all && NoneTwice(all) && |first| <= i < |all|
    ensures all[i] !in first
  {
    forall k | 0 <= k < |first| ensures first[k] != all[i] {
      assert all[k] != all[i];
    }
  }

  lemma {:induction false} ListedInOrder(items: seq<Item>, first: seq<nat>, all: seq<nat>, i: nat, j: nat)
    requires first <= all && NoneTwice(all) && i < j < |all|
    requires forall p :: p in first <==> TiedAt(items, p, false)
    requires Ordered(BeforeOn(items, false), first) && Ordered(BeforeOn(items, true), all[|first|..])
    ensures ListedBefore(items, all[i], all[j])
  {
    if j < |first| {
      assert first[i] in first && first[j] in first;
    } else if i < |first| {
      assert first[i] in first;
      NotInFront(first, all, j);
    } else {
      NotInFront(first, all, i);
      NotInFront(first, all, j);
      var rest := all[|first|..];
      assert rest[i - |first|] == all[i] && rest[j - |first|] == all[j];
    }
  }

  /** The multimatch list holds every item that ties for an address, once, those that tie for an ea1 first, address by
      address in the order in which the addresses came. */
  lemma {:induction false} MultimatchExactly(items: seq<Item>) returns (ps: seq<nat>)
    ensures Picks(items, ps, FinalOf(items).multimatch) && InMultimatchOrder(items, ps)
  {
    var mains, diffs := GroupsExist(items);
    RoundsCarry(items, mains, diffs);
    MainChosenMeaning(items, mains);
    AllChosenMeaning(items, mains, diffs);
    ps := AllChosen(mains, diffs);
    forall i, j | 0 <= i < j < |ps| ensures ps[i] != ps[j] && ListedBefore(items, ps[i], ps[j]) {
      ListedInOrder(items, MainChosen(mains), ps, i, j);
    }
  }

  // ---- The ignored addresses ----

  lemma {:induction false} OneGroup(d: MultiDict, items: seq<Item>, mirrored: bool, groups: seq<seq<nat>>, i: nat,
      j: nat, p: nat)
    requires GroupsOf(d, items, mirrored, groups) && i < |groups| && j < |groups| && p in groups[i] && p in groups[j]
    ensures i == j
  {
    GroupIsFresh(d, items, mirrored, groups, i);
    GroupIsFresh(d, items, mirrored, groups, j);
    assert EnteredOn(items, p, d.order[i], mirrored) && EnteredOn(items, p, d.order[j], mirrored);
  }

  lemma {:induction false} NotEarlier(d: MultiDict, items: seq<Item>, mirrored: bool, groups: seq<seq<nat>>, i: nat,
      p: nat)
    requires GroupsOf(d, items, mirrored, groups) && i < |groups| && p in groups[i]
    ensures !InGroup(groups, i, p)
  {
    forall k: nat | k < |groups| && p in groups[k] ensures k == i {
      OneGroup(d, items, mirrored, groups, k, i, p);
    }
  }

  /** Nothing of an address on the ea1 side is chosen before its turn. */
  lemma {:induction false} MainNotBefore(items: seq<Item>, mains: seq<seq<nat>>, i: nat)
    requires GroupsOf(Visited(items).multiMain, items, false, mains) && i < |mains|
    ensures !AllIn(mains[i], AddGroups([], mains, i))
  {
    var d := Visited(items).multiMain;
    AddGroupsMeaning([], mains, i);
    GroupIsFresh(d, items, false, mains, i);
    var p := mains[i][0];
    assert p in mains[i];
    NotEarlier(d, items, false, mains, i, p);
  }

  lemma {:induction false} IgnoredMainExactly(items: seq<Item>, e: Text)
    ensures e in FinalOf(items).ignoreMain <==> Blocked(items, e, false)
  {
    var mains, diffs := GroupsExist(items);
    RoundsCarry(items, mains, diffs);
    var d := Visited(items).multiMain;
    if e in FinalOf(items).ignoreMain {
      var i: nat :| i < |mains| && IgnoresAt(d, [], mains, i, e);
      GroupTied(d, items, false, mains, i);
    }
    if Tied(items, e, false) {
      var p: nat, q: nat :| p < q && EnteredOn(items, p, e, false) && EnteredOn(items, q, e, false);
      var i := GroupAt(d, items, false, mains, p);
      GroupTied(d, items, false, mains, i);
      MainNotBefore(items, mains, i);
      assert IgnoresAt(d, [], mains, i, e);
    }
  }

  /** On the ea2 side an item is chosen before its turn exactly when it ties for its ea1. */
  lemma {:induction false} DiffBefore(items: seq<Item>, mains: seq<seq<nat>>, diffs: seq<seq<nat>>, i: nat, p: nat)
    requires BothGrouped(items, mains, diffs) && i < |diffs| && p in diffs[i]
    ensures p in AddGroups(MainChosen(mains), diffs, i) <==> TiedAt(items, p, false)
  {
    var d := Visited(items).multiDiff;
    MainChosenMeaning(items, mains);
    AddGroupsMeaning(MainChosen(mains), diffs, i);
    GroupIsFresh(d, items, true, diffs, i);
    NotEarlier(d, items, true, diffs, i, p);
  }

  lemma {:induction false} DiffIgnores(items: seq<Item>, mains: seq<seq<nat>>, diffs: seq<seq<nat>>, i: nat, e: Text)
    requires BothGrouped(items, mains, diffs) && i < |diffs| && Visited(items).multiDiff.order[i] == e
    ensures IgnoresAt(Visited(items).multiDiff, MainChosen(mains), diffs, i, e) <==> Blocked(items, e, true)
  {
    var d := Visited(items).multiDiff;
    GroupTied(d, items, true, diffs, i);
    GroupIsFresh(d, items, true, diffs, i);
    forall p | p in diffs[i] ensures p in AddGroups(MainChosen(mains), diffs, i) <==> TiedAt(items, p, false) {
      DiffBefore(items, mains, diffs, i, p);
    }
  }

  lemma {:induction false} IgnoredDiffExactly(items: seq<Item>, e: Text)
    ensures e in FinalOf(items).ignoreDiff <==> Blocked(items, e, true)
  {
    var mains, diffs := GroupsExist(items);
    RoundsCarry(items, mains, diffs);
    var d := Visited(items).multiDiff;
    if e in FinalOf(items).ignoreDiff {
      var i: nat :| i < |diffs| && IgnoresAt(d, MainChosen(mains), diffs, i, e);
      DiffIgnores(items, mains, diffs, i, e);
    }
    if Blocked(items, e, true) {
      var p: nat :| EnteredOn(items, p, e, true) && !TiedAt(items, p, false);
      var i := GroupAt(d, items, true, diffs, p);
      DiffIgnores(items, mains, diffs, i, e);
    }
  }

  /** An address is ignored exactly when items tie for it, on the ea2 side only if they do not all tie for their own ea1
      as well. */
  lemma {:induction false} IgnoredExactly(items: seq<Item>, e: Text, mirrored: bool)
    ensures e in (if mirrored then FinalOf(items).ignoreDiff else FinalOf(items).ignoreMain) <==>
      Blocked(items, e, mirrored)
  {
    if mirrored {
      IgnoredDiffExactly(items, e);
    } else {
      IgnoredMainExactly(items, e);
    }
  }

  lemma {:induction false} MainTest(main: map<Text, real>, items: seq<Item>, x: Item)
    requires MainRecorded(main, items, |items|)
    ensures x.ea1 in main <==> exists p: nat :: FreshOn(items, p, x.ea1)
    ensures x.ea1 in main ==> (TopOfMain(items, x) <==> x.ratio >= main[x.ea1])
  {
    if x.ea1 in main {
      assert MainAttained(items, |items|, x.ea1, main[x.ea1]);
      var p: nat :| p < |items| && FreshOn(items, p, x.ea1) && items[p].ratio == main[x.ea1];
    }
  }

  lemma {:induction false} DiffTest(diff: map<Text, real>, items: seq<Item>, x: Item)
    requires DiffRecorded(diff, items, |items|)
    ensures x.ea2 in diff <==> exists p: nat :: ReachesOn(items, p, x.ea2)
    ensures x.ea2 in diff ==> (TopOfDiff(items, x) <==> x.ratio >= diff[x.ea2])
  {
    if x.ea2 in diff {
      assert DiffAttained(items, |items|, x.ea2, diff[x.ea2]);
      var p: nat :| p < |items| && ReachesOn(items, p, x.ea2) && items[p].ratio == diff[x.ea2];
    }
  }

  /** What the third pass decides by, said of the items. */
  lemma {:induction false} TestsExactly(items: seq<Item>, x: Item)
    ensures var f := FinalOf(items);
      && (x.ea1 in f.ignoreMain <==> Blocked(items, x.ea1, false))
      && (x.ea2 in f.ignoreDiff <==> Blocked(items, x.ea2, true))
      && (x.ea1 in f.maxMain <==> exists p: nat :: FreshOn(items, p, x.ea1))
      && (x.ea1 in f.maxMain ==> (TopOfMain(items, x) <==> x.ratio >= f.maxMain[x.ea1]))
      && (x.ea2 in f.maxDiff <==> exists p: nat :: ReachesOn(items, p, x.ea2))
      && (x.ea2 in f.maxDiff ==> (TopOfDiff(items, x) <==> x.ratio >= f.maxDiff[x.ea2]))
  {
    FinalRecords(items);
    IgnoredMainExactly(items, x.ea1);
    IgnoredDiffExactly(items, x.ea2);
    MainTest(FinalOf(items).maxMain, items, x);
    DiffTest(FinalOf(items).maxDiff, items, x);
  }

  /** An item is taken exactly when it is left for its own list. */
  lemma {:induction false} TakenExactly(items: seq<Item>, x: Item)
    ensures FinalOf(items).Check(x) == Take <==> ToShow(items, x)
  {
    TestsExactly(items, x);
  }

  /** Nothing recorded a ratio for the ea1 of the item, or for its ea2 while it is best on its ea1. */
  ghost predicate Misses(items: seq<Item>, x: Item) {
    && !Blocked(items, x.ea1, false) && !Blocked(items, x.ea2, true)
    && ((forall p: nat :: !FreshOn(items, p, x.ea1)) ||
      (TopOfMain(items, x) && forall p: nat :: !ReachesOn(items, p, x.ea2)))
  }

  /** The lookup misses exactly for an item that is not ignored and whose ea1 no first item of a pair has, or that is
      best on its ea1 while every first item of a pair with its ea2 was rejected on its own ea1. */
  lemma {:induction false} MissExactly(items: seq<Item>, x: Item)
    ensures FinalOf(items).Check(x).Miss? <==> Misses(items, x)
  {
    TestsExactly(items, x);
  }

  // ---- What the ties and the other items have to do with each other ----

  /** The first twin of an item that is best on both addresses entered both their lists. */
  lemma {:induction false} TwinEntered(items: seq<Item>, i: nat) returns (p: nat)
    requires TwinsOrdered(items) && i < |items| && TopOfMain(items, items[i]) && TopOfDiff(items, items[i])
    ensures p < |items| && Tops(items, p) && PairOf(items[p]) == PairOf(items[i])
    ensures items[p].ea1 == items[i].ea1 && items[p].ea2 == items[i].ea2 && items[p].ratio == items[i].ratio
  {
    p := FirstTwin(items, i);
    assert p < i ==> TwinOk(items[p], items[i]);
    assert FreshOn(items, p, items[i].ea1);
    TopReaches(items, p);
    forall q: nat ensures !Outdoes(items, q, p) {
      assert Outdoes(items, q, p) ==> ReachesOn(items, q, items[p].ea2);
    }
  }

  lemma {:induction false} TwoTie(items: seq<Item>, p: nat, q: nat, mirrored: bool)
    requires p < |items| && q < |items| && p != q && Entered(items, p, mirrored) && Entered(items, q, mirrored)
    requires Side(items[p], mirrored) == Side(items[q], mirrored)
    ensures TiedAt(items, p, mirrored) && TiedAt(items, q, mirrored)
  {
    var e := Side(items[p], mirrored);
    assert EnteredOn(items, p, e, mirrored) && EnteredOn(items, q, e, mirrored);
  }

  /** An item that ties blocks one of its addresses. */
  lemma {:induction false} TiesBlock(items: seq<Item>, p: nat)
    requires p < |items| && Unresolved(items, p)
    ensures Blocked(items, items[p].ea1, false) || Blocked(items, items[p].ea2, true)
  {
    if !TiedAt(items, p, false) {
      assert EnteredOn(items, p, items[p].ea2, true);
    }
  }

  /** Two items with different pairs that are left for their own lists share no address. */
  lemma {:induction false} OneToOne(items: seq<Item>, i: nat, j: nat)
    requires TwinsOrdered(items) && i < |items| && j < |items| && PairOf(items[i]) != PairOf(items[j])
    requires ToShow(items, items[i]) && ToShow(items, items[j])
    ensures items[i].ea1 != items[j].ea1 && items[i].ea2 != items[j].ea2
  {
    var p := TwinEntered(items, i);
    var q := TwinEntered(items, j);
    if items[i].ea1 == items[j].ea1 {
      TwoTie(items, p, q, false);
      TiesBlock(items, p);
    } else if items[i].ea2 == items[j].ea2 {
      TwoTie(items, p, q, true);
      TiesBlock(items, p);
    }
  }
}
