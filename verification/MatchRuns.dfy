/** Whole runs of AddMatch and Cleanup: what the lists and the two dictionaries hold after any number of calls. */
module MatchRuns {
  import opened Options
  import opened Items
  import opened CleanupSieve
  import opened Matching

  datatype Call = Add(name1: Text, name2: Text, ratio: real, item: Item, chooser: Option<Chooser>) | Cleanup

  function Called(s: Matches, call: Call): (t: Matches)
    requires |s.lists| == 3
    ensures |t.lists| == 3
  {
    match call
    case Add(n1, n2, ratio, it, c) => s.Added(n1, n2, ratio, it, c)
    case Cleanup => s.CleanedUp()
  }

  function AfterCalls(s: Matches, calls: seq<Call>): (t: Matches)
    requires |s.lists| == 3
    ensures |t.lists| == 3
  {
    if calls == [] then s else Called(AfterCalls(s, calls[..|calls| - 1]), calls[|calls| - 1])
  }

  /** The call adds a pair that nothing better blocks. */
  predicate Accepts(s: Matches, call: Call)
    requires |s.lists| == 3
  {
    call.Add? && s.Outcome(call.name1, call.name2, call.ratio, call.item, call.chooser) in {Duplicate, Appended}
  }

  /** The calls of a run that are accepted, in order. */
  function AcceptedOf(s: Matches, calls: seq<Call>): seq<Call>
    requires |s.lists| == 3
  {
    if calls == [] then []
    else
      var front, last := calls[..|calls| - 1], calls[|calls| - 1];
      if Accepts(AfterCalls(s, front), last) then AcceptedOf(s, front) + [last] else AcceptedOf(s, front)
  }

  lemma {:induction false} AcceptedAreAdds(s: Matches, calls: seq<Call>)
    requires |s.lists| == 3
    ensures forall p ::
      0 <= p < |AcceptedOf(s, calls)| ==> AcceptedOf(s, calls)[p].Add? && AcceptedOf(s, calls)[p] in calls
    decreases |calls|
  {
    if calls != [] {
      AcceptedAreAdds(s, calls[..|calls| - 1]);
    }
  }

  // ---- The dictionaries ----

  function SideName(call: Call, mirrored: bool): Text
    requires call.Add?
  {
    if mirrored then call.name2 else call.name1
  }

  /** What an accepted call records under its name of one side. */
  function SideEntry(call: Call, mirrored: bool): Entry
    requires call.Add?
  {
    Entry(SideName(call, !mirrored), if call.name1 == call.name2 then 1.0 else call.ratio)
  }

  function DictOn(s: Matches, mirrored: bool): NameDict {
    if mirrored then s.secondary else s.primary
  }

  ghost predicate Names(call: Call, mirrored: bool, k: Text) {
    call.Add? && SideName(call, mirrored) == k
  }

  /** The last of the calls that bears the name k on one side stands at p. */
  ghost predicate LastNaming(calls: seq<Call>, mirrored: bool, k: Text, p: nat) {
    p < |calls| && Names(calls[p], mirrored, k) && forall q :: p < q < |calls| ==> !Names(calls[q], mirrored, k)
  }

  ghost predicate NoneNames(calls: seq<Call>, mirrored: bool, k: Text) {
    forall q :: 0 <= q < |calls| ==> !Names(calls[q], mirrored, k)
  }

  /** The name k has the entry of the last of the calls that bears it. */
  ghost predicate HasLastEntry(d: NameDict, calls: seq<Call>, mirrored: bool, k: Text) {
    exists p: nat ::
      LastNaming(calls, mirrored, k, p) && k in d.entries && d.entries[k] == SideEntry(calls[p], mirrored)
  }

  ghost predicate SameEntry(d: NameDict, e: NameDict, k: Text) {
    (k in d.entries <==> k in e.entries) && (k in d.entries ==> d.entries[k] == e.entries[k])
  }

  /** What k stands for after the calls were recorded one after the other in the dictionary `was`. */
  ghost predicate Recorded(d: NameDict, was: NameDict, calls: seq<Call>, mirrored: bool, k: Text) {
    if NoneNames(calls, mirrored, k) then SameEntry(d, was, k) else HasLastEntry(d, calls, mirrored, k)
  }

  lemma {:induction false} AddRecords(s: Matches, call: Call, mirrored: bool)
    requires |s.lists| == 3 && call.Add?
    ensures DictOn(Called(s, call), mirrored) ==
      if Accepts(s, call) then DictOn(s, mirrored).Put(SideName(call, mirrored), SideEntry(call, mirrored))
        else DictOn(s, mirrored)
  {
  }

  lemma {:induction false} RecordsOneMore(d: NameDict, was: NameDict, calls: seq<Call>, call: Call, mirrored: bool,
      k: Text)
    requires call.Add? && Recorded(d, was, calls, mirrored, k)
    ensures Recorded(d.Put(SideName(call, mirrored), SideEntry(call, mirrored)), was, calls + [call], mirrored, k)
  {
    var next, e := calls + [call], d.Put(SideName(call, mirrored), SideEntry(call, mirrored));
    if Names(call, mirrored, k) {
      assert LastNaming(next, mirrored, k, |calls|);
      assert !NoneNames(next, mirrored, k);
    } else if NoneNames(calls, mirrored, k) {
      assert NoneNames(next, mirrored, k);
    } else {
      var p: nat :| LastNaming(calls, mirrored, k, p) && k in d.entries &&
        d.entries[k] == SideEntry(calls[p], mirrored);
      assert LastNaming(next, mirrored, k, p) && Names(next[p], mirrored, k);
    }
  }

  lemma {:induction false} AddsRecord(s: Matches, calls: seq<Call>, mirrored: bool, k: Text)
    requires |s.lists| == 3 && forall p :: 0 <= p < |calls| ==> calls[p].Add?
    ensures Recorded(DictOn(AfterCalls(s, calls), mirrored), DictOn(s, mirrored), AcceptedOf(s, calls), mirrored, k)
    decreases |calls|
  {
    if calls != [] {
      var front, last := calls[..|calls| - 1], calls[|calls| - 1];
      AddsRecord(s, front, mirrored, k);
      AddRecords(AfterCalls(s, front), last, mirrored);
      if Accepts(AfterCalls(s, front), last) {
        RecordsOneMore(DictOn(AfterCalls(s, front), mirrored), DictOn(s, mirrored), AcceptedOf(s, front), last,
          mirrored, k);
      }
    }
  }

  /** The number of calls up to the last cleanup, that one included. */
  function Settled(calls: seq<Call>): (n: nat)
    ensures n <= |calls| && (n == 0 || calls[n - 1].Cleanup?)
    ensures forall p :: n <= p < |calls| ==> calls[p].Add?
  {
    if calls == [] || calls[|calls| - 1].Cleanup? then |calls| else Settled(calls[..|calls| - 1])
  }

  lemma {:induction false} CallsJoin(s: Matches, a: seq<Call>, b: seq<Call>)
    requires |s.lists| == 3
    ensures AfterCalls(s, a + b) == AfterCalls(AfterCalls(s, a), b)
    decreases |b|
  {
    if b == [] {
      assert a + b == a;
    } else {
      CallsJoin(s, a, b[..|b| - 1]);
      assert (a + b)[..|a + b| - 1] == a + b[..|b| - 1];
    }
  }

  /** The state from which the additions after the last cleanup start. */
  function LastCleaned(s: Matches, calls: seq<Call>): (t: Matches)
    requires |s.lists| == 3
    ensures |t.lists| == 3
  {
    AfterCalls(s, calls[..Settled(calls)])
  }

  /** The additions since the last cleanup that were accepted. */
  function AcceptedSince(s: Matches, calls: seq<Call>): seq<Call>
    requires |s.lists| == 3
  {
    AcceptedOf(LastCleaned(s, calls), calls[Settled(calls)..])
  }

  /** What a name stands for after any number of calls: the entry of the last addition that bears it and was accepted
      since the last cleanup; without one, that of the last item kept by this cleanup; without any of both, nothing.
      When there was no cleanup yet, the entry it had at the start stays. */
  ghost predicate StandsFor(s: Matches, calls: seq<Call>, mirrored: bool, k: Text)
    requires |s.lists| == 3
  {
    var d, since := DictOn(AfterCalls(s, calls), mirrored), AcceptedSince(s, calls);
    if !NoneNames(since, mirrored, k) then HasLastEntry(d, since, mirrored, k)
    else if Settled(calls) == 0 then SameEntry(d, DictOn(s, mirrored), k)
    else
      var kept := Flat(LastCleaned(s, calls).lists);
      if Borne(kept, mirrored, k) then HasLast(d, kept, mirrored, k) else k !in d.entries
  }

  lemma {:induction false} SameHasLast(d: NameDict, e: NameDict, items: seq<Item>, mirrored: bool, k: Text)
    requires SameEntry(d, e, k) && HasLast(e, items, mirrored, k)
    ensures HasLast(d, items, mirrored, k)
  {
    var p: nat :| LastBearer(items, mirrored, k, p) && k in e.entries && e.entries[k] ==
      if mirrored then Entry(items[p].name1, items[p].ratio) else Entry(items[p].name2, items[p].ratio);
    assert LastBearer(items, mirrored, k, p);
  }

  lemma {:induction false} SplitsAtCleanup(s: Matches, calls: seq<Call>)
    requires |s.lists| == 3
    ensures AfterCalls(s, calls) == AfterCalls(LastCleaned(s, calls), calls[Settled(calls)..])
    ensures Settled(calls) == 0 ==> LastCleaned(s, calls) == s
  {
    var n := Settled(calls);
    assert calls == calls[..n] + calls[n..];
    CallsJoin(s, calls[..n], calls[n..]);
    assert n == 0 ==> calls[..n] == [];
  }

  lemma {:induction false} CleanedLast(s: Matches, calls: seq<Call>, mirrored: bool)
    requires |s.lists| == 3 && Settled(calls) > 0
    ensures HasNames(DictOn(LastCleaned(s, calls), mirrored), Flat(LastCleaned(s, calls).lists), mirrored)
  {
    var n := Settled(calls);
    var front := calls[..n];
    assert front[..n - 1] == calls[..n - 1] && front[n - 1].Cleanup?;
    CleanedDictionaries(AfterCalls(s, calls[..n - 1]));
  }

  lemma {:induction false} StaysKept(d: NameDict, e: NameDict, kept: seq<Item>, mirrored: bool, k: Text)
    requires SameEntry(d, e, k) && HasNames(e, kept, mirrored)
    ensures if Borne(kept, mirrored, k) then HasLast(d, kept, mirrored, k) else k !in d.entries
  {
    if Borne(kept, mirrored, k) {
      SameHasLast(d, e, kept, mirrored, k);
    }
  }

  /** After any run of additions and cleanups. */
  lemma {:induction false} RunDictionary(s: Matches, calls: seq<Call>, mirrored: bool, k: Text)
    requires |s.lists| == 3
    ensures StandsFor(s, calls, mirrored, k)
  {
    var was, since := LastCleaned(s, calls), AcceptedSince(s, calls);
    SplitsAtCleanup(s, calls);
    AddsRecord(was, calls[Settled(calls)..], mirrored, k);
    if NoneNames(since, mirrored, k) && Settled(calls) > 0 {
      CleanedLast(s, calls, mirrored);
      StaysKept(DictOn(AfterCalls(s, calls), mirrored), DictOn(was, mirrored), Flat(was.lists), mirrored, k);
    }
  }

  // ---- The lists ----

  /** The call offers the item to one of the lists. */
  ghost predicate Offers(call: Call, i: nat, x: Item) {
    call.Add? && call.item == x && call.chooser.Some? && call.chooser.value.Index() == i
  }

  ghost predicate Offered(calls: seq<Call>, i: nat, x: Item) {
    exists p :: 0 <= p < |calls| && Offers(calls[p], i, x)
  }

  lemma {:induction false} AddOffers(s: Matches, call: Call, i: nat, x: Item)
    requires |s.lists| == 3 && i < 3 && call.Add?
    ensures x in Called(s, call).lists[i] <==> x in s.lists[i] || (Accepts(s, call) && Offers(call, i, x))
  {
  }

  lemma {:induction false} OfferedOneMore(calls: seq<Call>, call: Call, i: nat, x: Item)
    ensures Offered(calls + [call], i, x) <==> Offered(calls, i, x) || Offers(call, i, x)
  {
    var next := calls + [call];
    if p :| 0 <= p < |calls| && Offers(calls[p], i, x) {
      assert Offers(next[p], i, x);
    }
    if Offers(call, i, x) {
      assert Offers(next[|calls|], i, x);
    }
  }

  lemma {:induction false} AddsList(s: Matches, calls: seq<Call>, i: nat, x: Item)
    requires |s.lists| == 3 && i < 3 && forall p :: 0 <= p < |calls| ==> calls[p].Add?
    ensures x in AfterCalls(s, calls).lists[i] <==> x in s.lists[i] || Offered(AcceptedOf(s, calls), i, x)
    decreases |calls|
  {
    if calls != [] {
      var front, last := calls[..|calls| - 1], calls[|calls| - 1];
      AddsList(s, front, i, x);
      AddOffers(AfterCalls(s, front), last, i, x);
      OfferedOneMore(AcceptedOf(s, front), last, i, x);
    }
  }

  /** After any run of additions and cleanups a list holds what the last cleanup kept in it, or what it held at the
      start, and what the accepted additions since then offered to it. */
  lemma {:induction false} RunList(s: Matches, calls: seq<Call>, i: nat, x: Item)
    requires |s.lists| == 3 && i < 3
    ensures x in AfterCalls(s, calls).lists[i] <==>
      x in LastCleaned(s, calls).lists[i] || Offered(AcceptedSince(s, calls), i, x)
  {
    SplitsAtCleanup(s, calls);
    AddsList(LastCleaned(s, calls), calls[Settled(calls)..], i, x);
  }

  // ---- Pairs of equal names ----

  /** A pair of the name n with another name, below ratio 1.0, or a pair of other names. */
  ghost predicate BelowEqual(call: Call, n: Text) {
    call.Add? && (call.name1 == n ==> call.name2 != n && call.ratio < 1.0)
  }

  lemma {:induction false} EqualNameBlocks(s: Matches, call: Call, n: Text)
    requires |s.lists| == 3 && n.Text? && n in s.primary.entries && s.primary.entries[n] == Entry(n, 1.0) &&
      BelowEqual(call, n)
    ensures call.name1 == n ==> !Accepts(s, call)
    ensures var d := Called(s, call).primary; n in d.entries && d.entries[n] == Entry(n, 1.0)
  {
  }

  /** Once the pair of a name with itself is recorded, no pair of that name below ratio 1.0 gets in any more, whatever
      else is added in between. */
  lemma {:induction false} EqualNamesBlock(s: Matches, calls: seq<Call>, n: Text)
    requires |s.lists| == 3 && n.Text? && n in s.primary.entries && s.primary.entries[n] == Entry(n, 1.0)
    requires forall q :: 0 <= q < |calls| ==> BelowEqual(calls[q], n)
    ensures n in AfterCalls(s, calls).primary.entries && AfterCalls(s, calls).primary.entries[n] == Entry(n, 1.0)
    ensures NoneNames(AcceptedOf(s, calls), false, n)
    decreases |calls|
  {
    if calls != [] {
      var front, last := calls[..|calls| - 1], calls[|calls| - 1];
      EqualNamesBlock(s, front, n);
      EqualNameBlocks(AfterCalls(s, front), last, n);
    }
  }

  // ---- No item twice ----

  /** Adding never puts an item twice into a list. */
  lemma {:induction false} AddedKeepsNoRepeats(s: Matches, n1: Text, n2: Text, ratio: real, it: Item,
      c: Option<Chooser>)
    requires |s.lists| == 3 && s.NoRepeats()
    ensures s.Added(n1, n2, ratio, it, c).NoRepeats()
  {
    var t := s.Added(n1, n2, ratio, it, c);
    forall i: nat, x | i < 3 ensures multiset(t.lists[i])[x] <= 1 {
      if t.lists[i] != s.lists[i] {
        assert it !in multiset(s.lists[i]);
      }
    }
  }

  lemma {:induction false} PartOfFlat(lists: seq<seq<Item>>, i: nat) returns (from: nat)
    requires i < |lists|
    ensures from + |lists[i]| <= |Flat(lists)|
    ensures forall p :: 0 <= p < |lists[i]| ==> Flat(lists)[from + p] == lists[i][p]
    decreases |lists|
  {
    var n := |lists| - 1;
    if i == n {
      from := |Flat(lists[..n])|;
    } else {
      from := PartOfFlat(lists[..n], i);
    }
  }

  lemma {:induction false} DistinctOnce(items: seq<Item>, x: Item)
    requires KeysDistinct(items)
    ensures multiset(items)[x] <= 1
  {
    if items != [] {
      var front, last := items[..|items| - 1], items[|items| - 1];
      DistinctOnce(front, x);
      assert items == front + [last];
      forall p | 0 <= p < |front| ensures front[p] != last {
        assert NameKey(items[p]) != NameKey(items[|items| - 1]);
      }
    }
  }

  /** A cleanup leaves different keys, so no item twice. */
  lemma {:induction false} CleanedNoRepeats(s: Matches)
    ensures s.CleanedUp().NoRepeats()
  {
    var kept := KeptLists(s.lists);
    CleanupKeysUnique(s.lists);
    forall i: nat, x | i < |kept| ensures multiset(kept[i])[x] <= 1 {
      var from := PartOfFlat(kept, i);
      forall p, q | 0 <= p < q < |kept[i]| ensures NameKey(kept[i][p]) != NameKey(kept[i][q]) {
        assert Flat(kept)[from + p] == kept[i][p] && Flat(kept)[from + q] == kept[i][q];
      }
      DistinctOnce(kept[i], x);
    }
  }

  /** No run of calls, cleanups included, ever puts an item twice into a list. */
  lemma {:induction false} RunNoRepeats(s: Matches, calls: seq<Call>)
    requires |s.lists| == 3 && s.NoRepeats()
    ensures AfterCalls(s, calls).NoRepeats()
    decreases |calls|
  {
    if calls != [] {
      var was, call := AfterCalls(s, calls[..|calls| - 1]), calls[|calls| - 1];
      RunNoRepeats(s, calls[..|calls| - 1]);
      match call
      case Add(n1, n2, ratio, it, c) => AddedKeepsNoRepeats(was, n1, n2, ratio, it, c);
      case Cleanup => CleanedNoRepeats(was);
    }
  }
}
