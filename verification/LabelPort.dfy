/**
 * Which proposed names a label port writes: one claim per target function in stored order, then rounds
 * that drop every application of a name that would stand on two functions, until nothing changes.
 */
module LabelPort {
  import opened Options

  datatype Action =
    | NotSelected | SkippedConflict | SkippedNotPortable | Confirmed | SkippedHops | SkippedRatio | SkippedExisting
    | Applied | SkippedDuplicateName

  datatype Row = Row(address: string, name: Option<string>, mangled: Option<string>)

  /** A proposal with the reference function it comes from and the index of the target row. */
  datatype Proposal = Proposal(reference: Row, target: nat, selected: bool, ratio: real, stripped: bool)

  /** The recorded history of a name on the reference side. */
  datatype Origin = Origin(name: string, hops: nat, cumulativeRatio: real)

  /** `portable` is the test for a real symbol; a negative `maxHops` means no limit. */
  datatype Rules = Rules(
    portable: string -> bool,
    origins: map<string, Origin>,
    maxHops: int,
    minCumulativeRatio: real,
    overwriteExisting: bool,
    overwriteStripped: bool)

  /** `name` and `mangled` are what an application writes. */
  datatype Decision = Decision(action: Action, name: string, mangled: string)

  // ---- The claim pass ----

  predicate Real(rules: Rules, name: Option<string>) {
    name.Some? && rules.portable(name.value)
  }

  predicate HasHistory(rules: Rules, reference: Row) {
    reference.address in rules.origins && reference.name == Some(rules.origins[reference.address].name)
  }

  function Hops(rules: Rules, reference: Row): nat {
    if HasHistory(rules, reference) then rules.origins[reference.address].hops + 1 else 1
  }

  function Confidence(rules: Rules, p: Proposal): real {
    (if HasHistory(rules, p.reference) then rules.origins[p.reference.address].cumulativeRatio else 1.0) * p.ratio
  }

  predicate MayOverwrite(rules: Rules, p: Proposal) {
    rules.overwriteExisting && (!p.stripped || rules.overwriteStripped)
  }

  /** An earlier selected proposal has the same target, whatever became of it. */
  predicate ClaimedBefore(proposals: seq<Proposal>, i: nat)
    requires i <= |proposals|
  {
    i < |proposals| && exists j :: 0 <= j < i && proposals[j].selected && proposals[j].target == proposals[i].target
  }

  /** The first selected proposal for its target, in stored order. */
  ghost predicate Claimant(proposals: seq<Proposal>, i: nat) {
    i < |proposals| && proposals[i].selected &&
    forall j: nat :: j < i && proposals[j].selected ==> proposals[j].target != proposals[i].target
  }

  // ---- What a proposal comes to ----

  ghost predicate Named(rules: Rules, name: Option<string>) {
    exists x: string :: name == Some(x) && rules.portable(x)
  }

  /** The recorded origin counts while the reference still has the name it recorded. */
  ghost function OriginOf(rules: Rules, reference: Row): Option<Origin> {
    if reference.address !in rules.origins then None
    else
      var o := rules.origins[reference.address];
      if reference.name == Some(o.name) then Some(o) else None
  }

  ghost predicate TooFar(rules: Rules, reference: Row) {
    0 <= rules.maxHops < match OriginOf(rules, reference) case Some(o) => o.hops + 1 case None => 1
  }

  ghost predicate TooWeak(rules: Rules, p: Proposal) {
    match OriginOf(rules, p.reference)
    case Some(o) => o.cumulativeRatio * p.ratio < rules.minCumulativeRatio
    case None => p.ratio < rules.minCumulativeRatio
  }

  /** The real name of the target row may not be overwritten. */
  ghost predicate Protected(rules: Rules, p: Proposal, row: Row) {
    Named(rules, row.name) && (rules.overwriteExisting ==> p.stripped && !rules.overwriteStripped)
  }

  /** When a proposal comes to each outcome of the claim pass. */
  ghost predicate Comes(rules: Rules, p: Proposal, row: Row, claimed: bool, a: Action) {
    var judged := p.selected && !claimed && Named(rules, p.reference.name);
    var open := judged && row.name != p.reference.name;
    match a
    case NotSelected => !p.selected
    case SkippedConflict => p.selected && claimed
    case SkippedNotPortable => p.selected && !claimed && !Named(rules, p.reference.name)
    case Confirmed => judged && row.name == p.reference.name
    case SkippedHops => open && TooFar(rules, p.reference)
    case SkippedRatio => open && !TooFar(rules, p.reference) && TooWeak(rules, p)
    case SkippedExisting =>
      open && !TooFar(rules, p.reference) && !TooWeak(rules, p) && Protected(rules, p, row)
    case Applied => open && !TooFar(rules, p.reference) && !TooWeak(rules, p) && !Protected(rules, p, row)
    case SkippedDuplicateName => false
  }

  /** A proposal comes to exactly one outcome. */
  lemma {:induction false} OneOutcome(rules: Rules, p: Proposal, row: Row, claimed: bool) returns (a: Action)
    ensures forall b :: Comes(rules, p, row, claimed, b) <==> b == a
  {
    a :=
      if !p.selected then NotSelected
      else if claimed then SkippedConflict
      else if !Named(rules, p.reference.name) then SkippedNotPortable
      else if row.name == p.reference.name then Confirmed
      else if TooFar(rules, p.reference) then SkippedHops
      else if TooWeak(rules, p) then SkippedRatio
      else if Protected(rules, p, row) then SkippedExisting
      else Applied;
    forall b ensures Comes(rules, p, row, claimed, b) <==> b == a {
      match b
      case NotSelected =>
      case SkippedConflict =>
      case SkippedNotPortable =>
      case Confirmed =>
      case SkippedHops =>
      case SkippedRatio =>
      case SkippedExisting =>
      case Applied =>
      case SkippedDuplicateName =>
    }
  }

  /** An application writes the reference's name, and its mangled name when that is real, its name otherwise. */
  ghost predicate WritesReference(rules: Rules, p: Proposal, d: Decision) {
    p.reference.name == Some(d.name) &&
    if Named(rules, p.reference.mangled) then p.reference.mangled == Some(d.mangled) else d.mangled == d.name
  }

  ghost predicate TargetsExist(rows: seq<Row>, proposals: seq<Proposal>) {
    forall i :: 0 <= i < |proposals| ==> proposals[i].target < |rows|
  }

  /** A selected proposal has exactly one claimant for its target, at or before it. */
  lemma {:induction false} ClaimantExists(proposals: seq<Proposal>, j: nat) returns (i: nat)
    requires j < |proposals| && proposals[j].selected
    ensures i <= j && Claimant(proposals, i) && proposals[i].target == proposals[j].target
    ensures forall k: nat :: Claimant(proposals, k) && proposals[k].target == proposals[j].target ==> k == i
  {
    if Claimant(proposals, j) {
      i := j;
    } else {
      var k: nat :| k < j && proposals[k].selected && proposals[k].target == proposals[j].target;
      i := ClaimantExists(proposals, k);
    }
  }

  /** The decisions of the claim pass, one by one. */
  ghost predicate Judged(rules: Rules, rows: seq<Row>, proposals: seq<Proposal>, decisions: seq<Decision>)
    requires TargetsExist(rows, proposals)
  {
    && |decisions| <= |proposals|
    && forall i: nat :: i < |decisions| ==>
      && Comes(rules, proposals[i], rows[proposals[i].target], ClaimedBefore(proposals, i), decisions[i].action)
      && (decisions[i].action == Applied ==> WritesReference(rules, proposals[i], decisions[i]))
  }

  /** Judge one proposal for a target that no earlier one claimed. */
  method JudgeProposal(rules: Rules, p: Proposal, row: Row) returns (d: Decision)
    requires p.selected
    ensures Comes(rules, p, row, false, d.action)
    ensures d.action == Applied ==> WritesReference(rules, p, d)
  {
    d := Decision(Applied, "", "");
    if !Real(rules, p.reference.name) {
      return Decision(SkippedNotPortable, "", "");
    }
    var hasRealName := Real(rules, row.name);
    if hasRealName && row.name == p.reference.name {
      return Decision(Confirmed, "", "");
    }
    if rules.maxHops >= 0 && Hops(rules, p.reference) > rules.maxHops {
      return Decision(SkippedHops, "", "");
    }
    if Confidence(rules, p) < rules.minCumulativeRatio {
      return Decision(SkippedRatio, "", "");
    }
    if hasRealName && !MayOverwrite(rules, p) {
      return Decision(SkippedExisting, "", "");
    }
    var name := p.reference.name.value;
    d := Decision(Applied, name, if Real(rules, p.reference.mangled) then p.reference.mangled.value else name);
  }

  method ClaimPass(rules: Rules, rows: seq<Row>, proposals: seq<Proposal>)
    returns (decisions: seq<Decision>, selected: nat)
    requires TargetsExist(rows, proposals)
    ensures |decisions| == |proposals| && Judged(rules, rows, proposals, decisions)
    ensures selected == SelectedCount(proposals, |proposals|)
  {
    decisions, selected := [], 0;
    var claimed := new bool[|rows|](_ => false);
    for i: nat := 0 to |proposals|
      invariant |decisions| == i && Judged(rules, rows, proposals, decisions) && selected == SelectedCount(proposals, i)
      invariant forall r: nat :: r < |rows| ==>
        (claimed[r] <==> exists j :: 0 <= j < i && proposals[j].selected && proposals[j].target == r)
    {
      var p := proposals[i];
      var d := Decision(NotSelected, "", "");
      assert claimed[p.target] == ClaimedBefore(proposals, i);
      if p.selected {
        selected := selected + 1;
        if claimed[p.target] {
          d := Decision(SkippedConflict, "", "");
        } else {
          claimed[p.target] := true;
          d := JudgeProposal(rules, p, rows[p.target]);
        }
      }
      decisions := decisions + [d];
    }
  }

  function SelectedCount(proposals: seq<Proposal>, n: nat): nat
    requires n <= |proposals|
  {
    if n == 0 then 0 else SelectedCount(proposals, n - 1) + if proposals[n - 1].selected then 1 else 0
  }

  // ---- What the applications make of the target ----

  /** Applications have real names, and no two have the same target row. */
  ghost predicate ApplicationsOk(rules: Rules, rows: seq<Row>, proposals: seq<Proposal>, decisions: seq<Decision>)
    requires TargetsExist(rows, proposals)
  {
    && |decisions| == |proposals|
    && (forall i :: 0 <= i < |decisions| && decisions[i].action == Applied ==>
      rules.portable(decisions[i].name) && rules.portable(decisions[i].mangled))
    && (forall i, j :: 0 <= i < j < |decisions| && decisions[i].action == Applied && decisions[j].action == Applied ==>
      proposals[i].target != proposals[j].target)
  }

  /** The claim pass applies at most one name per target row, and only real ones. */
  lemma {:induction false} ClaimsAreOk(rules: Rules, rows: seq<Row>, proposals: seq<Proposal>, decisions: seq<Decision>)
    requires TargetsExist(rows, proposals) && |decisions| == |proposals| && Judged(rules, rows, proposals, decisions)
    ensures ApplicationsOk(rules, rows, proposals, decisions)
  {
    forall i: nat, j: nat | i < j < |decisions| && decisions[i].action == Applied && decisions[j].action == Applied
      ensures proposals[i].target != proposals[j].target
    {
      assert !ClaimedBefore(proposals, j);
    }
  }

  /** The name column, or with `mangledColumn` the mangled one, before any application. */
  function OldColumn(rows: seq<Row>, mangledColumn: bool): (c: seq<Option<string>>)
    ensures |c| == |rows|
  {
    seq(|rows|, r requires 0 <= r < |rows| => if mangledColumn then rows[r].mangled else rows[r].name)
  }

  function Writes(d: Decision, mangledColumn: bool): string {
    if mangledColumn then d.mangled else d.name
  }

  /** The column after the first n decisions are written in order. */
  function NewColumn(rows: seq<Row>, proposals: seq<Proposal>, decisions: seq<Decision>, mangledColumn: bool,
      n: nat): (c: seq<Option<string>>)
    requires TargetsExist(rows, proposals) && n <= |decisions| == |proposals|
    ensures |c| == |rows|
  {
    if n == 0 then OldColumn(rows, mangledColumn)
    else
      var before := NewColumn(rows, proposals, decisions, mangledColumn, n - 1);
      if decisions[n - 1].action == Applied then
        before[proposals[n - 1].target := Some(Writes(decisions[n - 1], mangledColumn))]
      else before
  }

  function Output(rows: seq<Row>, proposals: seq<Proposal>, decisions: seq<Decision>,
      mangledColumn: bool): (c: seq<Option<string>>)
    requires TargetsExist(rows, proposals) && |decisions| == |proposals|
    ensures |c| == |rows|
  {
    NewColumn(rows, proposals, decisions, mangledColumn, |decisions|)
  }

  ghost predicate WrittenBy(proposals: seq<Proposal>, decisions: seq<Decision>, r: nat, i: nat)
    requires |decisions| == |proposals|
  {
    i < |decisions| && decisions[i].action == Applied && proposals[i].target == r
  }

  /** A row shows what its one application writes, or what it had. */
  lemma {:induction false} OutputMeaning(rules: Rules, rows: seq<Row>, proposals: seq<Proposal>,
      decisions: seq<Decision>, mangledColumn: bool, n: nat, r: nat)
    requires TargetsExist(rows, proposals) && ApplicationsOk(rules, rows, proposals, decisions)
    requires n <= |decisions| && r < |rows|
    ensures var c := NewColumn(rows, proposals, decisions, mangledColumn, n);
      && (forall i: nat ::
        i < n && WrittenBy(proposals, decisions, r, i) ==> c[r] == Some(Writes(decisions[i], mangledColumn)))
      && ((forall i: nat :: i < n ==> !WrittenBy(proposals, decisions, r, i)) ==>
        c[r] == OldColumn(rows, mangledColumn)[r])
  {
    if n > 0 {
      var k: nat := n - 1;
      OutputMeaning(rules, rows, proposals, decisions, mangledColumn, k, r);
      if WrittenBy(proposals, decisions, r, k) {
        forall i: nat | i < n && WrittenBy(proposals, decisions, r, i) ensures i == k {
        }
      }
    }
  }

  // ---- Counting names ----

  function Occurrences(c: seq<Option<string>>, x: string): nat {
    if c == [] then 0 else Occurrences(c[..|c| - 1], x) + if c[|c| - 1] == Some(x) then 1 else 0
  }

  ghost predicate Twice(c: seq<Option<string>>, x: string) {
    exists r, s :: 0 <= r < s < |c| && c[r] == Some(x) && c[s] == Some(x)
  }

  lemma {:induction false} OccurrencesMeaning(c: seq<Option<string>>, x: string)
    ensures Occurrences(c, x) > 0 <==> Some(x) in c
    ensures Occurrences(c, x) > 1 <==> Twice(c, x)
  {
    if c != [] {
      var n := |c| - 1;
      OccurrencesMeaning(c[..n], x);
      assert c == c[..n] + [c[n]];
      if Twice(c[..n], x) {
        var r, s :| 0 <= r < s < n && c[..n][r] == Some(x) && c[..n][s] == Some(x);
        assert c[r] == Some(x) && c[s] == Some(x);
      }
      if Some(x) in c[..n] && c[n] == Some(x) {
        var r :| 0 <= r < n && c[..n][r] == Some(x);
        assert c[r] == Some(x);
      }
      if Twice(c, x) {
        var r, s :| 0 <= r < s < |c| && c[r] == Some(x) && c[s] == Some(x);
        assert c[..n][r] == Some(x);
        assert s < n ==> c[..n][s] == Some(x);
      }
    }
  }

  /** Count the real names of a column. */
  method CountNames(rules: Rules, c: seq<Option<string>>) returns (count: map<string, nat>)
    ensures forall x :: rules.portable(x) ==> (if x in count then count[x] else 0) == Occurrences(c, x)
  {
    count := map[];
    for k: nat := 0 to |c|
      invariant forall x :: rules.portable(x) ==> (if x in count then count[x] else 0) == Occurrences(c[..k], x)
    {
      assert c[..k + 1][..k] == c[..k];
      if c[k].Some? && rules.portable(c[k].value) {
        var x := c[k].value;
        count := count[x := (if x in count then count[x] else 0) + 1];
      }
    }
    assert c[..|c|] == c;
  }

  // ---- The duplicate pass ----

  /** The application writes a name or a mangled name that some other row of the output shows as well. */
  predicate Clashes(names: map<string, nat>, mangled: map<string, nat>, d: Decision) {
    (d.name in names && names[d.name] > 1) || (d.mangled in mangled && mangled[d.mangled] > 1)
  }

  ghost predicate ClashesIn(rows: seq<Row>, proposals: seq<Proposal>, decisions: seq<Decision>, d: Decision)
    requires TargetsExist(rows, proposals) && |decisions| == |proposals|
  {
    Twice(Output(rows, proposals, decisions, false), d.name) ||
      Twice(Output(rows, proposals, decisions, true), d.mangled)
  }

  /** The number of decisions with that action. */
  function ActionCount(decisions: seq<Decision>, a: Action): nat {
    if decisions == [] then 0
    else ActionCount(decisions[..|decisions| - 1], a) + if decisions[|decisions| - 1].action == a then 1 else 0
  }

  /** Applications are dropped, never made. */
  ghost predicate Fewer(a: seq<Decision>, b: seq<Decision>) {
    |a| == |b| && forall i ::
      0 <= i < |a| ==> b[i] == a[i] || (a[i].action == Applied && b[i].action == SkippedDuplicateName)
  }

  lemma {:induction false} FewerCounts(a: seq<Decision>, b: seq<Decision>)
    requires Fewer(a, b)
    ensures ActionCount(b, Applied) <= ActionCount(a, Applied) &&
      (b != a ==> ActionCount(b, Applied) < ActionCount(a, Applied))
  {
    if a != [] {
      var n := |a| - 1;
      FewerCounts(a[..n], b[..n]);
      assert a == a[..n] + [a[n]] && b == b[..n] + [b[n]];
    }
  }

  lemma {:induction false} FewerTwice(a: seq<Decision>, b: seq<Decision>, c: seq<Decision>)
    requires Fewer(a, b) && Fewer(b, c)
    ensures Fewer(a, c)
  {
    forall i | 0 <= i < |a| ensures c[i] == a[i] || (a[i].action == Applied && c[i].action == SkippedDuplicateName) {
      assert c[i] == b[i] || (b[i].action == Applied && c[i].action == SkippedDuplicateName);
    }
  }

  function Dropped(d: Decision): Decision {
    Decision(SkippedDuplicateName, d.name, "")
  }

  /** One round: every application that clashes with the output of all of them is dropped, at once. */
  ghost function Round(rows: seq<Row>, proposals: seq<Proposal>, was: seq<Decision>): (ds: seq<Decision>)
    requires TargetsExist(rows, proposals) && |was| == |proposals|
    ensures Fewer(was, ds)
  {
    seq(|was|, i requires 0 <= i < |was| =>
      if was[i].action == Applied && ClashesIn(rows, proposals, was, was[i]) then Dropped(was[i]) else was[i])
  }

  ghost function Rounds(rows: seq<Row>, proposals: seq<Proposal>, was: seq<Decision>, n: nat): (ds: seq<Decision>)
    requires TargetsExist(rows, proposals) && |was| == |proposals|
    ensures |ds| == |was|
  {
    if n == 0 then was else Round(rows, proposals, Rounds(rows, proposals, was, n - 1))
  }

  /** A further round changes nothing exactly when no application clashes. */
  lemma {:induction false} SettledExactly(rows: seq<Row>, proposals: seq<Proposal>, was: seq<Decision>)
    requires TargetsExist(rows, proposals) && |was| == |proposals|
    ensures Round(rows, proposals, was) == was <==> NoClash(rows, proposals, was)
  {
    var next := Round(rows, proposals, was);
    if next == was {
      forall i | 0 <= i < |was| && was[i].action == Applied ensures !ClashesIn(rows, proposals, was, was[i]) {
        assert next[i] == was[i];
      }
    }
  }

  /** Once a round changes nothing, none after it does, so all runs of rounds end in the same decisions. */
  lemma {:induction false} SettledStays(rows: seq<Row>, proposals: seq<Proposal>, was: seq<Decision>, m: nat, n: nat)
    requires TargetsExist(rows, proposals) && |was| == |proposals| && m <= n
    requires NoClash(rows, proposals, Rounds(rows, proposals, was, m))
    ensures Rounds(rows, proposals, was, n) == Rounds(rows, proposals, was, m)
  {
    if m < n {
      SettledStays(rows, proposals, was, m, n - 1);
      SettledExactly(rows, proposals, Rounds(rows, proposals, was, m));
    }
  }

  /** One round: count the names the applications leave, then drop the applications that clash. */
  method DropRound(rules: Rules, rows: seq<Row>, proposals: seq<Proposal>, was: seq<Decision>)
    returns (decisions: seq<Decision>)
    requires TargetsExist(rows, proposals) && ApplicationsOk(rules, rows, proposals, was)
    ensures decisions == Round(rows, proposals, was)
  {
    var names := CountNames(rules, Output(rows, proposals, was, false));
    var mangled := CountNames(rules, Output(rows, proposals, was, true));
    decisions := was;
    for i: nat := 0 to |was|
      invariant |decisions| == |was| && forall k: nat :: i <= k < |was| ==> decisions[k] == was[k]
      invariant forall k: nat :: k < i ==>
        decisions[k] == if was[k].action == Applied && Clashes(names, mangled, was[k]) then Dropped(was[k]) else was[k]
    {
      if decisions[i].action == Applied && Clashes(names, mangled, decisions[i]) {
        decisions := decisions[i := Decision(SkippedDuplicateName, decisions[i].name, "")];
      }
    }
    forall i: nat | i < |was| && was[i].action == Applied
      ensures Clashes(names, mangled, was[i]) == ClashesIn(rows, proposals, was, was[i])
    {
      OccurrencesMeaning(Output(rows, proposals, was, false), was[i].name);
      OccurrencesMeaning(Output(rows, proposals, was, true), was[i].mangled);
    }
  }

  /** Dropping an application brings the row's old name back, which can clash with another one; so it goes on until
      nothing changes. */
  method DropDuplicates(rules: Rules, rows: seq<Row>, proposals: seq<Proposal>, was: seq<Decision>)
    returns (decisions: seq<Decision>)
    requires TargetsExist(rows, proposals) && ApplicationsOk(rules, rows, proposals, was)
    ensures ApplicationsOk(rules, rows, proposals, decisions) && Fewer(was, decisions)
    ensures NoClash(rows, proposals, decisions)
    ensures exists n: nat :: decisions == Rounds(rows, proposals, was, n)
  {
    decisions := was;
    ghost var n: nat := 0;
    while true
      invariant ApplicationsOk(rules, rows, proposals, decisions) && Fewer(was, decisions)
      invariant decisions == Rounds(rows, proposals, was, n)
      decreases ActionCount(decisions, Applied)
    {
      var next := DropRound(rules, rows, proposals, decisions);
      FewerCounts(decisions, next);
      if next == decisions {
        SettledExactly(rows, proposals, decisions);
        break;
      }
      FewerTwice(was, decisions, next);
      decisions := next;
      n := n + 1;
    }
  }

  ghost predicate NoClash(rows: seq<Row>, proposals: seq<Proposal>, decisions: seq<Decision>)
    requires TargetsExist(rows, proposals) && |decisions| == |proposals|
  {
    forall i ::
      0 <= i < |decisions| && decisions[i].action == Applied ==> !ClashesIn(rows, proposals, decisions, decisions[i])
  }

  /** The application i stays in the first round, and the application k, which does not, had a row whose old name or
      old mangled name is what i writes. */
  ghost predicate Restores(rows: seq<Row>, proposals: seq<Proposal>, was: seq<Decision>, i: nat, k: nat)
    requires TargetsExist(rows, proposals) && |was| == |proposals|
  {
    && i < |was| && was[i].action == Applied && !ClashesIn(rows, proposals, was, was[i])
    && k < |was| && was[k].action == Applied && ClashesIn(rows, proposals, was, was[k])
    && RestoresIn(rows, proposals, was, i, k)
  }

  ghost predicate RestoresIn(rows: seq<Row>, proposals: seq<Proposal>, was: seq<Decision>, i: nat, k: nat)
    requires TargetsExist(rows, proposals) && |was| == |proposals| && i < |was| && k < |was|
  {
    || OldColumn(rows, false)[proposals[k].target] == Some(was[i].name)
    || OldColumn(rows, true)[proposals[k].target] == Some(was[i].mangled)
  }

  /** One round is enough exactly when no application that stays writes a name or mangled name that the row of a
      dropped one gets back. */
  lemma {:induction false} OneRoundIsEnough(rules: Rules, rows: seq<Row>, proposals: seq<Proposal>, was: seq<Decision>)
    requires TargetsExist(rows, proposals) && ApplicationsOk(rules, rows, proposals, was)
    ensures NoClash(rows, proposals, Round(rows, proposals, was)) <==> forall i: nat, k: nat ::
      !Restores(rows, proposals, was, i, k)
  {
    var next := Round(rows, proposals, was);
    if NoClash(rows, proposals, next) {
      forall i: nat, k: nat ensures !Restores(rows, proposals, was, i, k) {
        if Restores(rows, proposals, was, i, k) {
          RestoredClashes(rules, rows, proposals, was, i, k);
        }
      }
    }
    if forall i: nat, k: nat :: !Restores(rows, proposals, was, i, k) {
      forall i: nat | i < |next| && next[i].action == Applied ensures !ClashesIn(rows, proposals, next, next[i]) {
        forall mangledColumn: bool
          ensures !Twice(Output(rows, proposals, next, mangledColumn), Writes(was[i], mangledColumn))
        {
          StaysAlone(rules, rows, proposals, was, i, mangledColumn);
        }
        assert Writes(was[i], false) == was[i].name && Writes(was[i], true) == was[i].mangled;
      }
    }
  }

  lemma {:induction false} FewerIsOk(rules: Rules, rows: seq<Row>, proposals: seq<Proposal>, was: seq<Decision>,
      next: seq<Decision>)
    requires TargetsExist(rows, proposals) && ApplicationsOk(rules, rows, proposals, was) && Fewer(was, next)
    ensures ApplicationsOk(rules, rows, proposals, next)
  {
    forall i | 0 <= i < |next| && next[i].action == Applied ensures next[i] == was[i] {
    }
  }

  /** A row whose application was dropped shows its old name again. */
  lemma {:induction false} DroppedRow(rules: Rules, rows: seq<Row>, proposals: seq<Proposal>, was: seq<Decision>,
      k: nat, mangledColumn: bool)
    requires TargetsExist(rows, proposals) && ApplicationsOk(rules, rows, proposals, was)
    requires k < |was| && was[k].action == Applied && ClashesIn(rows, proposals, was, was[k])
    ensures var next, r := Round(rows, proposals, was), proposals[k].target;
      Output(rows, proposals, next, mangledColumn)[r] == OldColumn(rows, mangledColumn)[r]
  {
    var next, r := Round(rows, proposals, was), proposals[k].target;
    FewerIsOk(rules, rows, proposals, was, next);
    forall i: nat | i < |next| ensures !WrittenBy(proposals, next, r, i) {
    }
    OutputMeaning(rules, rows, proposals, next, mangledColumn, |next|, r);
  }

  lemma {:induction false} RowOf(rules: Rules, rows: seq<Row>, proposals: seq<Proposal>, ds: seq<Decision>, i: nat,
      mangledColumn: bool)
    requires TargetsExist(rows, proposals) && ApplicationsOk(rules, rows, proposals, ds) && i < |ds| &&
      ds[i].action == Applied
    ensures Output(rows, proposals, ds, mangledColumn)[proposals[i].target] == Some(Writes(ds[i], mangledColumn))
  {
    OutputMeaning(rules, rows, proposals, ds, mangledColumn, |ds|, proposals[i].target);
    assert WrittenBy(proposals, ds, proposals[i].target, i);
  }

  lemma {:induction false} TwiceAt(c: seq<Option<string>>, x: string, r: nat, s: nat)
    requires r < |c| && s < |c| && r != s && c[r] == Some(x) && c[s] == Some(x)
    ensures Twice(c, x)
  {
    if r > s {
      assert c[s] == Some(x) && c[r] == Some(x);
    }
  }

  lemma {:induction false} RestoredClashes(rules: Rules, rows: seq<Row>, proposals: seq<Proposal>, was: seq<Decision>,
      i: nat, k: nat)
    requires TargetsExist(rows, proposals) && ApplicationsOk(rules, rows, proposals, was) &&
      Restores(rows, proposals, was, i, k)
    ensures !NoClash(rows, proposals, Round(rows, proposals, was))
  {
    var next := Round(rows, proposals, was);
    FewerIsOk(rules, rows, proposals, was, next);
    assert next[i] == was[i] && i != k;
    assert proposals[i].target != proposals[k].target;
    var mangledColumn := OldColumn(rows, false)[proposals[k].target] != Some(was[i].name);
    RowOf(rules, rows, proposals, next, i, mangledColumn);
    DroppedRow(rules, rows, proposals, was, k, mangledColumn);
    TwiceAt(Output(rows, proposals, next, mangledColumn), Writes(next[i], mangledColumn), proposals[i].target,
      proposals[k].target);
    assert ClashesIn(rows, proposals, next, next[i]);
  }

  /** Of another row that shows x after the first round: it did so before, or its application was dropped and x is
      its old name. */
  lemma {:induction false} ShownBefore(rules: Rules, rows: seq<Row>, proposals: seq<Proposal>, was: seq<Decision>,
      r: nat, mangledColumn: bool)
    requires TargetsExist(rows, proposals) && ApplicationsOk(rules, rows, proposals, was) && r < |rows|
    ensures var next := Round(rows, proposals, was);
      || Output(rows, proposals, next, mangledColumn)[r] == Output(rows, proposals, was, mangledColumn)[r]
      || exists k: nat ::
        DroppedFrom(rows, proposals, was, k, r) &&
        Output(rows, proposals, next, mangledColumn)[r] == OldColumn(rows, mangledColumn)[r]
  {
    var next := Round(rows, proposals, was);
    FewerIsOk(rules, rows, proposals, was, next);
    if k: nat :| WrittenBy(proposals, was, r, k) {
      RowOf(rules, rows, proposals, was, k, mangledColumn);
      if ClashesIn(rows, proposals, was, was[k]) {
        DroppedRow(rules, rows, proposals, was, k, mangledColumn);
        assert DroppedFrom(rows, proposals, was, k, r);
      } else {
        assert next[k] == was[k];
        RowOf(rules, rows, proposals, next, k, mangledColumn);
      }
    } else {
      forall j: nat | j < |next| ensures !WrittenBy(proposals, next, r, j) {
        assert !WrittenBy(proposals, was, r, j);
      }
      OutputMeaning(rules, rows, proposals, was, mangledColumn, |was|, r);
      OutputMeaning(rules, rows, proposals, next, mangledColumn, |next|, r);
    }
  }

  ghost predicate DroppedFrom(rows: seq<Row>, proposals: seq<Proposal>, was: seq<Decision>, k: nat, r: nat)
    requires TargetsExist(rows, proposals) && |was| == |proposals|
  {
    k < |was| && was[k].action == Applied && ClashesIn(rows, proposals, was, was[k]) && proposals[k].target == r
  }

  lemma {:induction false} OtherRow(rules: Rules, rows: seq<Row>, proposals: seq<Proposal>, was: seq<Decision>, i: nat,
      mangledColumn: bool, r: nat)
    requires TargetsExist(rows, proposals) && ApplicationsOk(rules, rows, proposals, was)
    requires i < |was| && was[i].action == Applied && !ClashesIn(rows, proposals, was, was[i])
    requires forall k: nat :: !Restores(rows, proposals, was, i, k)
    requires r < |rows| && r != proposals[i].target
    ensures Output(rows, proposals, Round(rows, proposals, was), mangledColumn)[r] !=
      Some(Writes(was[i], mangledColumn))
  {
    var next := Round(rows, proposals, was);
    var c, x := Output(rows, proposals, next, mangledColumn), Writes(was[i], mangledColumn);
    if c[r] == Some(x) {
      ShownBefore(rules, rows, proposals, was, r, mangledColumn);
      if c[r] == Output(rows, proposals, was, mangledColumn)[r] {
        RowOf(rules, rows, proposals, was, i, mangledColumn);
        TwiceAt(Output(rows, proposals, was, mangledColumn), x, r, proposals[i].target);
      } else {
        var k: nat :| DroppedFrom(rows, proposals, was, k, r) && c[r] == OldColumn(rows, mangledColumn)[r];
        assert RestoresIn(rows, proposals, was, i, k);
        assert Restores(rows, proposals, was, i, k);
      }
    }
  }

  lemma {:induction false} StaysAlone(rules: Rules, rows: seq<Row>, proposals: seq<Proposal>, was: seq<Decision>,
      i: nat, mangledColumn: bool)
    requires TargetsExist(rows, proposals) && ApplicationsOk(rules, rows, proposals, was)
    requires i < |was| && was[i].action == Applied && !ClashesIn(rows, proposals, was, was[i])
    requires forall k: nat :: !Restores(rows, proposals, was, i, k)
    ensures !Twice(Output(rows, proposals, Round(rows, proposals, was), mangledColumn), Writes(was[i], mangledColumn))
  {
    var c := Output(rows, proposals, Round(rows, proposals, was), mangledColumn);
    if Twice(c, Writes(was[i], mangledColumn)) {
      var r, s :| 0 <= r < s < |c| && c[r] == Some(Writes(was[i], mangledColumn)) &&
        c[s] == Some(Writes(was[i], mangledColumn));
      OtherRow(rules, rows, proposals, was, i, mangledColumn, if r == proposals[i].target then s else r);
    }
  }

  lemma {:induction false} ThreeWrites(rows: seq<Row>, proposals: seq<Proposal>, ds: seq<Decision>,
      mangledColumn: bool, i: nat)
    requires |rows| == |proposals| == |ds| == 3 && TargetsExist(rows, proposals)
    requires proposals[0].target == 0 && proposals[1].target == 1 && proposals[2].target == 2 && i < 3
    ensures Output(rows, proposals, ds, mangledColumn)[i] ==
      if ds[i].action == Applied then Some(Writes(ds[i], mangledColumn)) else OldColumn(rows, mangledColumn)[i]
  {
    var none := NewColumn(rows, proposals, ds, mangledColumn, 0);
    var one := NewColumn(rows, proposals, ds, mangledColumn, 1);
    var two := NewColumn(rows, proposals, ds, mangledColumn, 2);
    assert one == if ds[0].action == Applied then none[0 := Some(Writes(ds[0], mangledColumn))] else none;
    assert two == if ds[1].action == Applied then one[1 := Some(Writes(ds[1], mangledColumn))] else one;
  }

  /** Two functions are to be named x, and a third one by the name the first one has. */
  lemma {:induction false} ExampleClaims(rules: Rules, rows: seq<Row>, proposals: seq<Proposal>, was: seq<Decision>)
    requires rules == Rules(_ => true, map[], -1, 0.0, true, true)
    requires rows == [Row("1", Some("a"), None), Row("2", Some("b"), None), Row("3", None, None)]
    requires var x := Row("9", Some("x"), None);
      proposals ==
        [Proposal(x, 0, true, 1.0, false), Proposal(x, 1, true, 1.0, false), Proposal(rows[0], 2, true, 1.0, false)]
    requires was == [Decision(Applied, "x", "x"), Decision(Applied, "x", "x"), Decision(Applied, "a", "a")]
    ensures TargetsExist(rows, proposals) && Judged(rules, rows, proposals, was)
  {
    forall i: nat | i < 3
      ensures Comes(rules, proposals[i], rows[proposals[i].target], ClaimedBefore(proposals, i), Applied)
      ensures WritesReference(rules, proposals[i], was[i])
    {
      AllRulesApply(rules, proposals[i], rows[proposals[i].target], was[i]);
    }
  }

  lemma {:induction false} AllRulesApply(rules: Rules, p: Proposal, row: Row, d: Decision)
    requires rules == Rules(_ => true, map[], -1, 0.0, true, true)
    requires p.selected && p.ratio == 1.0 && !p.stripped && p.reference.mangled.None?
    requires p.reference.name == Some(d.name) && d.mangled == d.name && row.name != Some(d.name)
    ensures Comes(rules, p, row, false, Applied) && WritesReference(rules, p, d)
  {
    assert rules.portable(d.name);
  }

  /** One round can be too few: dropping the two applications of x brings a back, which the third one writes. */
  lemma {:induction false} OneRoundIsTooFew(rules: Rules)
    returns (rows: seq<Row>, proposals: seq<Proposal>, was: seq<Decision>)
    requires rules == Rules(_ => true, map[], -1, 0.0, true, true)
    ensures TargetsExist(rows, proposals) && |was| == |proposals| && Judged(rules, rows, proposals, was)
    ensures !NoClash(rows, proposals, Round(rows, proposals, was))
  {
    var x := Row("9", Some("x"), None);
    rows := [Row("1", Some("a"), None), Row("2", Some("b"), None), Row("3", None, None)];
    proposals :=
      [Proposal(x, 0, true, 1.0, false), Proposal(x, 1, true, 1.0, false), Proposal(rows[0], 2, true, 1.0, false)];
    was := [Decision(Applied, "x", "x"), Decision(Applied, "x", "x"), Decision(Applied, "a", "a")];
    ExampleClaims(rules, rows, proposals, was);
    var next := Round(rows, proposals, was);
    FirstRound(rows, proposals, was);
    ThreeWrites(rows, proposals, next, false, 0);
    ThreeWrites(rows, proposals, next, false, 2);
    assert Twice(Output(rows, proposals, next, false), "a");
    assert next[2].action == Applied && ClashesIn(rows, proposals, next, next[2]);
  }

  lemma {:induction false} FirstRound(rows: seq<Row>, proposals: seq<Proposal>, was: seq<Decision>)
    requires |rows| == |proposals| == |was| == 3 && TargetsExist(rows, proposals)
    requires proposals[0].target == 0 && proposals[1].target == 1 && proposals[2].target == 2
    requires was == [Decision(Applied, "x", "x"), Decision(Applied, "x", "x"), Decision(Applied, "a", "a")]
    ensures Round(rows, proposals, was) == [Dropped(was[0]), Dropped(was[1]), was[2]]
  {
    var names, mangled := Output(rows, proposals, was, false), Output(rows, proposals, was, true);
    for i := 0 to 3
      invariant forall k: nat :: k < i ==> names[k] == Some(was[k].name) == mangled[k]
    {
      ThreeWrites(rows, proposals, was, false, i);
      ThreeWrites(rows, proposals, was, true, i);
    }
    assert names[0] == Some("x") && names[1] == Some("x");
    assert Twice(names, "x");
    assert "a"[0] != "x"[0];
    assert !Twice(names, "a") && !Twice(mangled, "a");
  }

  // ---- What the port guarantees ----

  /** Every name and mangled name that is written stands on its target row and on no other row of the output. */
  lemma {:induction false} WrittenOnce(rules: Rules, rows: seq<Row>, proposals: seq<Proposal>, decisions: seq<Decision>,
      mangledColumn: bool, i: nat, r: nat)
    requires TargetsExist(rows, proposals) && ApplicationsOk(rules, rows, proposals, decisions) &&
      NoClash(rows, proposals, decisions)
    requires i < |decisions| && decisions[i].action == Applied && r < |rows|
    ensures Output(rows, proposals, decisions, mangledColumn)[r] == Some(Writes(decisions[i], mangledColumn)) <==>
      r == proposals[i].target
  {
    var c, t, x :=
      Output(rows, proposals, decisions, mangledColumn), proposals[i].target, Writes(decisions[i], mangledColumn);
    OutputMeaning(rules, rows, proposals, decisions, mangledColumn, |decisions|, t);
    assert WrittenBy(proposals, decisions, t, i);
    assert !ClashesIn(rows, proposals, decisions, decisions[i]);
    assert c[t] == Some(x) && !Twice(c, x);
  }

  ghost predicate RealNamesDiffer(rules: Rules, c: seq<Option<string>>) {
    forall x :: rules.portable(x) ==> !Twice(c, x)
  }

  /** A target without repeated real names gives an output without them. */
  lemma {:induction false} NoNewDuplicates(rules: Rules, rows: seq<Row>, proposals: seq<Proposal>,
      decisions: seq<Decision>, mangledColumn: bool)
    requires TargetsExist(rows, proposals) && ApplicationsOk(rules, rows, proposals, decisions) &&
      NoClash(rows, proposals, decisions)
    requires RealNamesDiffer(rules, OldColumn(rows, mangledColumn))
    ensures RealNamesDiffer(rules, Output(rows, proposals, decisions, mangledColumn))
  {
    var c, o := Output(rows, proposals, decisions, mangledColumn), OldColumn(rows, mangledColumn);
    forall x | Twice(c, x) ensures Twice(o, x) {
      var r, s :| 0 <= r < s < |c| && c[r] == Some(x) && c[s] == Some(x);
      UnwrittenHere(rules, rows, proposals, decisions, mangledColumn, r, s, x);
      UnwrittenHere(rules, rows, proposals, decisions, mangledColumn, s, r, x);
    }
  }

  lemma {:induction false} UnwrittenHere(rules: Rules, rows: seq<Row>, proposals: seq<Proposal>,
      decisions: seq<Decision>, mangledColumn: bool, r: nat, s: nat, x: string)
    requires TargetsExist(rows, proposals) && ApplicationsOk(rules, rows, proposals, decisions) &&
      NoClash(rows, proposals, decisions)
    requires r < |rows| && s < |rows| && r != s
    requires var c := Output(rows, proposals, decisions, mangledColumn); c[r] == Some(x) && c[s] == Some(x)
    ensures OldColumn(rows, mangledColumn)[r] == Some(x)
  {
    OutputMeaning(rules, rows, proposals, decisions, mangledColumn, |decisions|, r);
    forall i: nat | i < |decisions| ensures !WrittenBy(proposals, decisions, r, i) {
      if WrittenBy(proposals, decisions, r, i) {
        WrittenOnce(rules, rows, proposals, decisions, mangledColumn, i, s);
      }
    }
  }

  // ---- The output rows ----

  /** Row r shows what the one application for it writes, or what it had. */
  ghost predicate RowShows(rows: seq<Row>, proposals: seq<Proposal>, decisions: seq<Decision>, n: nat, r: nat, out: Row)
    requires TargetsExist(rows, proposals) && n <= |decisions| == |proposals| && r < |rows|
  {
    && out.address == rows[r].address
    && (forall i: nat :: i < n && WrittenBy(proposals, decisions, r, i) ==>
      out.name == Some(decisions[i].name) && out.mangled == Some(decisions[i].mangled))
    && ((forall i: nat :: i < n ==> !WrittenBy(proposals, decisions, r, i)) ==> out == rows[r])
  }

  lemma {:induction false} RowShowsNext(rules: Rules, rows: seq<Row>, proposals: seq<Proposal>,
      decisions: seq<Decision>, n: nat, r: nat, out: Row)
    requires TargetsExist(rows, proposals) && ApplicationsOk(rules, rows, proposals, decisions)
    requires n < |decisions| && r < |rows| && RowShows(rows, proposals, decisions, n, r, out)
    ensures RowShows(rows, proposals, decisions, n + 1, r,
      if WrittenBy(proposals, decisions, r, n) then
        Row(out.address, Some(decisions[n].name), Some(decisions[n].mangled))
      else out)
  {
    if WrittenBy(proposals, decisions, r, n) {
      forall i: nat | i < n + 1 && WrittenBy(proposals, decisions, r, i) ensures i == n {
      }
    } else {
      forall i: nat | i < n + 1 && WrittenBy(proposals, decisions, r, i) ensures i < n {
      }
    }
  }

  ghost predicate RowsShow(rows: seq<Row>, proposals: seq<Proposal>, decisions: seq<Decision>, n: nat, out: seq<Row>)
    requires TargetsExist(rows, proposals) && n <= |decisions| == |proposals|
  {
    |out| == |rows| && forall r: nat :: r < |rows| ==> RowShows(rows, proposals, decisions, n, r, out[r])
  }

  /** Write the applications into a copy of the target. */
  method WriteOutput(rules: Rules, rows: seq<Row>, proposals: seq<Proposal>, decisions: seq<Decision>)
    returns (out: seq<Row>)
    requires TargetsExist(rows, proposals) && ApplicationsOk(rules, rows, proposals, decisions)
    ensures RowsShow(rows, proposals, decisions, |decisions|, out)
  {
    out := rows;
    for n: nat := 0 to |decisions|
      invariant RowsShow(rows, proposals, decisions, n, out)
    {
      ghost var was := out;
      if decisions[n].action == Applied {
        var t := proposals[n].target;
        out := out[t := Row(out[t].address, Some(decisions[n].name), Some(decisions[n].mangled))];
      }
      forall r: nat | r < |rows| ensures RowShows(rows, proposals, decisions, n + 1, r, out[r]) {
        RowShowsNext(rules, rows, proposals, decisions, n, r, was[r]);
      }
    }
  }

  /** The columns of the output rows are those the duplicate pass looked at. */
  lemma {:induction false} OutputColumns(rules: Rules, rows: seq<Row>, proposals: seq<Proposal>,
      decisions: seq<Decision>, out: seq<Row>, r: nat)
    requires TargetsExist(rows, proposals) && ApplicationsOk(rules, rows, proposals, decisions)
    requires RowsShow(rows, proposals, decisions, |decisions|, out) && r < |rows|
    ensures out[r].name == Output(rows, proposals, decisions, false)[r]
    ensures out[r].mangled == Output(rows, proposals, decisions, true)[r]
  {
    var n := |decisions|;
    OutputMeaning(rules, rows, proposals, decisions, false, n, r);
    OutputMeaning(rules, rows, proposals, decisions, true, n, r);
    assert RowShows(rows, proposals, decisions, n, r, out[r]);
    if i: nat :| i < n && WrittenBy(proposals, decisions, r, i) {
      assert out[r].name == Some(Writes(decisions[i], false)) && out[r].mangled == Some(Writes(decisions[i], true));
    }
  }

  /** No other row of the output has the name or the mangled name that the application writes. */
  ghost predicate AloneWith(rows: seq<Row>, proposals: seq<Proposal>, decisions: seq<Decision>, out: seq<Row>, i: nat)
    requires i < |decisions| == |proposals|
  {
    forall r: nat :: r < |out| && r != proposals[i].target ==>
      out[r].name != Some(decisions[i].name) && out[r].mangled != Some(decisions[i].mangled)
  }

  lemma {:induction false} NamesStandAlone(rules: Rules, rows: seq<Row>, proposals: seq<Proposal>,
      decisions: seq<Decision>, out: seq<Row>, i: nat)
    requires TargetsExist(rows, proposals) && ApplicationsOk(rules, rows, proposals, decisions) &&
      NoClash(rows, proposals, decisions)
    requires RowsShow(rows, proposals, decisions, |decisions|, out)
    requires i < |decisions| && decisions[i].action == Applied
    ensures AloneWith(rows, proposals, decisions, out, i)
  {
    forall r: nat | r < |out| && r != proposals[i].target
      ensures out[r].name != Some(decisions[i].name) && out[r].mangled != Some(decisions[i].mangled)
    {
      OutputColumns(rules, rows, proposals, decisions, out, r);
      WrittenOnce(rules, rows, proposals, decisions, false, i, r);
      WrittenOnce(rules, rows, proposals, decisions, true, i, r);
    }
  }

  // ---- The counters ----

  datatype Counters = Counters(applied: nat, confirmed: nat, notPortable: nat, conflict: nat, hops: nat, ratio: nat,
      existing: nat, duplicate: nat) {
    function Sum(): nat {
      applied + confirmed + notPortable + conflict + hops + ratio + existing + duplicate
    }
  }

  /** Each counter is the number of decisions of its kind. */
  ghost predicate CountsOf(c: Counters, decisions: seq<Decision>) {
    && c.applied == ActionCount(decisions, Applied)
    && c.confirmed == ActionCount(decisions, Confirmed)
    && c.notPortable == ActionCount(decisions, SkippedNotPortable)
    && c.conflict == ActionCount(decisions, SkippedConflict)
    && c.hops == ActionCount(decisions, SkippedHops)
    && c.ratio == ActionCount(decisions, SkippedRatio)
    && c.existing == ActionCount(decisions, SkippedExisting)
    && c.duplicate == ActionCount(decisions, SkippedDuplicateName)
  }

  lemma {:induction false} ActionCountNext(decisions: seq<Decision>, i: nat, a: Action)
    requires i < |decisions|
    ensures ActionCount(decisions[..i + 1], a) ==
      ActionCount(decisions[..i], a) + if decisions[i].action == a then 1 else 0
  {
    assert decisions[..i + 1][..i] == decisions[..i];
  }

  method CountActions(decisions: seq<Decision>) returns (c: Counters)
    ensures CountsOf(c, decisions)
  {
    c := Counters(0, 0, 0, 0, 0, 0, 0, 0);
    for i: nat := 0 to |decisions|
      invariant CountsOf(c, decisions[..i])
    {
      forall a ensures ActionCount(decisions[..i + 1], a) ==
        ActionCount(decisions[..i], a) + if decisions[i].action == a then 1 else 0
      {
        ActionCountNext(decisions, i, a);
      }
      match decisions[i].action
      case Applied => c := c.(applied := c.applied + 1);
      case Confirmed => c := c.(confirmed := c.confirmed + 1);
      case SkippedNotPortable => c := c.(notPortable := c.notPortable + 1);
      case SkippedConflict => c := c.(conflict := c.conflict + 1);
      case SkippedHops => c := c.(hops := c.hops + 1);
      case SkippedRatio => c := c.(ratio := c.ratio + 1);
      case SkippedExisting => c := c.(existing := c.existing + 1);
      case SkippedDuplicateName => c := c.(duplicate := c.duplicate + 1);
      case NotSelected =>
    }
    assert decisions[..|decisions|] == decisions;
  }

  /** What was decided about the selected proposals adds up to their number. */
  lemma {:induction false} SumIsSelected(proposals: seq<Proposal>, decisions: seq<Decision>, n: nat)
    requires n <= |proposals| == |decisions|
    requires forall i: nat :: i < |decisions| ==> (decisions[i].action == NotSelected <==> !proposals[i].selected)
    ensures ActionCount(decisions[..n], Applied) + ActionCount(decisions[..n], Confirmed) +
      ActionCount(decisions[..n], SkippedNotPortable) + ActionCount(decisions[..n], SkippedConflict) +
      ActionCount(decisions[..n], SkippedHops) + ActionCount(decisions[..n], SkippedRatio) +
      ActionCount(decisions[..n], SkippedExisting) + ActionCount(decisions[..n], SkippedDuplicateName) ==
      SelectedCount(proposals, n)
    decreases n
  {
    if n > 0 {
      var m: nat := n - 1;
      SumIsSelected(proposals, decisions, m);
      forall a ensures ActionCount(decisions[..n], a) ==
        ActionCount(decisions[..m], a) + if decisions[m].action == a then 1 else 0
      {
        ActionCountNext(decisions, m, a);
      }
    }
  }

  /** Of the selected proposals for one target function the claim pass judges exactly one on its merits, the first in
      stored order; all later ones are conflicts, even when that first one is not applied. So a target has at most one
      application, and no application when its first proposal is not fit for one. */
  lemma {:induction false} FirstClaims(rules: Rules, rows: seq<Row>, proposals: seq<Proposal>,
      decisions: seq<Decision>, j: nat)
    returns (i: nat)
    requires TargetsExist(rows, proposals) && |decisions| == |proposals| && Judged(rules, rows, proposals, decisions)
    requires j < |proposals| && proposals[j].selected
    ensures i <= j && Claimant(proposals, i) && proposals[i].target == proposals[j].target
    ensures decisions[i].action != SkippedConflict && decisions[i].action != NotSelected
    ensures forall k: nat ::
      k < |proposals| && k != i && proposals[k].selected && proposals[k].target == proposals[j].target ==>
      decisions[k].action == SkippedConflict
  {
    i := ClaimantExists(proposals, j);
    assert !ClaimedBefore(proposals, i);
    forall k: nat | k < |proposals| && k != i && proposals[k].selected && proposals[k].target == proposals[j].target
      ensures decisions[k].action == SkippedConflict
    {
      var first := ClaimantExists(proposals, k);
      assert first == i && ClaimedBefore(proposals, k);
    }
  }

  /** The outcome of the claim pass, or a duplicate where that is an application. */
  ghost predicate Decided(rules: Rules, rows: seq<Row>, proposals: seq<Proposal>, decisions: seq<Decision>, i: nat)
    requires TargetsExist(rows, proposals) && i < |decisions| == |proposals|
  {
    Comes(rules, proposals[i], rows[proposals[i].target], ClaimedBefore(proposals, i),
      if decisions[i].action == SkippedDuplicateName then Applied else decisions[i].action)
  }

  lemma {:induction false} FewerDecided(rules: Rules, rows: seq<Row>, proposals: seq<Proposal>, was: seq<Decision>,
      decisions: seq<Decision>, i: nat)
    requires TargetsExist(rows, proposals) && |was| == |proposals| && Judged(rules, rows, proposals, was) &&
      Fewer(was, decisions)
    requires i < |decisions|
    ensures Decided(rules, rows, proposals, decisions, i)
    ensures decisions[i].action == Applied ==> WritesReference(rules, proposals[i], decisions[i])
    ensures decisions[i].action == NotSelected <==> !proposals[i].selected
  {
    assert decisions[i] == was[i] || (was[i].action == Applied && decisions[i].action == SkippedDuplicateName);
    var a := OneOutcome(rules, proposals[i], rows[proposals[i].target], ClaimedBefore(proposals, i));
    assert Comes(rules, proposals[i], rows[proposals[i].target], ClaimedBefore(proposals, i), was[i].action);
    assert !proposals[i].selected ==>
      Comes(rules, proposals[i], rows[proposals[i].target], ClaimedBefore(proposals, i), NotSelected);
  }

  /** Both passes, the counters and the output rows. */
  method PortLabels(rules: Rules, rows: seq<Row>, proposals: seq<Proposal>)
    returns (decisions: seq<Decision>, counters: Counters, selected: nat, out: seq<Row>)
    requires TargetsExist(rows, proposals)
    ensures ApplicationsOk(rules, rows, proposals, decisions) && NoClash(rows, proposals, decisions)
    ensures CountsOf(counters, decisions) && selected == SelectedCount(proposals, |proposals|) == counters.Sum()
    ensures forall i: nat :: i < |decisions| ==> Decided(rules, rows, proposals, decisions, i)
    ensures forall i: nat :: i < |decisions| && decisions[i].action == Applied ==>
      WritesReference(rules, proposals[i], decisions[i]) && AloneWith(rows, proposals, decisions, out, i)
    ensures RowsShow(rows, proposals, decisions, |decisions|, out)
    ensures exists was, n: nat ::
      |was| == |proposals| && Judged(rules, rows, proposals, was) && decisions == Rounds(rows, proposals, was, n)
  {
    var was;
    was, selected := ClaimPass(rules, rows, proposals);
    ClaimsAreOk(rules, rows, proposals, was);
    decisions := DropDuplicates(rules, rows, proposals, was);
    forall i: nat | i < |decisions|
      ensures Decided(rules, rows, proposals, decisions, i)
      ensures decisions[i].action == Applied ==> WritesReference(rules, proposals[i], decisions[i])
      ensures decisions[i].action == NotSelected <==> !proposals[i].selected
    {
      FewerDecided(rules, rows, proposals, was, decisions, i);
    }
    counters := CountActions(decisions);
    SumIsSelected(proposals, decisions, |proposals|);
    assert decisions[..|proposals|] == decisions;
    out := WriteOutput(rules, rows, proposals, decisions);
    forall i: nat | i < |decisions| && decisions[i].action == Applied
      ensures AloneWith(rows, proposals, decisions, out, i)
    {
      NamesStandAlone(rules, rows, proposals, decisions, out, i);
    }
  }
}
