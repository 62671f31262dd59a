/** Similarity bounds: three ways to count the elements two sequences share, and the order of
    the three ratios. */
module QuickRatios {
  import opened LongestMatch
  import opened MatchingBlocks
  import opened Options

  /** How many elements the two sequences share, in any order. */
  ghost function Shared<T>(a: seq<T>, b: seq<T>): nat {
    |multiset(a) * multiset(b)|
  }

  /** Twice the matches over the length of both sequences. */
  function CalculateRatio(matches: nat, length: nat): real {
    if length != 0 then 2.0 * matches as real / length as real else 1.0
  }

  lemma {:induction false} Quotient(x: real, l: real)
    requires l > 0.0
    ensures x / l * l == x && (x / l == 1.0 <==> x == l)
  {
  }

  /** The ratio times the length is twice the matches, and nothing compared with nothing has ratio 1. */
  lemma {:induction false} RatioMeaning(matches: nat, length: nat)
    ensures length > 0 ==> CalculateRatio(matches, length) * length as real == 2.0 * matches as real
    ensures CalculateRatio(matches, length) == 1.0 <==> length == 0 || length == 2 * matches
  {
    if length > 0 {
      Quotient(2.0 * matches as real, length as real);
    }
  }

  lemma {:induction false} RatioMonotone(m: nat, n: nat, length: nat)
    requires m <= n
    ensures CalculateRatio(m, length) <= CalculateRatio(n, length)
  {
    if length != 0 {
      var x, y, l := 2.0 * m as real, 2.0 * n as real, length as real;
      assert x / l * l == x && y / l * l == y;
      if x / l > y / l {
        assert (x / l) * l > (y / l) * l;
      }
    }
  }

  /** One more element is shared exactly when the other side still has one to spare. */
  lemma {:induction false} SharedNext<T>(a: seq<T>, b: seq<T>, i: nat)
    requires i < |a|
    ensures Shared(a[..i + 1], b) == Shared(a[..i], b) + if multiset(a[..i])[a[i]] < multiset(b)[a[i]] then 1 else 0
    ensures forall x :: multiset(a[..i + 1])[x] == multiset(a[..i])[x] + if x == a[i] then 1 else 0
  {
    assert a[..i + 1] == a[..i] + [a[i]];
    var before, after, other := multiset(a[..i]), multiset(a[..i + 1]), multiset(b);
    if before[a[i]] < other[a[i]] {
      assert after * other == before * other + multiset{a[i]};
    } else {
      assert after * other == before * other;
    }
  }

  lemma {:induction false} SharedBounds<T>(a: seq<T>, b: seq<T>)
    ensures Shared(a, b) <= |a| && Shared(a, b) <= |b|
  {
    var x, y := multiset(a), multiset(b);
    assert x == x * y + (x - y) && y == x * y + (y - x);
    assert |x| == |x * y| + |x - y| && |y| == |x * y| + |y - x|;
  }

  // ----- matching blocks hold shared elements

  ghost predicate EqualBlocks(a: seq<nat>, b: seq<nat>, blocks: seq<MatchingBlock>) {
    forall p :: 0 <= p < |blocks| ==> EqualBlock(a, b, blocks[p])
  }

  lemma {:induction false} PrefixGrows(part: multiset<nat>, extra: multiset<nat>, s: seq<nat>, i: nat, lo: nat, hi: nat)
    requires i <= lo <= hi <= |s| && part <= multiset(s[..i]) && extra == multiset(s[lo..hi])
    ensures part + extra <= multiset(s[..hi])
  {
    assert s[..hi] == s[..i] + s[i..lo] + s[lo..hi];
  }

  /** Both sequences hold `part` up to the end of the block `x`. */
  ghost predicate HeldUpTo(part: multiset<nat>, a: seq<nat>, b: seq<nat>, x: MatchingBlock) {
    && x.a + x.size <= |a| && part <= multiset(a[..x.a + x.size])
    && x.b + x.size <= |b| && part <= multiset(b[..x.b + x.size])
  }

  lemma {:induction false} HeldNext(part: multiset<nat>, a: seq<nat>, b: seq<nat>, y: MatchingBlock, x: MatchingBlock)
    requires HeldUpTo(part, a, b, y) && Before(y, x) && EqualBlock(a, b, x)
    ensures HeldUpTo(part + multiset(a[x.a..x.a + x.size]), a, b, x)
  {
    var extra := multiset(a[x.a..x.a + x.size]);
    assert a[x.a..x.a + x.size] == b[x.b..x.b + x.size];
    PrefixGrows(part, extra, a, y.a + y.size, x.a, x.a + x.size);
    PrefixGrows(part, extra, b, y.b + y.size, x.b, x.b + x.size);
  }

  /** The last of the first `k` blocks, or the empty block at the start. */
  ghost function BlockBefore(blocks: seq<MatchingBlock>, k: nat): MatchingBlock
    requires k <= |blocks|
  {
    if k == 0 then MatchingBlock(0, 0, 0) else blocks[k - 1]
  }

  lemma {:induction false} WithBlock(before: multiset<nat>, a: seq<nat>, b: seq<nat>, y: MatchingBlock,
      x: MatchingBlock)
    returns (part: multiset<nat>)
    requires HeldUpTo(before, a, b, y) && Before(y, x) && EqualBlock(a, b, x)
    ensures |part| == |before| + x.size && HeldUpTo(part, a, b, x)
  {
    HeldNext(before, a, b, y, x);
    part := before + multiset(a[x.a..x.a + x.size]);
  }

  /** The first blocks' elements all stand before the end of the last of them, in both sequences. */
  lemma {:induction false} BlockElements(a: seq<nat>, b: seq<nat>, blocks: seq<MatchingBlock>, k: nat)
      returns (part: multiset<nat>)
    requires k <= |blocks| && Chained(blocks) && EqualBlocks(a, b, blocks)
    ensures |part| == SizeOfFirst(blocks, k) && HeldUpTo(part, a, b, BlockBefore(blocks, k))
    decreases k
  {
    if k == 0 {
      part := multiset{};
    } else {
      var before := BlockElements(a, b, blocks, k - 1);
      assert EqualBlock(a, b, blocks[k - 1]) && (k > 1 ==> Before(blocks[k - 2], blocks[k - 1]));
      part := WithBlock(before, a, b, BlockBefore(blocks, k - 1), blocks[k - 1]);
    }
  }

  /** The matching blocks hold no more elements than the sequences share. */
  lemma {:induction false} BlocksAreShared(a: seq<nat>, b: seq<nat>, blocks: seq<MatchingBlock>)
    requires BlocksOf(a, b, blocks)
    ensures TotalSize(blocks) <= Shared(a, b)
  {
    forall p | 0 <= p < |blocks| ensures EqualBlock(a, b, blocks[p]) {
      assert p < |blocks| - 1 ==> blocks[..|blocks| - 1][p] == blocks[p];
    }
    var part := BlockElements(a, b, blocks, |blocks|);
    assert a[..|a|] == a && b[..|b|] == b;
    PartOfShared(part, multiset(a), multiset(b));
  }

  lemma {:induction false} PartOfShared(part: multiset<nat>, x: multiset<nat>, y: multiset<nat>)
    requires part <= x && part <= y
    ensures |part| <= |x * y|
  {
    assert x * y == part + (x * y - part);
  }

  // ----- counting down per key

  /** What is known of the keys of b after walking `a`: a key was touched when its element was
      met, and then the count left for it is known. */
  ghost predicate KeysLeft(a: seq<nat>, b: seq<nat>, bKey: seq<nat>, touched: seq<bool>, available: seq<int>)
    requires |touched| == |available| && KeysOfB(b, bKey, |touched|)
  {
    forall j :: 0 <= j < |b| ==> KeyLeft(a, b, j, touched[bKey[j]], available[bKey[j]])
  }

  ghost predicate KeyLeft(a: seq<nat>, b: seq<nat>, j: int, touched: bool, available: int)
    requires 0 <= j < |b|
  {
    if touched then available == Occurrences(b, b[j]) - Occurrences(a, b[j]) else Occurrences(a, b[j]) == 0
  }

  /** Meeting an element of b once more takes one from its key; other keys stay as they were. */
  lemma {:induction false} KeysLeftNext(a: seq<nat>, b: seq<nat>, i: nat, bKey: seq<nat>, touched: seq<bool>,
      available: seq<int>, key: nat, left: int)
    requires |touched| == |available| && KeysOfB(b, bKey, |touched|) && i < |a|
    requires KeysLeft(a[..i], b, bKey, touched, available)
    requires forall j :: 0 <= j < |b| ==> (key == bKey[j] <==> a[i] == b[j])
    requires key < |touched| ==> left == Occurrences(b, a[i]) - Occurrences(a[..i], a[i])
    ensures KeysLeft(a[..i + 1], b, bKey, if key < |touched| then touched[key := true] else touched,
                     if key < |touched| then available[key := left - 1] else available)
  {
    SharedNext(a, b, i);
    forall j | 0 <= j < |b|
      ensures KeyLeft(a[..i + 1], b, j, if bKey[j] == key then true else touched[bKey[j]],
                      if bKey[j] == key then left - 1 else available[bKey[j]])
    {
      assert KeyLeft(a[..i], b, j, touched[bKey[j]], available[bKey[j]]);
    }
  }

  /** What the counters say is left of the key of an element of b. */
  lemma {:induction false} KeysLeftRead(a: seq<nat>, b: seq<nat>, bKey: seq<nat>, touched: seq<bool>,
      available: seq<int>, full: seq<int>, key: nat, x: nat)
    requires |touched| == |available| == |full| && KeysOfB(b, bKey, |touched|) &&
      KeysLeft(a, b, bKey, touched, available)
    requires forall j :: 0 <= j < |b| ==> full[bKey[j]] == Occurrences(b, b[j])
    requires forall j :: 0 <= j < |b| ==> (key == bKey[j] <==> x == b[j])
    requires key < |touched| && x in b
    ensures (if touched[key] then available[key] else full[key]) == Occurrences(b, x) - Occurrences(a, x)
  {
    var j :| 0 <= j < |b| && b[j] == x;
    assert KeyLeft(a, b, j, touched[bKey[j]], available[bKey[j]]);
  }

  /** quick_ratio of the sequence matcher: what is left of each key of b while walking a. */
  lemma {:induction false} AbsentKey(a: seq<nat>, b: seq<nat>, i: nat, aKey: seq<nat>, bKey: seq<nat>,
      touched: seq<bool>, available: seq<int>)
    requires i < |a| && |touched| == |available| <= ABSENT && KeysOfB(b, bKey, |touched|)
    requires KeysOfA(a, b, aKey, bKey, |touched|) && aKey[i] == ABSENT
    requires KeysLeft(a[..i], b, bKey, touched, available)
    ensures Shared(a[..i + 1], b) == Shared(a[..i], b) && KeysLeft(a[..i + 1], b, bKey, touched, available)
  {
    SharedNext(a, b, i);
    assert multiset(b)[a[i]] == 0;
    KeysLeftNext(a, b, i, bKey, touched, available, ABSENT, 0);
  }

  lemma {:induction false} PresentKey(a: seq<nat>, b: seq<nat>, i: nat, aKey: seq<nat>, bKey: seq<nat>,
      touched: seq<bool>, available: seq<int>, full: seq<int>, left: int)
    requires i < |a| && |touched| == |available| == |full| <= ABSENT && KeysOfB(b, bKey, |touched|)
    requires KeysOfA(a, b, aKey, bKey, |touched|) && aKey[i] != ABSENT
    requires KeysLeft(a[..i], b, bKey, touched, available)
    requires forall j :: 0 <= j < |b| ==> full[bKey[j]] == Occurrences(b, b[j])
    requires aKey[i] < |touched| ==> left == if touched[aKey[i]] then available[aKey[i]] else full[aKey[i]]
    ensures aKey[i] < |touched|
    ensures Shared(a[..i + 1], b) == Shared(a[..i], b) + if left > 0 then 1 else 0
    ensures KeysLeft(a[..i + 1], b, bKey, touched[aKey[i] := true], available[aKey[i] := left - 1])
  {
    SharedNext(a, b, i);
    KeysLeftRead(a[..i], b, bKey, touched, available, full, aKey[i], a[i]);
    KeysLeftNext(a, b, i, bKey, touched, available, aKey[i], left);
  }

  method CountByKey(ghost a: seq<nat>, ghost b: seq<nat>, aKey: seq<nat>, bKey: seq<nat>, keys: nat)
    returns (matches: nat)
    requires KeysOfB(b, bKey, keys) && KeysOfA(a, b, aKey, bKey, keys) && keys <= ABSENT
    ensures matches == Shared(a, b)
  {
    var full := TallyKeys(b, bKey, keys);
    var available: seq<int> := seq(keys, _ => 0);
    var touched: seq<bool> := seq(keys, _ => false);
    matches := 0;
    for i: nat := 0 to |aKey|
      invariant |available| == |touched| == keys
      invariant matches == Shared(a[..i], b) && KeysLeft(a[..i], b, bKey, touched, available)
    {
      var key := aKey[i];
      if key == ABSENT {
        AbsentKey(a, b, i, aKey, bKey, touched, available);
        continue;
      }
      var left := if touched[key] then available[key] else full[key];
      PresentKey(a, b, i, aKey, bKey, touched, available, full, left);
      available := available[key := left - 1];
      touched := touched[key := true];
      if left > 0 {
        matches := matches + 1;
      }
    }
    assert a[..|a|] == a;
  }

  /** How often the keys occur among the first i elements. */
  ghost predicate Tallied(b: seq<nat>, bKey: seq<nat>, i: nat, tally: seq<int>) {
    && i <= |b| == |bKey| && KeysOfB(b, bKey, |tally|)
    && forall j :: 0 <= j < |b| ==> tally[bKey[j]] == Occurrences(b[..i], b[j])
  }

  lemma {:induction false} TallyNext(b: seq<nat>, bKey: seq<nat>, i: nat, tally: seq<int>)
    requires i < |b| && Tallied(b, bKey, i, tally)
    ensures Tallied(b, bKey, i + 1, tally[bKey[i] := tally[bKey[i]] + 1])
  {
    assert b[..i + 1] == b[..i] + [b[i]];
  }

  method TallyKeys(ghost b: seq<nat>, bKey: seq<nat>, keys: nat) returns (full: seq<int>)
    requires KeysOfB(b, bKey, keys)
    ensures |full| == keys && forall j :: 0 <= j < |b| ==> full[bKey[j]] == Occurrences(b, b[j])
  {
    var tally := new int[keys](_ => 0);
    for i: nat := 0 to |bKey|
      invariant Tallied(b, bKey, i, tally[..])
    {
      TallyNext(b, bKey, i, tally[..]);
      ghost var next := tally[..][bKey[i] := tally[bKey[i]] + 1];
      tally[bKey[i]] := tally[bKey[i]] + 1;
      assert tally[..] == next;
    }
    assert b[..|b|] == b;
    full := tally[..];
  }

  /** quick_ratio of the ratio engine: what is left of each line of b while walking a. */
  method CountByLine<T(==)>(a: seq<T>, b: seq<T>) returns (matches: nat)
    ensures matches == Shared(a, b)
  {
    var available := TallyLines(b);
    matches := 0;
    for i: nat := 0 to |a|
      invariant matches == Shared(a[..i], b)
      invariant forall x :: x in available <==> multiset(b)[x] > 0
      invariant forall x :: x in available ==> available[x] == Spare(multiset(b)[x], multiset(a[..i])[x])
    {
      SharedNext(a, b, i);
      if a[i] in available && available[a[i]] > 0 {
        available := available[a[i] := available[a[i]] - 1];
        matches := matches + 1;
      }
    }
    assert a[..|a|] == a;
  }

  method TallyLines<T(==)>(b: seq<T>) returns (available: map<T, nat>)
    ensures forall x :: x in available <==> multiset(b)[x] > 0
    ensures forall x :: x in available ==> available[x] == multiset(b)[x]
  {
    available := map[];
    for j: nat := 0 to |b|
      invariant forall x :: x in available <==> multiset(b[..j])[x] > 0
      invariant forall x :: x in available ==> available[x] == multiset(b[..j])[x]
    {
      assert b[..j + 1] == b[..j] + [b[j]];
      available := available[b[j] := (if b[j] in available then available[b[j]] else 0) + 1];
    }
    assert b[..|b|] == b;
  }

  function Spare(have: nat, used: nat): nat {
    if used < have then have - used else 0
  }

  // ----- merging sorted runs

  datatype LineRun = LineRun(id: nat, count: nat)

  ghost predicate RunsAscend(runs: seq<LineRun>) {
    forall p, q :: 0 <= p < q < |runs| ==> runs[p].id < runs[q].id
  }

  ghost function FromRuns(runs: seq<LineRun>): multiset<nat> {
    if runs == [] then multiset{} else multiset{}[runs[0].id := runs[0].count] + FromRuns(runs[1..])
  }

  lemma {:induction false} NotInRuns(runs: seq<LineRun>, id: nat)
    requires forall p :: 0 <= p < |runs| ==> runs[p].id != id
    ensures FromRuns(runs)[id] == 0
  {
    if runs != [] {
      NotInRuns(runs[1..], id);
    }
  }

  ghost function Common(x: seq<LineRun>, y: seq<LineRun>): nat {
    |FromRuns(x) * FromRuns(y)|
  }

  lemma {:induction false} CommonSymmetric(x: seq<LineRun>, y: seq<LineRun>)
    ensures Common(x, y) == Common(y, x)
  {
    assert FromRuns(x) * FromRuns(y) == FromRuns(y) * FromRuns(x);
  }

  /** The smaller of two leading ids is shared with nothing on the other side. */
  lemma {:induction false} SkipRun(x: seq<LineRun>, y: seq<LineRun>)
    requires RunsAscend(x) && RunsAscend(y) && x != [] && y != [] && x[0].id < y[0].id
    ensures Common(x, y) == Common(x[1..], y)
  {
    NotInRuns(y, x[0].id);
    assert FromRuns(x) * FromRuns(y) == FromRuns(x[1..]) * FromRuns(y);
  }

  lemma {:induction false} MatchRun(x: seq<LineRun>, y: seq<LineRun>)
    requires RunsAscend(x) && RunsAscend(y) && x != [] && y != [] && x[0].id == y[0].id
    ensures Common(x, y) == (if x[0].count < y[0].count then x[0].count else y[0].count) + Common(x[1..], y[1..])
  {
    NotInRuns(x[1..], x[0].id);
    NotInRuns(y[1..], x[0].id);
    CommonSplits(x[0].id, x[0].count, y[0].count, FromRuns(x[1..]), FromRuns(y[1..]));
  }

  lemma {:induction false} CommonSplits(id: nat, c: nat, d: nat, x: multiset<nat>, y: multiset<nat>)
    requires x[id] == 0 && y[id] == 0
    ensures |(multiset{}[id := c] + x) * (multiset{}[id := d] + y)| == (if c < d then c else d) + |x * y|
  {
    assert (multiset{}[id := c] + x) * (multiset{}[id := d] + y) == multiset{}[id := if c < d then c else d] + x * y;
  }

  lemma {:induction false} NothingCommon(x: seq<LineRun>, y: seq<LineRun>)
    requires x == [] || y == []
    ensures Common(x, y) == 0
  {
    assert FromRuns(x) * FromRuns(y) == multiset{};
  }

  lemma {:induction false} DropRun(runs: seq<LineRun>, p: nat)
    requires RunsAscend(runs) && p < |runs|
    ensures RunsAscend(runs[p..]) && runs[p..] != [] && runs[p..][0] == runs[p] && runs[p..][1..] == runs[p + 1..]
  {
  }

  /** What the runs from p and from q on have in common. */
  ghost function CommonFrom(x: seq<LineRun>, p: nat, y: seq<LineRun>, q: nat): nat
    requires p <= |x| && q <= |y|
  {
    Common(x[p..], y[q..])
  }

  lemma {:induction false} SkipLeft(x: seq<LineRun>, p: nat, y: seq<LineRun>, q: nat)
    requires RunsAscend(x) && RunsAscend(y) && p < |x| && q < |y| && x[p].id < y[q].id
    ensures CommonFrom(x, p, y, q) == CommonFrom(x, p + 1, y, q)
  {
    DropRun(x, p);
    DropRun(y, q);
    SkipRun(x[p..], y[q..]);
  }

  lemma {:induction false} SkipRight(x: seq<LineRun>, p: nat, y: seq<LineRun>, q: nat)
    requires RunsAscend(x) && RunsAscend(y) && p < |x| && q < |y| && y[q].id < x[p].id
    ensures CommonFrom(x, p, y, q) == CommonFrom(x, p, y, q + 1)
  {
    SkipLeft(y, q, x, p);
    CommonSymmetric(x[p..], y[q..]);
    CommonSymmetric(x[p..], y[q + 1..]);
  }

  lemma {:induction false} TakeBoth(x: seq<LineRun>, p: nat, y: seq<LineRun>, q: nat)
    requires RunsAscend(x) && RunsAscend(y) && p < |x| && q < |y| && x[p].id == y[q].id
    ensures CommonFrom(x, p, y, q) ==
      (if x[p].count < y[q].count then x[p].count else y[q].count) + CommonFrom(x, p + 1, y, q + 1)
  {
    DropRun(x, p);
    DropRun(y, q);
    MatchRun(x[p..], y[q..]);
  }

  lemma {:induction false} FromStart(x: seq<LineRun>, y: seq<LineRun>)
    ensures CommonFrom(x, 0, y, 0) == Common(x, y)
  {
    assert x[0..] == x && y[0..] == y;
  }

  /** quick_ratio over prepared texts: a merge of the two ascending run lists. */
  method MergeRuns(x: seq<LineRun>, y: seq<LineRun>) returns (matches: nat)
    requires RunsAscend(x) && RunsAscend(y)
    ensures matches == Common(x, y)
  {
    var p: nat, q: nat := 0, 0;
    matches := 0;
    FromStart(x, y);
    while p < |x| && q < |y|
      invariant p <= |x| && q <= |y| && matches + CommonFrom(x, p, y, q) == Common(x, y)
    {
      if x[p].id < y[q].id {
        SkipLeft(x, p, y, q);
        p := p + 1;
      } else if y[q].id < x[p].id {
        SkipRight(x, p, y, q);
        q := q + 1;
      } else {
        TakeBoth(x, p, y, q);
        matches := matches + if x[p].count < y[q].count then x[p].count else y[q].count;
        p := p + 1;
        q := q + 1;
      }
    }
    NothingCommon(x[p..], y[q..]);
  }

  lemma {:induction false} FromRunsAppend(runs: seq<LineRun>, r: LineRun)
    ensures FromRuns(runs + [r]) == FromRuns(runs) + multiset{}[r.id := r.count]
  {
    if runs == [] {
      assert [r][1..] == [];
    } else {
      FromRunsAppend(runs[1..], r);
      assert (runs + [r])[1..] == runs[1..] + [r];
    }
  }

  method EndOfRun(ids: seq<nat>, index: nat) returns (next: nat)
    requires index < |ids|
    ensures index < next <= |ids| && (forall p :: index <= p < next ==> ids[p] == ids[index])
    ensures next < |ids| ==> ids[next] != ids[index]
  {
    next := index + 1;
    while next < |ids| && ids[next] == ids[index]
      invariant index < next <= |ids| && forall p :: index <= p < next ==> ids[p] == ids[index]
    {
      next := next + 1;
    }
  }

  lemma {:induction false} RunAppended(ids: seq<nat>, runs: seq<LineRun>, index: nat, next: nat)
    requires index < next <= |ids| && (forall p :: index <= p < next ==> ids[p] == ids[index])
    requires FromRuns(runs) == multiset(ids[..index])
    ensures FromRuns(runs + [LineRun(ids[index], next - index)]) == multiset(ids[..next])
  {
    SameIds(ids[index..next], ids[index]);
    assert ids[..next] == ids[..index] + ids[index..next];
    FromRunsAppend(runs, LineRun(ids[index], next - index));
  }

  /** Preparing a text: runs of equal ids in the sorted list of its line ids. */
  method MakeRuns(ids: seq<nat>) returns (runs: seq<LineRun>)
    requires forall p, q :: 0 <= p < q < |ids| ==> ids[p] <= ids[q]
    ensures RunsAscend(runs) && FromRuns(runs) == multiset(ids)
    ensures forall p :: 0 <= p < |runs| ==> runs[p].count > 0
  {
    runs := [];
    var index: nat := 0;
    while index < |ids|
      invariant index <= |ids| && RunsAscend(runs) && FromRuns(runs) == multiset(ids[..index])
      invariant forall p :: 0 <= p < |runs| ==> runs[p].count > 0 && (index < |ids| ==> runs[p].id < ids[index])
    {
      var next := EndOfRun(ids, index);
      RunAppended(ids, runs, index, next);
      runs := runs + [LineRun(ids[index], next - index)];
      index := next;
    }
    assert ids[..|ids|] == ids;
  }

  lemma {:induction false} SameIds(ids: seq<nat>, id: nat)
    requires forall p :: 0 <= p < |ids| ==> ids[p] == id
    ensures multiset(ids) == multiset{}[id := |ids|]
  {
    if ids != [] {
      SameIds(ids[1..], id);
      assert ids == [ids[0]] + ids[1..];
    }
  }

  // ----- prepared cells

  /** A cell of a text column: no text, an empty one, bytes, or the number of its lines and the runs of their ids. */
  datatype Prepared = NullCell | BlobCell | EmptyCell | LineCell(pieces: nat, runs: seq<LineRun>)

  ghost predicate PreparedFrom(ids: seq<nat>, x: Prepared) {
    x.LineCell? && x.pieces == |ids| && RunsAscend(x.runs) && FromRuns(x.runs) == multiset(ids)
  }

  /** `sorted` are the line ids of a text in ascending order. */
  method PrepareText(ids: seq<nat>, sorted: seq<nat>) returns (x: Prepared)
    requires multiset(ids) == multiset(sorted) && forall p, q :: 0 <= p < q < |sorted| ==> sorted[p] <= sorted[q]
    ensures PreparedFrom(ids, x)
  {
    var runs := MakeRuns(sorted);
    assert |multiset(ids)| == |ids| && |multiset(sorted)| == |sorted|;
    x := LineCell(|sorted|, runs);
  }

  /** A missing or empty text gives 0, bytes are an error (None), and two texts the ratio of their shared lines. */
  method QuickPrepared(x: Prepared, y: Prepared) returns (ratio: Option<real>)
    requires (x.LineCell? ==> RunsAscend(x.runs)) && (y.LineCell? ==> RunsAscend(y.runs))
    ensures x in {NullCell, EmptyCell} || y in {NullCell, EmptyCell} ==> ratio == Some(0.0)
    ensures ratio.None? <==> BlobCell in {x, y} && {x, y} !! {NullCell, EmptyCell}
    ensures forall a: seq<nat>, b: seq<nat> ::
      PreparedFrom(a, x) && PreparedFrom(b, y) ==> ratio == Some(CalculateRatio(Shared(a, b), |a| + |b|))
  {
    if x == NullCell || y == NullCell {
      return Some(0.0);
    }
    if x == EmptyCell || y == EmptyCell {
      return Some(0.0);
    }
    if x == BlobCell || y == BlobCell {
      return None;
    }
    var matches := MergeRuns(x.runs, y.runs);
    ratio := Some(CalculateRatio(matches, x.pieces + y.pieces));
  }

  /** The three ratios bound each other. */
  lemma {:induction false} RatiosOrdered(a: seq<nat>, b: seq<nat>, blocks: seq<MatchingBlock>)
    requires BlocksOf(a, b, blocks)
    ensures var n := |a| + |b|;
      CalculateRatio(TotalSize(blocks), n) <= CalculateRatio(Shared(a, b), n)
      <= CalculateRatio(if |a| < |b| then |a| else |b|, n)
  {
    BlocksAreShared(a, b, blocks);
    SharedBounds(a, b);
    RatioMonotone(TotalSize(blocks), Shared(a, b), |a| + |b|);
    RatioMonotone(Shared(a, b), if |a| < |b| then |a| else |b|, |a| + |b|);
  }

  // ----- the ratio of equal sequences, and only theirs, is 1

  /** What the blocks from the k-th on hold fits behind the start of the k-th. */
  lemma {:induction false} RestFits(a: seq<nat>, b: seq<nat>, blocks: seq<MatchingBlock>, k: nat)
    requires BlocksOf(a, b, blocks) && k < |blocks|
    ensures TotalSize(blocks) - SizeOfFirst(blocks, k) <= |a| - blocks[k].a
    ensures TotalSize(blocks) - SizeOfFirst(blocks, k) <= |b| - blocks[k].b
    decreases |blocks| - k
  {
    if k + 1 < |blocks| {
      RestFits(a, b, blocks, k + 1);
      assert Before(blocks[k], blocks[k + 1]);
    }
  }

  lemma {:induction false} AllMatched(a: seq<nat>, b: seq<nat>, blocks: seq<MatchingBlock>)
    requires BlocksOf(a, b, blocks) && TotalSize(blocks) == |a| == |b|
    ensures a == b
  {
    RestFits(a, b, blocks, 0);
    if |blocks| > 1 {
      RestFits(a, b, blocks, 1);
      var x, y := blocks[0], blocks[1];
      assert blocks[..|blocks| - 1][0] == x;
      assert EqualBlock(a, b, x) && Before(x, y);
      assert SizeOfFirst(blocks, 1) == x.size;
      assert Adjacent(x, y);
      assert a[0..|a|] == a && b[0..|b|] == b;
    }
  }

  /** The matching blocks give ratio 1 exactly when the sequences are equal. */
  lemma {:induction false} RatioOneExactly(a: seq<nat>, b: seq<nat>, autoJunk: bool, blocks: seq<MatchingBlock>)
    requires AllMatches(a, b, autoJunk, blocks)
    ensures CalculateRatio(TotalSize(blocks), |a| + |b|) == 1.0 <==> a == b
  {
    RatioMeaning(TotalSize(blocks), |a| + |b|);
    if a == b {
      TotalOfWhole(|a|);
    } else if |a| + |b| == 2 * TotalSize(blocks) {
      TotalIsBoth(a, b, blocks);
      AllMatched(a, b, blocks);
    }
  }

  lemma {:induction false} TotalOfWhole(n: nat)
    ensures TotalSize(WholeBlock(n) + [MatchingBlock(n, n, 0)]) == n
  {
    var s := WholeBlock(n) + [MatchingBlock(n, n, 0)];
    assert SizeOfFirst(s, 1) == s[0].size;
    assert n > 0 ==> SizeOfFirst(s, 2) == s[0].size + s[1].size;
  }

  lemma {:induction false} TotalIsBoth(a: seq<nat>, b: seq<nat>, blocks: seq<MatchingBlock>)
    requires BlocksOf(a, b, blocks) && |a| + |b| == 2 * TotalSize(blocks)
    ensures TotalSize(blocks) == |a| == |b|
  {
    BlocksAreShared(a, b, blocks);
    SharedBounds(a, b);
  }
}
