/** The sequence matcher with its caches, and the unified diff of two lists of lines. */
module TextDiff {
  import opened LongestMatch
  import opened MatchingBlocks
  import opened Opcodes
  import opened Options
  import opened UnifiedDiff
  import opened QuickRatios

  /** What a first call leaves in the cache: the operations, cut at both ends. */
  ghost predicate FreshlyCut(a: seq<nat>, b: seq<nat>, autoJunk: bool, codes: seq<Opcode>, n: nat) {
    exists cs: seq<Opcode> ::
      CodesOf(a, b, autoJunk, cs) && if cs == [] then codes == [] else CutTo(cs, codes, n)
  }

  /** The groups of a first call hold all changes, each with n lines of context where there are as many. */
  ghost predicate FirstGroups(a: seq<nat>, b: seq<nat>, autoJunk: bool, groups: seq<seq<Opcode>>, n: nat) {
    && Contexts(groups, n) && FullContext(a, b, groups, n) && AllAlternate(groups) && (a == b ==> groups == [])
    && exists cs: seq<Opcode> :: CodesOf(a, b, autoJunk, cs) && GroupChanges(groups) == Changes(cs)
  }

  lemma {:induction false} CutAlternates(was: seq<Opcode>, cs: seq<Opcode>, n: nat)
    requires CutTo(was, cs, n) && Alternates(was)
    ensures Alternates(cs)
  {
    forall p | 0 < p < |cs| ensures Switches(cs, p) {
      assert Switches(was, p);
      SameTag(was, cs, n, p);
      SameTag(was, cs, n, p - 1);
    }
  }

  lemma {:induction false} SameTag(was: seq<Opcode>, cs: seq<Opcode>, n: nat, p: nat)
    requires CutTo(was, cs, n) && p < |cs|
    ensures cs[p].tag.Equal? == was[p].tag.Equal? && (was[p].tag != Equal ==> cs[p] == was[p])
  {
  }

  /** Cutting the ends keeps the changes. */
  lemma {:induction false} CutChanges(was: seq<Opcode>, cs: seq<Opcode>, n: nat, p: nat)
    requires CutTo(was, cs, n) && p <= |cs|
    ensures Changes(cs[..p]) == Changes(was[..p])
    decreases p
  {
    if p > 0 {
      CutChanges(was, cs, n, p - 1);
      SameTag(was, cs, n, p - 1);
      ChangesNext(cs, p - 1);
      ChangesNext(was, p - 1);
    }
  }

  lemma {:induction false} CodesFit<T>(a: seq<T>, b: seq<T>, cs: seq<Opcode>)
    requires Tiles(a, b, cs)
    ensures OpsFit(cs)
  {
    forall p | 0 <= p < |cs| ensures OpFits(cs[p]) {
      assert OpOk(a, b, cs[p]);
    }
  }

  lemma {:induction false} FirstGroupsOf(a: seq<nat>, b: seq<nat>, autoJunk: bool, was: seq<Opcode>, cs: seq<Opcode>,
      groups: seq<seq<Opcode>>, n: nat)
    requires was != [] && CodesOf(a, b, autoJunk, was) && CutTo(was, cs, n)
    requires Contexts(groups, n) && GroupedFrom(cs, groups)
    requires |cs| == 1 && cs[0].tag == Equal ==> groups == []
    ensures FirstGroups(a, b, autoJunk, groups, n)
  {
    CodesFit(a, b, was);
    SameTag(was, cs, n, 0);
    CutHasFullContext(a, b, was, cs, groups, n);
    CutChanges(was, cs, n, |was|);
    assert cs[..|was|] == cs && was[..|was|] == was;
  }

  method OpcodesOf(a: seq<nat>, b: seq<nat>, ghost autoJunk: bool, blocks: seq<MatchingBlock>)
    returns (codes: seq<Opcode>)
    requires AllMatches(a, b, autoJunk, blocks)
    ensures CodesOf(a, b, autoJunk, codes)
  {
    codes := ComputeOpcodes(a, b, blocks);
  }

  /** The groups of the operations that are left in the cache. */
  ghost predicate GroupsOf(a: seq<nat>, b: seq<nat>, cs: seq<Opcode>, groups: seq<seq<Opcode>>, n: nat) {
    GroupsFrom(a, b, groups, 0, 0) && Contexts(groups, n) && GroupedFrom(cs, groups)
  }

  /** Cut the operations at both ends, and group them. */
  method CutAndGroup(ghost a: seq<nat>, ghost b: seq<nat>, ghost autoJunk: bool, codes: seq<Opcode>, n: nat)
    returns (cut: seq<Opcode>, groups: seq<seq<Opcode>>)
    requires codes != [] && CachedCodes(a, b, codes)
    ensures CachedCodes(a, b, cut) && CutTo(codes, cut, n) && GroupsOf(a, b, cut, groups, n)
    ensures CodesOf(a, b, autoJunk, codes) ==> FirstGroups(a, b, autoJunk, groups, n)
  {
    TrimmedCodes(a, b, codes, n);
    cut := Trimmed(codes, n);
    CutEnds(codes, cut, n);
    CutAlternates(codes, cut, n);
    groups := GroupCodes(a, b, cut, n);
    if CodesOf(a, b, autoJunk, codes) {
      FirstGroupsOf(a, b, autoJunk, codes, cut, groups, n);
    }
  }

  lemma {:induction false} NoGroups(a: seq<nat>, b: seq<nat>, autoJunk: bool, n: nat)
    requires CachedCodes(a, b, [])
    ensures GroupsOf(a, b, [], [], n)
    ensures CodesOf(a, b, autoJunk, []) ==> FirstGroups(a, b, autoJunk, [], n)
  {
    assert a[0..] == a && b[0..] == b;
    if CodesOf(a, b, autoJunk, []) {
      assert GroupChanges([]) == Changes([]);
    }
  }

  lemma {:induction false} IsFreshlyCut(a: seq<nat>, b: seq<nat>, autoJunk: bool, cs: seq<Opcode>, codes: seq<Opcode>,
      n: nat)
    requires CodesOf(a, b, autoJunk, cs) && if cs == [] then codes == [] else CutTo(cs, codes, n)
    ensures FreshlyCut(a, b, autoJunk, codes, n)
  {
  }

  /** Twice the summed sizes over both lengths, within the two quick bounds. */
  method RatioOf(a: seq<nat>, b: seq<nat>, ghost autoJunk: bool, blocks: seq<MatchingBlock>) returns (ratio: real)
    requires AllMatches(a, b, autoJunk, blocks)
    ensures ratio == 1.0 <==> a == b
    ensures ratio == CalculateRatio(TotalSize(blocks), |a| + |b|)
    ensures ratio <= CalculateRatio(Shared(a, b), |a| + |b|) <= CalculateRatio(Min(|a|, |b|), |a| + |b|)
  {
    var matches: nat := 0;
    for p: nat := 0 to |blocks|
      invariant matches == SizeOfFirst(blocks, p)
    {
      matches := matches + blocks[p].size;
    }
    RatiosOrdered(a, b, blocks);
    RatioOneExactly(a, b, autoJunk, blocks);
    ratio := CalculateRatio(matches, |a| + |b|);
  }

  class SequenceMatcher {
    const a: seq<nat>
    const b: seq<nat>
    const autoJunk: bool
    const chain: Chain
    var haveMatchingBlocks: bool
    var matchingBlocks: seq<MatchingBlock>
    var haveOpcodes: bool
    var opcodes: seq<Opcode>

    ghost predicate Valid()
      reads this
    {
      && ChainFor(a, b, autoJunk, chain)
      && (haveMatchingBlocks ==> AllMatches(a, b, autoJunk, matchingBlocks))
      && (haveOpcodes ==> CachedCodes(a, b, opcodes))
    }

    constructor (a: seq<nat>, b: seq<nat>, autoJunk: bool, chain: Chain)
      requires ChainFor(a, b, autoJunk, chain)
      ensures Valid() && this.a == a && this.b == b && this.autoJunk == autoJunk
      ensures !haveMatchingBlocks && !haveOpcodes
    {
      this.a, this.b, this.autoJunk, this.chain := a, b, autoJunk, chain;
      haveMatchingBlocks, matchingBlocks, haveOpcodes, opcodes := false, [], false, [];
    }

    /** A matcher for a and b, or null when one of them is too long to index. */
    static method Create(a: seq<nat>, b: seq<nat>, autoJunk: bool) returns (matcher: SequenceMatcher?)
      ensures matcher == null <==> |a| >= ABSENT || |b| >= ABSENT
      ensures matcher != null ==> fresh(matcher) && matcher.Valid() && matcher.a == a && matcher.b == b
      ensures matcher != null ==> matcher.autoJunk == autoJunk
      ensures matcher != null ==> !matcher.haveMatchingBlocks && !matcher.haveOpcodes
    {
      if |a| >= ABSENT || |b| >= ABSENT {
        return null;
      }
      var chain := ChainB(a, b, autoJunk);
      matcher := new SequenceMatcher(a, b, autoJunk, chain);
    }

    method GetMatchingBlocks() returns (blocks: seq<MatchingBlock>)
      requires Valid()
      modifies this`haveMatchingBlocks, this`matchingBlocks
      ensures Valid() && haveMatchingBlocks && blocks == matchingBlocks
      ensures old(haveMatchingBlocks) ==> blocks == old(matchingBlocks)
    {
      if !haveMatchingBlocks {
        matchingBlocks := ComputeMatchingBlocks(a, b, autoJunk, chain);
        haveMatchingBlocks := true;
      }
      blocks := matchingBlocks;
    }

    method GetOpcodes() returns (codes: seq<Opcode>)
      requires Valid()
      modifies this
      ensures Valid() && haveOpcodes && codes == opcodes
      ensures old(haveOpcodes) ==> codes == old(opcodes)
      ensures !old(haveOpcodes) ==> CodesOf(a, b, autoJunk, codes)
    {
      if !haveOpcodes {
        var blocks := GetMatchingBlocks();
        opcodes := OpcodesOf(a, b, autoJunk, blocks);
        haveOpcodes := true;
      }
      codes := opcodes;
    }

    /** Groups of changes with `n` lines of context; a negative `n` is refused. The equal
        operations at both ends of the cache are trimmed in place, and the groups still describe
        how a becomes b, however often and with whatever `n` this was called before. */
    method GetGroupedOpcodes(n: int) returns (groups: Option<seq<seq<Opcode>>>)
      requires Valid()
      modifies this
      ensures Valid()
      ensures groups.None? <==> n < 0
      ensures n < 0 ==> opcodes == old(opcodes) && haveOpcodes == old(haveOpcodes)
      ensures n >= 0 ==> haveOpcodes
      ensures n >= 0 && old(haveOpcodes) ==>
        if old(opcodes) == [] then opcodes == [] else CutTo(old(opcodes), opcodes, n)
      ensures n >= 0 && !old(haveOpcodes) ==> FreshlyCut(a, b, autoJunk, opcodes, n)
      ensures n >= 0 ==> GroupsOf(a, b, opcodes, groups.value, n)
      ensures n >= 0 && !old(haveOpcodes) ==> FirstGroups(a, b, autoJunk, groups.value, n)
    {
      if n < 0 {
        return None;
      }
      var codes := GetOpcodes();
      var all := [];
      if codes == [] {
        // A single equal operation would be grouped, and dropped because nothing changes.
        NoGroups(a, b, autoJunk, n);
      } else {
        opcodes, all := CutAndGroup(a, b, autoJunk, codes, n);
      }
      groups := Some(all);
      if !old(haveOpcodes) {
        IsFreshlyCut(a, b, autoJunk, codes, opcodes, n);
      }
    }

    /** Similarity from the matching blocks; it never exceeds the two quick bounds, and is 1 for equal sequences
        only. */
    method Ratio() returns (ratio: real)
      requires Valid()
      modifies this`haveMatchingBlocks, this`matchingBlocks
      ensures Valid() && haveMatchingBlocks && ratio == CalculateRatio(TotalSize(matchingBlocks), |a| + |b|)
      ensures ratio <= CalculateRatio(Shared(a, b), |a| + |b|) <= CalculateRatio(Min(|a|, |b|), |a| + |b|)
      ensures ratio == 1.0 <==> a == b
    {
      var blocks := GetMatchingBlocks();
      ratio := RatioOf(a, b, autoJunk, blocks);
    }

    method QuickRatio() returns (ratio: real)
      requires Valid()
      ensures ratio == CalculateRatio(Shared(a, b), |a| + |b|)
    {
      var matches := CountByKey(a, b, chain.aKey, chain.bKey, |chain.positions|);
      ratio := CalculateRatio(matches, |a| + |b|);
    }

    function RealQuickRatio(): (ratio: real)
      ensures CalculateRatio(Shared(a, b), |a| + |b|) <= ratio
    {
      SharedBounds(a, b);
      RatioMonotone(Shared(a, b), Min(|a|, |b|), |a| + |b|);
      CalculateRatio(Min(|a|, |b|), |a| + |b|)
    }
  }

  // ----- lines

  /** `ids` numbers the lines so that equal lines, and only they, have equal numbers. */
  ghost predicate Interned<T>(lines: seq<T>, ids: seq<nat>, table: map<T, nat>) {
    && |ids| == |lines|
    && (forall k :: 0 <= k < |lines| ==> lines[k] in table && table[lines[k]] == ids[k])
  }

  ghost predicate Injective<T>(table: map<T, nat>) {
    && (forall x :: x in table ==> table[x] < |table|)
    && (forall x, y :: x in table && y in table && table[x] == table[y] ==> x == y)
  }

  method Intern<T(==)>(lines: seq<T>, before: map<T, nat>) returns (ids: seq<nat>, table: map<T, nat>)
    requires Injective(before)
    ensures Injective(table) && Interned(lines, ids, table)
    ensures forall x :: x in before ==> x in table && table[x] == before[x]
  {
    table, ids := before, [];
    for k: nat := 0 to |lines|
      invariant Injective(table) && |ids| == k
      invariant forall i :: 0 <= i < k ==> lines[i] in table && table[lines[i]] == ids[i]
      invariant forall x :: x in before ==> x in table && table[x] == before[x]
    {
      if lines[k] !in table {
        table := table[lines[k] := |table|];
      }
      ids := ids + [table[lines[k]]];
    }
  }

  /** Stretches with equal numbers hold equal lines. */
  lemma {:induction false} SameLines<T>(a: seq<T>, b: seq<T>, x: seq<nat>, y: seq<nat>, table: map<T, nat>, i1: nat,
      i2: nat, j1: nat, j2: nat)
    requires Injective(table) && Interned(a, x, table) && Interned(b, y, table)
    requires i1 <= i2 <= |a| && j1 <= j2 <= |b| && x[i1..i2] == y[j1..j2]
    ensures a[i1..i2] == b[j1..j2]
  {
    assert |x[i1..i2]| == |y[j1..j2]|;
    forall k | 0 <= k < i2 - i1 ensures a[i1..i2][k] == b[j1..j2][k] {
      assert x[i1..i2][k] == y[j1..j2][k];
    }
  }

  lemma {:induction false} GroupOfLines<T>(a: seq<T>, b: seq<T>, x: seq<nat>, y: seq<nat>, table: map<T, nat>,
      g: seq<Opcode>)
    requires Injective(table) && Interned(a, x, table) && Interned(b, y, table) && IsGroup(x, y, g)
    ensures IsGroup(a, b, g)
  {
    forall p | 0 <= p < |g| ensures OpOk(a, b, g[p]) {
      var c := g[p];
      assert OpOk(x, y, c);
      if c.tag == Equal {
        SameLines(a, b, x, y, table, c.i1, c.i2, c.j1, c.j2);
      }
    }
  }

  /** Groups for the numbers are groups for the lines. */
  lemma {:induction false} GroupsOfLines<T>(a: seq<T>, b: seq<T>, x: seq<nat>, y: seq<nat>, table: map<T, nat>,
      groups: seq<seq<Opcode>>, i: nat, j: nat)
    requires Injective(table) && Interned(a, x, table) && Interned(b, y, table) && GroupsFrom(x, y, groups, i, j)
    ensures GroupsFrom(a, b, groups, i, j)
    decreases |groups|
  {
    if groups == [] {
      SameLines(a, b, x, y, table, i, |a|, j, |b|);
    } else {
      var g := groups[0];
      GroupOfLines(a, b, x, y, table, g);
      SameLines(a, b, x, y, table, i, g[0].i1, j, g[0].j1);
      GroupsOfLines(a, b, x, y, table, groups[1..], LastOf(g).i2, LastOf(g).j2);
    }
  }

  lemma {:induction false} AssociatesRows<T>(x: seq<T>, y: seq<T>, z: seq<T>)
    ensures x + (y + z) == (x + y) + z
  {
  }

  /** The rows of one group's operations. */
  method WriteGroup<T>(a: seq<T>, b: seq<T>, g: seq<Opcode>) returns (rows: seq<Row<T>>)
    requires OpsOk(a, b, g)
    ensures rows == GroupRows(a, b, g)
  {
    rows := [];
    for p: nat := 0 to |g|
      invariant OpsOk(a, b, g[p..]) && rows + GroupRows(a, b, g[p..]) == GroupRows(a, b, g)
    {
      GroupRowsNext(a, b, g, p);
      AssociatesRows(rows, OpRows(a, b, g[p]), GroupRows(a, b, g[p + 1..]));
      rows := rows + OpRows(a, b, g[p]);
    }
  }

  lemma {:induction false} SameNumbers<T>(a: seq<T>, x: seq<nat>, y: seq<nat>, table: map<T, nat>)
    requires Interned(a, x, table) && Interned(a, y, table)
    ensures x == y
  {
    assert forall k :: 0 <= k < |a| ==> x[k] == table[a[k]] == y[k];
  }

  /** A number for each line of both texts. */
  datatype Numbers = Numbers(a: seq<nat>, b: seq<nat>)

  /** Equal lines, and only they, have equal numbers. */
  ghost predicate NumbersOf<T>(a: seq<T>, b: seq<T>, m: Numbers) {
    && |m.a| == |a| && |m.b| == |b|
    && forall i, j :: 0 <= i < |a| + |b| && 0 <= j < |a| + |b| ==>
      ((m.a + m.b)[i] == (m.a + m.b)[j] <==> (a + b)[i] == (a + b)[j])
  }

  lemma {:induction false} InternedNumbers<T>(a: seq<T>, b: seq<T>, x: seq<nat>, y: seq<nat>, table: map<T, nat>)
    requires Injective(table) && Interned(a, x, table) && Interned(b, y, table)
    ensures NumbersOf(a, b, Numbers(x, y))
  {
    forall k | 0 <= k < |a| + |b| ensures (a + b)[k] in table && table[(a + b)[k]] == (x + y)[k] {
      if k >= |a| {
        assert (a + b)[k] == b[k - |a|] && (x + y)[k] == y[k - |a|];
      }
    }
  }

  /** The rows are two file rows and the hunks of the groups: all changes between the texts, each with n lines of
      context where there are as many. */
  ghost predicate HunksOf<T>(a: seq<T>, b: seq<T>, groups: seq<seq<Opcode>>, n: int, rows: seq<Row<T>>) {
    && n >= 0 && GroupsFrom(a, b, groups, 0, 0) && AllGroups(a, b, groups)
    && (exists m :: NumbersOf(a, b, m) && FirstGroups(m.a, m.b, true, groups, n))
    && |rows| > 2 && rows[0] == FileRow("--- ") && rows[1] == FileRow("+++ ")
    && RowsOfHunks(a, b, groups, rows[2..])
  }

  /** The diff of a and b with `n` lines of context: none for a negative `n` or texts too long to
      index, and otherwise a patch that turns a into b. */
  method Diff<T(==)>(a: seq<T>, b: seq<T>, n: int) returns (rows: Option<seq<Row<T>>>)
    ensures rows.None? <==> n < 0 || |a| >= ABSENT || |b| >= ABSENT
    ensures rows.Some? ==> Patch(a, rows.value, 0, 0, 0, 0) == Some(b)
    ensures rows.Some? ==> (rows.value == [] <==> a == b)
    ensures rows.Some? && rows.value != [] ==> exists groups :: HunksOf(a, b, groups, n, rows.value)
  {
    var idsA, partial := Intern(a, map[]);
    var idsB, table := Intern(b, partial);
    var matcher := SequenceMatcher.Create(idsA, idsB, true);
    if matcher == null {
      return None;
    }
    var groups := matcher.GetGroupedOpcodes(n);
    if groups.None? {
      return None;
    }
    GroupsOfLines(a, b, idsA, idsB, table, groups.value, 0, 0);
    GroupsAreGroups(a, b, groups.value, 0, 0);
    var hunks := WriteHunks(a, b, groups.value);
    PatchHunks(a, b, groups.value, 0, 0);
    assert b[0..] == b && a[0..] == a;
    if a == b {
      SameNumbers(a, idsA, idsB, table);
    }
    rows := Some(hunks);
    if hunks != [] {
      HeaderIgnored(a, hunks);
      rows := Some([FileRow("--- "), FileRow("+++ ")] + hunks);
      InternedNumbers(a, b, idsA, idsB, table);
      WithHeader(a, b, groups.value, n, Numbers(idsA, idsB), hunks);
    }
  }

  lemma {:induction false} WithHeader<T>(a: seq<T>, b: seq<T>, groups: seq<seq<Opcode>>, n: nat, m: Numbers,
      hunks: seq<Row<T>>)
    requires GroupsFrom(a, b, groups, 0, 0) && AllGroups(a, b, groups)
    requires NumbersOf(a, b, m) && FirstGroups(m.a, m.b, true, groups, n)
    requires hunks != [] && hunks == HunkRows(a, b, groups)
    ensures HunksOf(a, b, groups, n, [FileRow("--- "), FileRow("+++ ")] + hunks)
  {
    HunkRowsMeaning(a, b, groups);
    assert ([FileRow("--- "), FileRow("+++ ")] + hunks)[2..] == hunks;
  }

  lemma {:induction false} HunkRowsNext<T>(a: seq<T>, b: seq<T>, groups: seq<seq<Opcode>>, p: nat)
    requires p < |groups| && AllGroups(a, b, groups[p..])
    ensures var g := groups[p];
      && IsGroup(a, b, g) && AllGroups(a, b, groups[p + 1..])
      && HunkRows(a, b, groups[p..]) ==
        [HunkRow(g[0].i1, LastOf(g).i2, g[0].j1, LastOf(g).j2)] + GroupRows(a, b, g) + HunkRows(a, b, groups[p + 1..])
  {
    assert groups[p..][0] == groups[p] && groups[p..][1..] == groups[p + 1..];
  }

  method WriteHunks<T>(a: seq<T>, b: seq<T>, groups: seq<seq<Opcode>>) returns (rows: seq<Row<T>>)
    requires AllGroups(a, b, groups)
    ensures rows == HunkRows(a, b, groups)
  {
    rows := [];
    for p: nat := 0 to |groups|
      invariant AllGroups(a, b, groups[p..]) && rows + HunkRows(a, b, groups[p..]) == HunkRows(a, b, groups)
    {
      var g := groups[p];
      HunkRowsNext(a, b, groups, p);
      var body := WriteGroup(a, b, g);
      var hunk := [HunkRow(g[0].i1, LastOf(g).i2, g[0].j1, LastOf(g).j2)] + body;
      AssociatesRows(rows, hunk, HunkRows(a, b, groups[p + 1..]));
      rows := rows + hunk;
    }
    assert groups[|groups|..] == [];
  }

  lemma {:induction false} HeaderIgnored<T>(a: seq<T>, hunks: seq<Row<T>>)
    ensures Patch(a, [FileRow("--- "), FileRow("+++ ")] + hunks, 0, 0, 0, 0) == Patch(a, hunks, 0, 0, 0, 0)
  {
    var rows := [FileRow("--- "), FileRow("+++ ")] + hunks;
    assert rows[1..] == [FileRow("+++ ")] + hunks && rows[1..][1..] == hunks;
  }
}
