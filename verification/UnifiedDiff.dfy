/** Grouping operations into hunks, writing the hunks as rows, and the proof that the rows are a
    patch: applied to the first sequence they give the second. */
module UnifiedDiff {
  import opened Opcodes
  import opened Options

  function Max(x: nat, y: nat): nat { if x > y then x else y }

  function Min(x: nat, y: nat): nat { if x < y then x else y }

  function Less0(x: nat, n: nat): nat { if x >= n then x - n else 0 }

  function LastOf<T>(s: seq<T>): T
    requires s != []
  {
    s[|s| - 1]
  }

  /** Between `i1`, `j1` and `i2`, `j2` the two sequences agree. */
  ghost predicate SameGap<T>(a: seq<T>, b: seq<T>, i1: nat, i2: nat, j1: nat, j2: nat) {
    i1 <= i2 <= |a| && j1 <= j2 <= |b| && a[i1..i2] == b[j1..j2]
  }

  ghost predicate IsGroup<T>(a: seq<T>, b: seq<T>, g: seq<Opcode>) {
    g != [] && Tiles(a, b, g)
  }

  /** Groups of operations in order, with equal stretches between them, that start at or after
      `i`, `j` and leave only an equal stretch behind. */
  ghost predicate GroupsFrom<T>(a: seq<T>, b: seq<T>, groups: seq<seq<Opcode>>, i: nat, j: nat)
    decreases |groups|
  {
    if groups == [] then i <= |a| && j <= |b| && a[i..] == b[j..]
    else
      && IsGroup(a, b, groups[0]) && SameGap(a, b, i, groups[0][0].i1, j, groups[0][0].j1)
      && GroupsFrom(a, b, groups[1..], LastOf(groups[0]).i2, LastOf(groups[0]).j2)
  }

  /** The same for groups that end at `i2`, `j2`. */
  ghost predicate GroupsBetween<T>(a: seq<T>, b: seq<T>, groups: seq<seq<Opcode>>, i: nat, j: nat, i2: nat, j2: nat)
    decreases |groups|
  {
    if groups == [] then i == i2 && j == j2
    else
      && IsGroup(a, b, groups[0]) && SameGap(a, b, i, groups[0][0].i1, j, groups[0][0].j1)
      && GroupsBetween(a, b, groups[1..], LastOf(groups[0]).i2, LastOf(groups[0]).j2, i2, j2)
  }

  lemma {:induction false} GroupsAppend<T>(a: seq<T>, b: seq<T>, groups: seq<seq<Opcode>>, g: seq<Opcode>, i: nat,
      j: nat, i2: nat, j2: nat)
    requires GroupsBetween(a, b, groups, i, j, i2, j2) && IsGroup(a, b, g)
    requires SameGap(a, b, i2, g[0].i1, j2, g[0].j1)
    ensures GroupsBetween(a, b, groups + [g], i, j, LastOf(g).i2, LastOf(g).j2)
    decreases |groups|
  {
    if groups == [] {
      assert groups + [g] == [g] && [g][1..] == [];
    } else {
      GroupsAppend(a, b, groups[1..], g, LastOf(groups[0]).i2, LastOf(groups[0]).j2, i2, j2);
      assert (groups + [g])[1..] == groups[1..] + [g];
    }
  }

  lemma {:induction false} GroupsClose<T>(a: seq<T>, b: seq<T>, groups: seq<seq<Opcode>>, i: nat, j: nat, i2: nat,
      j2: nat)
    requires GroupsBetween(a, b, groups, i, j, i2, j2)
    requires i2 <= |a| && j2 <= |b| && a[i2..] == b[j2..]
    ensures GroupsFrom(a, b, groups, i, j)
    decreases |groups|
  {
    if groups != [] {
      GroupsClose(a, b, groups[1..], LastOf(groups[0]).i2, LastOf(groups[0]).j2, i2, j2);
    }
  }

  // ----- trimming the first and the last operation

  function TrimFront(c: Opcode, n: nat): Opcode {
    if c.tag == Equal then c.(i1 := Max(c.i1, Less0(c.i2, n)), j1 := Max(c.j1, Less0(c.j2, n))) else c
  }

  function TrimBack(c: Opcode, n: nat): Opcode {
    if c.tag == Equal then c.(i2 := Min(c.i2, c.i1 + n), j2 := Min(c.j2, c.j1 + n)) else c
  }

  lemma {:induction false} PartOfPart<T>(s: seq<T>, lo: nat, hi: nat, from: nat, to: nat)
    requires lo <= hi <= |s| && from <= to <= hi - lo
    ensures s[lo + from..lo + to] == s[lo..hi][from..to]
  {
    var x, y := s[lo + from..lo + to], s[lo..hi][from..to];
    forall k | 0 <= k < |x| ensures x[k] == y[k] {
      assert s[lo..hi][from + k] == s[lo + from + k];
    }
  }

  /** A suffix that starts inside a part is the rest of the part and what follows it. */
  lemma {:induction false} SuffixFrom<T>(s: seq<T>, lo: nat, hi: nat, k: nat)
    requires lo <= hi <= |s| && k <= hi - lo
    ensures s[lo + k..] == s[lo..hi][k..] + s[hi..]
  {
    PartOfPart(s, lo, hi, k, hi - lo);
  }

  lemma {:induction false} PrefixTo<T>(s: seq<T>, lo: nat, hi: nat, k: nat)
    requires lo <= hi <= |s| && k <= hi - lo
    ensures s[..lo + k] == s[..lo] + s[lo..hi][..k]
  {
    PartOfPart(s, lo, hi, 0, k);
  }

  lemma {:induction false} TrimFrontOk<T>(a: seq<T>, b: seq<T>, c: Opcode, n: nat)
    requires OpOk(a, b, c) && SamePrefix(a, b, c.i1, c.j1)
    ensures OpOk(a, b, TrimFront(c, n)) && SamePrefix(a, b, TrimFront(c, n).i1, TrimFront(c, n).j1)
    ensures c.tag == Equal ==> TrimFront(c, n).i2 - TrimFront(c, n).i1 <= n
  {
    if c.tag == Equal {
      var t := TrimFront(c, n);
      assert |a[..c.i1]| == |b[..c.j1]|;
      var skip := t.i1 - c.i1;
      assert t.j1 == c.j1 + skip;
      PartOfPart(a, c.i1, c.i2, skip, c.i2 - c.i1);
      PartOfPart(b, c.j1, c.j2, skip, c.j2 - c.j1);
      PrefixTo(a, c.i1, c.i2, skip);
      PrefixTo(b, c.j1, c.j2, skip);
    }
  }

  lemma {:induction false} TrimBackOk<T>(a: seq<T>, b: seq<T>, c: Opcode, n: nat)
    requires OpOk(a, b, c) && SameSuffix(a, b, c.i2, c.j2)
    ensures OpOk(a, b, TrimBack(c, n)) && SameSuffix(a, b, TrimBack(c, n).i2, TrimBack(c, n).j2)
  {
    if c.tag == Equal {
      var t := TrimBack(c, n);
      var keep := t.i2 - c.i1;
      PartOfPart(a, c.i1, c.i2, 0, keep);
      PartOfPart(b, c.j1, c.j2, 0, keep);
      SuffixFrom(a, c.i1, c.i2, keep);
      SuffixFrom(b, c.j1, c.j2, keep);
    }
  }

  /** The cached operations after the in-place trim. */
  function Trimmed(cs: seq<Opcode>, n: nat): seq<Opcode>
    requires cs != []
  {
    var front := cs[0 := TrimFront(cs[0], n)];
    front[|front| - 1 := TrimBack(LastOf(front), n)]
  }

  lemma {:induction false} FrontTrimmed<T>(a: seq<T>, b: seq<T>, cs: seq<Opcode>, n: nat)
    requires cs != [] && CodesFor(a, b, cs)
    ensures CodesFor(a, b, cs[0 := TrimFront(cs[0], n)])
  {
    var front := cs[0 := TrimFront(cs[0], n)];
    TrimFrontOk(a, b, cs[0], n);
    forall p | 0 < p < |front| ensures Continues(front, p) {
      assert Continues(cs, p);
    }
  }

  lemma {:induction false} BackTrimmed<T>(a: seq<T>, b: seq<T>, cs: seq<Opcode>, n: nat)
    requires cs != [] && CodesFor(a, b, cs)
    ensures CodesFor(a, b, cs[|cs| - 1 := TrimBack(LastOf(cs), n)])
  {
    var back := cs[|cs| - 1 := TrimBack(LastOf(cs), n)];
    TrimBackOk(a, b, LastOf(cs), n);
    forall p | 0 < p < |back| ensures Continues(back, p) {
      assert Continues(cs, p);
    }
  }

  ghost predicate LinesKept(c: Opcode, t: Opcode, n: nat) {
    t.tag == Equal && t.i1 <= t.i2 && t.j1 <= t.j2 &&
    t.i2 - t.i1 == t.j2 - t.j1 == if c.i2 - c.i1 < n then c.i2 - c.i1 else n
  }

  /** Of an equal first operation the last n lines stay. */
  ghost predicate CutFront(c: Opcode, t: Opcode, n: nat) {
    if c.tag == Equal then LinesKept(c, t, n) && t.i2 == c.i2 && t.j2 == c.j2 else t == c
  }

  /** Of an equal last operation the first n lines stay. */
  ghost predicate CutBack(c: Opcode, t: Opcode, n: nat) {
    if c.tag == Equal then LinesKept(c, t, n) && t.i1 == c.i1 && t.j1 == c.j1 else t == c
  }

  /** How the cached operations are cut at both ends, and nowhere else. */
  ghost predicate CutTo(was: seq<Opcode>, now: seq<Opcode>, n: nat) {
    && |now| == |was| && was != [] && CutFront(was[0], now[0], n)
    && (|was| > 1 ==> CutBack(was[|was| - 1], now[|was| - 1], n))
    && forall p :: 0 < p < |was| - 1 ==> now[p] == was[p]
  }

  ghost predicate OpsFit(cs: seq<Opcode>) {
    forall p :: 0 <= p < |cs| ==> OpFits(cs[p])
  }

  ghost predicate OpFits(c: Opcode) {
    c.i1 <= c.i2 && c.j1 <= c.j2 && (c.tag == Equal ==> c.i2 - c.i1 == c.j2 - c.j1)
  }

  lemma {:induction false} FrontIsCut(c: Opcode, n: nat)
    requires OpFits(c)
    ensures CutFront(c, TrimFront(c, n), n)
  {
  }

  lemma {:induction false} BackIsCut(c: Opcode, n: nat)
    requires OpFits(c)
    ensures CutBack(c, TrimBack(c, n), n)
    ensures c.tag == Equal && c.i2 - c.i1 <= n ==> TrimBack(c, n) == c
  {
  }

  lemma {:induction false} TrimmedIsCut(cs: seq<Opcode>, n: nat)
    requires cs != [] && OpsFit(cs)
    ensures CutTo(cs, Trimmed(cs, n), n)
  {
    FrontIsCut(cs[0], n);
    if |cs| == 1 {
      BackIsCut(TrimFront(cs[0], n), n);
    } else {
      BackIsCut(cs[|cs| - 1], n);
    }
  }

  /** The trimmed operations still describe how a becomes b; only the equal ones at both ends are cut, to exactly n
      lines if they have as many. */
  lemma {:induction false} TrimmedCodes<T>(a: seq<T>, b: seq<T>, cs: seq<Opcode>, n: nat)
    requires cs != [] && CodesFor(a, b, cs)
    ensures CodesFor(a, b, Trimmed(cs, n)) && CutTo(cs, Trimmed(cs, n), n)
  {
    FrontTrimmed(a, b, cs, n);
    BackTrimmed(a, b, cs[0 := TrimFront(cs[0], n)], n);
    assert forall p :: 0 <= p < |cs| ==> OpOk(a, b, cs[p]);
    TrimmedIsCut(cs, n);
  }

  // ----- grouping

  /** The two ends of a long equal stretch that stay as context. */
  function HeadOf(c: Opcode, n: nat): Opcode {
    Opcode(c.tag, c.i1, Min(c.i2, c.i1 + n), c.j1, Min(c.j2, c.j1 + n))
  }

  function TailOf(c: Opcode, n: nat): Opcode {
    c.(i1 := Max(c.i1, Less0(c.i2, n)), j1 := Max(c.j1, Less0(c.j2, n)))
  }

  lemma {:induction false} SplitEqual<T>(a: seq<T>, b: seq<T>, c: Opcode, n: nat)
    requires OpOk(a, b, c) && c.tag == Equal && c.i2 - c.i1 > n + n
    ensures OpOk(a, b, HeadOf(c, n)) && OpOk(a, b, TailOf(c, n))
    ensures SameGap(a, b, HeadOf(c, n).i2, TailOf(c, n).i1, HeadOf(c, n).j2, TailOf(c, n).j1)
  {
    SamePart(a, b, c, 0, n);
    SamePart(a, b, c, n, c.i2 - c.i1 - n);
    SamePart(a, b, c, c.i2 - c.i1 - n, c.i2 - c.i1);
  }

  lemma {:induction false} SamePart<T>(a: seq<T>, b: seq<T>, c: Opcode, from: nat, to: nat)
    requires OpOk(a, b, c) && c.tag == Equal && from <= to <= c.i2 - c.i1
    ensures a[c.i1 + from..c.i1 + to] == b[c.j1 + from..c.j1 + to]
  {
    PartOfPart(a, c.i1, c.i2, from, to);
    PartOfPart(b, c.j1, c.j2, from, to);
  }

  /** Finished groups end at `i2`, `j2`; the open group follows after an equal stretch and ends
      where operation `p` starts. */
  ghost predicate Grouping<T>(a: seq<T>, b: seq<T>, cs: seq<Opcode>, p: nat, groups: seq<seq<Opcode>>,
      group: seq<Opcode>, i2: nat, j2: nat)
    requires p <= |cs|
  {
    && GroupsBetween(a, b, groups, 0, 0, i2, j2) && Tiles(a, b, group)
    && (group == [] <==> p == 0)
    && (if group == [] then groups == []
        else SameGap(a, b, i2, group[0].i1, j2, group[0].j1)
             && LastOf(group).i2 == cs[p - 1].i2 && LastOf(group).j2 == cs[p - 1].j2)
  }

  lemma {:induction false} GroupingStarts<T>(a: seq<T>, b: seq<T>, cs: seq<Opcode>, p: nat, groups: seq<seq<Opcode>>,
      group: seq<Opcode>, i2: nat, j2: nat)
    requires p < |cs| && CodesFor(a, b, cs) && Grouping(a, b, cs, p, groups, group, i2, j2)
    ensures group != [] ==> cs[p].i1 == LastOf(group).i2 && cs[p].j1 == LastOf(group).j2
    ensures group == [] ==> SameGap(a, b, i2, cs[p].i1, j2, cs[p].j1)
  {
    if p > 0 {
      assert Continues(cs, p);
    } else {
      assert a[0..cs[0].i1] == a[..cs[0].i1] && b[0..cs[0].j1] == b[..cs[0].j1];
    }
  }

  lemma {:induction false} GroupingNext<T>(a: seq<T>, b: seq<T>, cs: seq<Opcode>, p: nat, groups: seq<seq<Opcode>>,
      group: seq<Opcode>, i2: nat, j2: nat)
    requires p < |cs| && CodesFor(a, b, cs) && Grouping(a, b, cs, p, groups, group, i2, j2)
    ensures Grouping(a, b, cs, p + 1, groups, group + [cs[p]], i2, j2)
  {
    GroupingStarts(a, b, cs, p, groups, group, i2, j2);
    TilesAppend(a, b, group, cs[p]);
  }

  lemma {:induction false} GroupingSplit<T>(a: seq<T>, b: seq<T>, cs: seq<Opcode>, p: nat, groups: seq<seq<Opcode>>,
      group: seq<Opcode>, i2: nat, j2: nat, n: nat)
    requires p < |cs| && CodesFor(a, b, cs) && Grouping(a, b, cs, p, groups, group, i2, j2)
    requires cs[p].tag == Equal && cs[p].i2 - cs[p].i1 > n + n
    ensures Grouping(a, b, cs, p + 1, groups + [group + [HeadOf(cs[p], n)]], [TailOf(cs[p], n)], HeadOf(cs[p], n).i2,
      HeadOf(cs[p], n).j2)
  {
    var closed := group + [HeadOf(cs[p], n)];
    GroupingStarts(a, b, cs, p, groups, group, i2, j2);
    SplitEqual(a, b, cs[p], n);
    TilesAppend(a, b, group, HeadOf(cs[p], n));
    GroupsAppend(a, b, groups, closed, 0, 0, i2, j2);
  }

  /** Two equal stretches in a row are one. */
  lemma {:induction false} GapAndRest<T>(a: seq<T>, b: seq<T>, i: nat, i1: nat, j: nat, j1: nat)
    requires SameGap(a, b, i, i1, j, j1) && SameSuffix(a, b, i1, j1)
    ensures SameSuffix(a, b, i, j)
  {
    assert a[i..] == a[i..i1] + a[i1..];
    assert b[j..] == b[j..j1] + b[j1..];
  }

  lemma {:induction false} GroupingDone<T>(a: seq<T>, b: seq<T>, cs: seq<Opcode>, groups: seq<seq<Opcode>>,
      group: seq<Opcode>, i2: nat, j2: nat)
    requires cs != [] && CodesFor(a, b, cs) && Grouping(a, b, cs, |cs|, groups, group, i2, j2)
    ensures GroupsFrom(a, b, groups + [group], 0, 0)
  {
    GroupsAppend(a, b, groups, group, 0, 0, i2, j2);
    GroupsClose(a, b, groups + [group], 0, 0, LastOf(group).i2, LastOf(group).j2);
  }

  /** A last group of one equal stretch can be left out. */
  lemma {:induction false} GroupingDropped<T>(a: seq<T>, b: seq<T>, cs: seq<Opcode>, groups: seq<seq<Opcode>>,
      group: seq<Opcode>, i2: nat, j2: nat)
    requires cs != [] && CodesFor(a, b, cs) && Grouping(a, b, cs, |cs|, groups, group, i2, j2)
    requires |group| == 1 && group[0].tag == Equal
    ensures GroupsFrom(a, b, groups, 0, 0)
  {
    var c := group[0];
    GapAndRest(a, b, c.i1, c.i2, c.j1, c.j2);
    GapAndRest(a, b, i2, c.i1, j2, c.j1);
    GroupsClose(a, b, groups, 0, 0, i2, j2);
  }

  // ----- how much context a group has

  /** An equal operation is no longer than m. */
  ghost predicate Short(c: Opcode, m: nat) {
    c.tag == Equal ==> c.i2 - c.i1 <= m
  }

  ghost predicate AllShort(g: seq<Opcode>, m: nat) {
    forall p :: 0 <= p < |g| ==> Short(g[p], m)
  }

  /** At most n equal lines at either end of a group, and at most 2n between two changes. */
  ghost predicate InContext(g: seq<Opcode>, n: nat) {
    g != [] && Short(g[0], n) && Short(LastOf(g), n) && AllShort(g, 2 * n)
  }

  /** Both groups have equal lines at the near end, and with what lies between them these are more than 2n. */
  ghost predicate FarApart(g: seq<Opcode>, h: seq<Opcode>, n: nat) {
    && g != [] && h != [] && LastOf(g).tag == Equal && h[0].tag == Equal
    && LastOf(g).i2 - LastOf(g).i1 == n == h[0].i2 - h[0].i1 && LastOf(g).i2 < h[0].i1
  }

  ghost predicate Contexts(groups: seq<seq<Opcode>>, n: nat) {
    && (forall p :: 0 <= p < |groups| ==> InContext(groups[p], n))
    && (forall p :: 0 < p < |groups| ==> FarApart(groups[p - 1], groups[p], n))
  }

  /** The groups closed so far and the open one, before operation p. */
  ghost predicate OpenContext(groups: seq<seq<Opcode>>, group: seq<Opcode>, cs: seq<Opcode>, p: nat, n: nat)
    requires p <= |cs|
  {
    && Contexts(groups, n) && AllShort(group, 2 * n)
    && (p == 0 ==> groups == [] && group == [])
    && (p > 0 ==> group != [] && Short(group[0], n) && (LastOf(group) == cs[p - 1] || Short(LastOf(group), n)))
    && (groups != [] && group != [] ==> FarApart(LastOf(groups), group, n))
  }

  ghost predicate EndsShort(cs: seq<Opcode>, n: nat) {
    cs != [] ==> Short(cs[0], n) && Short(LastOf(cs), n)
  }

  lemma {:induction false} CutEnds(was: seq<Opcode>, cs: seq<Opcode>, n: nat)
    requires CutTo(was, cs, n)
    ensures EndsShort(cs, n)
  {
  }

  lemma {:induction false} ContextsAppend(groups: seq<seq<Opcode>>, g: seq<Opcode>, n: nat)
    requires Contexts(groups, n) && InContext(g, n) && (groups != [] ==> FarApart(LastOf(groups), g, n))
    ensures Contexts(groups + [g], n)
  {
    var all := groups + [g];
    forall p | 0 < p < |all| ensures FarApart(all[p - 1], all[p], n) {
      assert p < |groups| ==> all[p] == groups[p];
    }
  }

  lemma {:induction false} ContextNext(groups: seq<seq<Opcode>>, group: seq<Opcode>, cs: seq<Opcode>, p: nat, n: nat)
    requires p < |cs| && OpenContext(groups, group, cs, p, n) && EndsShort(cs, n) && Short(cs[p], 2 * n)
    ensures OpenContext(groups, group + [cs[p]], cs, p + 1, n)
  {
    var next := group + [cs[p]];
    assert groups != [] && group != [] ==> next[0] == group[0];
  }

  lemma {:induction false} ContextSplit(groups: seq<seq<Opcode>>, group: seq<Opcode>, cs: seq<Opcode>, p: nat, n: nat)
    requires p < |cs| && OpenContext(groups, group, cs, p, n) && EndsShort(cs, n)
    requires cs[p].tag == Equal && cs[p].i2 - cs[p].i1 > n + n
    ensures OpenContext(groups + [group + [HeadOf(cs[p], n)]], [TailOf(cs[p], n)], cs, p + 1, n)
  {
    var closed := group + [HeadOf(cs[p], n)];
    assert p > 0 && closed[0] == group[0];
    ContextsAppend(groups, closed, n);
    assert LastOf(groups + [closed]) == closed;
  }

  // ----- that the groups hold all changes, from the first operation to the last one

  /** The operations that change something. */
  ghost function Changes(cs: seq<Opcode>): seq<Opcode> {
    if cs == [] then []
    else Changes(cs[..|cs| - 1]) + if cs[|cs| - 1].tag == Equal then [] else [cs[|cs| - 1]]
  }

  ghost function GroupChanges(groups: seq<seq<Opcode>>): seq<Opcode> {
    if groups == [] then [] else GroupChanges(groups[..|groups| - 1]) + Changes(groups[|groups| - 1])
  }

  lemma {:induction false} ChangesAppend(cs: seq<Opcode>, c: Opcode)
    ensures Changes(cs + [c]) == Changes(cs) + if c.tag == Equal then [] else [c]
  {
    assert (cs + [c])[..|cs|] == cs;
  }

  lemma {:induction false} ChangesNext(cs: seq<Opcode>, p: nat)
    requires p < |cs|
    ensures Changes(cs[..p + 1]) == Changes(cs[..p]) + if cs[p].tag == Equal then [] else [cs[p]]
  {
    assert cs[..p + 1][..p] == cs[..p];
  }

  lemma {:induction false} GroupChangesAppend(groups: seq<seq<Opcode>>, g: seq<Opcode>)
    ensures GroupChanges(groups + [g]) == GroupChanges(groups) + Changes(g)
  {
    assert (groups + [g])[..|groups|] == groups;
  }

  ghost predicate AllAlternate(groups: seq<seq<Opcode>>) {
    forall p :: 0 <= p < |groups| ==> Alternates(groups[p])
  }

  /** The first operation of all groups. */
  ghost predicate FirstIs(groups: seq<seq<Opcode>>, group: seq<Opcode>, c: Opcode) {
    var g := if groups == [] then group else groups[0];
    g != [] && g[0] == c
  }

  /** The closed groups and the open one hold the changes of the first p operations, and the open group ends with the
      last of them, or with the end of it that stays. */
  ghost predicate Follows(groups: seq<seq<Opcode>>, group: seq<Opcode>, cs: seq<Opcode>, p: nat, n: nat)
    requires p <= |cs|
  {
    && GroupChanges(groups) + Changes(group) == Changes(cs[..p])
    && AllAlternate(groups) && Alternates(group)
    && (p == 0 ==> group == []) && (p <= 1 ==> groups == [])
    && (p > 0 ==> group != [] && LastOf(group).tag.Equal? == cs[p - 1].tag.Equal? && FirstIs(groups, group, cs[0]))
    && (p > 0 && Short(cs[p - 1], 2 * n) ==> LastOf(group) == cs[p - 1] && (p > 1 ==> |group| > 1))
  }

  lemma {:induction false} FollowsNext(groups: seq<seq<Opcode>>, group: seq<Opcode>, cs: seq<Opcode>, p: nat, n: nat)
    requires p < |cs| && Alternates(cs) && Follows(groups, group, cs, p, n)
    ensures Follows(groups, group + [cs[p]], cs, p + 1, n)
  {
    ChangesAppend(group, cs[p]);
    ChangesNext(cs, p);
    assert p > 0 ==> Switches(cs, p);
    AlternatesAppend(group, cs[p]);
  }

  lemma {:induction false} FollowsSplit(groups: seq<seq<Opcode>>, group: seq<Opcode>, cs: seq<Opcode>, p: nat, n: nat)
    requires 0 < p < |cs| && Alternates(cs) && Follows(groups, group, cs, p, n)
    requires cs[p].tag == Equal && !Short(cs[p], 2 * n)
    ensures Follows(groups + [group + [HeadOf(cs[p], n)]], [TailOf(cs[p], n)], cs, p + 1, n)
  {
    SplitChanges(groups, group, cs, p, HeadOf(cs[p], n), TailOf(cs[p], n));
    assert Switches(cs, p);
    AlternatesAppend(group, HeadOf(cs[p], n));
  }

  /** Closing a group inside an equal operation moves no change. */
  lemma {:induction false} SplitChanges(groups: seq<seq<Opcode>>, group: seq<Opcode>, cs: seq<Opcode>, p: nat,
      head: Opcode, tail: Opcode)
    requires p < |cs| && cs[p].tag == head.tag == tail.tag == Equal
    requires GroupChanges(groups) + Changes(group) == Changes(cs[..p])
    ensures GroupChanges(groups + [group + [head]]) + Changes([tail]) == Changes(cs[..p + 1])
  {
    ChangesAppend(group, head);
    ChangesAppend([], tail);
    assert [] + [tail] == [tail];
    ChangesNext(cs, p);
    GroupChangesAppend(groups, group + [head]);
  }

  /** What the groups have to do with the trimmed operations: all changes, in order, with single equal operations
      between them, and from the first operation to the last one. */
  ghost predicate GroupedFrom(cs: seq<Opcode>, groups: seq<seq<Opcode>>) {
    && GroupChanges(groups) == Changes(cs) && AllAlternate(groups)
    && (groups != [] ==>
      groups[0] != [] && LastOf(groups) != [] && cs != [] &&
      groups[0][0] == cs[0] && LastOf(LastOf(groups)) == LastOf(cs))
  }

  lemma {:induction false} FollowsAll(groups: seq<seq<Opcode>>, group: seq<Opcode>, cs: seq<Opcode>, n: nat)
    requires cs != [] && EndsShort(cs, n) && Follows(groups, group, cs, |cs|, n)
    ensures if |group| == 1 && group[0].tag == Equal then groups == [] && GroupedFrom(cs, groups)
      else GroupedFrom(cs, groups + [group])
  {
    assert cs[..|cs|] == cs;
    if |group| == 1 && group[0].tag == Equal {
      assert |cs| == 1;
      ChangesAppend([], group[0]);
      assert [] + [group[0]] == group && groups == [];
    } else {
      GroupChangesAppend(groups, group);
    }
  }

  /** The groups so far, and the open one, before operation p. */
  ghost predicate GroupingState<T>(a: seq<T>, b: seq<T>, cs: seq<Opcode>, p: nat, n: nat, groups: seq<seq<Opcode>>,
      group: seq<Opcode>, i: nat, j: nat)
    requires p <= |cs|
  {
    && Grouping(a, b, cs, p, groups, group, i, j) && OpenContext(groups, group, cs, p, n)
    && (Alternates(cs) ==> Follows(groups, group, cs, p, n))
    && (|cs| == 1 ==> groups == [] && (p == 1 ==> group == cs))
  }

  /** One operation: a long equal one closes the group and opens the next. */
  method AddCode<T>(ghost a: seq<T>, ghost b: seq<T>, cs: seq<Opcode>, p: nat, n: nat, before: seq<seq<Opcode>>,
      open: seq<Opcode>, ghost i: nat, ghost j: nat)
      returns (groups: seq<seq<Opcode>>, group: seq<Opcode>, ghost i2: nat, ghost j2: nat)
    requires CodesFor(a, b, cs) && p < |cs| && EndsShort(cs, n) && GroupingState(a, b, cs, p, n, before, open, i, j)
    ensures GroupingState(a, b, cs, p + 1, n, groups, group, i2, j2)
  {
    var c := cs[p];
    if c.tag == Equal && c.i2 - c.i1 > n + n {
      GroupingSplit(a, b, cs, p, before, open, i, j, n);
      ContextSplit(before, open, cs, p, n);
      if Alternates(cs) {
        FollowsSplit(before, open, cs, p, n);
      }
      groups, group := before + [open + [HeadOf(c, n)]], [TailOf(c, n)];
      i2, j2 := HeadOf(c, n).i2, HeadOf(c, n).j2;
    } else {
      GroupingNext(a, b, cs, p, before, open, i, j);
      ContextNext(before, open, cs, p, n);
      if Alternates(cs) {
        FollowsNext(before, open, cs, p, n);
      }
      groups, group, i2, j2 := before, open + [c], i, j;
    }
  }

  method GroupCodes<T>(ghost a: seq<T>, ghost b: seq<T>, cs: seq<Opcode>, n: nat) returns (groups: seq<seq<Opcode>>)
    requires cs != [] && CodesFor(a, b, cs) && EndsShort(cs, n)
    ensures GroupsFrom(a, b, groups, 0, 0) && Contexts(groups, n)
    ensures Alternates(cs) ==> GroupedFrom(cs, groups)
    ensures |cs| == 1 && cs[0].tag == Equal ==> groups == []
  {
    groups := [];
    var group: seq<Opcode> := [];
    ghost var i2: nat, j2: nat := 0, 0;
    for p: nat := 0 to |cs|
      invariant GroupingState(a, b, cs, p, n, groups, group, i2, j2)
    {
      groups, group, i2, j2 := AddCode(a, b, cs, p, n, groups, group, i2, j2);
    }
    groups := CloseGroups(a, b, cs, n, groups, group, i2, j2);
  }

  /** The last group is kept unless it is one equal operation. */
  method CloseGroups<T>(ghost a: seq<T>, ghost b: seq<T>, ghost cs: seq<Opcode>, ghost n: nat,
      before: seq<seq<Opcode>>, group: seq<Opcode>, ghost i: nat, ghost j: nat)
    returns (groups: seq<seq<Opcode>>)
    requires cs != [] && CodesFor(a, b, cs) && EndsShort(cs, n)
    requires GroupingState(a, b, cs, |cs|, n, before, group, i, j)
    ensures GroupsFrom(a, b, groups, 0, 0) && Contexts(groups, n)
    ensures Alternates(cs) ==> GroupedFrom(cs, groups)
    ensures |cs| == 1 && cs[0].tag == Equal ==> groups == []
  {
    if Alternates(cs) {
      FollowsAll(before, group, cs, n);
    }
    groups := before;
    if group != [] && !(|group| == 1 && group[0].tag == Equal) {
      GroupingDone(a, b, cs, before, group, i, j);
      ContextsAppend(before, group, n);
      groups := groups + [group];
    } else {
      GroupingDropped(a, b, cs, before, group, i, j);
    }
  }

  /** A first group opens with exactly n equal lines, or where both sequences start. */
  ghost predicate OpensAt(c: Opcode, n: nat) {
    (c.tag == Equal && c.i2 - c.i1 == n) || (c.i1 == 0 && c.j1 == 0)
  }

  /** A last group closes with exactly n equal lines, or where both sequences end. */
  ghost predicate ClosesAt(c: Opcode, n: nat, i: nat, j: nat) {
    (c.tag == Equal && c.i2 - c.i1 == n) || (c.i2 == i && c.j2 == j)
  }

  /** The context at the outer ends is as long as it can be. */
  ghost predicate FullContext<T>(a: seq<T>, b: seq<T>, groups: seq<seq<Opcode>>, n: nat) {
    groups != [] ==>
      && groups[0] != [] && OpensAt(groups[0][0], n)
      && LastOf(groups) != [] && ClosesAt(LastOf(LastOf(groups)), n, |a|, |b|)
  }

  lemma {:induction false} CutHasFullContext<T>(a: seq<T>, b: seq<T>, was: seq<Opcode>, cs: seq<Opcode>,
      groups: seq<seq<Opcode>>, n: nat)
    requires was != [] && Covers(a, b, was) && OpsFit(was) && CutTo(was, cs, n) && GroupedFrom(cs, groups)
    requires |was| > 1 || groups == [] || was[0].tag != Equal
    ensures FullContext(a, b, groups, n)
  {
  }

  // ----- rows, and applying them

  /** A row of the diff: one of the two file rows, a hunk's ranges, or a line with its mark. */
  datatype Row<T> =
    | FileRow(mark: string)
    | HunkRow(i1: nat, i2: nat, j1: nat, j2: nat)
    | LineRow(sign: char, line: T)

  function Lines<T>(sign: char, lines: seq<T>): seq<Row<T>> {
    seq(|lines|, k requires 0 <= k < |lines| => LineRow(sign, lines[k]))
  }

  /** An equal line stands for itself; of a change first the old lines are written, then the new ones. */
  ghost predicate RowsOfOp<T>(a: seq<T>, b: seq<T>, c: Opcode, rows: seq<Row<T>>)
    requires OpOk(a, b, c)
  {
    |rows| == OpLength(c) &&
    if c.tag == Equal then forall k :: 0 <= k < |rows| ==> rows[k] == LineRow(' ', a[c.i1 + k])
    else
      && (forall k :: 0 <= k < c.i2 - c.i1 ==> rows[k] == LineRow('-', a[c.i1 + k]))
      && (forall k :: c.i2 - c.i1 <= k < |rows| ==> rows[k] == LineRow('+', b[c.j1 + (k - (c.i2 - c.i1))]))
  }

  ghost function OpLength(c: Opcode): int {
    if c.tag == Equal then c.i2 - c.i1 else c.i2 - c.i1 + (c.j2 - c.j1)
  }

  function OpRows<T>(a: seq<T>, b: seq<T>, c: Opcode): (rows: seq<Row<T>>)
    requires OpOk(a, b, c)
    ensures RowsOfOp(a, b, c, rows)
  {
    match c.tag
    case Equal => Lines(' ', a[c.i1..c.i2])
    case Replace => Lines('-', a[c.i1..c.i2]) + Lines('+', b[c.j1..c.j2])
    case Delete => Lines('-', a[c.i1..c.i2])
    case Insert => Lines('+', b[c.j1..c.j2])
  }

  ghost predicate OpsOk<T>(a: seq<T>, b: seq<T>, g: seq<Opcode>) {
    forall p :: 0 <= p < |g| ==> OpOk(a, b, g[p])
  }

  lemma {:induction false} GroupRowsNext<T>(a: seq<T>, b: seq<T>, g: seq<Opcode>, p: nat)
    requires OpsOk(a, b, g) && p < |g|
    ensures OpsOk(a, b, g[p..]) && OpsOk(a, b, g[p + 1..]) && OpOk(a, b, g[p])
    ensures GroupRows(a, b, g[p..]) == OpRows(a, b, g[p]) + GroupRows(a, b, g[p + 1..])
  {
    assert g[p..][1..] == g[p + 1..];
  }

  ghost function GroupRows<T>(a: seq<T>, b: seq<T>, g: seq<Opcode>): seq<Row<T>>
    requires OpsOk(a, b, g)
  {
    if g == [] then []
    else
      assert OpOk(a, b, g[0]);
      OpRows(a, b, g[0]) + GroupRows(a, b, g[1..])
  }

  ghost predicate AllGroups<T>(a: seq<T>, b: seq<T>, groups: seq<seq<Opcode>>) {
    forall p :: 0 <= p < |groups| ==> IsGroup(a, b, groups[p])
  }

  ghost function HunkRows<T>(a: seq<T>, b: seq<T>, groups: seq<seq<Opcode>>): seq<Row<T>>
    requires AllGroups(a, b, groups)
  {
    if groups == [] then []
    else
      var g := groups[0];
      [HunkRow(g[0].i1, LastOf(g).i2, g[0].j1, LastOf(g).j2)] + GroupRows(a, b, g) + HunkRows(a, b, groups[1..])
  }

  // ----- where each row stands

  ghost function GroupLength(g: seq<Opcode>): int {
    if g == [] then 0 else OpLength(g[0]) + GroupLength(g[1..])
  }

  /** The rows of the operations, one after the other. */
  ghost predicate RowsOfGroup<T>(a: seq<T>, b: seq<T>, g: seq<Opcode>, rows: seq<Row<T>>)
    requires OpsOk(a, b, g)
    decreases |g|
  {
    if g == [] then rows == []
    else
      assert OpOk(a, b, g[0]);
      var n := OpLength(g[0]);
      n <= |rows| && RowsOfOp(a, b, g[0], rows[..n]) && RowsOfGroup(a, b, g[1..], rows[n..])
  }

  /** For each group a row with its ranges and the rows of its operations. */
  ghost predicate RowsOfHunks<T>(a: seq<T>, b: seq<T>, groups: seq<seq<Opcode>>, rows: seq<Row<T>>)
    requires AllGroups(a, b, groups)
    decreases |groups|
  {
    if groups == [] then rows == []
    else
      var g := groups[0];
      var n := 1 + GroupLength(g);
      && 1 <= n <= |rows| && rows[0] == HunkRow(g[0].i1, LastOf(g).i2, g[0].j1, LastOf(g).j2)
      && RowsOfGroup(a, b, g, rows[1..n]) && RowsOfHunks(a, b, groups[1..], rows[n..])
  }

  lemma {:induction false} GroupRowsMeaning<T>(a: seq<T>, b: seq<T>, g: seq<Opcode>)
    requires OpsOk(a, b, g)
    ensures |GroupRows(a, b, g)| == GroupLength(g) && RowsOfGroup(a, b, g, GroupRows(a, b, g))
    decreases |g|
  {
    if g != [] {
      assert OpOk(a, b, g[0]);
      GroupRowsMeaning(a, b, g[1..]);
      PartsOfSum(OpRows(a, b, g[0]), GroupRows(a, b, g[1..]));
    }
  }

  lemma {:induction false} PartsOfSum<T>(s: seq<T>, t: seq<T>)
    ensures (s + t)[..|s|] == s && (s + t)[|s|..] == t
  {
  }

  lemma {:induction false} HunkRowsMeaning<T>(a: seq<T>, b: seq<T>, groups: seq<seq<Opcode>>)
    requires AllGroups(a, b, groups)
    ensures RowsOfHunks(a, b, groups, HunkRows(a, b, groups))
    decreases |groups|
  {
    if groups != [] {
      var g := groups[0];
      GroupRowsMeaning(a, b, g);
      HunkRowsMeaning(a, b, groups[1..]);
      HunkParts(HunkRow(g[0].i1, LastOf(g).i2, g[0].j1, LastOf(g).j2), GroupRows(a, b, g),
        HunkRows(a, b, groups[1..]));
    }
  }

  lemma {:induction false} HunkParts<T>(x: T, s: seq<T>, t: seq<T>)
    ensures var all := [x] + s + t;
      all[0] == x && all[1..1 + |s|] == s && all[1 + |s|..] == t
  {
  }

  function Prepend<T>(front: seq<T>, rest: Option<seq<T>>): Option<seq<T>> {
    if rest.Some? then Some(front + rest.value) else None
  }

  /** Apply a diff to `a`. `at` lines of a are used up, `made` lines of the result are made, and
      the current hunk has to end at `stop` in a and at `goal` in the result. A row that does not
      fit gives None. */
  function Patch<T(==)>(a: seq<T>, rows: seq<Row<T>>, at: nat, made: nat, stop: nat, goal: nat): Option<seq<T>>
    decreases |rows|
  {
    if rows == [] then
      if at == stop <= |a| && made == goal then Some(a[at..]) else None
    else match rows[0]
      case FileRow(_) => Patch(a, rows[1..], at, made, stop, goal)
      case HunkRow(i1, i2, j1, j2) =>
        if at == stop && made == goal && at <= i1 <= i2 <= |a| && j1 == made + (i1 - at) then
          Prepend(a[at..i1], Patch(a, rows[1..], i1, j1, i2, j2))
        else None
      case LineRow(sign, line) =>
        if sign == '+' then Prepend([line], Patch(a, rows[1..], at, made + 1, stop, goal))
        else if at < |a| && a[at] == line then
          if sign == ' ' then Prepend([line], Patch(a, rows[1..], at + 1, made + 1, stop, goal))
          else if sign == '-' then Patch(a, rows[1..], at + 1, made, stop, goal)
          else None
        else None
  }

  lemma {:induction false} LinesHead<T>(sign: char, lines: seq<T>, rest: seq<Row<T>>)
    requires lines != []
    ensures (Lines(sign, lines) + rest)[0] == LineRow(sign, lines[0])
    ensures (Lines(sign, lines) + rest)[1..] == Lines(sign, lines[1..]) + rest
  {
  }

  lemma {:induction false} PatchCommon<T>(a: seq<T>, lines: seq<T>, rest: seq<Row<T>>, at: nat, made: nat, stop: nat,
      goal: nat)
    requires at + |lines| <= |a| && a[at..at + |lines|] == lines
    ensures Patch(a, Lines(' ', lines) + rest, at, made, stop, goal)
      == Prepend(lines, Patch(a, rest, at + |lines|, made + |lines|, stop, goal))
    decreases |lines|
  {
    if lines == [] {
      assert Lines(' ', lines) + rest == rest;
      PrependNothing(Patch(a, rest, at, made, stop, goal));
    } else {
      LinesHead(' ', lines, rest);
      assert a[at] == a[at..at + |lines|][0];
      assert a[at + 1..at + |lines|] == a[at..at + |lines|][1..];
      PatchCommon(a, lines[1..], rest, at + 1, made + 1, stop, goal);
      PrependTwice([lines[0]], lines[1..], Patch(a, rest, at + |lines|, made + |lines|, stop, goal));
      assert [lines[0]] + lines[1..] == lines;
    }
  }

  lemma {:induction false} PatchRemoved<T>(a: seq<T>, lines: seq<T>, rest: seq<Row<T>>, at: nat, made: nat, stop: nat,
      goal: nat)
    requires at + |lines| <= |a| && a[at..at + |lines|] == lines
    ensures Patch(a, Lines('-', lines) + rest, at, made, stop, goal) == Patch(a, rest, at + |lines|, made, stop, goal)
    decreases |lines|
  {
    if lines == [] {
      assert Lines('-', lines) + rest == rest;
    } else {
      LinesHead('-', lines, rest);
      assert a[at] == a[at..at + |lines|][0];
      assert a[at + 1..at + |lines|] == a[at..at + |lines|][1..];
      PatchRemoved(a, lines[1..], rest, at + 1, made, stop, goal);
    }
  }

  lemma {:induction false} PatchAdded<T>(a: seq<T>, lines: seq<T>, rest: seq<Row<T>>, at: nat, made: nat, stop: nat,
      goal: nat)
    ensures Patch(a, Lines('+', lines) + rest, at, made, stop, goal)
      == Prepend(lines, Patch(a, rest, at, made + |lines|, stop, goal))
    decreases |lines|
  {
    if lines == [] {
      assert Lines('+', lines) + rest == rest;
      PrependNothing(Patch(a, rest, at, made, stop, goal));
    } else {
      LinesHead('+', lines, rest);
      PatchAdded(a, lines[1..], rest, at, made + 1, stop, goal);
      PrependTwice([lines[0]], lines[1..], Patch(a, rest, at, made + |lines|, stop, goal));
      assert [lines[0]] + lines[1..] == lines;
    }
  }

  lemma {:induction false} PrependNothing<T>(rest: Option<seq<T>>)
    ensures Prepend([], rest) == rest
  {
    if rest.Some? {
      assert [] + rest.value == rest.value;
    }
  }

  lemma {:induction false} PrependTwice<T>(x: seq<T>, y: seq<T>, rest: Option<seq<T>>)
    ensures Prepend(x, Prepend(y, rest)) == Prepend(x + y, rest)
  {
    if rest.Some? {
      assert x + (y + rest.value) == x + y + rest.value;
    }
  }

  /** The rows of one operation turn its part of a into its part of b. */
  lemma {:induction false} PatchOp<T>(a: seq<T>, b: seq<T>, c: Opcode, rest: seq<Row<T>>, stop: nat, goal: nat)
    requires OpOk(a, b, c)
    ensures Patch(a, OpRows(a, b, c) + rest, c.i1, c.j1, stop, goal)
      == Prepend(b[c.j1..c.j2], Patch(a, rest, c.i2, c.j2, stop, goal))
  {
    var old', new' := a[c.i1..c.i2], b[c.j1..c.j2];
    match c.tag
    case Equal =>
      PatchCommon(a, old', rest, c.i1, c.j1, stop, goal);
    case Replace =>
      assert OpRows(a, b, c) + rest == Lines('-', old') + (Lines('+', new') + rest);
      PatchRemoved(a, old', Lines('+', new') + rest, c.i1, c.j1, stop, goal);
      PatchAdded(a, new', rest, c.i2, c.j1, stop, goal);
    case Delete =>
      PatchRemoved(a, old', rest, c.i1, c.j1, stop, goal);
      PrependNothing(Patch(a, rest, c.i2, c.j2, stop, goal));
    case Insert =>
      PatchAdded(a, new', rest, c.i1, c.j1, stop, goal);
  }

  lemma {:induction false} TilesTail<T>(a: seq<T>, b: seq<T>, g: seq<Opcode>)
    requires Tiles(a, b, g) && g != []
    ensures Tiles(a, b, g[1..]) && (|g| > 1 ==> g[1].i1 == g[0].i2 && g[1].j1 == g[0].j2)
  {
    assert |g| > 1 ==> Continues(g, 1);
    forall p | 0 < p < |g[1..]| ensures Continues(g[1..], p) {
      assert Continues(g, p + 1);
    }
  }

  lemma {:induction false} FirstOpRows<T>(a: seq<T>, b: seq<T>, g: seq<Opcode>, rest: seq<Row<T>>)
    requires OpsOk(a, b, g) && g != [] && OpsOk(a, b, g[1..]) && OpOk(a, b, g[0])
    ensures GroupRows(a, b, g) + rest == OpRows(a, b, g[0]) + (GroupRows(a, b, g[1..]) + rest)
  {
  }

  /** The rows of a run of operations turn their part of a into their part of b. */
  lemma {:induction false} PatchGroup<T>(a: seq<T>, b: seq<T>, g: seq<Opcode>, rest: seq<Row<T>>, stop: nat, goal: nat)
    requires IsGroup(a, b, g)
    ensures g[0].j1 <= LastOf(g).j2 <= |b|
    ensures Patch(a, GroupRows(a, b, g) + rest, g[0].i1, g[0].j1, stop, goal)
      == Prepend(b[g[0].j1..LastOf(g).j2], Patch(a, rest, LastOf(g).i2, LastOf(g).j2, stop, goal))
    decreases |g|
  {
    TilesTail(a, b, g);
    var c, tail := g[0], g[1..];
    assert OpOk(a, b, c);
    var after := GroupRows(a, b, tail) + rest;
    PatchOp(a, b, c, after, stop, goal);
    FirstOpRows(a, b, g, rest);
    if tail == [] {
      assert after == rest;
    } else {
      PatchGroup(a, b, tail, rest, stop, goal);
      JoinParts(b, c.j1, c.j2, LastOf(g).j2, Patch(a, after, c.i2, c.j2, stop, goal),
        Patch(a, rest, LastOf(g).i2, LastOf(g).j2, stop, goal));
    }
  }

  lemma {:induction false} JoinParts<T>(b: seq<T>, from: nat, mid: nat, to: nat, rest: Option<seq<T>>,
      end: Option<seq<T>>)
    requires from <= mid <= to <= |b| && rest == Prepend(b[mid..to], end)
    ensures Prepend(b[from..mid], rest) == Prepend(b[from..to], end)
  {
    PrependTwice(b[from..mid], b[mid..to], end);
    assert b[from..mid] + b[mid..to] == b[from..to];
  }

  lemma {:induction false} GroupsAreGroups<T>(a: seq<T>, b: seq<T>, groups: seq<seq<Opcode>>, i: nat, j: nat)
    requires GroupsFrom(a, b, groups, i, j)
    ensures AllGroups(a, b, groups)
    decreases |groups|
  {
    if groups != [] {
      GroupsAreGroups(a, b, groups[1..], LastOf(groups[0]).i2, LastOf(groups[0]).j2);
      forall p | 0 <= p < |groups| ensures IsGroup(a, b, groups[p]) {
        assert p > 0 ==> groups[p] == groups[1..][p - 1];
      }
    }
  }

  /** A hunk row takes over the equal stretch before the hunk. */
  lemma {:induction false} PatchHunkRow<T>(a: seq<T>, b: seq<T>, rows: seq<Row<T>>, i: nat, j: nat, i1: nat, i2: nat,
      j1: nat, j2: nat)
    requires SameGap(a, b, i, i1, j, j1) && i1 <= i2 <= |a|
    ensures Patch(a, [HunkRow(i1, i2, j1, j2)] + rows, i, j, i, j) == Prepend(b[j..j1], Patch(a, rows, i1, j1, i2, j2))
  {
    var all := [HunkRow(i1, i2, j1, j2)] + rows;
    assert all[0] == HunkRow(i1, i2, j1, j2) && all[1..] == rows;
    assert |a[i..i1]| == |b[j..j1]|;
  }

  /** A hunk's rows turn its part of a, and the equal stretch before it, into b's. */
  lemma {:induction false} PatchHunk<T>(a: seq<T>, b: seq<T>, g: seq<Opcode>, rest: seq<Row<T>>, i: nat, j: nat)
    requires IsGroup(a, b, g) && SameGap(a, b, i, g[0].i1, j, g[0].j1)
    ensures j <= LastOf(g).j2 <= |b|
    ensures Patch(a, [HunkRow(g[0].i1, LastOf(g).i2, g[0].j1, LastOf(g).j2)] + GroupRows(a, b, g) + rest, i, j, i, j)
      == Prepend(b[j..LastOf(g).j2], Patch(a, rest, LastOf(g).i2, LastOf(g).j2, LastOf(g).i2, LastOf(g).j2))
  {
    var i2, j2 := LastOf(g).i2, LastOf(g).j2;
    var rows := GroupRows(a, b, g) + rest;
    assert [HunkRow(g[0].i1, i2, g[0].j1, j2)] + GroupRows(a, b, g) + rest ==
      [HunkRow(g[0].i1, i2, g[0].j1, j2)] + rows;
    assert OpOk(a, b, LastOf(g));
    TilesAscend(a, b, g);
    PatchHunkRow(a, b, rows, i, j, g[0].i1, i2, g[0].j1, j2);
    PatchGroup(a, b, g, rest, i2, j2);
    JoinParts(b, j, g[0].j1, j2, Patch(a, rows, g[0].i1, g[0].j1, i2, j2), Patch(a, rest, i2, j2, i2, j2));
  }

  lemma {:induction false} PatchFirstHunk<T>(a: seq<T>, b: seq<T>, g: seq<Opcode>, rest: seq<Row<T>>, i: nat, j: nat)
    requires IsGroup(a, b, g) && SameGap(a, b, i, g[0].i1, j, g[0].j1)
    requires LastOf(g).i2 <= |a| && LastOf(g).j2 <= |b|
    requires Patch(a, rest, LastOf(g).i2, LastOf(g).j2, LastOf(g).i2, LastOf(g).j2) == Some(b[LastOf(g).j2..])
    ensures j <= |b|
    ensures Patch(a, [HunkRow(g[0].i1, LastOf(g).i2, g[0].j1, LastOf(g).j2)] + GroupRows(a, b, g) + rest, i, j, i, j)
      == Some(b[j..])
  {
    PatchHunk(a, b, g, rest, i, j);
    assert b[j..] == b[j..LastOf(g).j2] + b[LastOf(g).j2..];
  }

  lemma {:induction false} GroupEnds<T>(a: seq<T>, b: seq<T>, g: seq<Opcode>)
    requires IsGroup(a, b, g)
    ensures LastOf(g).i2 <= |a| && LastOf(g).j2 <= |b|
  {
    assert OpOk(a, b, LastOf(g));
  }

  /** The rows of all hunks turn the rest of a into the rest of b. */
  lemma {:induction false} PatchHunks<T>(a: seq<T>, b: seq<T>, groups: seq<seq<Opcode>>, i: nat, j: nat)
    requires GroupsFrom(a, b, groups, i, j) && AllGroups(a, b, groups)
    requires i <= |a| && j <= |b|
    ensures Patch(a, HunkRows(a, b, groups), i, j, i, j) == Some(b[j..])
    decreases |groups|
  {
    if groups != [] {
      var g, tail := groups[0], groups[1..];
      assert AllGroups(a, b, tail);
      GroupEnds(a, b, g);
      PatchHunks(a, b, tail, LastOf(g).i2, LastOf(g).j2);
      PatchFirstHunk(a, b, g, HunkRows(a, b, tail), i, j);
    }
  }

  lemma {:induction false} TilesAscend<T>(a: seq<T>, b: seq<T>, g: seq<Opcode>)
    requires IsGroup(a, b, g)
    ensures g[0].i1 <= LastOf(g).i2
    decreases |g|
  {
    TilesTail(a, b, g);
    if |g| > 1 {
      TilesAscend(a, b, g[1..]);
    }
  }
}
