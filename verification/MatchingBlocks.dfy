/** The matching blocks of two sequences: a last-in first-out worklist of sub-ranges, sorted and
    with touching blocks joined. */
module MatchingBlocks {
  import opened LongestMatch
  import opened MatchTree

  ghost predicate EqualBlock(a: seq<nat>, b: seq<nat>, x: MatchingBlock) {
    x.a + x.size <= |a| && x.b + x.size <= |b| && a[x.a..x.a + x.size] == b[x.b..x.b + x.size]
  }

  /** `x` ends before `y` starts, in both sequences. */
  ghost predicate Before(x: MatchingBlock, y: MatchingBlock) {
    x.a + x.size <= y.a && x.b + x.size <= y.b
  }

  ghost predicate Apart(x: MatchingBlock, y: MatchingBlock) {
    Before(x, y) || Before(y, x)
  }

  ghost predicate Adjacent(x: MatchingBlock, y: MatchingBlock) {
    x.a + x.size == y.a && x.b + x.size == y.b
  }

  ghost predicate Chained(s: seq<MatchingBlock>) {
    forall p, q :: 0 <= p < q < |s| ==> Before(s[p], s[q])
  }

  ghost predicate AllEqual(a: seq<nat>, b: seq<nat>, s: seq<MatchingBlock>) {
    forall p :: 0 <= p < |s| ==> s[p].size > 0 && EqualBlock(a, b, s[p])
  }

  /** Elements in the first `k` blocks. */
  ghost function SizeOfFirst(s: seq<MatchingBlock>, k: nat): nat
    requires k <= |s|
  {
    if k == 0 then 0 else SizeOfFirst(s, k - 1) + s[k - 1].size
  }

  ghost function TotalSize(s: seq<MatchingBlock>): nat {
    SizeOfFirst(s, |s|)
  }

  /** What the matching blocks of a and b are: equal blocks in order in both sequences, no two
      of them touching, then an empty block at both ends. */
  ghost predicate BlocksOf(a: seq<nat>, b: seq<nat>, s: seq<MatchingBlock>) {
    && s != [] && s[|s| - 1] == MatchingBlock(|a|, |b|, 0)
    && AllEqual(a, b, s[..|s| - 1]) && Chained(s)
    && (forall p, q :: 0 <= p < q < |s| - 1 ==> !Adjacent(s[p], s[q]))
  }

  ghost predicate InBlock(x: MatchingBlock, i: nat, j: nat) {
    x.a <= i < x.a + x.size && j - x.b == i - x.a
  }

  /** The positions a block matches with each other. */
  ghost function BlockPairs(x: MatchingBlock): iset<(nat, nat)> {
    iset p: (nat, nat) | InBlock(x, p.0, p.1)
  }

  ghost function PairsOf(s: seq<MatchingBlock>): iset<(nat, nat)> {
    if s == [] then iset{} else PairsOf(s[..|s| - 1]) + BlockPairs(s[|s| - 1])
  }

  /** The blocks match what the tree of longest matches of both sequences matches. */
  ghost predicate MatchesOf(a: seq<nat>, b: seq<nat>, autoJunk: bool, s: seq<MatchingBlock>) {
    exists t :: TreeOf(a, b, autoJunk, Range(0, |a|, 0, |b|), t) && PairsOf(InOrder(t)) == PairsOf(s)
  }

  /** The matching blocks of a and b: in order, apart, closed by the empty block at both ends, and matching what the
      tree matches; of equal sequences one block. */
  ghost predicate AllMatches(a: seq<nat>, b: seq<nat>, autoJunk: bool, s: seq<MatchingBlock>) {
    && BlocksOf(a, b, s) && MatchesOf(a, b, autoJunk, s[..|s| - 1])
    && (a == b ==> s == WholeBlock(|a|) + [MatchingBlock(|a|, |b|, 0)])
  }

  // ----- the worklist

  ghost predicate RangeApart(r: Range, x: MatchingBlock) {
    (r.ahi <= x.a && r.bhi <= x.b) || (x.a + x.size <= r.alo && x.b + x.size <= r.blo)
  }

  ghost predicate RangesApart(r: Range, s: Range) {
    (r.ahi <= s.alo && r.bhi <= s.blo) || (s.ahi <= r.alo && s.bhi <= r.blo)
  }

  /** Found blocks and pending ranges never overlap or cross. */
  ghost predicate Worklist(a: seq<nat>, b: seq<nat>, queue: seq<Range>, blocks: seq<MatchingBlock>) {
    && AllEqual(a, b, blocks)
    && (forall p :: 0 <= p < |queue| ==> queue[p].Within(a, b))
    && (forall p, q :: 0 <= p < q < |blocks| ==> Apart(blocks[p], blocks[q]))
    && (forall p, q :: 0 <= p < |queue| && 0 <= q < |blocks| ==> RangeApart(queue[p], blocks[q]))
    && (forall p, q :: 0 <= p < q < |queue| ==> RangesApart(queue[p], queue[q]))
  }

  ghost function WorkLeft(queue: seq<Range>): nat
    requires forall p :: 0 <= p < |queue| ==> queue[p].alo <= queue[p].ahi
  {
    if queue == [] then 0
    else WorkLeft(queue[..|queue| - 1]) + 2 * (queue[|queue| - 1].ahi - queue[|queue| - 1].alo) + 1
  }

  ghost predicate Ordered(queue: seq<Range>) {
    forall p :: 0 <= p < |queue| ==> queue[p].alo <= queue[p].ahi
  }

  function LeftOf(r: Range, x: MatchingBlock): seq<Range> {
    if Searched(Front(r, x)) then [Front(r, x)] else []
  }

  function RightOf(r: Range, x: MatchingBlock): seq<Range> {
    if Searched(Rear(r, x)) then [Rear(r, x)] else []
  }

  lemma {:induction false} WorkAppend(queue: seq<Range>, r: Range)
    requires Ordered(queue) && r.alo <= r.ahi
    ensures Ordered(queue + [r]) && WorkLeft(queue + [r]) == WorkLeft(queue) + 2 * (r.ahi - r.alo) + 1
  {
    assert (queue + [r])[..|queue|] == queue;
  }

  /** Splitting a range around a block in it leaves less work. */
  lemma {:induction false} SplitWork(queue: seq<Range>, r: Range, x: MatchingBlock)
    requires Ordered(queue) && x.size > 0 && r.alo <= x.a && x.a + x.size <= r.ahi
    ensures Ordered(queue + LeftOf(r, x) + RightOf(r, x))
    ensures WorkLeft(queue + LeftOf(r, x) + RightOf(r, x)) < WorkLeft(queue) + 2 * (r.ahi - r.alo) + 1
  {
    assert queue + [] == queue;
    var left, right := LeftOf(r, x), RightOf(r, x);
    if left != [] {
      WorkAppend(queue, left[0]);
    }
    if right != [] {
      WorkAppend(queue + left, right[0]);
    } else {
      assert queue + left + right == queue + left;
    }
  }

  /** A block found in a range, and the two ranges beside it, keep the worklist in order. */
  lemma {:induction false} SplitWorklist(a: seq<nat>, b: seq<nat>, queue: seq<Range>, blocks: seq<MatchingBlock>,
      r: Range, x: MatchingBlock)
    requires r.Within(a, b) && Worklist(a, b, queue + [r], blocks) && x.size > 0 && Run(a, b, r, x.a, x.b, x.size)
    ensures Worklist(a, b, queue + LeftOf(r, x) + RightOf(r, x), blocks + [x])
  {
    var whole := queue + [r];
    assert whole[|queue|] == r;
    forall p | 0 <= p < |queue| ensures whole[p] == queue[p] {}
    forall q | 0 <= q < |blocks| ensures Apart(blocks[q], x) {
      assert RangeApart(whole[|queue|], blocks[q]);
    }
    forall p | 0 <= p < |queue| ensures RangesApart(queue[p], r) {
      assert RangesApart(whole[p], whole[|queue|]);
    }
    SplitRanges(a, b, queue, blocks, r, x);
  }

  lemma {:induction false} SplitRanges(a: seq<nat>, b: seq<nat>, queue: seq<Range>, blocks: seq<MatchingBlock>,
      r: Range, x: MatchingBlock)
    requires r.Within(a, b) && Worklist(a, b, queue, blocks) && x.size > 0 && Run(a, b, r, x.a, x.b, x.size)
    requires forall q :: 0 <= q < |blocks| ==> RangeApart(r, blocks[q]) && Apart(blocks[q], x)
    requires forall p :: 0 <= p < |queue| ==> RangesApart(queue[p], r)
    ensures Worklist(a, b, queue + LeftOf(r, x) + RightOf(r, x), blocks + [x])
  {
    var after := queue + LeftOf(r, x) + RightOf(r, x);
    AfterSplit(a, b, queue, r, x, after);
    forall p, q | 0 <= p < |after| && 0 <= q < |blocks| + 1 ensures RangeApart(after[p], (blocks + [x])[q]) {
      if q < |blocks| {
        assert RangeApart(r, blocks[q]);
      } else if p < |queue| {
        assert RangesApart(queue[p], r);
      }
    }
    forall p, q | 0 <= p < q < |after| ensures RangesApart(after[p], after[q]) {
      if p < |queue| <= q {
        assert RangesApart(queue[p], r);
      }
    }
  }

  ghost predicate PartOfSplit(a: seq<nat>, b: seq<nat>, r: Range, x: MatchingBlock, s: Range) {
    s.Within(a, b) && Inside(s, r) && RangeApart(s, x)
  }

  lemma {:induction false} AfterSplit(a: seq<nat>, b: seq<nat>, queue: seq<Range>, r: Range, x: MatchingBlock,
      after: seq<Range>)
    requires r.Within(a, b) && x.size > 0 && Run(a, b, r, x.a, x.b, x.size)
    requires after == queue + LeftOf(r, x) + RightOf(r, x)
    ensures |queue| <= |after| <= |queue| + 2
    ensures forall p :: 0 <= p < |queue| ==> after[p] == queue[p]
    ensures forall p :: |queue| <= p < |after| ==> PartOfSplit(a, b, r, x, after[p])
    ensures |after| == |queue| + 2 ==> RangesApart(after[|queue|], after[|queue| + 1])
  {
  }

  ghost predicate Inside(s: Range, r: Range) {
    r.alo <= s.alo && s.ahi <= r.ahi && r.blo <= s.blo && s.bhi <= r.bhi
  }

  /** The blocks of two equal sequences. */
  function WholeBlock(n: nat): seq<MatchingBlock> {
    if n == 0 then [] else [MatchingBlock(0, 0, n)]
  }

  lemma {:induction false} EqualTexts(a: seq<nat>, b: seq<nat>, r: Range, x: MatchingBlock)
    requires r.Within(a, b) && (SameRange(a, b, r) ==> x == MatchingBlock(r.alo, r.blo, r.ahi - r.alo))
    ensures a == b && r == Range(0, |a|, 0, |b|) ==>
      x == MatchingBlock(0, 0, |a|) && LeftOf(r, x) == RightOf(r, x) == []
  {
    assert a[0..|a|] == a && b[0..|b|] == b;
  }

  // ----- the trees of the pending ranges

  ghost predicate Forest(a: seq<nat>, b: seq<nat>, autoJunk: bool, queue: seq<Range>, trees: seq<Tree>) {
    |trees| == |queue| &&
    forall p :: 0 <= p < |queue| ==> queue[p].Within(a, b) && TreeOf(a, b, autoJunk, queue[p], trees[p])
  }

  ghost function AllBlocks(trees: seq<Tree>): multiset<MatchingBlock> {
    if trees == [] then multiset{}
    else AllBlocks(trees[..|trees| - 1]) + multiset(InOrder(trees[|trees| - 1]))
  }

  lemma {:induction false} AllBlocksAppend(trees: seq<Tree>, t: Tree)
    ensures AllBlocks(trees + [t]) == AllBlocks(trees) + multiset(InOrder(t))
  {
    assert (trees + [t])[..|trees|] == trees;
  }

  /** What the trees beside a match hold, with the match, is what the whole tree holds. */
  lemma {:induction false} SplitBlocks(t: Tree)
    requires t.Match?
    ensures multiset(InOrder(t)) ==
      multiset{t.block} + multiset(InOrder(t.before)) + multiset(InOrder(t.behind))
  {
    assert InOrder(t) == InOrder(t.before) + [t.block] + InOrder(t.behind);
  }

  ghost function TreeIf(searched: bool, t: Tree): seq<Tree> {
    if searched then [t] else []
  }

  lemma {:induction false} AllBlocksIf(trees: seq<Tree>, searched: bool, t: Tree)
    requires !searched ==> t == Nothing
    ensures AllBlocks(trees + TreeIf(searched, t)) == AllBlocks(trees) + multiset(InOrder(t))
  {
    if searched {
      AllBlocksAppend(trees, t);
    } else {
      assert trees + [] == trees;
    }
  }

  lemma {:induction false} ForestIf(a: seq<nat>, b: seq<nat>, autoJunk: bool, queue: seq<Range>, trees: seq<Tree>,
      r: Range, t: Tree)
    requires Forest(a, b, autoJunk, queue, trees)
    requires Searched(r) ==> r.Within(a, b) && TreeOf(a, b, autoJunk, r, t)
    ensures Forest(a, b, autoJunk, queue + (if Searched(r) then [r] else []), trees + TreeIf(Searched(r), t))
  {
  }

  /** The block that is found is the match of the range's tree. */
  lemma {:induction false} RootOf(a: seq<nat>, b: seq<nat>, autoJunk: bool, r: Range, t: Tree, x: MatchingBlock)
    requires r.Within(a, b) && TreeOf(a, b, autoJunk, r, t) && LongestIn(a, b, autoJunk, r, x)
    ensures x.size == 0 ==> t == Nothing
    ensures x.size > 0 ==> t.Match? && t.block == x && Front(r, x).Within(a, b) && Rear(r, x).Within(a, b)
    ensures x.size > 0 ==>
      && (if Searched(Front(r, x)) then TreeOf(a, b, autoJunk, Front(r, x), t.before) else t.before == Nothing)
      && (if Searched(Rear(r, x)) then TreeOf(a, b, autoJunk, Rear(r, x), t.behind) else t.behind == Nothing)
  {
    OneLongest(a, b, autoJunk, r, x, if t.Match? then t.block else MatchingBlock(r.alo, r.blo, 0));
  }

  ghost function TreesAfter(trees: seq<Tree>, r: Range, t: Tree): seq<Tree> {
    if t.Nothing? then trees
    else trees + TreeIf(Searched(Front(r, t.block)), t.before) + TreeIf(Searched(Rear(r, t.block)), t.behind)
  }

  /** The ranges beside the block have the trees beside it. */
  lemma {:induction false} SplitForest(a: seq<nat>, b: seq<nat>, autoJunk: bool, queue: seq<Range>, trees: seq<Tree>,
      r: Range, t: Tree)
    requires Forest(a, b, autoJunk, queue, trees) && r.Within(a, b) && t.Match?
    requires Searched(Front(r, t.block)) ==>
      Front(r, t.block).Within(a, b) && TreeOf(a, b, autoJunk, Front(r, t.block), t.before)
    requires Searched(Rear(r, t.block)) ==>
      Rear(r, t.block).Within(a, b) && TreeOf(a, b, autoJunk, Rear(r, t.block), t.behind)
    ensures Forest(a, b, autoJunk, queue + LeftOf(r, t.block) + RightOf(r, t.block), TreesAfter(trees, r, t))
  {
    var middle := trees + TreeIf(Searched(Front(r, t.block)), t.before);
    ForestIf(a, b, autoJunk, queue, trees, Front(r, t.block), t.before);
    ForestIf(a, b, autoJunk, queue + LeftOf(r, t.block), middle, Rear(r, t.block), t.behind);
  }

  lemma {:induction false} SplitHolds(trees: seq<Tree>, r: Range, t: Tree)
    requires t.Match?
    requires !Searched(Front(r, t.block)) ==> t.before == Nothing
    requires !Searched(Rear(r, t.block)) ==> t.behind == Nothing
    ensures AllBlocks(TreesAfter(trees, r, t)) + multiset{t.block} == AllBlocks(trees) + multiset(InOrder(t))
  {
    var middle := trees + TreeIf(Searched(Front(r, t.block)), t.before);
    AllBlocksIf(trees, Searched(Front(r, t.block)), t.before);
    AllBlocksIf(middle, Searched(Rear(r, t.block)), t.behind);
    SplitBlocks(t);
    SumsAgree(AllBlocks(trees), multiset(InOrder(t.before)), multiset(InOrder(t.behind)), multiset{t.block});
  }

  lemma {:induction false} SumsAgree(w: multiset<MatchingBlock>, x: multiset<MatchingBlock>, y: multiset<MatchingBlock>,
      z: multiset<MatchingBlock>)
    ensures ((w + x) + y) + z == w + ((z + x) + y)
  {
  }

  lemma {:induction false} ForestLast(a: seq<nat>, b: seq<nat>, autoJunk: bool, before: seq<Range>, pending: seq<Tree>,
      n: nat)
    requires Forest(a, b, autoJunk, before, pending) && |before| == n + 1
    ensures Forest(a, b, autoJunk, before[..n], pending[..n])
    ensures before[n].Within(a, b) && TreeOf(a, b, autoJunk, before[n], pending[n])
    ensures AllBlocks(pending) == AllBlocks(pending[..n]) + multiset(InOrder(pending[n]))
  {
  }

  /** What is on the worklist after the range r, and the found blocks. */
  function QueueAfter(queue: seq<Range>, r: Range, x: MatchingBlock): seq<Range> {
    if x.size > 0 then queue + LeftOf(r, x) + RightOf(r, x) else queue
  }

  function BlocksAfter(blocks: seq<MatchingBlock>, x: MatchingBlock): seq<MatchingBlock> {
    if x.size > 0 then blocks + [x] else blocks
  }

  /** The trees that are left, and what they hold together with the block that is found. */
  lemma {:induction false} ForestNext(a: seq<nat>, b: seq<nat>, autoJunk: bool, before: seq<Range>,
      found: seq<MatchingBlock>, pending: seq<Tree>, n: nat, x: MatchingBlock)
    returns (trees: seq<Tree>)
    requires Forest(a, b, autoJunk, before, pending) && |before| == n + 1
    requires before[n].Within(a, b) && LongestIn(a, b, autoJunk, before[n], x)
    ensures Forest(a, b, autoJunk, QueueAfter(before[..n], before[n], x), trees)
    ensures multiset(BlocksAfter(found, x)) + AllBlocks(trees) == multiset(found) + AllBlocks(pending)
  {
    var queue, r, front, t := before[..n], before[n], pending[..n], pending[n];
    ForestLast(a, b, autoJunk, before, pending, n);
    RootOf(a, b, autoJunk, r, t, x);
    trees := TreesAfter(front, r, t);
    if x.size > 0 {
      SplitForest(a, b, autoJunk, queue, front, r, t);
      SplitHolds(front, r, t);
    }
  }

  lemma {:induction false} RangeTaken(a: seq<nat>, b: seq<nat>, before: seq<Range>, found: seq<MatchingBlock>, n: nat,
      x: MatchingBlock)
    requires |before| == n + 1 && Worklist(a, b, before, found) && Ordered(before)
    requires before[n].Within(a, b) && Run(a, b, before[n], x.a, x.b, x.size)
    ensures Worklist(a, b, QueueAfter(before[..n], before[n], x), BlocksAfter(found, x))
    ensures Ordered(QueueAfter(before[..n], before[n], x))
    ensures WorkLeft(QueueAfter(before[..n], before[n], x)) < WorkLeft(before)
  {
    var queue, r := before[..n], before[n];
    assert before == queue + [r];
    if x.size > 0 {
      SplitWorklist(a, b, queue, found, r, x);
      SplitWork(queue, r, x);
    } else {
      FrontWorklist(a, b, queue, r, found);
    }
  }

  lemma {:induction false} FrontWorklist(a: seq<nat>, b: seq<nat>, queue: seq<Range>, r: Range,
      found: seq<MatchingBlock>)
    requires Worklist(a, b, queue + [r], found)
    ensures Worklist(a, b, queue, found)
  {
    var whole := queue + [r];
    assert forall p :: 0 <= p < |queue| ==> whole[p] == queue[p];
  }

  /** The worklist, what was found so far, and the trees of what is left of the whole tree. */
  ghost predicate Searching(a: seq<nat>, b: seq<nat>, autoJunk: bool, queue: seq<Range>, blocks: seq<MatchingBlock>,
      trees: seq<Tree>, tree: Tree)
  {
    && Worklist(a, b, queue, blocks) && Ordered(queue) && Forest(a, b, autoJunk, queue, trees)
    && multiset(blocks) + AllBlocks(trees) == multiset(InOrder(tree))
  }

  lemma {:induction false} SearchStarts(a: seq<nat>, b: seq<nat>, autoJunk: bool, tree: Tree)
    requires TreeOf(a, b, autoJunk, Range(0, |a|, 0, |b|), tree)
    ensures Searching(a, b, autoJunk, [Range(0, |a|, 0, |b|)], [], [tree], tree)
  {
    AllBlocksAppend([], tree);
  }

  lemma {:induction false} SearchEnds(a: seq<nat>, b: seq<nat>, autoJunk: bool, blocks: seq<MatchingBlock>,
      trees: seq<Tree>, tree: Tree)
    requires Searching(a, b, autoJunk, [], blocks, trees, tree)
    ensures AllEqual(a, b, blocks) && forall p, q :: 0 <= p < q < |blocks| ==> Apart(blocks[p], blocks[q])
    ensures multiset(blocks) == multiset(InOrder(tree))
  {
  }

  method FindBlocks(a: seq<nat>, b: seq<nat>, autoJunk: bool, chain: Chain)
    returns (blocks: seq<MatchingBlock>, ghost tree: Tree)
    requires ChainFor(a, b, autoJunk, chain)
    ensures AllEqual(a, b, blocks) && forall p, q :: 0 <= p < q < |blocks| ==> Apart(blocks[p], blocks[q])
    ensures TreeOf(a, b, autoJunk, Range(0, |a|, 0, |b|), tree) && multiset(blocks) == multiset(InOrder(tree))
    ensures a == b ==> blocks == WholeBlock(|a|)
  {
    var queue := [Range(0, |a|, 0, |b|)];
    blocks := [];
    tree := TreeExists(a, b, autoJunk, Range(0, |a|, 0, |b|));
    ghost var trees := [tree];
    SearchStarts(a, b, autoJunk, tree);
    while queue != []
      invariant Searching(a, b, autoJunk, queue, blocks, trees, tree)
      invariant a == b ==>
        (queue == [Range(0, |a|, 0, |b|)] && blocks == []) || (queue == [] && blocks == WholeBlock(|a|))
      decreases WorkLeft(queue)
    {
      queue, blocks, trees := SearchNext(a, b, autoJunk, chain, queue, blocks, trees, tree);
    }
    SearchEnds(a, b, autoJunk, blocks, trees, tree);
  }

  method SearchNext(a: seq<nat>, b: seq<nat>, autoJunk: bool, chain: Chain, before: seq<Range>,
      found: seq<MatchingBlock>, ghost pending: seq<Tree>, ghost tree: Tree)
    returns (queue: seq<Range>, blocks: seq<MatchingBlock>, ghost trees: seq<Tree>)
    requires ChainFor(a, b, autoJunk, chain) && before != []
    requires Searching(a, b, autoJunk, before, found, pending, tree)
    ensures Searching(a, b, autoJunk, queue, blocks, trees, tree) && WorkLeft(queue) < WorkLeft(before)
    ensures a == b && before == [Range(0, |a|, 0, |b|)] && found == [] ==> queue == [] && blocks == WholeBlock(|a|)
  {
    ghost var x;
    queue, blocks, x := SearchRange(a, b, autoJunk, chain, before, found);
    trees := ForestNext(a, b, autoJunk, before, found, pending, |before| - 1, x);
  }

  /** Take the last range off the worklist; its block, if there is one, splits it in two. */
  method SearchRange(a: seq<nat>, b: seq<nat>, autoJunk: bool, chain: Chain, before: seq<Range>,
      found: seq<MatchingBlock>)
    returns (queue: seq<Range>, blocks: seq<MatchingBlock>, ghost x: MatchingBlock)
    requires ChainFor(a, b, autoJunk, chain) && before != [] && Worklist(a, b, before, found) && Ordered(before)
    ensures Worklist(a, b, queue, blocks) && Ordered(queue) && WorkLeft(queue) < WorkLeft(before)
    ensures var n := |before| - 1;
      before[n].Within(a, b) && LongestIn(a, b, autoJunk, before[n], x) &&
      queue == QueueAfter(before[..n], before[n], x)
    ensures blocks == BlocksAfter(found, x)
    ensures a == b && before == [Range(0, |a|, 0, |b|)] && found == [] ==> queue == [] && blocks == WholeBlock(|a|)
  {
    var n := |before| - 1;
    var r := before[n];
    var y := FindLongestMatch(a, b, autoJunk, chain, r);
    x := y;
    EqualTexts(a, b, r, y);
    RangeTaken(a, b, before, found, n, y);
    queue, blocks := before[..n], found;
    if y.size != 0 {
      blocks := blocks + [y];
      queue := queue + LeftOf(r, y) + RightOf(r, y);
    }
  }

  // ----- sorting and joining

  predicate Less(x: MatchingBlock, y: MatchingBlock) {
    if x.a != y.a then x.a < y.a else if x.b != y.b then x.b < y.b else x.size < y.size
  }

  function Insert(s: seq<MatchingBlock>, x: MatchingBlock): seq<MatchingBlock> {
    if s == [] || !Less(x, s[|s| - 1]) then s + [x] else Insert(s[..|s| - 1], x) + [s[|s| - 1]]
  }

  /** The order std::sort gives. */
  function Sorted(blocks: seq<MatchingBlock>): seq<MatchingBlock> {
    if blocks == [] then [] else Insert(Sorted(blocks[..|blocks| - 1]), blocks[|blocks| - 1])
  }

  lemma {:induction false} InsertKeepsElements(s: seq<MatchingBlock>, x: MatchingBlock)
    ensures multiset(Insert(s, x)) == multiset(s) + multiset{x}
  {
    if s != [] && Less(x, s[|s| - 1]) {
      var front, last := s[..|s| - 1], s[|s| - 1];
      InsertKeepsElements(front, x);
      assert s == front + [last];
    }
  }

  lemma {:induction false} SortedKeepsElements(blocks: seq<MatchingBlock>)
    ensures multiset(Sorted(blocks)) == multiset(blocks)
  {
    if blocks != [] {
      var front, last := blocks[..|blocks| - 1], blocks[|blocks| - 1];
      SortedKeepsElements(front);
      InsertKeepsElements(Sorted(front), last);
      assert blocks == front + [last];
    }
  }

  lemma {:induction false} InSameMultiset(s: seq<MatchingBlock>, t: seq<MatchingBlock>, p: int)
    requires multiset(s) == multiset(t) && 0 <= p < |s|
    ensures s[p] in t
  {
    assert s[p] in multiset(s);
    assert s[p] in multiset(t);
  }

  lemma {:induction false} InsertBefore(front: seq<MatchingBlock>, x: MatchingBlock, last: MatchingBlock)
    requires Before(x, last) && forall p :: 0 <= p < |front| ==> Before(front[p], last)
    ensures forall p :: 0 <= p < |Insert(front, x)| ==> Before(Insert(front, x)[p], last)
  {
    InsertKeepsElements(front, x);
    forall p | 0 <= p < |Insert(front, x)| ensures Before(Insert(front, x)[p], last) {
      InSameMultiset(Insert(front, x), front + [x], p);
    }
  }

  lemma {:induction false} InsertChained(s: seq<MatchingBlock>, x: MatchingBlock)
    requires Chained(s) && x.size > 0 && forall p :: 0 <= p < |s| ==> s[p].size > 0 && Apart(s[p], x)
    ensures Chained(Insert(s, x))
  {
    if s != [] {
      var front, last := s[..|s| - 1], s[|s| - 1];
      assert Apart(s[|s| - 1], x);
      if Less(x, last) {
        InsertChained(front, x);
        InsertBefore(front, x, last);
      } else {
        forall p | 0 <= p < |s| ensures Before(s[p], x) {
          assert p < |s| - 1 ==> Before(s[p], last);
        }
      }
    }
  }

  lemma {:induction false} SortedChained(a: seq<nat>, b: seq<nat>, blocks: seq<MatchingBlock>)
    requires AllEqual(a, b, blocks) && forall p, q :: 0 <= p < q < |blocks| ==> Apart(blocks[p], blocks[q])
    ensures AllEqual(a, b, Sorted(blocks)) && Chained(Sorted(blocks))
  {
    SortedKeepsElements(blocks);
    forall p | 0 <= p < |Sorted(blocks)| ensures Sorted(blocks)[p].size > 0 && EqualBlock(a, b, Sorted(blocks)[p]) {
      InSameMultiset(Sorted(blocks), blocks, p);
    }
    if blocks != [] {
      var front, last := blocks[..|blocks| - 1], blocks[|blocks| - 1];
      SortedChained(a, b, front);
      SortedKeepsElements(front);
      forall p | 0 <= p < |Sorted(front)| ensures Apart(Sorted(front)[p], last) {
        InSameMultiset(Sorted(front), front, p);
      }
      InsertChained(Sorted(front), last);
    }
  }

  /** Two touching equal blocks make one. */
  lemma {:induction false} JoinEqual(a: seq<nat>, b: seq<nat>, x: MatchingBlock, y: MatchingBlock)
    requires EqualBlock(a, b, x) && EqualBlock(a, b, y) && Adjacent(x, y)
    ensures EqualBlock(a, b, MatchingBlock(x.a, x.b, x.size + y.size))
  {
    assert a[x.a..x.a + x.size + y.size] == a[x.a..x.a + x.size] + a[y.a..y.a + y.size];
    assert b[x.b..x.b + x.size + y.size] == b[x.b..x.b + x.size] + b[y.b..y.b + y.size];
  }

  /** The joined blocks so far, and the block being joined. */
  ghost predicate Joined(a: seq<nat>, b: seq<nat>, done: seq<MatchingBlock>, last: MatchingBlock) {
    && AllEqual(a, b, done) && Chained(done) && EqualBlock(a, b, last)
    && (last.size == 0 ==> done == [] && last.a == 0 && last.b == 0)
    && (forall p :: 0 <= p < |done| ==> Before(done[p], last) && !Adjacent(done[p], last))
    && (forall p, q :: 0 <= p < q < |done| ==> !Adjacent(done[p], done[q]))
  }

  lemma {:induction false} JoinNext(a: seq<nat>, b: seq<nat>, done: seq<MatchingBlock>, last: MatchingBlock,
      x: MatchingBlock)
    requires Joined(a, b, done, last) && EqualBlock(a, b, x) && x.size > 0 && Before(last, x)
    ensures Adjacent(last, x) ==> Joined(a, b, done, MatchingBlock(last.a, last.b, last.size + x.size))
    ensures !Adjacent(last, x) ==> Joined(a, b, if last.size != 0 then done + [last] else done, x)
  {
    if Adjacent(last, x) {
      JoinEqual(a, b, last, x);
    } else {
      var next := if last.size != 0 then done + [last] else done;
      forall p | 0 <= p < |next| ensures Before(next[p], x) && !Adjacent(next[p], x) {
        if p < |done| {
          assert Before(done[p], last) && !Adjacent(done[p], last);
        }
      }
    }
  }

  lemma {:induction false} PairsAppend(s: seq<MatchingBlock>, x: MatchingBlock)
    ensures PairsOf(s + [x]) == PairsOf(s) + BlockPairs(x)
  {
    assert (s + [x])[..|s|] == s;
  }

  lemma {:induction false} AdjacentPairs(x: MatchingBlock, y: MatchingBlock)
    requires Adjacent(x, y)
    ensures BlockPairs(MatchingBlock(x.a, x.b, x.size + y.size)) == BlockPairs(x) + BlockPairs(y)
  {
  }

  /** Joining touching blocks, or leaving out an empty one, keeps the matched pairs. */
  lemma {:induction false} JoinedPairs(done: seq<MatchingBlock>, last: MatchingBlock, x: MatchingBlock)
    ensures Adjacent(last, x) ==>
      PairsOf(done + [MatchingBlock(last.a, last.b, last.size + x.size)]) == PairsOf(done + [last]) + BlockPairs(x)
    ensures PairsOf((if last.size != 0 then done + [last] else done) + [x]) ==
      PairsOf(done + [last]) + BlockPairs(x)
  {
    PairsAppend(done, last);
    PairsAppend(done, x);
    PairsAppend(done + [last], x);
    if Adjacent(last, x) {
      AdjacentPairs(last, x);
      PairsAppend(done, MatchingBlock(last.a, last.b, last.size + x.size));
    }
  }

  /** Join x to the last block when they touch, or put the last block aside. */
  method JoinBlock(ghost a: seq<nat>, ghost b: seq<nat>, done: seq<MatchingBlock>, before: MatchingBlock,
      x: MatchingBlock)
    returns (joined: seq<MatchingBlock>, last: MatchingBlock)
    requires Joined(a, b, done, before) && EqualBlock(a, b, x) && x.size > 0 && Before(before, x)
    ensures Joined(a, b, joined, last) && last.a + last.size == x.a + x.size && last.b + last.size == x.b + x.size
    ensures done == [] && before == MatchingBlock(0, 0, 0) && x.a == 0 == x.b ==> joined == [] && last == x
    ensures PairsOf(joined + [last]) == PairsOf(done + [before]) + BlockPairs(x)
  {
    JoinNext(a, b, done, before, x);
    JoinedPairs(done, before, x);
    joined, last := done, x;
    if before.a + before.size == x.a && before.b + before.size == x.b {
      last := MatchingBlock(before.a, before.b, before.size + x.size);
    } else if before.size != 0 {
      joined := joined + [before];
    }
  }

  /** The last block, unless it is empty, and the empty block at both ends close the list. */
  lemma {:induction false} JoinedEnds(a: seq<nat>, b: seq<nat>, done: seq<MatchingBlock>, last: MatchingBlock)
    requires Joined(a, b, done, last)
    ensures BlocksOf(a, b, (if last.size != 0 then done + [last] else done) + [MatchingBlock(|a|, |b|, 0)])
  {
    ClosedIsBlocks(a, b, if last.size != 0 then done + [last] else done);
  }

  lemma {:induction false} ClosedIsBlocks(a: seq<nat>, b: seq<nat>, body: seq<MatchingBlock>)
    requires AllEqual(a, b, body) && Chained(body)
    requires forall p, q :: 0 <= p < q < |body| ==> !Adjacent(body[p], body[q])
    ensures BlocksOf(a, b, body + [MatchingBlock(|a|, |b|, 0)])
  {
    var all := body + [MatchingBlock(|a|, |b|, 0)];
    assert all[..|all| - 1] == body;
    forall p | 0 <= p < |body| ensures Before(all[p], all[|body|]) {
      assert EqualBlock(a, b, body[p]);
    }
  }

  lemma {:induction false} PairsNext(s: seq<MatchingBlock>, p: nat)
    requires p < |s|
    ensures PairsOf(s[..p + 1]) == PairsOf(s[..p]) + BlockPairs(s[p])
  {
    assert s[..p + 1][..p] == s[..p];
  }

  /** The first p blocks are joined. */
  ghost predicate JoinedUpTo(a: seq<nat>, b: seq<nat>, blocks: seq<MatchingBlock>, p: nat, done: seq<MatchingBlock>,
      last: MatchingBlock)
    requires p <= |blocks|
  {
    && Joined(a, b, done, last) && PairsOf(done + [last]) == PairsOf(blocks[..p])
    && (p < |blocks| ==> Before(last, blocks[p]))
    && (p == 0 ==> done == [] && last == MatchingBlock(0, 0, 0))
    && (p == 1 && blocks[0].a == 0 == blocks[0].b ==> done == [] && last == blocks[0])
  }

  method JoinNextBlock(ghost a: seq<nat>, ghost b: seq<nat>, blocks: seq<MatchingBlock>, p: nat,
      done: seq<MatchingBlock>, before: MatchingBlock)
    returns (joined: seq<MatchingBlock>, last: MatchingBlock)
    requires p < |blocks| && AllEqual(a, b, blocks) && Chained(blocks) && JoinedUpTo(a, b, blocks, p, done, before)
    ensures JoinedUpTo(a, b, blocks, p + 1, joined, last)
  {
    assert p + 1 < |blocks| ==> Before(blocks[p], blocks[p + 1]);
    joined, last := JoinBlock(a, b, done, before, blocks[p]);
    PairsNext(blocks, p);
  }

  method JoinAll(ghost a: seq<nat>, ghost b: seq<nat>, blocks: seq<MatchingBlock>)
    returns (joined: seq<MatchingBlock>, last: MatchingBlock)
    requires AllEqual(a, b, blocks) && Chained(blocks)
    ensures JoinedUpTo(a, b, blocks, |blocks|, joined, last)
  {
    joined, last := [], MatchingBlock(0, 0, 0);
    PairsAppend([], last);
    for p: nat := 0 to |blocks|
      invariant JoinedUpTo(a, b, blocks, p, joined, last)
    {
      joined, last := JoinNextBlock(a, b, blocks, p, joined, last);
    }
  }

  method JoinBlocks(a: seq<nat>, b: seq<nat>, blocks: seq<MatchingBlock>) returns (joined: seq<MatchingBlock>)
    requires AllEqual(a, b, blocks) && Chained(blocks)
    ensures BlocksOf(a, b, joined) && PairsOf(joined[..|joined| - 1]) == PairsOf(blocks)
    ensures |blocks| <= 1 && (blocks != [] ==> blocks[0].a == 0 == blocks[0].b) ==>
      joined == blocks + [MatchingBlock(|a|, |b|, 0)]
  {
    var done, last := JoinAll(a, b, blocks);
    JoinedEnds(a, b, done, last);
    PairsAppend(done, last);
    assert blocks[..|blocks|] == blocks;
    joined := CloseList(done, last, MatchingBlock(|a|, |b|, 0));
    assert |blocks| == 1 ==> blocks == [blocks[0]];
  }

  function CloseList(done: seq<MatchingBlock>, last: MatchingBlock, end: MatchingBlock): (s: seq<MatchingBlock>)
    ensures s != [] && s[..|s| - 1] == if last.size != 0 then done + [last] else done
  {
    (if last.size != 0 then done + [last] else done) + [end]
  }

  lemma {:induction false} SortedOfOne(blocks: seq<MatchingBlock>)
    ensures |blocks| <= 1 ==> Sorted(blocks) == blocks
  {
    if |blocks| == 1 {
      assert blocks[..0] == [];
    }
  }

  // ----- the found blocks, sorted, are the tree's

  ghost predicate InRange(r: Range, x: MatchingBlock) {
    r.alo <= x.a && x.a + x.size <= r.ahi && r.blo <= x.b && x.b + x.size <= r.bhi && x.size > 0
  }

  ghost predicate AllInRange(r: Range, s: seq<MatchingBlock>) {
    forall p :: 0 <= p < |s| ==> InRange(r, s[p])
  }

  lemma {:induction false} ChainedJoins(r: Range, s: seq<MatchingBlock>, x: MatchingBlock, t: seq<MatchingBlock>)
    requires InRange(r, x) && Chained(s) && Chained(t) && AllInRange(Front(r, x), s) && AllInRange(Rear(r, x), t)
    ensures Chained(s + [x] + t) && AllInRange(r, s + [x] + t)
  {
  }

  lemma {:induction false} InOrderChained(a: seq<nat>, b: seq<nat>, autoJunk: bool, r: Range, t: Tree)
    requires r.Within(a, b) && TreeOf(a, b, autoJunk, r, t)
    ensures Chained(InOrder(t)) && AllInRange(r, InOrder(t))
    decreases t
  {
    if t.Match? {
      var x := t.block;
      if Searched(Front(r, x)) {
        InOrderChained(a, b, autoJunk, Front(r, x), t.before);
      }
      if Searched(Rear(r, x)) {
        InOrderChained(a, b, autoJunk, Rear(r, x), t.behind);
      }
      ChainedJoins(r, InOrder(t.before), x, InOrder(t.behind));
    }
  }

  ghost predicate Filled(s: seq<MatchingBlock>) {
    forall p :: 0 <= p < |s| ==> s[p].size > 0
  }

  lemma {:induction false} LastIsBehind(s: seq<MatchingBlock>, p: nat)
    requires Chained(s) && p < |s|
    ensures p == |s| - 1 || Before(s[p], s[|s| - 1])
  {
  }

  lemma {:induction false} SameLast(s: seq<MatchingBlock>, t: seq<MatchingBlock>)
    requires s != [] && t != [] && Chained(s) && Chained(t) && Filled(s) && Filled(t) && multiset(s) == multiset(t)
    ensures s[|s| - 1] == t[|t| - 1]
  {
    var x, y := s[|s| - 1], t[|t| - 1];
    InSameMultiset(s, t, |s| - 1);
    InSameMultiset(t, s, |t| - 1);
    var p: nat :| p < |t| && t[p] == x;
    var q: nat :| q < |s| && s[q] == y;
    LastIsBehind(t, p);
    LastIsBehind(s, q);
  }

  lemma {:induction false} ChainedFront(s: seq<MatchingBlock>, m: seq<MatchingBlock>, x: MatchingBlock)
    requires s == m + [x] && Chained(s) && Filled(s)
    ensures Chained(m) && Filled(m) && multiset(m) == multiset(s) - multiset{x}
  {
    assert forall p :: 0 <= p < |m| ==> s[p] == m[p];
  }

  lemma {:induction false} LastSplits(s: seq<MatchingBlock>, n: nat)
    requires |s| == n + 1
    ensures s == s[..n] + [s[n]]
  {
  }

  /** Blocks in order are told by which blocks they are. */
  lemma {:induction false} ChainedSame(s: seq<MatchingBlock>, t: seq<MatchingBlock>)
    requires Chained(s) && Chained(t) && Filled(s) && Filled(t) && multiset(s) == multiset(t)
    ensures s == t
    decreases |s|
  {
    SameLength(s, t);
    if s != [] {
      SameLast(s, t);
      var n := |s| - 1;
      var front, back, x := s[..n], t[..n], s[n];
      LastSplits(s, n);
      LastSplits(t, n);
      ChainedFront(s, front, x);
      ChainedFront(t, back, x);
      ChainedSame(front, back);
    }
  }

  lemma {:induction false} SameLength(s: seq<MatchingBlock>, t: seq<MatchingBlock>)
    requires multiset(s) == multiset(t)
    ensures |s| == |t|
  {
    assert |s| == |multiset(s)| == |multiset(t)| == |t|;
  }

  /** The found blocks, sorted, are the tree's from left to right. */
  lemma {:induction false} FoundInOrder(a: seq<nat>, b: seq<nat>, autoJunk: bool, r: Range, tree: Tree,
      found: seq<MatchingBlock>, sorted: seq<MatchingBlock>)
    requires r.Within(a, b) && TreeOf(a, b, autoJunk, r, tree) && multiset(found) == multiset(InOrder(tree))
    requires multiset(sorted) == multiset(found) && AllEqual(a, b, sorted) && Chained(sorted)
    ensures sorted == InOrder(tree)
  {
    InOrderChained(a, b, autoJunk, r, tree);
    ChainedSame(sorted, InOrder(tree));
  }

  method ComputeMatchingBlocks(a: seq<nat>, b: seq<nat>, autoJunk: bool, chain: Chain)
    returns (blocks: seq<MatchingBlock>)
    requires ChainFor(a, b, autoJunk, chain)
    ensures AllMatches(a, b, autoJunk, blocks)
  {
    var found;
    ghost var tree;
    found, tree := FindBlocks(a, b, autoJunk, chain);
    SortedChained(a, b, found);
    SortedOfOne(found);
    blocks := JoinBlocks(a, b, Sorted(found));
    SortedKeepsElements(found);
    FoundInOrder(a, b, autoJunk, Range(0, |a|, 0, |b|), tree, found, Sorted(found));
  }
}
