/** The control-flow graph of one function: successor lists resolved from block ends, their
    transpose, strongly and weakly connected components, and the figures built on them. */
module ControlFlow {
  import opened Graphs
  import Tarjan = TarjanSearch
  import opened StrongComponents
  import opened WeakComponents
  import opened Transpose

  const CFG_NO_BLOCK: nat := 0xFFFFFFFF
  const CFG_NO_TARGET: int := -0x80000000
  const CFG_MAX_BLOCKS: nat := 32768

  datatype CfgBlockEnd =
    | Fallthrough
    | RangeEnd
    | DirectBranch
    | ConditionalBranch
    | IndirectBranch
    | Return
    | NoReturn
    | DecodeError

  datatype CfgBlock = CfgBlock(
    offset: nat,
    size: nat,
    instructionCount: nat,
    end: CfgBlockEnd,
    targetOffset: int,
    firstSuccessor: nat,
    successorCount: nat,
    firstPredecessor: nat,
    predecessorCount: nat)

  /** The part of `all` a block owns, cut off at the end of `all`. */
  function OwnedPart(first: nat, count: nat, all: seq<nat>): seq<nat> {
    if first >= |all| then []
    else if count < |all| - first then all[first..first + count]
    else all[first..]
  }

  lemma {:induction false} OwnedStretch(first: nat, count: nat, all: seq<nat>)
    requires first + count <= |all|
    ensures OwnedPart(first, count, all) == all[first..first + count]
  {
  }

  function SuccessorsOf(blocks: seq<CfgBlock>, successorBlocks: seq<nat>, block: nat): seq<nat> {
    if block >= |blocks| then []
      else OwnedPart(blocks[block].firstSuccessor, blocks[block].successorCount, successorBlocks)
  }

  function PredecessorsOf(blocks: seq<CfgBlock>, predecessorBlocks: seq<nat>, block: nat): seq<nat> {
    if block >= |blocks| then []
      else OwnedPart(blocks[block].firstPredecessor, blocks[block].predecessorCount, predecessorBlocks)
  }

  function FirstPredecessors(blocks: seq<CfgBlock>): seq<nat> {
    seq(|blocks|, v requires 0 <= v < |blocks| => blocks[v].firstPredecessor)
  }

  ghost function GraphOf(blocks: seq<CfgBlock>, successorBlocks: seq<nat>): Adjacency {
    seq(|blocks|, i requires 0 <= i < |blocks| => SuccessorsOf(blocks, successorBlocks, i))
  }

  ghost function EdgesOf(g: Adjacency): Edges {
    set u, v | 0 <= u < |g| && v in g[u] && v < |g| :: (u, v)
  }

  /** Every block owns the stretch of `successorBlocks` right after its predecessor's in block order. */
  ghost predicate LaidOut(blocks: seq<CfgBlock>, successorBlocks: seq<nat>) {
    forall i :: 0 <= i < |blocks| ==> Adjoins(blocks, successorBlocks, i)
  }

  ghost predicate Adjoins(blocks: seq<CfgBlock>, successorBlocks: seq<nat>, i: int)
    requires 0 <= i < |blocks|
  {
    blocks[i].firstSuccessor + blocks[i].successorCount == FirstAfter(blocks, successorBlocks, i)
  }

  ghost function FirstAfter(blocks: seq<CfgBlock>, successorBlocks: seq<nat>, i: int): nat
    requires 0 <= i < |blocks|
  {
    if i + 1 < |blocks| then blocks[i + 1].firstSuccessor else |successorBlocks|
  }

  /** The edges of the nodes before `i`, and those among the first `j` entries of node `i`. */
  ghost function EdgesUpTo(g: Adjacency, i: nat, j: nat): Edges
    requires i < |g| ==> j <= |g[i]|
  {
    set u, v | 0 <= u < |g| && v in g[u] && v < |g| && (u < i || (u == i && v in g[u][..j])) :: (u, v)
  }

  /** Number of entries in the lists of the nodes before `i`. */
  ghost function EntriesBefore(g: Adjacency, i: nat): nat
    requires i <= |g|
  {
    if i == 0 then 0 else EntriesBefore(g, i - 1) + |g[i - 1]|
  }

  ghost predicate DistinctRow(row: seq<nat>) {
    forall i, j :: 0 <= i < j < |row| ==> row[i] != row[j]
  }

  ghost function RowEdges(u: nat, row: seq<nat>): Edges {
    set v | v in row :: (u, v)
  }

  lemma {:induction false} RowSize(u: nat, row: seq<nat>)
    requires DistinctRow(row)
    ensures |RowEdges(u, row)| == |row|
  {
    if row != [] {
      var front, last := row[..|row| - 1], row[|row| - 1];
      RowSize(u, front);
      assert row == front + [last];
      assert RowEdges(u, row) == RowEdges(u, front) + {(u, last)};
      assert (u, last) !in RowEdges(u, front);
    } else {
      assert RowEdges(u, row) == {};
    }
  }

  /** When no list repeats a node, the entries of the lists are as many as the edges. */
  lemma {:induction false} EntriesAreEdges(g: Adjacency, i: nat)
    requires i <= |g| && forall u :: 0 <= u < |g| ==> DistinctRow(g[u]) && forall v :: v in g[u] ==> v < |g|
    ensures |EdgesUpTo(g, i, 0)| == EntriesBefore(g, i)
  {
    if i == 0 {
      assert EdgesUpTo(g, i, 0) == {};
    } else {
      var row := g[i - 1];
      EntriesAreEdges(g, i - 1);
      RowSize(i - 1, row);
      var before := EdgesUpTo(g, i - 1, 0);
      assert EdgesUpTo(g, i, 0) == before + RowEdges(i - 1, row);
      assert before !! RowEdges(i - 1, row);
    }
  }

  /** The lists of a laid-out graph hold every stored successor once. */
  lemma {:induction false} LaidOutEntries(blocks: seq<CfgBlock>, successorBlocks: seq<nat>, i: nat)
    requires LaidOut(blocks, successorBlocks) && i <= |blocks| && blocks != []
    requires blocks[0].firstSuccessor == 0
    ensures EntriesBefore(GraphOf(blocks, successorBlocks), i) ==
      if i == 0 then 0 else FirstAfter(blocks, successorBlocks, i - 1)
    decreases i
  {
    if i > 0 {
      LaidOutEntries(blocks, successorBlocks, i - 1);
      RowLength(blocks, successorBlocks, i - 1);
    }
  }

  lemma {:induction false} RowLength(blocks: seq<CfgBlock>, successorBlocks: seq<nat>, i: nat)
    requires LaidOut(blocks, successorBlocks) && i < |blocks|
    ensures blocks[i].firstSuccessor + |GraphOf(blocks, successorBlocks)[i]| == FirstAfter(blocks, successorBlocks, i)
  {
    LaidOutOwned(blocks, successorBlocks, i);
    assert Adjoins(blocks, successorBlocks, i);
    assert GraphOf(blocks, successorBlocks)[i] == SuccessorsOf(blocks, successorBlocks, i);
  }

  lemma {:induction false} FirstInRange(blocks: seq<CfgBlock>, successorBlocks: seq<nat>, i: nat)
    requires LaidOut(blocks, successorBlocks) && i < |blocks|
    ensures FirstAfter(blocks, successorBlocks, i) <= |successorBlocks|
    decreases |blocks| - i
  {
    if i + 1 < |blocks| {
      FirstInRange(blocks, successorBlocks, i + 1);
      assert Adjoins(blocks, successorBlocks, i + 1);
    }
  }

  /** A laid-out block owns exactly its counted successors. */
  lemma {:induction false} LaidOutOwned(blocks: seq<CfgBlock>, successorBlocks: seq<nat>, i: nat)
    requires LaidOut(blocks, successorBlocks) && i < |blocks|
    ensures blocks[i].firstSuccessor + blocks[i].successorCount <= |successorBlocks|
    ensures SuccessorsOf(blocks, successorBlocks, i) ==
      successorBlocks[blocks[i].firstSuccessor..blocks[i].firstSuccessor + blocks[i].successorCount]
  {
    FirstInRange(blocks, successorBlocks, i);
    assert Adjoins(blocks, successorBlocks, i);
  }

  // ----- where a block's control goes

  ghost predicate OffsetsAscend(blocks: seq<CfgBlock>) {
    forall i, j :: 0 <= i < j < |blocks| ==> blocks[i].offset < blocks[j].offset
  }

  ghost predicate TargetsInRange(blocks: seq<CfgBlock>, length: nat) {
    forall i :: 0 <= i < |blocks| ==> blocks[i].targetOffset == CFG_NO_TARGET || 0 <= blocks[i].targetOffset < length
  }

  /** Control can leave the block `b` for the code at `offset`. */
  predicate FlowsTo(b: CfgBlock, offset: int) {
    match b.end
    case ConditionalBranch => (b.targetOffset != CFG_NO_TARGET && offset == b.targetOffset) ||
      offset == b.offset + b.size
    case DirectBranch => b.targetOffset != CFG_NO_TARGET && offset == b.targetOffset
    case Fallthrough => offset == b.offset + b.size
    case RangeEnd => offset == b.offset + b.size
    case _ => false
  }

  /** Position of the block that starts at `offset`, if there is one. */
  function BlockAtOffset(blocks: seq<CfgBlock>, offset: nat, from: nat): (r: nat)
    requires from <= |blocks| <= CFG_MAX_BLOCKS
    ensures r == CFG_NO_BLOCK || (from <= r < |blocks| && blocks[r].offset == offset)
    ensures r == CFG_NO_BLOCK ==> forall i :: from <= i < |blocks| ==> blocks[i].offset != offset
    decreases |blocks| - from
  {
    if from == |blocks| then CFG_NO_BLOCK
    else if blocks[from].offset == offset then from
    else BlockAtOffset(blocks, offset, from + 1)
  }

  function ResolveSuccessor(blocks: seq<CfgBlock>, length: nat, offset: int): nat
    requires |blocks| <= CFG_MAX_BLOCKS
  {
    if offset < 0 || offset >= length then CFG_NO_BLOCK else BlockAtOffset(blocks, offset, 0)
  }

  function Candidates(blocks: seq<CfgBlock>, length: nat, b: CfgBlock): (r: seq<nat>)
    requires |blocks| <= CFG_MAX_BLOCKS
    ensures |r| == 2
  {
    var target :=
      if b.targetOffset != CFG_NO_TARGET then ResolveSuccessor(blocks, length, b.targetOffset) else CFG_NO_BLOCK;
    var next := ResolveSuccessor(blocks, length, b.offset + b.size);
    match b.end
    case ConditionalBranch => [target, next]
    case DirectBranch => [target, CFG_NO_BLOCK]
    case Fallthrough => [next, CFG_NO_BLOCK]
    case RangeEnd => [next, CFG_NO_BLOCK]
    case _ => [CFG_NO_BLOCK, CFG_NO_BLOCK]
  }

  ghost function Kept(candidates: seq<nat>): seq<nat> {
    if candidates == [] then []
    else
      var kept, last := Kept(candidates[..|candidates| - 1]), candidates[|candidates| - 1];
      if last == CFG_NO_BLOCK || last in kept then kept else kept + [last]
  }

  /** The kept candidates are the blocks control can flow to, each once. */
  lemma {:induction false} KeptMeaning(blocks: seq<CfgBlock>, length: nat, b: CfgBlock)
    requires |blocks| <= CFG_MAX_BLOCKS && OffsetsAscend(blocks)
    requires b.targetOffset == CFG_NO_TARGET || 0 <= b.targetOffset < length
    ensures var kept := Kept(Candidates(blocks, length, b));
      && (forall v: nat :: v in kept <==> v < |blocks| && blocks[v].offset < length && FlowsTo(b, blocks[v].offset))
      && (forall i, j :: 0 <= i < j < |kept| ==> kept[i] != kept[j])
  {
    var cs := Candidates(blocks, length, b);
    assert cs[..1] == [cs[0]] && cs[..1][..0] == [] && cs[..2] == cs;
    assert Kept(cs[..1]) == if cs[0] == CFG_NO_BLOCK then [] else [cs[0]];
    forall v: nat ensures v in Kept(cs) <==> v < |blocks| && blocks[v].offset < length && FlowsTo(b, blocks[v].offset) {
      assert v in Kept(cs) <==> v != CFG_NO_BLOCK && (v == cs[0] || v == cs[1]);
    }
  }

  /** `after` differs from `before` at most in the successor ranges. */
  ghost predicate SameButSuccessors(before: seq<CfgBlock>, after: seq<CfgBlock>) {
    && |before| == |after|
    && forall i :: 0 <= i < |before| ==>
         after[i] == before[i].(firstSuccessor := after[i].firstSuccessor, successorCount := after[i].successorCount)
  }

  lemma {:induction false} SameOffsetsFind(before: seq<CfgBlock>, after: seq<CfgBlock>, offset: nat, from: nat)
    requires SameButSuccessors(before, after) && from <= |before| <= CFG_MAX_BLOCKS
    ensures BlockAtOffset(after, offset, from) == BlockAtOffset(before, offset, from)
    decreases |before| - from
  {
    if from < |before| {
      SameOffsetsFind(before, after, offset, from + 1);
      assert after[from].offset == before[from].offset;
    }
  }

  lemma {:induction false} SameCandidates(before: seq<CfgBlock>, after: seq<CfgBlock>, length: nat, i: nat)
    requires SameButSuccessors(before, after) && i < |before| <= CFG_MAX_BLOCKS
    ensures Candidates(after, length, after[i]) == Candidates(before, length, before[i])
  {
    var b := before[i];
    if 0 <= b.targetOffset {
      SameOffsetsFind(before, after, b.targetOffset, 0);
    }
    SameOffsetsFind(before, after, b.offset + b.size, 0);
  }

  ghost function SuccessorList(blocks: seq<CfgBlock>, length: nat, i: int): seq<nat>
    requires 0 <= i < |blocks| <= CFG_MAX_BLOCKS
  {
    Kept(Candidates(blocks, length, blocks[i]))
  }

  /** The lists of the first `k` blocks, one after the other. */
  ghost function Lists(blocks: seq<CfgBlock>, length: nat, k: nat): seq<nat>
    requires k <= |blocks| <= CFG_MAX_BLOCKS
  {
    if k == 0 then [] else Lists(blocks, length, k - 1) + SuccessorList(blocks, length, k - 1)
  }

  lemma {:induction false} ListsPrefix(blocks: seq<CfgBlock>, length: nat, i: nat, k: nat)
    requires i <= k <= |blocks| <= CFG_MAX_BLOCKS
    ensures Lists(blocks, length, i) <= Lists(blocks, length, k)
  {
    if i < k {
      ListsPrefix(blocks, length, i, k - 1);
    }
  }

  /** `after` gives each of the first `k` blocks its place in the concatenated lists. */
  ghost predicate Placed(before: seq<CfgBlock>, after: seq<CfgBlock>, length: nat, k: nat)
    requires |before| == |after| && k <= |before| <= CFG_MAX_BLOCKS
  {
    forall i: nat {:trigger PlacedAt(before, after, length, i)} :: i < k ==> PlacedAt(before, after, length, i)
  }

  ghost predicate PlacedAt(before: seq<CfgBlock>, after: seq<CfgBlock>, length: nat, i: nat)
    requires |before| == |after| <= CFG_MAX_BLOCKS && i < |before|
  {
    after[i].firstSuccessor == |Lists(before, length, i)| &&
      after[i].successorCount == |SuccessorList(before, length, i)|
  }

  ghost predicate SameElsewhere(before: seq<CfgBlock>, after: seq<CfgBlock>, index: nat) {
    |after| == |before| && forall i :: 0 <= i < |after| && i != index ==> after[i] == before[i]
  }

  lemma {:induction false} PlacedNext(start: seq<CfgBlock>, before: seq<CfgBlock>, after: seq<CfgBlock>, length: nat,
      index: nat)
    requires |start| == |before| == |after| <= CFG_MAX_BLOCKS && index < |start|
    requires Placed(start, before, length, index) && SameElsewhere(before, after, index) &&
      PlacedAt(start, after, length, index)
    ensures Placed(start, after, length, index + 1)
  {
    forall i: nat | i < index ensures PlacedAt(start, after, length, i) {
      assert PlacedAt(start, before, length, i);
    }
  }

  /** How many of the first `k` blocks control cannot leave for another block. */
  ghost function ExitsBefore(blocks: seq<CfgBlock>, length: nat, k: nat): nat
    requires k <= |blocks| <= CFG_MAX_BLOCKS
  {
    if k == 0 then 0
    else ExitsBefore(blocks, length, k - 1) + if SuccessorList(blocks, length, k - 1) == [] then 1 else 0
  }

  /** The blocks without a successor. */
  ghost function Exits(g: Adjacency, k: nat): set<nat>
    requires k <= |g|
  {
    set u: nat | u < k && g[u] == []
  }

  lemma {:induction false} ExitsCounted(g: Adjacency, blocks: seq<CfgBlock>, length: nat, k: nat)
    requires k <= |blocks| == |g| <= CFG_MAX_BLOCKS
    requires forall u: nat :: u < |g| ==> g[u] == SuccessorList(blocks, length, u)
    ensures ExitsBefore(blocks, length, k) == |Exits(g, k)|
    decreases k
  {
    if k == 0 {
      assert Exits(g, k) == {};
    } else {
      ExitsCounted(g, blocks, length, k - 1);
      ExitsNext(g, k - 1);
    }
  }

  lemma {:induction false} ExitsNext(g: Adjacency, k: nat)
    requires k < |g|
    ensures |Exits(g, k + 1)| == |Exits(g, k)| + if g[k] == [] then 1 else 0
  {
    assert Exits(g, k + 1) == Exits(g, k) + if g[k] == [] then {k} else {};
  }

  lemma {:induction false} PlacedIsLaidOut(before: seq<CfgBlock>, after: seq<CfgBlock>, length: nat)
    requires |before| == |after| <= CFG_MAX_BLOCKS && Placed(before, after, length, |before|)
    ensures LaidOut(after, Lists(before, length, |before|)) && (after != [] ==> after[0].firstSuccessor == 0)
  {
    assert after != [] ==> PlacedAt(before, after, length, 0);
    forall i | 0 <= i < |after| ensures Adjoins(after, Lists(before, length, |before|), i) {
      assert PlacedAt(before, after, length, i) && (i + 1 < |after| ==> PlacedAt(before, after, length, i + 1));
      assert Lists(before, length, i + 1) == Lists(before, length, i) + SuccessorList(before, length, i);
    }
  }

  lemma {:induction false} ListsAreBlocks(blocks: seq<CfgBlock>, length: nat, k: nat, v: nat)
    requires k <= |blocks| <= CFG_MAX_BLOCKS && OffsetsAscend(blocks) && TargetsInRange(blocks, length)
    requires v in Lists(blocks, length, k)
    ensures v < |blocks|
  {
    KeptMeaning(blocks, length, blocks[k - 1]);
    if v !in SuccessorList(blocks, length, k - 1) {
      ListsAreBlocks(blocks, length, k - 1, v);
    }
  }

  lemma {:induction false} PlacedOwns(before: seq<CfgBlock>, after: seq<CfgBlock>, length: nat, i: nat)
    requires |before| == |after| <= CFG_MAX_BLOCKS && Placed(before, after, length, |before|) && i < |before|
    ensures SuccessorsOf(after, Lists(before, length, |before|), i) == SuccessorList(before, length, i)
  {
    ListsPrefix(before, length, i + 1, |before|);
    assert PlacedAt(before, after, length, i);
    assert Lists(before, length, i + 1) == Lists(before, length, i) + SuccessorList(before, length, i);
  }

  /** How often a node is stored as a successor is how many sources it has. */
  lemma {:induction false} StoredOccurrences(blocks: seq<CfgBlock>, successorBlocks: seq<nat>, v: nat, i: nat)
    requires LaidOut(blocks, successorBlocks) && 0 < i <= |blocks| && blocks[0].firstSuccessor == 0
    ensures FirstAfter(blocks, successorBlocks, i - 1) <= |successorBlocks|
    ensures |Sources(GraphOf(blocks, successorBlocks), v, i)| ==
      Occurs(successorBlocks[..FirstAfter(blocks, successorBlocks, i - 1)], v)
  {
    var g := GraphOf(blocks, successorBlocks);
    FirstInRange(blocks, successorBlocks, i - 1);
    LaidOutOwned(blocks, successorBlocks, i - 1);
    assert Adjoins(blocks, successorBlocks, i - 1);
    var first, stop := blocks[i - 1].firstSuccessor, FirstAfter(blocks, successorBlocks, i - 1);
    assert g[i - 1] == successorBlocks[first..stop];
    assert successorBlocks[..stop] == successorBlocks[..first] + g[i - 1];
    if i > 1 {
      StoredOccurrences(blocks, successorBlocks, v, i - 1);
    } else {
      assert successorBlocks[..first] == [];
    }
  }

  lemma {:induction false} StoredOccurrencesTotal(blocks: seq<CfgBlock>, successorBlocks: seq<nat>, v: nat)
    requires LaidOut(blocks, successorBlocks) && blocks != [] && blocks[0].firstSuccessor == 0
    ensures |Sources(GraphOf(blocks, successorBlocks), v, |blocks|)| == Occurs(successorBlocks, v)
  {
    StoredOccurrences(blocks, successorBlocks, v, |blocks|);
    assert successorBlocks[..|successorBlocks|] == successorBlocks;
  }

  lemma {:induction false} CountsAreSources(blocks: seq<CfgBlock>, successorBlocks: seq<nat>, counts: seq<nat>)
    requires LaidOut(blocks, successorBlocks) && blocks != [] && blocks[0].firstSuccessor == 0 && |counts| == |blocks|
    requires forall v :: 0 <= v < |counts| ==> counts[v] == Occurs(successorBlocks, v)
    ensures forall v :: 0 <= v < |counts| ==> counts[v] == |Sources(GraphOf(blocks, successorBlocks), v, |blocks|)|
  {
    forall v: nat | v < |counts| ensures counts[v] == |Sources(GraphOf(blocks, successorBlocks), v, |blocks|)| {
      StoredOccurrencesTotal(blocks, successorBlocks, v);
    }
  }

  /** `after` differs from `before` at most in the predecessor ranges. */
  ghost predicate SameButPredecessors(before: seq<CfgBlock>, after: seq<CfgBlock>) {
    && |before| == |after|
    && forall i :: 0 <= i < |before| ==>
         after[i] ==
           before[i].(firstPredecessor := after[i].firstPredecessor, predecessorCount := after[i].predecessorCount)
  }

  lemma {:induction false} SamePredecessorsGraph(before: seq<CfgBlock>, after: seq<CfgBlock>, successorBlocks: seq<nat>)
    requires SameButPredecessors(before, after)
    ensures GraphOf(before, successorBlocks) == GraphOf(after, successorBlocks)
    ensures LaidOut(before, successorBlocks) ==> LaidOut(after, successorBlocks)
  {
    forall i | 0 <= i < |before|
      ensures SuccessorsOf(before, successorBlocks, i) == SuccessorsOf(after, successorBlocks, i)
      ensures Adjoins(before, successorBlocks, i) ==> Adjoins(after, successorBlocks, i)
    {
      assert after[i].firstSuccessor == before[i].firstSuccessor && after[i].successorCount == before[i].successorCount;
      assert i + 1 < |before| ==> after[i + 1].firstSuccessor == before[i + 1].firstSuccessor;
    }
  }

  lemma {:induction false} SuccessorsCounted(g: Adjacency, start: seq<CfgBlock>, length: nat, blocks: seq<CfgBlock>,
      successorBlocks: seq<nat>)
    requires |start| == |blocks| <= CFG_MAX_BLOCKS && g == GraphOf(blocks, successorBlocks)
    requires OffsetsAscend(start) && TargetsInRange(start, length)
    requires LaidOut(blocks, successorBlocks) && (blocks != [] ==> blocks[0].firstSuccessor == 0)
    requires successorBlocks == Lists(start, length, |start|)
    requires forall u: nat ::
      u < |blocks| ==> SuccessorsOf(blocks, successorBlocks, u) == SuccessorList(start, length, u)
    ensures |successorBlocks| == |EdgesOf(g)| && ExitsBefore(start, length, |start|) == |Exits(g, |g|)|
  {
    forall u: nat | u < |g|
      ensures g[u] == SuccessorList(start, length, u) && DistinctRow(g[u]) && forall v :: v in g[u] ==> v < |g|
    {
      KeptMeaning(start, length, start[u]);
    }
    EntriesAreEdges(g, |g|);
    ExitsCounted(g, start, length, |g|);
    assert EdgesUpTo(g, |g|, 0) == EdgesOf(g);
    if blocks != [] {
      LaidOutEntries(blocks, successorBlocks, |blocks|);
    }
  }

  lemma {:induction false} NoEdgesYet(g: Adjacency)
    ensures EdgesUpTo(g, 0, 0) == {}
  {
  }

  lemma {:induction false} RowJoined(g: Adjacency, index: nat)
    requires index < |g|
    ensures EdgesUpTo(g, index, |g[index]|) == EdgesUpTo(g, index + 1, 0)
  {
  }

  lemma {:induction false} AllRowsJoined(g: Adjacency)
    ensures EdgesUpTo(g, |g|, 0) == EdgesOf(g)
  {
  }

  class ControlFlowGraph {
    var blocks: seq<CfgBlock>
    var successorBlocks: seq<nat>
    var predecessorBlocks: seq<nat>
    var componentOfBlock: seq<nat>
    var componentNodeCounts: seq<nat>
    var componentIsLoop: seq<bool>
    var edgeCount: nat
    var exitBlockCount: nat
    var stronglyConnectedCount: nat
    var loopCount: nat
    var connectedComponentCount: nat
    var cyclomaticComplexity: int

    ghost function Graph(): Adjacency
      reads `blocks, `successorBlocks
    {
      GraphOf(blocks, successorBlocks)
    }

    function HasSelfEdge(block: nat): bool
      reads `blocks, `successorBlocks
    {
      block in SuccessorsOf(blocks, successorBlocks, block)
    }

    /** What is computed once the blocks are known. Edges are exactly the pairs of blocks that
        control can flow between. */
    method Analyze(length: nat)
      requires |blocks| <= CFG_MAX_BLOCKS && successorBlocks == [] && exitBlockCount == 0
      requires forall i :: 0 <= i < |blocks| ==> blocks[i].successorCount == 0
      requires OffsetsAscend(blocks) && TargetsInRange(blocks, length)
      modifies this
      ensures |blocks| == |old(blocks)|
      ensures forall u: nat, v: nat :: u < |blocks| && v < |blocks| ==>
        (Edge(Graph(), u, v) <==> old(blocks)[v].offset < length && FlowsTo(old(blocks)[u], old(blocks)[v].offset))
      ensures forall u: nat, v: nat :: u < |blocks| && v < |blocks| ==>
        (u in PredecessorsOf(blocks, predecessorBlocks, v) <==> Edge(Graph(), u, v))
      ensures edgeCount == |EdgesOf(Graph())| && exitBlockCount == |Exits(Graph(), |blocks|)|
      ensures Tarjan.Partition(Graph(), componentOfBlock, componentNodeCounts)
      ensures stronglyConnectedCount == |componentNodeCounts| == |componentIsLoop|
      ensures forall c: nat :: c < stronglyConnectedCount ==>
        (componentIsLoop[c] <==> exists u: nat :: u < |blocks| && componentOfBlock[u] == c && OnCycle(Graph(), u))
      ensures loopCount == |set c: nat | c < stronglyConnectedCount && componentIsLoop[c]|
      ensures connectedComponentCount == |WeakClasses(|blocks|, EdgesOf(Graph()))|
      ensures cyclomaticComplexity == if blocks == [] then 0 else edgeCount - |blocks| + 2 * connectedComponentCount
    {
      ConnectBlocks(length);
      BuildPredecessors();
      forall u: nat, v: nat | u < |blocks| && v < |blocks|
        ensures u in PredecessorsOf(blocks, predecessorBlocks, v) <==> Edge(Graph(), u, v)
      {
        SourcesMeaning(Graph(), v, |blocks|, u);
      }
      ComputeStronglyConnected();
      ComputeConnectedComponents();
      ComputeCyclomaticComplexity();
    }

    /** Build the successors; edges and exits are those of the graph control flows along. */
    method ConnectBlocks(length: nat)
      requires |blocks| <= CFG_MAX_BLOCKS && successorBlocks == [] && exitBlockCount == 0
      requires forall i :: 0 <= i < |blocks| ==> blocks[i].successorCount == 0
      requires OffsetsAscend(blocks) && TargetsInRange(blocks, length)
      modifies this`blocks, this`successorBlocks, this`edgeCount, this`exitBlockCount
      ensures |blocks| == |old(blocks)| && LaidOut(blocks, successorBlocks) &&
        (blocks != [] ==> blocks[0].firstSuccessor == 0)
      ensures forall k :: 0 <= k < |successorBlocks| ==> successorBlocks[k] < |blocks|
      ensures forall u: nat, v: nat :: u < |blocks| && v < |blocks| ==>
        (Edge(Graph(), u, v) <==> old(blocks)[v].offset < length && FlowsTo(old(blocks)[u], old(blocks)[v].offset))
      ensures edgeCount == |successorBlocks| == |EdgesOf(Graph())| && exitBlockCount == |Exits(Graph(), |blocks|)|
    {
      ghost var start := blocks;
      BuildSuccessors(length);
      forall k | 0 <= k < |successorBlocks| ensures successorBlocks[k] < |blocks| {
        ListsAreBlocks(start, length, |blocks|, successorBlocks[k]);
      }
      ghost var g := Graph();
      forall u: nat, v: nat | u < |blocks| && v < |blocks|
        ensures Edge(g, u, v) <==> start[v].offset < length && FlowsTo(start[u], start[v].offset)
      {
        KeptMeaning(start, length, start[u]);
        assert g[u] == SuccessorList(start, length, u);
      }
      SuccessorsCounted(g, start, length, blocks, successorBlocks);
    }

    /** Store every block's successors, one block after the other, and count the blocks without any. */
    method BuildSuccessors(length: nat)
      requires |blocks| <= CFG_MAX_BLOCKS && successorBlocks == [] && exitBlockCount == 0
      requires forall i :: 0 <= i < |blocks| ==> blocks[i].successorCount == 0
      modifies this`blocks, this`successorBlocks, this`edgeCount, this`exitBlockCount
      ensures SameButSuccessors(old(blocks), blocks)
      ensures LaidOut(blocks, successorBlocks) && (blocks != [] ==> blocks[0].firstSuccessor == 0)
      ensures edgeCount == |successorBlocks| && successorBlocks == Lists(old(blocks), length, |blocks|)
      ensures forall i: nat ::
        i < |blocks| ==> SuccessorsOf(blocks, successorBlocks, i) == SuccessorList(old(blocks), length, i)
      ensures exitBlockCount == ExitsBefore(old(blocks), length, |blocks|)
    {
      ghost var start := blocks;
      for index := 0 to |blocks|
        invariant SameButSuccessors(start, blocks) && Placed(start, blocks, length, index)
        invariant forall i :: index <= i < |blocks| ==> blocks[i].successorCount == 0
        invariant successorBlocks == Lists(start, length, index)
        invariant exitBlockCount == ExitsBefore(start, length, index)
      {
        ghost var previous := blocks;
        ResolveBlock(index, length, start);
        PlacedNext(start, previous, blocks, length, index);
        if blocks[index].successorCount == 0 {
          exitBlockCount := exitBlockCount + 1;
        }
      }
      edgeCount := |successorBlocks|;
      PlacedIsLaidOut(start, blocks, length);
      forall i: nat | i < |blocks| ensures SuccessorsOf(blocks, successorBlocks, i) == SuccessorList(start, length, i) {
        PlacedOwns(start, blocks, length, i);
      }
    }

    method ResolveBlock(index: nat, length: nat, ghost start: seq<CfgBlock>)
      requires |blocks| <= CFG_MAX_BLOCKS && SameButSuccessors(start, blocks)
      requires index < |blocks| && blocks[index].successorCount == 0
      modifies this`blocks, this`successorBlocks
      ensures SameButSuccessors(start, blocks) && SameElsewhere(old(blocks), blocks, index)
      ensures blocks[index].firstSuccessor == |old(successorBlocks)|
      ensures blocks[index].successorCount == |SuccessorList(start, length, index)|
      ensures successorBlocks == old(successorBlocks) + SuccessorList(start, length, index)
    {
      SameCandidates(start, blocks, length, index);
      StoreSuccessors(index, Candidates(blocks, length, blocks[index]));
    }

    /** Append the candidates of one block that are blocks and were not stored for it yet. */
    method StoreSuccessors(index: nat, candidates: seq<nat>)
      requires index < |blocks| && blocks[index].successorCount == 0
      modifies this`blocks, this`successorBlocks
      ensures SameElsewhere(old(blocks), blocks, index)
      ensures blocks[index] ==
        old(blocks[index]).(firstSuccessor := |old(successorBlocks)|, successorCount := |Kept(candidates)|)
      ensures successorBlocks == old(successorBlocks) + Kept(candidates)
    {
      var first := |successorBlocks|;
      blocks := blocks[index := blocks[index].(firstSuccessor := first)];
      for c := 0 to |candidates|
        invariant SameElsewhere(old(blocks), blocks, index)
        invariant blocks[index] ==
          old(blocks[index]).(firstSuccessor := first, successorCount := |Kept(candidates[..c])|)
        invariant successorBlocks == old(successorBlocks) + Kept(candidates[..c])
      {
        assert candidates[..c + 1][..c] == candidates[..c];
        var candidate := candidates[c];
        if candidate == CFG_NO_BLOCK {
          continue;
        }
        ghost var kept := Kept(candidates[..c]);
        var duplicate := false;
        for taken := 0 to blocks[index].successorCount
          invariant duplicate <==> candidate in kept[..taken]
        {
          if successorBlocks[first + taken] == candidate {
            duplicate := true;
            assert kept[taken] == candidate;
            break;
          }
          assert kept[..taken + 1] == kept[..taken] + [kept[taken]];
        }
        assert kept[..|kept|] == kept;
        if duplicate {
          continue;
        }
        successorBlocks := successorBlocks + [candidate];
        blocks := blocks[index := blocks[index].(successorCount := blocks[index].successorCount + 1)];
      }
      assert candidates[..|candidates|] == candidates;
    }

    /** The predecessor lists are the transpose of the successor lists, in block order. */
    method BuildPredecessors()
      requires LaidOut(blocks, successorBlocks) && (blocks != [] ==> blocks[0].firstSuccessor == 0)
      requires forall k :: 0 <= k < |successorBlocks| ==> successorBlocks[k] < |blocks|
      modifies this`blocks, this`predecessorBlocks
      ensures SameButPredecessors(old(blocks), blocks)
      ensures Graph() == old(Graph()) && LaidOut(blocks, successorBlocks) &&
        (blocks != [] ==> blocks[0].firstSuccessor == 0)
      ensures forall v: nat ::
        v < |blocks| ==> PredecessorsOf(blocks, predecessorBlocks, v) == Sources(Graph(), v, |blocks|)
    {
      ghost var start := blocks;
      var counts := CountEntries();
      var running := AssignRanges(counts);
      SamePredecessorsGraph(start, blocks, successorBlocks);
      predecessorBlocks := seq(running, _ => 0);
      if |blocks| == 0 {
        return;
      }
      CountsAreSources(start, successorBlocks, counts);
      FillPredecessors(counts);
    }

    method CountEntries() returns (counts: seq<nat>)
      requires forall k :: 0 <= k < |successorBlocks| ==> successorBlocks[k] < |blocks|
      ensures |counts| == |blocks| && forall v :: 0 <= v < |counts| ==> counts[v] == Occurs(successorBlocks, v)
    {
      var tally := new nat[|blocks|](_ => 0);
      for k := 0 to |successorBlocks|
        invariant forall v :: 0 <= v < tally.Length ==> tally[v] == Occurs(successorBlocks[..k], v)
      {
        var successor := successorBlocks[k];
        forall v: nat
          ensures Occurs(successorBlocks[..k + 1], v) ==
            Occurs(successorBlocks[..k], v) + if v == successor then 1 else 0
        {
          OccursNext(successorBlocks, v, k);
        }
        tally[successor] := tally[successor] + 1;
      }
      assert successorBlocks[..|successorBlocks|] == successorBlocks;
      counts := tally[..];
    }

    /** Give every block a stretch of the predecessor list of its own. */
    method AssignRanges(counts: seq<nat>) returns (running: nat)
      requires |counts| == |blocks|
      modifies this`blocks
      ensures SameButPredecessors(old(blocks), blocks)
      ensures forall v :: 0 <= v < |blocks| ==> blocks[v].predecessorCount == counts[v]
      ensures Ranges(FirstPredecessors(blocks), counts, running)
    {
      running := 0;
      for index := 0 to |blocks|
        invariant SameButPredecessors(old(blocks), blocks)
        invariant forall v :: 0 <= v < index ==> blocks[v].predecessorCount == counts[v]
        invariant forall v :: 0 <= v < index ==> blocks[v].firstPredecessor + counts[v] <= running
        invariant forall v, w ::
          0 <= v < w < index ==> blocks[v].firstPredecessor + counts[v] <= blocks[w].firstPredecessor
      {
        blocks := blocks[index := blocks[index].(firstPredecessor := running, predecessorCount := counts[index])];
        running := running + counts[index];
      }
    }

    method FillPredecessors(ghost counts: seq<nat>)
      requires blocks != [] && |counts| == |blocks|
      requires forall v ::
        0 <= v < |blocks| ==> blocks[v].predecessorCount == counts[v] == |Sources(Graph(), v, |blocks|)|
      requires forall i, j :: 0 <= i < |blocks| && 0 <= j < |Graph()[i]| ==> Graph()[i][j] < |blocks|
      requires Ranges(FirstPredecessors(blocks), counts, |predecessorBlocks|)
      modifies this`predecessorBlocks
      ensures forall v: nat ::
        v < |blocks| ==> PredecessorsOf(blocks, predecessorBlocks, v) == Sources(Graph(), v, |blocks|)
    {
      ghost var g := Graph();
      var first: seq<nat> := FirstPredecessors(blocks);
      var cursor: seq<nat> := first;
      FillStart(g, first, counts, predecessorBlocks);
      for index := 0 to |blocks|
        invariant |predecessorBlocks| == |old(predecessorBlocks)|
        invariant index < |blocks| ==> Filled(g, first, cursor, predecessorBlocks, index, 0)
        invariant index == |blocks| ==> Filled(g, first, cursor, predecessorBlocks, index - 1, |g[index - 1]|)
      {
        cursor := FillRow(g, index, first, counts, cursor);
        if index + 1 < |blocks| {
          FillRowEnd(g, first, cursor, predecessorBlocks, index);
        }
      }
      forall v: nat | v < |blocks| ensures PredecessorsOf(blocks, predecessorBlocks, v) == Sources(g, v, |blocks|) {
        FillEnd(g, first, cursor, predecessorBlocks, v);
        OwnedStretch(blocks[v].firstPredecessor, blocks[v].predecessorCount, predecessorBlocks);
      }
    }

    method FillRow(ghost g: Adjacency, index: nat, ghost first: seq<nat>, ghost counts: seq<nat>, before: seq<nat>)
      returns (cursor: seq<nat>)
      requires |g| == |blocks| && index < |g| && SuccessorsOf(blocks, successorBlocks, index) == g[index]
      requires forall j :: 0 <= j < |g[index]| ==> g[index][j] < |g|
      requires Ranges(first, counts, |predecessorBlocks|) && Filled(g, first, before, predecessorBlocks, index, 0)
      requires forall v: nat :: v < |g| ==> counts[v] == |Sources(g, v, |g|)|
      modifies this`predecessorBlocks
      ensures |predecessorBlocks| == |old(predecessorBlocks)|
      ensures Filled(g, first, cursor, predecessorBlocks, index, |g[index]|)
    {
      cursor := before;
      var successors := SuccessorsOf(blocks, successorBlocks, index);
      for j := 0 to |successors|
        invariant |predecessorBlocks| == |old(predecessorBlocks)|
        invariant Filled(g, first, cursor, predecessorBlocks, index, j)
      {
        var successor := successors[j];
        FillNext(g, first, counts, cursor, predecessorBlocks, index, j);
        predecessorBlocks := predecessorBlocks[cursor[successor] := index];
        cursor := cursor[successor := cursor[successor] + 1];
      }
    }

    /** Tarjan's algorithm gives two blocks one component exactly when each reaches the other,
        numbers components against the direction of edges, and counts the components with a cycle. */
    method ComputeStronglyConnected()
      requires |blocks| <= CFG_MAX_BLOCKS
      modifies this`componentOfBlock, this`componentNodeCounts, this`componentIsLoop, this`stronglyConnectedCount,
        this`loopCount
      ensures Tarjan.Partition(Graph(), componentOfBlock, componentNodeCounts)
      ensures stronglyConnectedCount == |componentNodeCounts| == |componentIsLoop|
      ensures forall c: nat :: c < stronglyConnectedCount ==>
        (componentIsLoop[c] <==> exists u: nat :: u < |blocks| && componentOfBlock[u] == c && OnCycle(Graph(), u))
      ensures loopCount == |set c: nat | c < stronglyConnectedCount && componentIsLoop[c]|
    {
      ghost var g := Graph();
      SearchComponents();
      MarkSelfLoops();
      CountLoops();
      forall c: nat | c < stronglyConnectedCount
        ensures componentIsLoop[c] <==> exists u: nat :: u < |blocks| && componentOfBlock[u] == c && OnCycle(g, u)
      {
        Tarjan.CyclicComponent(g, componentOfBlock, componentNodeCounts, c);
      }
    }

    /** Number the components; one with several blocks is a loop. */
    method SearchComponents()
      requires |blocks| <= CFG_MAX_BLOCKS
      modifies this`componentOfBlock, this`componentNodeCounts, this`componentIsLoop, this`stronglyConnectedCount
      ensures Tarjan.Partition(Graph(), componentOfBlock, componentNodeCounts)
      ensures stronglyConnectedCount == |componentNodeCounts| == |componentIsLoop|
      ensures forall c: nat :: c < |componentIsLoop| ==> componentIsLoop[c] == (componentNodeCounts[c] > 1)
    {
      var successors :=
        seq(|blocks|, i requires 0 <= i < |blocks| reads this => SuccessorsOf(blocks, successorBlocks, i));
      assert successors == Graph();
      componentOfBlock, componentNodeCounts, componentIsLoop := SearchGraph(successors);
      stronglyConnectedCount := |componentNodeCounts|;
    }

    /** A block of component c, among the first `node` blocks, leads to itself. */
    static ghost predicate SelfLooped(g: Adjacency, comp: seq<nat>, c: nat, node: nat)
      requires node <= |g| && |comp| == |g|
    {
      exists u: nat :: u < node && comp[u] == c && Edge(g, u, u)
    }

    static lemma {:induction false} SelfLoopedNext(g: Adjacency, comp: seq<nat>, c: nat, node: nat)
      requires node < |g| && |comp| == |g|
      ensures SelfLooped(g, comp, c, node + 1) <==>
        SelfLooped(g, comp, c, node) || (comp[node] == c && Edge(g, node, node))
    {
    }

    /** A component of one block is a loop when the block leads to itself. */
    method MarkSelfLoops()
      requires |componentOfBlock| == |blocks| && |componentIsLoop| == |componentNodeCounts|
      requires forall u :: 0 <= u < |blocks| ==> componentOfBlock[u] < |componentNodeCounts|
      requires forall c: nat ::
        c < |componentIsLoop| ==> componentIsLoop[c] == (componentNodeCounts[c] > 1) && componentNodeCounts[c] > 0
      modifies this`componentIsLoop
      ensures |componentIsLoop| == |componentNodeCounts|
      ensures forall c: nat :: c < |componentIsLoop| ==>
        (componentIsLoop[c] <==> componentNodeCounts[c] > 1 || exists u: nat ::
          u < |blocks| && componentOfBlock[u] == c && Edge(Graph(), u, u))
    {
      ghost var g, comp := Graph(), componentOfBlock;
      for node := 0 to |blocks|
        invariant |componentIsLoop| == |componentNodeCounts|
        invariant forall c: nat :: c < |componentIsLoop| ==>
          (componentIsLoop[c] <==> componentNodeCounts[c] > 1 || SelfLooped(g, comp, c, node))
      {
        var component := componentOfBlock[node];
        assert HasSelfEdge(node) <==> Edge(g, node, node);
        forall c: nat
          ensures SelfLooped(g, comp, c, node + 1) <==>
            SelfLooped(g, comp, c, node) || (comp[node] == c && Edge(g, node, node))
        {
          SelfLoopedNext(g, comp, c, node);
        }
        if componentNodeCounts[component] == 1 && HasSelfEdge(node) {
          componentIsLoop := componentIsLoop[component := true];
        }
      }
    }

    method CountLoops()
      requires |componentIsLoop| == stronglyConnectedCount
      modifies this`loopCount
      ensures loopCount == |set c: nat | c < stronglyConnectedCount && componentIsLoop[c]|
    {
      var loops := 0;
      ghost var seen: set<nat> := {};
      for c := 0 to |componentIsLoop|
        invariant seen == set d: nat | d < c && componentIsLoop[d]
        invariant loops == |seen|
      {
        if componentIsLoop[c] {
          loops := loops + 1;
          seen := seen + {c};
        }
      }
      loopCount := loops;
    }

    /** Union-find over all edges counts the weakly connected components; joining two trees
        takes an edge, so there are at least as many edges as blocks without components. */
    method ComputeConnectedComponents()
      modifies this`connectedComponentCount
      ensures connectedComponentCount == |WeakClasses(|blocks|, EdgesOf(Graph()))|
      ensures |blocks| <= connectedComponentCount + EntriesBefore(Graph(), |blocks|)
      ensures blocks != [] ==> connectedComponentCount > 0
    {
      connectedComponentCount := 0;
      if |blocks| == 0 {
        assert WeakClasses(0, EdgesOf(Graph())) == {};
        return;
      }
      var n := |blocks|;
      var parent := new nat[n](i => i);
      var rank := new nat[n](_ => 0);
      assert rank[..] == seq(n, _ => 0);
      ghost var rep, es := JoinAll(parent, rank);
      RootsCountClasses(parent[..], rank[..], rep, es);
      assert rep[rep[0]] == rep[0] && rep[0] in Roots(parent[..]);
      CountRoots(parent);
    }

    /** Join the blocks along all edges. */
    method JoinAll(parent: array<nat>, rank: array<nat>) returns (ghost rep: seq<nat>, ghost es: Edges)
      requires parent != rank && parent.Length == rank.Length == |blocks|
      requires forall i :: 0 <= i < parent.Length ==> parent[i] == i
      requires rank[..] == seq(rank.Length, _ => 0)
      modifies parent, rank
      ensures Forest(parent[..], rank[..], rep, es) && es == EdgesOf(Graph())
      ensures |blocks| <= |Roots(parent[..])| + EntriesBefore(Graph(), |blocks|)
    {
      ghost var g := Graph();
      rep, es := parent[..], {};
      NoEdgesYet(g);
      IdentityForest(parent[..]);
      for index := 0 to parent.Length
        invariant Forest(parent[..], rank[..], rep, es) && es == EdgesUpTo(g, index, 0)
        invariant |blocks| <= |Roots(parent[..])| + EntriesBefore(g, index)
        invariant forall u :: 0 <= u < rank.Length ==> rank[u] <= EntriesBefore(g, index)
      {
        rep, es := JoinSuccessors(parent, rank, index, rep, es);
        RowJoined(g, index);
      }
      AllRowsJoined(g);
    }

    /** Join a block with each of its successors. */
    method JoinSuccessors(parent: array<nat>, rank: array<nat>, index: nat, ghost before: seq<nat>, ghost joined: Edges)
      returns (ghost rep: seq<nat>, ghost es: Edges)
      requires parent != rank && parent.Length == rank.Length == |blocks| && index < |blocks|
      requires Forest(parent[..], rank[..], before, joined) && joined == EdgesUpTo(Graph(), index, 0)
      requires forall u :: 0 <= u < rank.Length ==> rank[u] <= EntriesBefore(Graph(), index)
      modifies parent, rank
      ensures Forest(parent[..], rank[..], rep, es) && es == EdgesUpTo(Graph(), index, |Graph()[index]|)
      ensures |Roots(old(parent[..]))| <= |Roots(parent[..])| + |Graph()[index]|
      ensures forall u :: 0 <= u < rank.Length ==> rank[u] <= EntriesBefore(Graph(), index + 1)
    {
      ghost var g := Graph();
      ghost var start := parent[..];
      ghost var entries := EntriesBefore(g, index);
      rep, es := before, joined;
      var successors := SuccessorsOf(blocks, successorBlocks, index);
      assert successors == g[index];
      for j := 0 to |successors|
        invariant Forest(parent[..], rank[..], rep, es) && es == EdgesUpTo(g, index, j)
        invariant |Roots(start)| <= |Roots(parent[..])| + j
        invariant forall u :: 0 <= u < rank.Length ==> rank[u] <= entries + j
      {
        var successor := successors[j];
        assert successors[..j + 1] == successors[..j] + [successor];
        if successor >= |blocks| {
          assert EdgesUpTo(g, index, j + 1) == EdgesUpTo(g, index, j);
          continue;
        }
        assert EdgesUpTo(g, index, j + 1) == EdgesUpTo(g, index, j) + {(index, successor)};
        RootsFollowRep(parent[..], rank[..], rep);
        var left := FindRoot(parent, rank[..], rep, entries + j, index);
        var right := FindRoot(parent, rank[..], rep, entries + j, successor);
        RootsFollowRep(parent[..], rank[..], rep);
        rep := Union(parent, rank, left, right, rep, es, index, successor);
        es := es + {(index, successor)};
      }
    }

    method CountRoots(parent: array<nat>)
      modifies this`connectedComponentCount
      ensures connectedComponentCount == |Roots(parent[..])|
    {
      var components := 0;
      ghost var found: set<nat> := {};
      for index := 0 to parent.Length
        invariant found == set u: nat | u < index && parent[..][u] == u
        invariant components == |found|
      {
        if parent[index] == index {
          components := components + 1;
          found := found + {index};
        }
      }
      assert found == Roots(parent[..]);
      connectedComponentCount := components;
    }

    /** The cyclomatic complexity E - N + 2P is at least P, so raising it to 1 never changes it. */
    method ComputeCyclomaticComplexity()
      requires LaidOut(blocks, successorBlocks) && (blocks != [] ==> blocks[0].firstSuccessor == 0)
      requires edgeCount == |successorBlocks|
      requires |blocks| <= connectedComponentCount + EntriesBefore(Graph(), |blocks|)
      requires blocks != [] ==> connectedComponentCount > 0
      modifies this`cyclomaticComplexity
      ensures cyclomaticComplexity == if blocks == [] then 0 else edgeCount - |blocks| + 2 * connectedComponentCount
      ensures cyclomaticComplexity >= connectedComponentCount || blocks == []
    {
      if |blocks| == 0 {
        cyclomaticComplexity := 0;
        return;
      }
      LaidOutEntries(blocks, successorBlocks, |blocks|);
      var complexity := edgeCount - |blocks| + 2 * connectedComponentCount;
      cyclomaticComplexity := if complexity < 1 then 1 else complexity;
    }
  }
}
