/** Edit operations between two sequences, and their division into groups with context. */
module Opcodes {
  import opened LongestMatch
  import opened MatchingBlocks

  datatype OpTag = Replace | Delete | Insert | Equal

  datatype Opcode = Opcode(tag: OpTag, i1: nat, i2: nat, j1: nat, j2: nat)

  ghost predicate OpOk<T>(a: seq<T>, b: seq<T>, c: Opcode) {
    && c.i1 <= c.i2 <= |a| && c.j1 <= c.j2 <= |b|
    && match c.tag
       case Equal => c.i2 - c.i1 == c.j2 - c.j1 && a[c.i1..c.i2] == b[c.j1..c.j2]
       case Replace => c.i1 < c.i2 && c.j1 < c.j2
       case Delete => c.i1 < c.i2 && c.j1 == c.j2
       case Insert => c.i1 == c.i2 && c.j1 < c.j2
  }

  /** Operation `p` starts where the one before it ends. */
  ghost predicate Continues(cs: seq<Opcode>, p: int)
    requires 0 < p < |cs|
  {
    cs[p].i1 == cs[p - 1].i2 && cs[p].j1 == cs[p - 1].j2
  }

  ghost predicate Tiles<T>(a: seq<T>, b: seq<T>, cs: seq<Opcode>) {
    && (forall p :: 0 <= p < |cs| ==> OpOk(a, b, cs[p]))
    && (forall p :: 0 < p < |cs| ==> Continues(cs, p))
  }

  ghost predicate Alternates(cs: seq<Opcode>) {
    forall p :: 0 < p < |cs| ==> Switches(cs, p)
  }

  ghost predicate Switches(cs: seq<Opcode>, p: int)
    requires 0 < p < |cs|
  {
    cs[p].tag.Equal? != cs[p - 1].tag.Equal?
  }

  /** `x` and `y` agree up to positions `i` and `j`. */
  ghost predicate SamePrefix<T>(a: seq<T>, b: seq<T>, i: nat, j: nat) {
    i <= |a| && j <= |b| && a[..i] == b[..j]
  }

  ghost predicate SameSuffix<T>(a: seq<T>, b: seq<T>, i: nat, j: nat) {
    i <= |a| && j <= |b| && a[i..] == b[j..]
  }

  /** The operations turn a into b, apart from equal stretches before the first and after the last. */
  ghost predicate CodesFor<T>(a: seq<T>, b: seq<T>, cs: seq<Opcode>) {
    && Tiles(a, b, cs)
    && (if cs == [] then a == b
      else SamePrefix(a, b, cs[0].i1, cs[0].j1) && SameSuffix(a, b, cs[|cs| - 1].i2, cs[|cs| - 1].j2))
  }

  /** The operations cover both sequences from end to end. */
  ghost predicate Covers<T>(a: seq<T>, b: seq<T>, cs: seq<Opcode>) {
    if cs == [] then a == [] && b == []
    else cs[0].i1 == 0 && cs[0].j1 == 0 && cs[|cs| - 1].i2 == |a| && cs[|cs| - 1].j2 == |b|
  }

  lemma {:induction false} TilesAppend<T>(a: seq<T>, b: seq<T>, cs: seq<Opcode>, c: Opcode)
    requires Tiles(a, b, cs) && OpOk(a, b, c)
    requires cs != [] ==> c.i1 == cs[|cs| - 1].i2 && c.j1 == cs[|cs| - 1].j2
    ensures Tiles(a, b, cs + [c])
  {
    var t := cs + [c];
    forall p | 0 < p < |t| ensures Continues(t, p) {
      if p < |cs| {
        assert Continues(cs, p);
      }
    }
  }

  lemma {:induction false} AlternatesAppend(cs: seq<Opcode>, c: Opcode)
    requires Alternates(cs) && (cs != [] ==> c.tag.Equal? != cs[|cs| - 1].tag.Equal?)
    ensures Alternates(cs + [c])
  {
    var t := cs + [c];
    forall p | 0 < p < |t| ensures Switches(t, p) {
      if p < |cs| {
        assert Switches(cs, p);
      }
    }
  }

  /** The operations emitted so far tile both sequences up to `i` and `j`. */
  ghost predicate Emitted(a: seq<nat>, b: seq<nat>, cs: seq<Opcode>, i: nat, j: nat) {
    && Tiles(a, b, cs) && Alternates(cs)
    && (if cs == [] then i == 0 && j == 0
        else cs[0].i1 == 0 && cs[0].j1 == 0 && cs[|cs| - 1].i2 == i && cs[|cs| - 1].j2 == j)
  }

  function GapTag(i: nat, ai: nat, j: nat, bj: nat): OpTag {
    if i < ai && j < bj then Replace else if i < ai then Delete else if j < bj then Insert else Equal
  }

  /** The gap before a block, and the block, are one operation each. */
  lemma {:induction false} EmitBlock(a: seq<nat>, b: seq<nat>, cs: seq<Opcode>, i: nat, j: nat, x: MatchingBlock)
    requires Emitted(a, b, cs, i, j) && EqualBlock(a, b, x) && i <= x.a && j <= x.b
    requires cs != [] ==> cs[|cs| - 1].tag.Equal? && (x.size > 0 ==> i < x.a || j < x.b)
    ensures var gap := if GapTag(i, x.a, j, x.b) == Equal then [] else [Opcode(GapTag(i, x.a, j, x.b), i, x.a, j, x.b)];
      var block := if x.size == 0 then [] else [Opcode(Equal, x.a, x.a + x.size, x.b, x.b + x.size)];
      Emitted(a, b, cs + gap + block, x.a + x.size, x.b + x.size)
  {
    var tag := GapTag(i, x.a, j, x.b);
    var gapped := cs;
    if tag != Equal {
      TilesAppend(a, b, cs, Opcode(tag, i, x.a, j, x.b));
      AlternatesAppend(cs, Opcode(tag, i, x.a, j, x.b));
      gapped := cs + [Opcode(tag, i, x.a, j, x.b)];
    } else {
      assert cs + [] == cs;
    }
    if x.size > 0 {
      TilesAppend(a, b, gapped, Opcode(Equal, x.a, x.a + x.size, x.b, x.b + x.size));
      AlternatesAppend(gapped, Opcode(Equal, x.a, x.a + x.size, x.b, x.b + x.size));
    } else {
      assert gapped + [] == gapped;
    }
  }

  /** The equal operations, as blocks. */
  ghost function EqualParts(cs: seq<Opcode>): seq<MatchingBlock> {
    if cs == [] then []
    else
      var c := cs[|cs| - 1];
      EqualParts(cs[..|cs| - 1]) +
      if c.tag == Equal && c.i1 <= c.i2 then [MatchingBlock(c.i1, c.j1, c.i2 - c.i1)] else []
  }

  ghost predicate CachedCodes<T>(a: seq<T>, b: seq<T>, cs: seq<Opcode>) {
    CodesFor(a, b, cs) && Alternates(cs)
  }

  /** The operations between two sequences: they tile both, equal ones and changes in turn, and the equal ones are the
      matches of the tree of longest matches. */
  ghost predicate CodesOf(a: seq<nat>, b: seq<nat>, autoJunk: bool, cs: seq<Opcode>) {
    && CachedCodes(a, b, cs) && Covers(a, b, cs) && MatchesOf(a, b, autoJunk, EqualParts(cs))
    && (a == b ==> cs == WholeCode(|a|))
  }

  lemma {:induction false} EqualPartsAppend(cs: seq<Opcode>, c: Opcode)
    ensures EqualParts(cs + [c]) ==
      EqualParts(cs) + if c.tag == Equal && c.i1 <= c.i2 then [MatchingBlock(c.i1, c.j1, c.i2 - c.i1)] else []
  {
    assert (cs + [c])[..|cs|] == cs;
  }

  lemma {:induction false} EmittedParts(cs: seq<Opcode>, i: nat, j: nat, x: MatchingBlock)
    ensures var gap := if GapTag(i, x.a, j, x.b) == Equal then [] else [Opcode(GapTag(i, x.a, j, x.b), i, x.a, j, x.b)];
      var block := if x.size == 0 then [] else [Opcode(Equal, x.a, x.a + x.size, x.b, x.b + x.size)];
      EqualParts(cs + gap + block) == EqualParts(cs) + if x.size == 0 then [] else [x]
  {
    var tag := GapTag(i, x.a, j, x.b);
    var gapped := cs + if tag == Equal then [] else [Opcode(tag, i, x.a, j, x.b)];
    if tag == Equal {
      assert cs + [] == cs;
    } else {
      EqualPartsAppend(cs, Opcode(tag, i, x.a, j, x.b));
    }
    if x.size == 0 {
      assert gapped + [] == gapped;
    } else {
      EqualPartsAppend(gapped, Opcode(Equal, x.a, x.a + x.size, x.b, x.b + x.size));
    }
  }

  /** The operations of two equal sequences. */
  function WholeCode(n: nat): seq<Opcode> {
    if n == 0 then [] else [Opcode(Equal, 0, n, 0, n)]
  }

  /** A block lies behind the one before it and, unless it is the empty last one, not right behind it. */
  lemma {:induction false} BlockAhead(a: seq<nat>, b: seq<nat>, blocks: seq<MatchingBlock>, p: nat)
    requires BlocksOf(a, b, blocks) && p < |blocks|
    ensures EqualBlock(a, b, blocks[p])
    ensures p > 0 ==> Before(blocks[p - 1], blocks[p]) && (blocks[p].size > 0 ==> !Adjacent(blocks[p - 1], blocks[p]))
    ensures p + 1 < |blocks| <==> blocks[p].size > 0
  {
    assert p < |blocks| - 1 ==> blocks[..|blocks| - 1][p] == blocks[p];
  }

  lemma {:induction false} BlocksNext(blocks: seq<MatchingBlock>, p: nat)
    requires p < |blocks|
    ensures p + 1 < |blocks| ==> blocks[..p + 1] == blocks[..p] + [blocks[p]]
    ensures blocks[..p] + [] == blocks[..p]
  {
  }

  /** The operations for the first p blocks end at i and j. */
  ghost predicate EmittedFor(a: seq<nat>, b: seq<nat>, blocks: seq<MatchingBlock>, p: nat, cs: seq<Opcode>, i: nat,
      j: nat)
    requires p <= |blocks| && blocks != []
  {
    && Emitted(a, b, cs, i, j)
    && (p > 0 ==> i == blocks[p - 1].a + blocks[p - 1].size && j == blocks[p - 1].b + blocks[p - 1].size)
    && (p == 0 ==> cs == [])
    && (p < |blocks| && cs != [] ==> cs[|cs| - 1].tag.Equal?)
    && EqualParts(cs) == blocks[..if p < |blocks| then p else p - 1]
    && (p > 0 && WholeBlocks(a, b, blocks) ==> cs == WholeCode(|a|))
  }

  ghost predicate WholeBlocks(a: seq<nat>, b: seq<nat>, blocks: seq<MatchingBlock>) {
    |a| == |b| && blocks == WholeBlock(|a|) + [MatchingBlock(|a|, |b|, 0)]
  }

  lemma {:induction false} EmittedAll(a: seq<nat>, b: seq<nat>, blocks: seq<MatchingBlock>, cs: seq<Opcode>, i: nat,
      j: nat)
    requires BlocksOf(a, b, blocks) && EmittedFor(a, b, blocks, |blocks|, cs, i, j)
    ensures CodesFor(a, b, cs) && Covers(a, b, cs) && Alternates(cs)
    ensures EqualParts(cs) == blocks[..|blocks| - 1] && (WholeBlocks(a, b, blocks) ==> cs == WholeCode(|a|))
  {
  }

  method EmitNext(ghost a: seq<nat>, ghost b: seq<nat>, blocks: seq<MatchingBlock>, p: nat, cs: seq<Opcode>, i: nat,
      j: nat) returns (next: seq<Opcode>, i2: nat, j2: nat)
    requires BlocksOf(a, b, blocks) && p < |blocks| && EmittedFor(a, b, blocks, p, cs, i, j)
    ensures EmittedFor(a, b, blocks, p + 1, next, i2, j2)
  {
    var x := blocks[p];
    EmitReady(a, b, blocks, p, cs, i, j);
    next := Emit(a, b, cs, i, j, x);
    i2, j2 := x.a + x.size, x.b + x.size;
    EmittedNext(a, b, blocks, p, cs, i, j, next);
  }

  lemma {:induction false} EmitReady(a: seq<nat>, b: seq<nat>, blocks: seq<MatchingBlock>, p: nat, cs: seq<Opcode>,
      i: nat, j: nat)
    requires BlocksOf(a, b, blocks) && p < |blocks| && EmittedFor(a, b, blocks, p, cs, i, j)
    ensures var x := blocks[p];
      && Emitted(a, b, cs, i, j) && EqualBlock(a, b, x) && i <= x.a && j <= x.b
      && (cs != [] ==> cs[|cs| - 1].tag.Equal? && (x.size > 0 ==> i < x.a || j < x.b))
      && (p + 1 < |blocks| <==> x.size > 0)
  {
    BlockAhead(a, b, blocks, p);
  }

  lemma {:induction false} EmittedNext(a: seq<nat>, b: seq<nat>, blocks: seq<MatchingBlock>, p: nat, cs: seq<Opcode>,
      i: nat, j: nat, next: seq<Opcode>)
    requires p < |blocks| && EmittedFor(a, b, blocks, p, cs, i, j)
    requires var x := blocks[p];
      && Emitted(a, b, next, x.a + x.size, x.b + x.size) && (p + 1 < |blocks| <==> x.size > 0)
      && (x.size > 0 ==> next != [] && next[|next| - 1].tag.Equal?)
      && EqualParts(next) == EqualParts(cs) + if x.size == 0 then [] else [x]
    requires var x := blocks[p];
      i == x.a && j == x.b ==>
        next == cs + if x.size == 0 then [] else [Opcode(Equal, x.a, x.a + x.size, x.b, x.b + x.size)]
    ensures EmittedFor(a, b, blocks, p + 1, next, blocks[p].a + blocks[p].size, blocks[p].b + blocks[p].size)
  {
    BlocksNext(blocks, p);
    if WholeBlocks(a, b, blocks) {
      WholeNext(|a|, blocks, p, cs, next);
    }
  }

  lemma {:induction false} WholeNext(n: nat, blocks: seq<MatchingBlock>, p: nat, cs: seq<Opcode>, next: seq<Opcode>)
    requires p < |blocks| && blocks == WholeBlock(n) + [MatchingBlock(n, n, 0)]
    requires cs == if p == 0 then [] else WholeCode(n)
    requires next == cs + var x := blocks[p];
      if x.size == 0 then [] else [Opcode(Equal, x.a, x.a + x.size, x.b, x.b + x.size)]
    ensures next == WholeCode(n)
  {
    assert cs + [] == cs;
  }

  method ComputeOpcodes(a: seq<nat>, b: seq<nat>, blocks: seq<MatchingBlock>) returns (answer: seq<Opcode>)
    requires BlocksOf(a, b, blocks)
    ensures CachedCodes(a, b, answer) && Covers(a, b, answer) && EqualParts(answer) == blocks[..|blocks| - 1]
    ensures WholeBlocks(a, b, blocks) ==> answer == WholeCode(|a|)
  {
    var i: nat, j: nat := 0, 0;
    answer := [];
    for p: nat := 0 to |blocks|
      invariant EmittedFor(a, b, blocks, p, answer, i, j)
    {
      answer, i, j := EmitNext(a, b, blocks, p, answer, i, j);
    }
    EmittedAll(a, b, blocks, answer, i, j);
  }

  /** The operation for the gap before a block, if there is one, and the block's own if it is not empty. */
  method Emit(ghost a: seq<nat>, ghost b: seq<nat>, cs: seq<Opcode>, i: nat, j: nat, x: MatchingBlock)
    returns (next: seq<Opcode>)
    requires Emitted(a, b, cs, i, j) && EqualBlock(a, b, x) && i <= x.a && j <= x.b
    requires cs != [] ==> cs[|cs| - 1].tag.Equal? && (x.size > 0 ==> i < x.a || j < x.b)
    ensures Emitted(a, b, next, x.a + x.size, x.b + x.size)
    ensures x.size > 0 ==> next != [] && next[|next| - 1].tag.Equal?
    ensures EqualParts(next) == EqualParts(cs) + if x.size == 0 then [] else [x]
    ensures i == x.a && j == x.b ==>
      next == cs + if x.size == 0 then [] else [Opcode(Equal, x.a, x.a + x.size, x.b, x.b + x.size)]
  {
    EmitBlock(a, b, cs, i, j, x);
    EmittedParts(cs, i, j, x);
    var tag := GapTag(i, x.a, j, x.b);
    next := cs + (if tag == Equal then [] else [Opcode(tag, i, x.a, j, x.b)]);
    next := next + (if x.size == 0 then [] else [Opcode(Equal, x.a, x.a + x.size, x.b, x.b + x.size)]);
  }
}
