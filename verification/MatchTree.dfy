/** Divide and conquer over the longest matches: which blocks it finds, whatever order the ranges are searched in. */
module MatchTree {
  import opened LongestMatch

  // ----- a range has exactly one longest match

  lemma {:induction false} OneFirst(a: seq<nat>, b: seq<nat>, autoJunk: bool, r: Range, x: MatchingBlock,
      y: MatchingBlock)
    requires r.Within(a, b) && FirstLongest(a, b, autoJunk, r, x) && FirstLongest(a, b, autoJunk, r, y)
    ensures x == y
  {
    assert Precedes(x, y.a, y.b, y.size) && Precedes(y, x.a, x.b, x.size);
  }

  lemma {:induction false} RunElement(a: seq<nat>, b: seq<nat>, r: Range, x: MatchingBlock, k: nat)
    requires r.Within(a, b) && Run(a, b, r, x.a, x.b, x.size) && k < x.size
    ensures a[x.a + k] == b[x.b + k]
  {
    assert a[x.a..x.a + x.size][k] == b[x.b..x.b + x.size][k];
  }

  /** Two grown blocks around one run: neither starts behind the other, nor ends before it. */
  lemma {:induction false} NotInside(a: seq<nat>, b: seq<nat>, r: Range, best: MatchingBlock, x: MatchingBlock,
      y: MatchingBlock)
    requires r.Within(a, b) && GrownFrom(best, x) && GrownFrom(best, y)
    requires Run(a, b, r, x.a, x.b, x.size) && Run(a, b, r, y.a, y.b, y.size)
    requires ClosedAtStart(a, b, r, y) && ClosedAtEnd(a, b, r, y)
    ensures y.a <= x.a && x.a + x.size <= y.a + y.size
  {
    if x.a < y.a {
      RunElement(a, b, r, x, y.a - 1 - x.a);
    }
    if y.a + y.size < x.a + x.size {
      RunElement(a, b, r, x, y.a + y.size - x.a);
    }
  }

  lemma {:induction false} OneLongest(a: seq<nat>, b: seq<nat>, autoJunk: bool, r: Range, x: MatchingBlock,
      y: MatchingBlock)
    requires r.Within(a, b) && LongestIn(a, b, autoJunk, r, x) && LongestIn(a, b, autoJunk, r, y)
    ensures x == y
  {
    var best :| FirstLongest(a, b, autoJunk, r, best) && GrownFrom(best, x);
    var other :| FirstLongest(a, b, autoJunk, r, other) && GrownFrom(other, y);
    OneFirst(a, b, autoJunk, r, best, other);
    NotInside(a, b, r, best, x, y);
    NotInside(a, b, r, best, y, x);
  }

  lemma {:induction false} BestWithoutHit(a: seq<nat>, b: seq<nat>, autoJunk: bool, r: Range, i: nat, j: nat,
      best: MatchingBlock)
    requires r.Within(a, b) && BestSoFar(a, b, autoJunk, r, i, j, best) && !Hit(a, b, autoJunk, r, i, j)
    ensures BestSoFar(a, b, autoJunk, r, i, j + 1, best)
  {
    forall x: nat, y: nat | Seen(i, j + 1, x, y) ensures NoBetterAt(a, b, autoJunk, r, best, x, y) {
      if Seen(i, j, x, y) {
        assert NoBetterAt(a, b, autoJunk, r, best, x, y);
      }
    }
  }

  lemma {:induction false} BestOfRow(a: seq<nat>, b: seq<nat>, autoJunk: bool, r: Range, i: nat, j: nat,
      best: MatchingBlock)
    returns (next: MatchingBlock)
    requires r.Within(a, b) && BestSoFar(a, b, autoJunk, r, i, j, best)
    ensures BestSoFar(a, b, autoJunk, r, i + 1, 0, next)
    decreases if j < r.bhi then r.bhi - j else 0
  {
    if j >= r.bhi {
      BestSkip(a, b, autoJunk, r, i, j, best);
      next := best;
    } else if Hit(a, b, autoJunk, r, i, j) {
      var length := HitsEndingAt(a, b, autoJunk, r, i, j);
      BestNext(a, b, autoJunk, r, i, j, j, best, length);
      next := BestOfRow(a, b, autoJunk, r, i, j + 1, Better(best, i, j, length));
    } else {
      BestWithoutHit(a, b, autoJunk, r, i, j, best);
      next := BestOfRow(a, b, autoJunk, r, i, j + 1, best);
    }
  }

  lemma {:induction false} BestOfRows(a: seq<nat>, b: seq<nat>, autoJunk: bool, r: Range, i: nat)
    returns (best: MatchingBlock)
    requires r.Within(a, b) && r.alo <= i
    ensures BestSoFar(a, b, autoJunk, r, i, 0, best)
    decreases i
  {
    if i == r.alo {
      best := MatchingBlock(r.alo, r.blo, 0);
      NothingSeen(a, b, autoJunk, r);
    } else {
      var before := BestOfRows(a, b, autoJunk, r, i - 1);
      best := BestOfRow(a, b, autoJunk, r, i - 1, 0, before);
    }
  }

  lemma {:induction false} GrowsFront(a: seq<nat>, b: seq<nat>, r: Range, best: MatchingBlock, x: MatchingBlock)
    returns (y: MatchingBlock)
    requires r.Within(a, b) && Run(a, b, r, x.a, x.b, x.size) && GrownFrom(best, x)
    ensures Run(a, b, r, y.a, y.b, y.size) && GrownFrom(best, y) && ClosedAtStart(a, b, r, y)
    decreases x.a
  {
    if x.a > r.alo && x.b > r.blo && a[x.a - 1] == b[x.b - 1] {
      RunGrowsFront(a, b, r, x.a, x.b, x.size);
      y := GrowsFront(a, b, r, best, MatchingBlock(x.a - 1, x.b - 1, x.size + 1));
    } else {
      y := x;
    }
  }

  lemma {:induction false} GrowsBack(a: seq<nat>, b: seq<nat>, r: Range, best: MatchingBlock, x: MatchingBlock)
    returns (y: MatchingBlock)
    requires r.Within(a, b) && Run(a, b, r, x.a, x.b, x.size) && GrownFrom(best, x) && ClosedAtStart(a, b, r, x)
    ensures Run(a, b, r, y.a, y.b, y.size) && GrownFrom(best, y)
    ensures ClosedAtStart(a, b, r, y) && ClosedAtEnd(a, b, r, y)
    decreases |a| - x.size
  {
    if x.a + x.size < r.ahi && x.b + x.size < r.bhi && a[x.a + x.size] == b[x.b + x.size] {
      RunGrowsBack(a, b, r, x.a, x.b, x.size);
      y := GrowsBack(a, b, r, best, MatchingBlock(x.a, x.b, x.size + 1));
    } else {
      y := x;
    }
  }

  /** Every range has a longest match. */
  lemma {:induction false} LongestExists(a: seq<nat>, b: seq<nat>, autoJunk: bool, r: Range)
    returns (x: MatchingBlock)
    requires r.Within(a, b)
    ensures LongestIn(a, b, autoJunk, r, x)
  {
    var best := BestOfRows(a, b, autoJunk, r, r.ahi);
    BestIsLongest(a, b, autoJunk, r, best);
    BestIsUnpopular(a, b, autoJunk, r, best);
    var y := GrowsFront(a, b, r, best, best);
    x := GrowsBack(a, b, r, best, y);
    GrownIsLongest(a, b, autoJunk, r, best, x);
  }

  // ----- the tree of longest matches

  /** The longest match of a range, and the same for what lies before and behind it in both sequences. */
  datatype Tree = Nothing | Match(block: MatchingBlock, before: Tree, behind: Tree)

  function Front(r: Range, x: MatchingBlock): Range {
    Range(r.alo, x.a, r.blo, x.b)
  }

  function Rear(r: Range, x: MatchingBlock): Range {
    Range(x.a + x.size, r.ahi, x.b + x.size, r.bhi)
  }

  predicate Searched(r: Range) {
    r.alo < r.ahi && r.blo < r.bhi
  }

  /** A range that is empty on one side is not searched. */
  ghost predicate TreeOf(a: seq<nat>, b: seq<nat>, autoJunk: bool, r: Range, t: Tree)
    requires r.Within(a, b)
    decreases t
  {
    match t
    case Nothing => LongestIn(a, b, autoJunk, r, MatchingBlock(r.alo, r.blo, 0))
    case Match(x, before, behind) =>
      && LongestIn(a, b, autoJunk, r, x) && x.size > 0
      && Front(r, x).Within(a, b) && Rear(r, x).Within(a, b)
      && (if Searched(Front(r, x)) then TreeOf(a, b, autoJunk, Front(r, x), before) else before == Nothing)
      && (if Searched(Rear(r, x)) then TreeOf(a, b, autoJunk, Rear(r, x), behind) else behind == Nothing)
  }

  /** The blocks of the tree from left to right. */
  ghost function InOrder(t: Tree): seq<MatchingBlock> {
    match t
    case Nothing => []
    case Match(x, before, behind) => InOrder(before) + [x] + InOrder(behind)
  }

  /** Every range has a tree. */
  lemma {:induction false} TreeExists(a: seq<nat>, b: seq<nat>, autoJunk: bool, r: Range) returns (t: Tree)
    requires r.Within(a, b)
    ensures TreeOf(a, b, autoJunk, r, t)
    decreases r.ahi - r.alo
  {
    var x := LongestExists(a, b, autoJunk, r);
    if x.size == 0 {
      var best :| FirstLongest(a, b, autoJunk, r, best) && GrownFrom(best, x);
      t := Nothing;
    } else {
      var before, behind := Nothing, Nothing;
      if Searched(Front(r, x)) {
        before := TreeExists(a, b, autoJunk, Front(r, x));
      }
      if Searched(Rear(r, x)) {
        behind := TreeExists(a, b, autoJunk, Rear(r, x));
      }
      t := Match(x, before, behind);
    }
  }

  /** And only one. */
  lemma {:induction false} OneTree(a: seq<nat>, b: seq<nat>, autoJunk: bool, r: Range, s: Tree, t: Tree)
    requires r.Within(a, b) && TreeOf(a, b, autoJunk, r, s) && TreeOf(a, b, autoJunk, r, t)
    ensures s == t
    decreases s
  {
    var x := if s.Match? then s.block else MatchingBlock(r.alo, r.blo, 0);
    var y := if t.Match? then t.block else MatchingBlock(r.alo, r.blo, 0);
    OneLongest(a, b, autoJunk, r, x, y);
    if s.Match? {
      if Searched(Front(r, x)) {
        OneTree(a, b, autoJunk, Front(r, x), s.before, t.before);
      }
      if Searched(Rear(r, x)) {
        OneTree(a, b, autoJunk, Rear(r, x), s.behind, t.behind);
      }
    }
  }
}
