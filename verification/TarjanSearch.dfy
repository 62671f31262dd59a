/** The state of the iterative strongly-connected-components search, its four moves, and the
    invariant every move keeps. The search itself is CfgScanner in ControlFlowGraph.dfy. */
module TarjanSearch {
  import opened Graphs
  import opened SetFacts

  const UNVISITED: nat := 0xFFFFFFFF

  datatype Frame = Frame(node: nat, cursor: nat)

  datatype Search = Search(
    index: seq<nat>,
    low: seq<nat>,
    onStack: seq<bool>,
    component: seq<nat>,
    stack: seq<nat>,
    frames: seq<Frame>,
    next: nat,
    counts: seq<nat>)
  {
    ghost predicate Sized(n: nat) {
      |index| == n && |low| == n && |onStack| == n && |component| == n
    }

    ghost predicate Visited(u: nat) {
      u < |index| && index[u] != UNVISITED
    }

    ghost predicate Stacked(u: nat) {
      u < |onStack| && onStack[u]
    }

    /** Visited and already moved into a finished component. */
    ghost predicate Assigned(u: nat) {
      Visited(u) && !Stacked(u)
    }

    ghost predicate Open(u: nat) {
      exists i :: 0 <= i < |frames| && frames[i].node == u
    }

    ghost function VisitedSet(): set<nat> {
      set u | 0 <= u < |index| && Visited(u)
    }

    ghost function MembersOf(c: nat): set<nat> {
      set u | 0 <= u < |index| && Assigned(u) && u < |component| && component[u] == c
    }

    /** `y` lies on the stack at or above frame `i`'s node and below the next frame's node. */
    ghost predicate InSegment(i: nat, y: nat)
      requires i < |frames| && y < |index|
      requires forall k :: 0 <= k < |frames| ==> frames[k].node < |index|
    {
      index[frames[i].node] <= index[y] && (i + 1 < |frames| ==> index[y] < index[frames[i + 1].node])
    }

    function Top(): Frame
      requires frames != []
    {
      frames[|frames| - 1]
    }

    function Advance(): Search
      requires frames != []
    {
      this.(frames := frames[|frames| - 1 := Frame(Top().node, Top().cursor + 1)])
    }

    function Visit(c: nat): Search
      requires Sized(|index|) && c < |index|
    {
      this.(index := index[c := next], low := low[c := next], onStack := onStack[c := true],
            stack := stack + [c], frames := frames + [Frame(c, 0)], next := next + 1)
    }

    function Enter(c: nat): Search
      requires Sized(|index|) && c < |index|
    {
      if frames == [] then Visit(c) else Advance().Visit(c)
    }

    /** Skip an edge to a visited node, or to an entry that is no node (`child >= |index|`). */
    function Pass(child: nat): Search
      requires frames != [] && Sized(|index|) && Top().node < |index|
    {
      var s := Advance();
      if child < |index| && onStack[child] && index[child] < low[Top().node]
      then s.(low := low[Top().node := index[child]])
      else s
    }

    function Retreat(): Search
      requires frames != [] && Sized(|index|) && Top().node < |index|
      requires |frames| > 1 ==> frames[|frames| - 2].node < |index|
    {
      var s := this.(frames := frames[..|frames| - 1]);
      if s.frames != [] && low[Top().node] < low[s.Top().node]
      then s.(low := low[s.Top().node := low[Top().node]])
      else s
    }

    /** Close the component made of the stack from position `k` on. */
    function CloseComponent(k: nat): Search
      requires frames != [] && k <= |stack| && Sized(|index|)
    {
      this.(onStack := seq(|index|, u requires 0 <= u < |index| => onStack[u] && u !in stack[k..]),
            component :=
              seq(|index|, u requires 0 <= u < |index| => if u in stack[k..] then |counts| else component[u]),
            stack := stack[..k],
            counts := counts + [|stack| - k],
            frames := frames[..|frames| - 1])
    }

    /** One round of the search loop while the top frame still has an edge to look at. */
    ghost function LookAtEdge(g: Adjacency): Search
      requires Sized(|g|) && frames != [] && Top().node < |g| && Top().cursor < |g[Top().node]|
    {
      var child := g[Top().node][Top().cursor];
      if child < |index| && index[child] == UNVISITED then Enter(child) else Pass(child)
    }

    /** One round of the search loop when the top frame is finished; `k` is its stack position. */
    ghost function Leave(k: nat): Search
      requires Sized(|index|) && frames != [] && Top().node < |index| && k <= |stack|
      requires |frames| > 1 ==> frames[|frames| - 2].node < |index|
    {
      if low[Top().node] == index[Top().node] then CloseComponent(k) else Retreat()
    }
  }

  ghost predicate StackShape(g: Adjacency, s: Search) {
    && |g| < UNVISITED && s.Sized(|g|)
    && (forall a :: 0 <= a < |s.stack| ==> s.Stacked(s.stack[a]))
    && (forall u: nat :: s.Stacked(u) ==> u in s.stack && s.Visited(u))
    && (forall a, b :: 0 <= a < b < |s.stack| ==> s.index[s.stack[a]] < s.index[s.stack[b]])
    && (forall u: nat :: s.Visited(u) ==> s.index[u] < s.next)
    && s.next == |s.VisitedSet()|
  }

  ghost predicate FrameShape(g: Adjacency, s: Search)
    requires s.Sized(|g|)
  {
    && (forall i :: 0 <= i < |s.frames| ==> s.Stacked(s.frames[i].node) && s.frames[i].cursor <= |g[s.frames[i].node]|)
    && (forall i, j :: 0 <= i < j < |s.frames| ==> s.index[s.frames[i].node] < s.index[s.frames[j].node])
    && (forall i :: 0 < i < |s.frames| ==> Linked(g, s, i))
  }

  /** Frame `i`'s node was entered along an edge from the frame below it. */
  ghost predicate Linked(g: Adjacency, s: Search, i: int)
    requires 0 < i < |s.frames|
  {
    Edge(g, s.frames[i - 1].node, s.frames[i].node)
  }

  /** Every edge already looked at leads to a visited node. */
  ghost predicate ExploredVisited(g: Adjacency, s: Search)
    requires s.Sized(|g|)
  {
    && (forall u: nat, k :: s.Visited(u) && !s.Open(u) && 0 <= k < |g[u]| && g[u][k] < |g| ==> s.Visited(g[u][k]))
    && (forall i, k :: (0 <= i < |s.frames| && s.Visited(s.frames[i].node) && 0 <= k < s.frames[i].cursor
          && k < |g[s.frames[i].node]| && g[s.frames[i].node][k] < |g|) ==> s.Visited(g[s.frames[i].node][k]))
  }

  /** Finished components: closed under edges, never numbered below a component they lead to,
      and equal exactly for mutually reachable nodes. */
  ghost predicate ComponentsDone(g: Adjacency, s: Search)
    requires s.Sized(|g|)
  {
    && (forall u: nat :: s.Assigned(u) ==> s.component[u] < |s.counts|)
    && (forall u: nat, v: nat :: s.Assigned(u) && Edge(g, u, v) ==> s.Assigned(v) && s.component[v] <= s.component[u])
    && (forall u: nat, v: nat ::
      s.Assigned(u) && s.Assigned(v) ==> (s.component[u] == s.component[v] <==> Mutual(g, u, v)))
    && (forall c :: 0 <= c < |s.counts| ==> s.counts[c] == |s.MembersOf(c)| && s.counts[c] > 0)
  }

  /** A lower stacked node reaches every higher one; every stacked node reaches an open node
      at or below it. */
  ghost predicate StackReach(g: Adjacency, s: Search)
    requires s.Sized(|g|)
  {
    && (forall a, b :: 0 <= a <= b < |s.stack| ==> Reach(g, s.stack[a], s.stack[b]))
    && (forall y: nat {:trigger Anchored(g, s, y)} :: s.Stacked(y) ==> Anchored(g, s, y))
  }

  ghost predicate Anchored(g: Adjacency, s: Search, y: nat)
    requires s.Sized(|g|) && y < |g|
  {
    exists i ::
      0 <= i < |s.frames| && s.Stacked(s.frames[i].node) && s.index[s.frames[i].node] <= s.index[y] &&
      Reach(g, y, s.frames[i].node)
  }

  /** The low link of an open node is the index of a stacked node it reaches. */
  ghost predicate LowSound(g: Adjacency, s: Search)
    requires s.Sized(|g|)
  {
    forall i {:trigger LowWitnessed(g, s, s.frames[i].node)} ::
      0 <= i < |s.frames| && s.Stacked(s.frames[i].node) ==> LowWitnessed(g, s, s.frames[i].node)
  }

  ghost predicate LowWitnessed(g: Adjacency, s: Search, u: nat)
    requires s.Sized(|g|) && u < |g|
  {
    s.low[u] <= s.index[u] && exists w: nat :: s.Stacked(w) && s.index[w] == s.low[u] && Reach(g, u, w)
  }

  /** The low link of an open node is at most the index of every stacked node that an edge
      already looked at in its segment of the stack leads to. */
  ghost predicate LowBelow(g: Adjacency, s: Search)
    requires s.Sized(|g|) && FrameShape(g, s)
  {
    forall i, y: nat, k {:trigger LooksAt(g, s, i, y, k)} ::
      LooksAt(g, s, i, y, k) ==> s.low[s.frames[i].node] <= s.index[g[y][k]]
  }

  /** Entry `k` of `y`, a node in the segment of frame `i`, has been looked at and is a stacked node. */
  ghost predicate LooksAt(g: Adjacency, s: Search, i: int, y: nat, k: int)
    requires s.Sized(|g|) && FrameShape(g, s)
  {
    && 0 <= i < |s.frames| && s.Stacked(y) && s.InSegment(i, y) && 0 <= k < |g[y]|
    && (y == s.frames[i].node ==> k < s.frames[i].cursor) && s.Stacked(g[y][k])
  }

  ghost predicate Inv(g: Adjacency, s: Search) {
    && StackShape(g, s)
    && FrameShape(g, s)
    && ExploredVisited(g, s)
    && ComponentsDone(g, s)
    && StackReach(g, s)
    && LowSound(g, s)
    && LowBelow(g, s)
  }

  // ----- consequences of the invariant

  /** Every stacked node reaches the top frame's node. */
  lemma {:induction false} FrameReach(g: Adjacency, s: Search, i: nat, j: nat)
    requires s.Sized(|g|) && FrameShape(g, s)
    requires i <= j < |s.frames|
    ensures Reach(g, s.frames[i].node, s.frames[j].node)
    decreases j - i
  {
    if i == j {
      ReachRefl(g, s.frames[i].node);
    } else {
      FrameReach(g, s, i, j - 1);
      assert Linked(g, s, j);
      EdgeReach(g, s.frames[j - 1].node, s.frames[j].node);
      ReachTrans(g, s.frames[i].node, s.frames[j - 1].node, s.frames[j].node);
    }
  }

  lemma {:induction false} StackedReachesTop(g: Adjacency, s: Search, y: nat)
    requires s.Sized(|g|) && FrameShape(g, s) && y < |g| && Anchored(g, s, y)
    ensures s.frames != [] && Reach(g, y, s.Top().node)
  {
    var i :| 0 <= i < |s.frames| && s.index[s.frames[i].node] <= s.index[y] && Reach(g, y, s.frames[i].node);
    FrameReach(g, s, i, |s.frames| - 1);
    ReachTrans(g, y, s.frames[i].node, s.Top().node);
  }

  lemma {:induction false} VisitedBound(s: Search, u: nat)
    requires u < |s.index| && !s.Visited(u)
    ensures |s.VisitedSet()| < |s.index|
  {
    var others := Below(|s.index|) - {u};
    assert |others| == |s.index| - 1;
    assert s.VisitedSet() <= others;
    SubsetSize(s.VisitedSet(), others);
  }

  // ----- entering an unvisited node

  ghost predicate CanEnter(g: Adjacency, s: Search, c: nat) {
    && Inv(g, s) && c < |g| && !s.Visited(c)
    && (s.frames == [] || (s.Top().cursor < |g[s.Top().node]| && g[s.Top().node][s.Top().cursor] == c))
  }

  /** `t` is `s` after entering `c`. */
  ghost predicate Entered(g: Adjacency, s: Search, t: Search, c: nat) {
    && s.Sized(|g|) && t.Sized(|g|) && c < |g| && s.next < UNVISITED
    && !s.Visited(c) && !s.Stacked(c)
    && t.index == s.index[c := s.next] && t.low == s.low[c := s.next] && t.onStack == s.onStack[c := true]
    && t.component == s.component && t.counts == s.counts && t.stack == s.stack + [c] && t.next == s.next + 1
    && |t.frames| == |s.frames| + 1 && t.frames[|s.frames|] == Frame(c, 0)
    && (forall i :: 0 <= i < |s.frames| ==> t.frames[i].node == s.frames[i].node)
    && (forall i :: 0 <= i < |s.frames| - 1 ==> t.frames[i].cursor == s.frames[i].cursor)
    && (s.frames != [] ==>
          && s.Top().node < |g| && s.Top().cursor < |g[s.Top().node]| && g[s.Top().node][s.Top().cursor] == c
          && t.frames[|s.frames| - 1].cursor == s.Top().cursor + 1)
  }

  lemma {:induction false} EnterIsEntered(g: Adjacency, s: Search, c: nat)
    requires StackShape(g, s) && FrameShape(g, s) && c < |g| && !s.Visited(c)
    requires s.frames == [] || (s.Top().cursor < |g[s.Top().node]| && g[s.Top().node][s.Top().cursor] == c)
    ensures Entered(g, s, s.Enter(c), c)
  {
    VisitedBound(s, c);
  }

  lemma {:induction false} EnterStack(g: Adjacency, s: Search, t: Search, c: nat)
    requires StackShape(g, s) && Entered(g, s, t, c)
    ensures StackShape(g, t)
  {
    assert t.VisitedSet() == s.VisitedSet() + {c};
    forall u: nat | t.Stacked(u) ensures u in t.stack {
      if u != c {
        assert u in s.stack;
      }
    }
    forall a | 0 <= a < |t.stack| ensures t.Stacked(t.stack[a]) {
      if a < |s.stack| {
        assert t.stack[a] == s.stack[a];
      }
    }
  }

  lemma {:induction false} EnterFrames(g: Adjacency, s: Search, t: Search, c: nat)
    requires StackShape(g, s) && FrameShape(g, s) && Entered(g, s, t, c)
    ensures FrameShape(g, t)
  {
    forall i | 0 < i < |t.frames| ensures Linked(g, t, i) {
      if i < |s.frames| {
        assert Linked(g, s, i);
      }
    }
  }

  lemma {:induction false} EnterExplored(g: Adjacency, s: Search, t: Search, c: nat)
    requires StackShape(g, s) && FrameShape(g, s) && Entered(g, s, t, c) && ExploredVisited(g, s)
    ensures ExploredVisited(g, t)
  {
    forall u: nat | s.Open(u) ensures t.Open(u) {
      var i :| 0 <= i < |s.frames| && s.frames[i].node == u;
      assert t.frames[i].node == u;
    }
    assert t.Open(c) by { assert t.frames[|s.frames|].node == c; }
    forall i, k | 0 <= i < |t.frames| && t.Visited(t.frames[i].node) && 0 <= k < t.frames[i].cursor
      && k < |g[t.frames[i].node]| && g[t.frames[i].node][k] < |g|
      ensures t.Visited(g[t.frames[i].node][k])
    {
      var u := t.frames[i].node;
      assert i < |s.frames| && s.frames[i].node == u;
      assert s.Visited(u);
    }
  }

  lemma {:induction false} EnterComponents(g: Adjacency, s: Search, t: Search, c: nat)
    requires Entered(g, s, t, c) && ComponentsDone(g, s)
    ensures ComponentsDone(g, t)
  {
    assert forall u: nat :: t.Assigned(u) <==> s.Assigned(u);
    forall x | 0 <= x < |s.counts| ensures t.MembersOf(x) == s.MembersOf(x) {}
  }

  lemma {:induction false} EnterStackReach(g: Adjacency, s: Search, t: Search, c: nat)
    requires StackShape(g, s) && FrameShape(g, s) && Entered(g, s, t, c) && StackReach(g, s)
    ensures StackReach(g, t)
  {
    ReachRefl(g, c);
    forall a, b | 0 <= a <= b < |t.stack| ensures Reach(g, t.stack[a], t.stack[b]) {
      if b < |s.stack| {
        assert Reach(g, s.stack[a], s.stack[b]);
      } else if a < b {
        assert s.Stacked(s.stack[a]) && Anchored(g, s, s.stack[a]);
        StackedReachesTop(g, s, s.stack[a]);
        EdgeReach(g, s.Top().node, c);
        ReachTrans(g, s.stack[a], s.Top().node, c);
      }
    }
    forall y: nat | t.Stacked(y) ensures Anchored(g, t, y) {
      if y == c {
        assert t.frames[|s.frames|].node == c;
      } else {
        assert s.Stacked(y) && Anchored(g, s, y);
        EnterAnchored(g, s, t, c, y);
      }
    }
  }

  lemma {:induction false} EnterAnchored(g: Adjacency, s: Search, t: Search, c: nat, y: nat)
    requires Entered(g, s, t, c) && s.Stacked(y) && Anchored(g, s, y)
    ensures Anchored(g, t, y)
  {
    var i :| 0 <= i < |s.frames| && s.Stacked(s.frames[i].node) && s.index[s.frames[i].node] <= s.index[y] &&
      Reach(g, y, s.frames[i].node);
    assert t.frames[i].node == s.frames[i].node;
  }

  lemma {:induction false} EnterLowSound(g: Adjacency, s: Search, t: Search, c: nat)
    requires Entered(g, s, t, c) && FrameShape(g, s) && LowSound(g, s)
    ensures LowSound(g, t)
  {
    forall i | 0 <= i < |t.frames| && t.Stacked(t.frames[i].node) ensures LowWitnessed(g, t, t.frames[i].node) {
      if i < |s.frames| {
        var u := s.frames[i].node;
        assert LowWitnessed(g, s, u);
        var w: nat :| s.Stacked(w) && s.index[w] == s.low[u] && Reach(g, u, w);
        assert t.Stacked(w);
      } else {
        ReachRefl(g, c);
        assert t.Stacked(c);
      }
    }
  }

  lemma {:induction false} EnterLowBelow(g: Adjacency, s: Search, t: Search, c: nat)
    requires StackShape(g, s) && FrameShape(g, s) && Entered(g, s, t, c) && LowSound(g, s) && LowBelow(g, s)
    requires FrameShape(g, t)
    ensures LowBelow(g, t)
  {
    forall i, y: nat, k | LooksAt(g, t, i, y, k)
      ensures t.low[t.frames[i].node] <= t.index[g[y][k]]
    {
      if i < |s.frames| {
        var u := s.frames[i].node;
        assert t.frames[i].node == u && s.Stacked(u);
        assert LowWitnessed(g, s, u);
        assert y != c;
        if g[y][k] != c {
          assert LooksAt(g, s, i, y, k);
        }
      } else {
        assert false;
      }
    }
  }

  lemma {:induction false} EnterKeepsInv(g: Adjacency, s: Search, c: nat)
    requires CanEnter(g, s, c)
    ensures Inv(g, s.Enter(c))
  {
    var t := s.Enter(c);
    EnterIsEntered(g, s, c);
    EnterStack(g, s, t, c);
    EnterFrames(g, s, t, c);
    EnterExplored(g, s, t, c);
    EnterComponents(g, s, t, c);
    EnterStackReach(g, s, t, c);
    EnterLowSound(g, s, t, c);
    EnterLowBelow(g, s, t, c);
  }

  // ----- passing an edge that leads to no new node

  /** `t` is `s` after passing the edge entry `child` of the top frame's node. */
  ghost predicate Passed(g: Adjacency, s: Search, t: Search, child: nat) {
    && s.Sized(|g|) && t.Sized(|g|) && s.frames != [] && s.Top().node < |g|
    && s.Top().cursor < |g[s.Top().node]| && g[s.Top().node][s.Top().cursor] == child
    && (child < |g| ==> s.Visited(child))
    && t.index == s.index && t.onStack == s.onStack && t.component == s.component && t.counts == s.counts
    && t.stack == s.stack && t.next == s.next && |t.frames| == |s.frames|
    && (forall i :: 0 <= i < |s.frames| ==> t.frames[i].node == s.frames[i].node)
    && (forall i :: 0 <= i < |s.frames| - 1 ==> t.frames[i].cursor == s.frames[i].cursor)
    && t.frames[|s.frames| - 1].cursor == s.Top().cursor + 1
    && t.low ==
      s.low[s.Top().node := if s.Stacked(child) &&
      s.index[child] < s.low[s.Top().node] then s.index[child] else s.low[s.Top().node]]
  }

  lemma {:induction false} PassStack(g: Adjacency, s: Search, t: Search, child: nat)
    requires StackShape(g, s) && Passed(g, s, t, child)
    ensures StackShape(g, t) && forall u: nat :: t.Stacked(u) <==> s.Stacked(u)
  {
    assert t.VisitedSet() == s.VisitedSet();
    forall u: nat | t.Stacked(u) ensures u in t.stack && t.Visited(u) {
      assert s.Stacked(u);
    }
    forall a | 0 <= a < |t.stack| ensures t.Stacked(t.stack[a]) {
      assert s.Stacked(s.stack[a]);
    }
  }

  lemma {:induction false} PassFrames(g: Adjacency, s: Search, t: Search, child: nat)
    requires StackShape(g, s) && FrameShape(g, s) && ExploredVisited(g, s) && Passed(g, s, t, child)
    ensures StackShape(g, t) && FrameShape(g, t)
  {
    PassStack(g, s, t, child);
    forall i | 0 <= i < |t.frames| ensures t.Stacked(t.frames[i].node) && t.frames[i].cursor <= |g[t.frames[i].node]| {
      assert s.Stacked(s.frames[i].node) && s.frames[i].cursor <= |g[s.frames[i].node]|;
    }
    forall i | 0 < i < |t.frames| ensures Linked(g, t, i) {
      assert Linked(g, s, i);
    }
  }

  lemma {:induction false} PassExplored(g: Adjacency, s: Search, t: Search, child: nat)
    requires StackShape(g, s) && FrameShape(g, s) && ExploredVisited(g, s) && Passed(g, s, t, child)
    ensures ExploredVisited(g, t)
  {
    forall u: nat | s.Open(u) ensures t.Open(u) {
      var i :| 0 <= i < |s.frames| && s.frames[i].node == u;
      assert t.frames[i].node == u;
    }
  }

  lemma {:induction false} PassComponents(g: Adjacency, s: Search, t: Search, child: nat)
    requires ComponentsDoneSized(g, s) && StackReach(g, s) && Passed(g, s, t, child)
    ensures ComponentsDone(g, t) && StackReach(g, t)
  {
    assert forall u: nat :: t.Assigned(u) <==> s.Assigned(u);
    forall x | 0 <= x < |s.counts| ensures t.MembersOf(x) == s.MembersOf(x) {}
    forall y: nat | t.Stacked(y) ensures Anchored(g, t, y) {
      assert s.Stacked(y) && Anchored(g, s, y);
      var i :| 0 <= i < |s.frames| && s.Stacked(s.frames[i].node) && s.index[s.frames[i].node] <= s.index[y] &&
        Reach(g, y, s.frames[i].node);
      assert t.frames[i].node == s.frames[i].node;
    }
  }

  ghost predicate ComponentsDoneSized(g: Adjacency, s: Search) {
    s.Sized(|g|) && ComponentsDone(g, s)
  }

  lemma {:induction false} PassLowSound(g: Adjacency, s: Search, t: Search, child: nat)
    requires Passed(g, s, t, child) && FrameShape(g, s) && LowSound(g, s)
    ensures LowSound(g, t)
  {
    var v := s.Top().node;
    forall i | 0 <= i < |t.frames| && t.Stacked(t.frames[i].node) ensures LowWitnessed(g, t, t.frames[i].node) {
      var u := s.frames[i].node;
      assert LowWitnessed(g, s, u);
      if t.low[u] == s.low[u] {
        var w: nat :| s.Stacked(w) && s.index[w] == s.low[u] && Reach(g, u, w);
        assert t.Stacked(w);
      } else {
        EdgeReach(g, v, child);
        assert t.Stacked(child);
      }
    }
  }

  lemma {:induction false} PassLowBelow(g: Adjacency, s: Search, t: Search, child: nat)
    requires Passed(g, s, t, child) && FrameShape(g, s) && LowBelow(g, s) && FrameShape(g, t)
    ensures LowBelow(g, t)
  {
    forall i, y: nat, k | LooksAt(g, t, i, y, k)
      ensures t.low[t.frames[i].node] <= t.index[g[y][k]]
    {
      var u := s.frames[i].node;
      assert t.frames[i].node == u && t.low[u] <= s.low[u];
      if k < s.frames[i].cursor || y != u {
        assert LooksAt(g, s, i, y, k);
      }
    }
  }

  lemma {:induction false} PassIsPassed(g: Adjacency, s: Search, child: nat)
    requires StackShape(g, s) && FrameShape(g, s) && s.frames != [] && s.Top().cursor < |g[s.Top().node]|
    requires child == g[s.Top().node][s.Top().cursor] && (child < |g| ==> s.Visited(child))
    ensures Passed(g, s, s.Pass(child), child)
  {
    assert s.Stacked(s.frames[|s.frames| - 1].node);
  }

  lemma {:induction false} PassKeepsInv(g: Adjacency, s: Search, child: nat)
    requires Inv(g, s) && s.frames != [] && s.Top().cursor < |g[s.Top().node]|
    requires child == g[s.Top().node][s.Top().cursor] && (child < |g| ==> s.Visited(child))
    ensures Inv(g, s.Pass(child))
  {
    var t := s.Pass(child);
    PassIsPassed(g, s, child);
    PassFrames(g, s, t, child);
    PassExplored(g, s, t, child);
    PassComponents(g, s, t, child);
    PassLowSound(g, s, t, child);
    PassLowBelow(g, s, t, child);
  }

  // ----- leaving a finished node whose component is not complete

  ghost predicate Retreated(g: Adjacency, s: Search, t: Search) {
    && s.Sized(|g|) && t.Sized(|g|) && |s.frames| >= 2
    && s.Top().node < |g| && s.Top().cursor == |g[s.Top().node]| && s.low[s.Top().node] < s.index[s.Top().node]
    && t.index == s.index && t.onStack == s.onStack && t.component == s.component && t.counts == s.counts
    && t.stack == s.stack && t.next == s.next && t.frames == s.frames[..|s.frames| - 1]
    && t.Top().node < |g|
    && t.low ==
      s.low[t.Top().node := if s.low[s.Top().node] < s.low[t.Top().node] then s.low[s.Top().node]
      else s.low[t.Top().node]]
  }

  /** A node with a smaller low link is not the bottom frame's, and reaches an open node below it. */
  lemma {:induction false} LowLeadsDown(g: Adjacency, s: Search) returns (w: nat, j: nat)
    requires s.Sized(|g|) && FrameShape(g, s) && StackReach(g, s) && LowSound(g, s)
    requires s.frames != [] && s.Top().node < |g| && s.low[s.Top().node] < s.index[s.Top().node]
    ensures s.Stacked(w) && s.index[w] == s.low[s.Top().node] && Reach(g, s.Top().node, w)
    ensures j < |s.frames| - 1 && s.index[s.frames[j].node] <= s.index[w] && Reach(g, s.Top().node, s.frames[j].node)
  {
    var v := s.Top().node;
    assert LowWitnessed(g, s, v) by { assert s.frames[|s.frames| - 1].node == v; }
    w :| s.Stacked(w) && s.index[w] == s.low[v] && Reach(g, v, w);
    assert Anchored(g, s, w);
    j :| 0 <= j < |s.frames| && s.Stacked(s.frames[j].node) && s.index[s.frames[j].node] <= s.index[w] &&
      Reach(g, w, s.frames[j].node);
    ReachTrans(g, v, w, s.frames[j].node);
  }

  lemma {:induction false} RetreatFrames(g: Adjacency, s: Search, t: Search)
    requires StackShape(g, s) && FrameShape(g, s) && ExploredVisited(g, s) && Retreated(g, s, t)
    ensures StackShape(g, t) && FrameShape(g, t)
  {
    assert t.VisitedSet() == s.VisitedSet();
    forall i | 0 < i < |t.frames| ensures Linked(g, t, i) {
      assert Linked(g, s, i);
    }
  }

  lemma {:induction false} RetreatExplored(g: Adjacency, s: Search, t: Search)
    requires StackShape(g, s) && FrameShape(g, s) && ExploredVisited(g, s) && Retreated(g, s, t)
    ensures ExploredVisited(g, t)
  {
    forall u: nat | s.Open(u) && u != s.Top().node ensures t.Open(u) {
      var i :| 0 <= i < |s.frames| && s.frames[i].node == u;
      assert t.frames[i].node == u;
    }
    assert s.Stacked(s.frames[|s.frames| - 1].node);
  }

  lemma {:induction false} RetreatComponents(g: Adjacency, s: Search, t: Search, j: nat)
    requires ComponentsDoneSized(g, s) && FrameShape(g, s) && StackReach(g, s) && Retreated(g, s, t)
    requires j < |s.frames| - 1 && Reach(g, s.Top().node, s.frames[j].node)
    ensures ComponentsDone(g, t) && StackReach(g, t)
  {
    assert forall u: nat :: t.Assigned(u) <==> s.Assigned(u);
    forall x | 0 <= x < |s.counts| ensures t.MembersOf(x) == s.MembersOf(x) {}
    forall y: nat | t.Stacked(y) ensures Anchored(g, t, y) {
      assert s.Stacked(y) && Anchored(g, s, y);
      var i :| 0 <= i < |s.frames| && s.Stacked(s.frames[i].node) && s.index[s.frames[i].node] <= s.index[y] &&
        Reach(g, y, s.frames[i].node);
      if i < |s.frames| - 1 {
        assert t.frames[i].node == s.frames[i].node;
      } else {
        ReachTrans(g, y, s.Top().node, s.frames[j].node);
        assert t.frames[j].node == s.frames[j].node;
      }
    }
  }

  lemma {:induction false} RetreatLowSound(g: Adjacency, s: Search, t: Search, w: nat)
    requires Retreated(g, s, t) && FrameShape(g, s) && LowSound(g, s)
    requires s.Stacked(w) && s.index[w] == s.low[s.Top().node] && Reach(g, s.Top().node, w)
    ensures LowSound(g, t)
  {
    var v, u := s.Top().node, t.Top().node;
    forall i | 0 <= i < |t.frames| && t.Stacked(t.frames[i].node) ensures LowWitnessed(g, t, t.frames[i].node) {
      var x := s.frames[i].node;
      assert t.frames[i].node == x && LowWitnessed(g, s, x);
      if t.low[x] == s.low[x] {
        var z: nat :| s.Stacked(z) && s.index[z] == s.low[x] && Reach(g, x, z);
        assert t.Stacked(z);
      } else {
        assert Linked(g, s, |s.frames| - 1);
        EdgeReach(g, u, v);
        ReachTrans(g, u, v, w);
        assert t.Stacked(w);
      }
    }
  }

  lemma {:induction false} RetreatLowBelow(g: Adjacency, s: Search, t: Search)
    requires Retreated(g, s, t) && FrameShape(g, s) && LowBelow(g, s) && FrameShape(g, t)
    ensures LowBelow(g, t)
  {
    var last := |s.frames| - 1;
    forall i, y: nat, k | LooksAt(g, t, i, y, k)
      ensures t.low[t.frames[i].node] <= t.index[g[y][k]]
    {
      if i == last - 1 && s.index[s.frames[last].node] <= s.index[y] {
        assert LooksAt(g, s, last, y, k);
      } else {
        assert LooksAt(g, s, i, y, k);
      }
    }
  }

  lemma {:induction false} RetreatKeepsInv(g: Adjacency, s: Search)
    requires Inv(g, s) && s.frames != [] && s.Top().cursor == |g[s.Top().node]|
    requires s.low[s.Top().node] != s.index[s.Top().node]
    ensures |s.frames| >= 2 && Inv(g, s.Retreat())
  {
    TopLowAtMostIndex(g, s);
    var w, j := LowLeadsDown(g, s);
    RetreatIsRetreated(g, s);
    var t := s.Retreat();
    RetreatFrames(g, s, t);
    RetreatExplored(g, s, t);
    RetreatComponents(g, s, t, j);
    RetreatLowSound(g, s, t, w);
    RetreatLowBelow(g, s, t);
  }

  lemma {:induction false} TopLowAtMostIndex(g: Adjacency, s: Search)
    requires s.Sized(|g|) && FrameShape(g, s) && LowSound(g, s) && s.frames != []
    ensures s.Stacked(s.Top().node) && s.low[s.Top().node] <= s.index[s.Top().node]
  {
    assert s.Stacked(s.frames[|s.frames| - 1].node) && LowWitnessed(g, s, s.frames[|s.frames| - 1].node);
  }

  lemma {:induction false} RetreatIsRetreated(g: Adjacency, s: Search)
    requires s.Sized(|g|) && FrameShape(g, s) && |s.frames| >= 2 && s.Stacked(s.Top().node)
    requires s.Top().cursor == |g[s.Top().node]| && s.low[s.Top().node] < s.index[s.Top().node]
    ensures s.Stacked(s.frames[|s.frames| - 2].node) && Retreated(g, s, s.Retreat())
  {
    assert s.Stacked(s.frames[|s.frames| - 2].node);
  }

  // ----- closing a component

  /** `t` is `s` after the stack from position `k`, the top frame's node, became a component. */
  ghost predicate Closed(g: Adjacency, s: Search, t: Search, k: nat) {
    && s.Sized(|g|) && t.Sized(|g|) && s.frames != [] && k < |s.stack| && s.stack[k] == s.Top().node
    && s.Top().node < |g| && s.Top().cursor == |g[s.Top().node]| && s.low[s.Top().node] == s.index[s.Top().node]
    && t.index == s.index && t.low == s.low && t.next == s.next
    && t.stack == s.stack[..k] && t.counts == s.counts + [|s.stack| - k] && t.frames == s.frames[..|s.frames| - 1]
    && (forall u :: 0 <= u < |g| ==> t.onStack[u] == (s.onStack[u] && u !in s.stack[k..]))
    && (forall u :: 0 <= u < |g| ==> t.component[u] == if u in s.stack[k..] then |s.counts| else s.component[u])
  }

  /** A stacked node is in the closed part exactly when its index is not below the closed node's. */
  lemma {:induction false} ClosedPart(g: Adjacency, s: Search, k: nat, y: nat)
    requires StackShape(g, s) && k < |s.stack| && y < |g|
    ensures y in s.stack[k..] <==> s.Stacked(y) && s.index[s.stack[k]] <= s.index[y]
  {
    if s.Stacked(y) {
      var a :| 0 <= a < |s.stack| && s.stack[a] == y;
      if a >= k {
        assert s.stack[k..][a - k] == y;
      }
    }
    if y in s.stack[k..] {
      var b :| 0 <= b < |s.stack[k..]| && s.stack[k..][b] == y;
      assert s.stack[k + b] == y;
    }
  }

  /** Edges out of the closed part stay in it or lead to finished components. */
  lemma {:induction false} ClosedPartEdges(g: Adjacency, s: Search, k: nat, y: nat, z: nat)
    requires StackShape(g, s) && FrameShape(g, s) && ExploredVisited(g, s) && LowBelow(g, s)
    requires s.frames != [] && k < |s.stack| && s.stack[k] == s.Top().node && s.Top().cursor == |g[s.Top().node]|
    requires s.low[s.Top().node] == s.index[s.Top().node]
    requires y in s.stack[k..] && Edge(g, y, z)
    ensures z in s.stack[k..] || s.Assigned(z)
  {
    var v := s.Top().node;
    var last := |s.frames| - 1;
    ClosedPart(g, s, k, y);
    ClosedPart(g, s, k, z);
    var e :| 0 <= e < |g[y]| && g[y][e] == z;
    if y == v {
      assert s.Visited(s.frames[last].node);
      assert s.Visited(g[s.frames[last].node][e]);
    } else if s.Open(y) {
      var i :| 0 <= i < |s.frames| && s.frames[i].node == y;
      assert false;
    } else {
      assert s.Visited(g[y][e]);
    }
    if s.Stacked(z) {
      assert LooksAt(g, s, last, y, e);
    }
  }

  /** The closed part is one class of mutually reachable nodes. */
  lemma {:induction false} ClosedPartMutual(g: Adjacency, s: Search, k: nat, y: nat)
    requires StackShape(g, s) && FrameShape(g, s) && StackReach(g, s) && ComponentsDone(g, s)
    requires s.frames != [] && k < |s.stack| && s.stack[k] == s.Top().node
    requires forall x: nat, z: nat :: x in s.stack[k..] && Edge(g, x, z) ==> z in s.stack[k..] || s.Assigned(z)
    requires y in s.stack[k..]
    ensures Mutual(g, s.Top().node, y)
  {
    ClosedPartFromTop(g, s, k, y);
    var i :| 0 <= i < |s.frames| && s.Stacked(s.frames[i].node) && s.index[s.frames[i].node] <= s.index[y] &&
      Reach(g, y, s.frames[i].node);
    ClosedPartReach(g, s, k, y, s.frames[i].node);
    ClosedPartFrame(g, s, k, i);
  }

  lemma {:induction false} ClosedPartFromTop(g: Adjacency, s: Search, k: nat, y: nat)
    requires StackShape(g, s) && StackReach(g, s) && k < |s.stack| && y in s.stack[k..]
    ensures Reach(g, s.stack[k], y) && s.Stacked(y) && Anchored(g, s, y)
  {
    var b :| 0 <= b < |s.stack[k..]| && s.stack[k..][b] == y;
    assert s.stack[k + b] == y && s.Stacked(s.stack[k + b]);
    assert Reach(g, s.stack[k], s.stack[k + b]);
  }

  lemma {:induction false} ClosedPartFrame(g: Adjacency, s: Search, k: nat, i: nat)
    requires StackShape(g, s) && FrameShape(g, s) && i < |s.frames| && k < |s.stack| && s.stack[k] == s.Top().node
    requires s.frames[i].node in s.stack[k..]
    ensures i == |s.frames| - 1
  {
    ClosedPart(g, s, k, s.frames[i].node);
  }

  lemma {:induction false} ClosedPartReach(g: Adjacency, s: Search, k: nat, y: nat, x: nat)
    requires s.Sized(|g|) && ComponentsDone(g, s) && k <= |s.stack|
    requires forall p: nat, z: nat :: p in s.stack[k..] && Edge(g, p, z) ==> z in s.stack[k..] || s.Assigned(z)
    requires y in s.stack[k..] && Reach(g, y, x)
    ensures x in s.stack[k..] || s.Assigned(x)
  {
    var closed := (set p | p in s.stack[k..]) + (set p: nat | p < |s.index| && s.Assigned(p));
    ClosedReach(g, closed, y, x);
  }

  /** Nothing finished reaches a node that is not finished. */
  lemma {:induction false} AssignedReach(g: Adjacency, s: Search, u: nat, x: nat)
    requires s.Sized(|g|) && ComponentsDone(g, s) && s.Assigned(u) && Reach(g, u, x)
    ensures s.Assigned(x)
  {
    ClosedReach(g, (set p: nat | p < |s.index| && s.Assigned(p)), u, x);
  }

  lemma {:induction false} CloseStack(g: Adjacency, s: Search, t: Search, k: nat)
    requires StackShape(g, s) && Closed(g, s, t, k)
    ensures StackShape(g, t)
  {
    assert t.VisitedSet() == s.VisitedSet();
    forall u: nat | t.Stacked(u) ensures u in t.stack && t.Visited(u) {
      StillStacked(g, s, t, k, u);
    }
    forall a | 0 <= a < |t.stack| ensures t.Stacked(t.stack[a]) {
      ClosedPart(g, s, k, s.stack[a]);
    }
  }

  lemma {:induction false} StillStacked(g: Adjacency, s: Search, t: Search, k: nat, u: nat)
    requires StackShape(g, s) && Closed(g, s, t, k) && t.Stacked(u)
    ensures u in t.stack && t.Visited(u)
  {
    assert s.Stacked(u) && u in s.stack;
    var a :| 0 <= a < |s.stack| && s.stack[a] == u;
    ClosedPart(g, s, k, u);
    assert t.stack[a] == u;
  }

  lemma {:induction false} CloseFrames(g: Adjacency, s: Search, t: Search, k: nat)
    requires StackShape(g, s) && FrameShape(g, s) && Closed(g, s, t, k)
    ensures FrameShape(g, t)
  {
    forall i | 0 <= i < |t.frames| ensures t.Stacked(t.frames[i].node) {
      assert s.Stacked(s.frames[i].node);
      ClosedPart(g, s, k, s.frames[i].node);
    }
    forall i | 0 < i < |t.frames| ensures Linked(g, t, i) {
      assert Linked(g, s, i);
    }
  }

  lemma {:induction false} CloseExplored(g: Adjacency, s: Search, t: Search, k: nat)
    requires StackShape(g, s) && FrameShape(g, s) && ExploredVisited(g, s) && Closed(g, s, t, k)
    ensures ExploredVisited(g, t)
  {
    forall u: nat | s.Open(u) && u != s.Top().node ensures t.Open(u) {
      var i :| 0 <= i < |s.frames| && s.frames[i].node == u;
      assert t.frames[i].node == u;
    }
    assert s.Stacked(s.frames[|s.frames| - 1].node);
  }

  lemma {:induction false} CloseCounts(g: Adjacency, s: Search, t: Search, k: nat)
    requires StackShape(g, s) && ComponentsDone(g, s) && Closed(g, s, t, k)
    ensures forall c :: 0 <= c < |t.counts| ==> t.counts[c] == |t.MembersOf(c)| && t.counts[c] > 0
  {
    forall u: nat | u < |g| ensures t.Assigned(u) <==> s.Assigned(u) || u in s.stack[k..] {
      ClosedPart(g, s, k, u);
    }
    forall c | 0 <= c < |t.counts| ensures t.counts[c] == |t.MembersOf(c)| && t.counts[c] > 0 {
      if c < |s.counts| {
        forall u: nat | u in s.stack[k..] && u < |g| ensures !s.Assigned(u) {
          ClosedPart(g, s, k, u);
        }
        assert t.MembersOf(c) == s.MembersOf(c);
      } else {
        ClosedPartSize(g, s, k);
        assert t.MembersOf(c) == SetOf(s.stack[k..]);
      }
    }
  }

  lemma {:induction false} ClosedPartSize(g: Adjacency, s: Search, k: nat)
    requires StackShape(g, s) && k <= |s.stack|
    ensures |SetOf(s.stack[k..])| == |s.stack| - k
    ensures forall u :: u in s.stack[k..] ==> u < |g|
  {
    var part := s.stack[k..];
    forall u: nat | u in part ensures u < |g| {
      var b :| 0 <= b < |part| && part[b] == u;
      assert s.Stacked(s.stack[k + b]);
    }
    forall a, b | 0 <= a < b < |part| ensures part[a] != part[b] {
      assert s.index[s.stack[k + a]] < s.index[s.stack[k + b]];
    }
    DistinctSize(part);
  }

  lemma {:induction false} CloseComponents(g: Adjacency, s: Search, t: Search, k: nat)
    requires StackShape(g, s) && ComponentsDone(g, s) && Closed(g, s, t, k)
    requires forall x: nat, z: nat :: x in s.stack[k..] && Edge(g, x, z) ==> z in s.stack[k..] || s.Assigned(z)
    requires forall y: nat :: y in s.stack[k..] ==> Mutual(g, s.Top().node, y)
    ensures ComponentsDone(g, t)
  {
    CloseCounts(g, s, t, k);
    forall u: nat | u < |g|
      ensures (t.Assigned(u) <==> s.Assigned(u) || u in s.stack[k..]) && (u in s.stack[k..] ==> s.Stacked(u))
    {
      ClosedPart(g, s, k, u);
    }
    forall u: nat, v: nat | t.Assigned(u) && t.Assigned(v)
      ensures t.component[u] == t.component[v] <==> Mutual(g, u, v)
    {
      CloseMutual(g, s, t, k, u, v);
    }
  }

  lemma {:induction false} CloseMutual(g: Adjacency, s: Search, t: Search, k: nat, u: nat, v: nat)
    requires s.Sized(|g|) && ComponentsDone(g, s) && Closed(g, s, t, k)
    requires forall y: nat :: y in s.stack[k..] ==> Mutual(g, s.Top().node, y)
    requires u < |g| && if u in s.stack[k..] then s.Stacked(u) else s.Assigned(u)
    requires v < |g| && if v in s.stack[k..] then s.Stacked(v) else s.Assigned(v)
    ensures t.component[u] == t.component[v] <==> Mutual(g, u, v)
  {
    var top := s.Top().node;
    if u in s.stack[k..] && v in s.stack[k..] {
      ReachTrans(g, u, top, v);
      ReachTrans(g, v, top, u);
    } else if u in s.stack[k..] {
      if Reach(g, v, u) { AssignedReach(g, s, v, u); }
    } else if v in s.stack[k..] {
      if Reach(g, u, v) { AssignedReach(g, s, u, v); }
    }
  }

  lemma {:induction false} CloseStackReach(g: Adjacency, s: Search, t: Search, k: nat)
    requires StackShape(g, s) && FrameShape(g, s) && StackReach(g, s) && Closed(g, s, t, k) && FrameShape(g, t)
    ensures StackReach(g, t)
  {
    forall a, b | 0 <= a <= b < |t.stack| ensures Reach(g, t.stack[a], t.stack[b]) {
      assert Reach(g, s.stack[a], s.stack[b]);
    }
    forall y: nat | t.Stacked(y) ensures Anchored(g, t, y) {
      assert s.Stacked(y) && Anchored(g, s, y);
      StillAnchored(g, s, t, k, y);
    }
  }

  lemma {:induction false} StillAnchored(g: Adjacency, s: Search, t: Search, k: nat, y: nat)
    requires StackShape(g, s) && Closed(g, s, t, k) && FrameShape(g, t)
    requires t.Stacked(y) && y < |g| && Anchored(g, s, y)
    ensures Anchored(g, t, y)
  {
    ClosedPart(g, s, k, y);
    var i :| 0 <= i < |s.frames| && s.Stacked(s.frames[i].node) && s.index[s.frames[i].node] <= s.index[y] &&
      Reach(g, y, s.frames[i].node);
    assert i < |s.frames| - 1;
    assert t.frames[i].node == s.frames[i].node;
  }

  lemma {:induction false} CloseLowSound(g: Adjacency, s: Search, t: Search, k: nat)
    requires StackShape(g, s) && Closed(g, s, t, k) && FrameShape(g, s) && LowSound(g, s)
    ensures LowSound(g, t)
  {
    forall i | 0 <= i < |t.frames| && t.Stacked(t.frames[i].node) ensures LowWitnessed(g, t, t.frames[i].node) {
      var u := s.frames[i].node;
      assert t.frames[i].node == u && s.Stacked(u) && LowWitnessed(g, s, u);
      assert s.index[u] < s.index[s.frames[|s.frames| - 1].node];
      var w: nat :| s.Stacked(w) && s.index[w] == s.low[u] && Reach(g, u, w);
      ClosedPart(g, s, k, w);
      assert t.Stacked(w);
    }
  }

  lemma {:induction false} CloseLooksAt(g: Adjacency, s: Search, t: Search, k: nat, i: nat, y: nat, e: nat)
    requires Closed(g, s, t, k) && FrameShape(g, s) && FrameShape(g, t)
    requires LooksAt(g, t, i, y, e) && s.index[y] < s.index[s.Top().node]
    ensures LooksAt(g, s, i, y, e)
  {
  }

  lemma {:induction false} CloseLowBelow(g: Adjacency, s: Search, t: Search, k: nat)
    requires StackShape(g, s) && Closed(g, s, t, k) && FrameShape(g, s) && LowBelow(g, s) && FrameShape(g, t)
    ensures LowBelow(g, t)
  {
    forall i, y: nat, e | LooksAt(g, t, i, y, e)
      ensures t.low[t.frames[i].node] <= t.index[g[y][e]]
    {
      ClosedPart(g, s, k, y);
      CloseLooksAt(g, s, t, k, i, y, e);
    }
  }

  lemma {:induction false} CloseKeepsInv(g: Adjacency, s: Search, k: nat)
    requires Inv(g, s) && s.frames != [] && s.Top().cursor == |g[s.Top().node]|
    requires s.low[s.Top().node] == s.index[s.Top().node] && k < |s.stack| && s.stack[k] == s.Top().node
    ensures Inv(g, s.CloseComponent(k))
  {
    var t := s.CloseComponent(k);
    assert Closed(g, s, t, k);
    forall x: nat, z: nat | x in s.stack[k..] && Edge(g, x, z) ensures z in s.stack[k..] || s.Assigned(z) {
      ClosedPartEdges(g, s, k, x, z);
    }
    forall y: nat | y in s.stack[k..] ensures Mutual(g, s.Top().node, y) {
      ClosedPartMutual(g, s, k, y);
    }
    CloseStack(g, s, t, k);
    CloseFrames(g, s, t, k);
    CloseExplored(g, s, t, k);
    CloseComponents(g, s, t, k);
    CloseStackReach(g, s, t, k);
    CloseLowSound(g, s, t, k);
    CloseLowBelow(g, s, t, k);
  }

  // ----- start, end and progress of the search

  ghost function Fresh(n: nat): Search {
    Search(seq(n, _ => UNVISITED), seq(n, _ => 0), seq(n, _ => false), seq(n, _ => 0), [], [], 0, [])
  }

  lemma {:induction false} FreshInv(g: Adjacency)
    requires |g| < UNVISITED
    ensures Inv(g, Fresh(|g|))
  {
    assert Fresh(|g|).VisitedSet() == {};
  }

  lemma {:induction false} NothingStackedBetweenRoots(g: Adjacency, s: Search)
    requires Inv(g, s) && s.frames == []
    ensures s.stack == [] && forall u: nat :: s.Visited(u) ==> s.Assigned(u)
  {
    var bottom := if s.stack == [] then 0 else s.stack[0];
    forall u: nat ensures !s.Stacked(u) {
      assert s.Stacked(u) ==> Anchored(g, s, u);
    }
  }

  /** The low link of a closed node never lowers its parent's. */
  lemma {:induction false} CloseLeavesParent(g: Adjacency, s: Search)
    requires s.Sized(|g|) && FrameShape(g, s) && LowSound(g, s) && |s.frames| >= 2
    requires s.Stacked(s.Top().node) && s.low[s.Top().node] == s.index[s.Top().node]
    ensures s.frames[|s.frames| - 2].node < |g|
    ensures s.low[s.frames[|s.frames| - 2].node] < s.low[s.Top().node]
  {
    assert s.Stacked(s.frames[|s.frames| - 2].node) && LowWitnessed(g, s, s.frames[|s.frames| - 2].node);
  }

  ghost predicate WorkShape(g: Adjacency, fs: seq<Frame>) {
    forall i :: 0 <= i < |fs| ==> fs[i].node < |g| && fs[i].cursor <= |g[fs[i].node]|
  }

  /** Edge entries left to look at in the open frames, plus the frames themselves. */
  ghost function Work(g: Adjacency, fs: seq<Frame>): nat
    requires WorkShape(g, fs)
  {
    if fs == [] then 0
    else Work(g, fs[..|fs| - 1]) + |g[fs[|fs| - 1].node]| - fs[|fs| - 1].cursor + 1
  }

  lemma {:induction false} InvWorkShape(g: Adjacency, s: Search)
    requires Inv(g, s)
    ensures WorkShape(g, s.frames) && s.next <= |g|
  {
    forall i | 0 <= i < |s.frames| ensures s.frames[i].node < |g| && s.frames[i].cursor <= |g[s.frames[i].node]| {
      assert s.Stacked(s.frames[i].node);
    }
    assert s.VisitedSet() <= Below(|g|);
    SubsetSize(s.VisitedSet(), Below(|g|));
  }

  lemma {:induction false} AdvanceWork(g: Adjacency, fs: seq<Frame>)
    requires fs != [] && WorkShape(g, fs) && fs[|fs| - 1].cursor < |g[fs[|fs| - 1].node]|
    ensures var gs := fs[|fs| - 1 := Frame(fs[|fs| - 1].node, fs[|fs| - 1].cursor + 1)];
            WorkShape(g, gs) && Work(g, gs) < Work(g, fs)
  {
    var gs := fs[|fs| - 1 := Frame(fs[|fs| - 1].node, fs[|fs| - 1].cursor + 1)];
    assert gs[..|gs| - 1] == fs[..|fs| - 1];
  }

  lemma {:induction false} PopWork(g: Adjacency, fs: seq<Frame>)
    requires fs != [] && WorkShape(g, fs)
    ensures WorkShape(g, fs[..|fs| - 1]) && Work(g, fs[..|fs| - 1]) < Work(g, fs)
  {
  }

  /** `t` came closer to the end of the search than `s`, and no node lost its number. */
  ghost predicate Progress(g: Adjacency, s: Search, t: Search) {
    && (forall u: nat :: s.Visited(u) ==> t.Visited(u))
    && WorkShape(g, s.frames) && WorkShape(g, t.frames) && t.next <= |g|
    && (t.next > s.next || (t.next == s.next && Work(g, t.frames) < Work(g, s.frames)))
  }

  lemma {:induction false} TopShape(g: Adjacency, s: Search)
    requires Inv(g, s) && s.frames != []
    ensures s.Stacked(s.Top().node) && s.Visited(s.Top().node) && s.Top().cursor <= |g[s.Top().node]|
    ensures |s.frames| > 1 ==> s.Stacked(s.frames[|s.frames| - 2].node)
  {
    assert s.Stacked(s.frames[|s.frames| - 1].node);
    assert |s.frames| > 1 ==> s.Stacked(s.frames[|s.frames| - 2].node);
  }

  lemma {:induction false} LookAtEdgeKeepsInv(g: Adjacency, s: Search)
    requires Inv(g, s) && s.frames != [] && s.Top().node < |g| && s.Top().cursor < |g[s.Top().node]|
    ensures Inv(g, s.LookAtEdge(g)) && Progress(g, s, s.LookAtEdge(g))
  {
    var child := g[s.Top().node][s.Top().cursor];
    var t := s.LookAtEdge(g);
    if child < |s.index| && s.index[child] == UNVISITED {
      EnterKeepsInv(g, s, child);
    } else {
      PassKeepsInv(g, s, child);
    }
    InvWorkShape(g, s);
    InvWorkShape(g, t);
    LookAtEdgeProgress(g, s);
  }

  lemma {:induction false} LookAtEdgeProgress(g: Adjacency, s: Search)
    requires s.Sized(|g|) && s.next < UNVISITED && WorkShape(g, s.frames) && s.frames != [] &&
      s.Top().cursor < |g[s.Top().node]|
    ensures var t := s.LookAtEdge(g);
      && (forall u: nat :: s.Visited(u) ==> t.Visited(u))
      && (t.next > s.next || (t.next == s.next && WorkShape(g, t.frames) && Work(g, t.frames) < Work(g, s.frames)))
  {
    AdvanceWork(g, s.frames);
  }

  lemma {:induction false} LeaveKeepsInv(g: Adjacency, s: Search, k: nat)
    requires Inv(g, s) && s.frames != [] && s.Top().node < |g| && s.Top().cursor == |g[s.Top().node]|
    requires k < |s.stack| && s.stack[k] == s.Top().node
    ensures |s.frames| > 1 ==> s.frames[|s.frames| - 2].node < |s.index|
    ensures Inv(g, s.Leave(k)) && Progress(g, s, s.Leave(k))
  {
    TopShape(g, s);
    if s.low[s.Top().node] == s.index[s.Top().node] {
      CloseKeepsInv(g, s, k);
    } else {
      RetreatKeepsInv(g, s);
    }
    InvWorkShape(g, s);
    PopWork(g, s.frames);
    InvWorkShape(g, s.Leave(k));
  }

  /** What closing or leaving the top frame relies on. */
  lemma {:induction false} LeaveFacts(g: Adjacency, s: Search) returns (k: nat)
    requires Inv(g, s) && s.frames != []
    ensures s.Top().node < |g| && k < |s.stack| && s.stack[k] == s.Top().node
    ensures |s.frames| > 1 ==> s.frames[|s.frames| - 2].node < |g|
    ensures forall a :: 0 <= a < |s.stack| ==> s.stack[a] < |g|
    ensures forall a, b :: 0 <= a < b < |s.stack| ==> s.stack[a] != s.stack[b]
    ensures s.low[s.Top().node] == s.index[s.Top().node] && |s.frames| > 1 ==>
              s.low[s.frames[|s.frames| - 2].node] <= s.low[s.Top().node]
  {
    TopShape(g, s);
    k :| 0 <= k < |s.stack| && s.stack[k] == s.Top().node;
    forall a | 0 <= a < |s.stack| ensures s.stack[a] < |g| {
      assert s.Stacked(s.stack[a]);
    }
    if s.low[s.Top().node] == s.index[s.Top().node] && |s.frames| > 1 {
      CloseLeavesParent(g, s);
    }
  }

  /** What a round needs: the top frame's node at place k of the stack, and a low link that its parent may take over. */
  ghost predicate CanGo(g: Adjacency, s: Search, k: nat) {
    && s.frames != [] && s.Sized(|g|)
    && s.Top().node < |g| && k < |s.stack| && s.stack[k] == s.Top().node && s.Top().cursor <= |g[s.Top().node]|
    && (|s.frames| > 1 ==> s.frames[|s.frames| - 2].node < |g|)
    && (forall a :: 0 <= a < |s.stack| ==> s.stack[a] < |g|)
    && (forall a, b :: 0 <= a < b < |s.stack| ==> s.stack[a] != s.stack[b])
    && (s.low[s.Top().node] == s.index[s.Top().node] && |s.frames| > 1 ==>
      s.low[s.frames[|s.frames| - 2].node] <= s.low[s.Top().node])
  }

  /** The state after a round: an edge looked at, or the top frame left. */
  ghost function AfterRound(g: Adjacency, s: Search, k: nat): Search
    requires CanGo(g, s, k)
  {
    if s.Top().cursor < |g[s.Top().node]| then s.LookAtEdge(g) else s.Leave(k)
  }

  /** Everything one round of the search needs and gives. */
  lemma {:induction false} RoundFacts(g: Adjacency, s: Search) returns (k: nat)
    requires Inv(g, s) && s.frames != []
    ensures CanGo(g, s, k)
    ensures Inv(g, AfterRound(g, s, k)) && Progress(g, s, AfterRound(g, s, k))
  {
    k := LeaveFacts(g, s);
    TopShape(g, s);
    if s.Top().cursor < |g[s.Top().node]| {
      LookAtEdgeKeepsInv(g, s);
    } else {
      LeaveKeepsInv(g, s, k);
    }
  }

  ghost function Members(component: seq<nat>, c: nat): set<nat> {
    set u: nat | u < |component| && component[u] == c
  }

  /** `component` numbers the strongly connected components of `g`, against the direction of
      its edges, and `counts` holds their sizes. */
  ghost predicate Partition(g: Adjacency, component: seq<nat>, counts: seq<nat>) {
    && |component| == |g|
    && (forall u: nat :: u < |g| ==> component[u] < |counts|)
    && (forall u: nat, v: nat :: u < |g| && v < |g| ==> (component[u] == component[v] <==> Mutual(g, u, v)))
    && (forall u: nat, v: nat :: Edge(g, u, v) ==> component[v] <= component[u])
    && (forall c: nat :: c < |counts| ==> counts[c] == |Members(component, c)| && counts[c] > 0)
  }

  /** When every node was visited, the finished components are the graph's. */
  lemma {:induction false} SearchGivesPartition(g: Adjacency, s: Search)
    requires Inv(g, s) && s.frames == [] && forall u: nat :: u < |g| ==> s.Visited(u)
    ensures Partition(g, s.component, s.counts)
  {
    NothingStackedBetweenRoots(g, s);
    forall c: nat | c < |s.counts| ensures s.MembersOf(c) == Members(s.component, c) {
    }
  }

  /** A component has a cycle exactly when it has two members, or a member with an edge to itself. */
  lemma {:induction false} CyclicComponent(g: Adjacency, component: seq<nat>, counts: seq<nat>, c: nat)
    requires Partition(g, component, counts) && c < |counts|
    ensures counts[c] > 1 || (exists u: nat :: u < |g| && component[u] == c && Edge(g, u, u))
      <==> exists u: nat :: u < |g| && component[u] == c && OnCycle(g, u)
  {
    var members := Members(component, c);
    if counts[c] > 1 {
      var u :| u in members;
      assert |members - {u}| > 0;
      var v :| v in members - {u};
      MutualOnCycle(g, u, v);
    }
    forall u: nat | u < |g| && component[u] == c && Edge(g, u, u) ensures OnCycle(g, u) {
      ReachRefl(g, u);
    }
    forall u: nat | u < |g| && component[u] == c && OnCycle(g, u) ensures counts[c] > 1 || Edge(g, u, u) {
      var v: nat :| Edge(g, u, v) && Reach(g, v, u);
      EdgeReach(g, u, v);
      if u != v {
        assert {u, v} <= members;
        SubsetSize({u, v}, members);
      }
    }
  }
}
