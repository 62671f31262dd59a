/** CfgScanner::ComputeStronglyConnected: Tarjan's search with an explicit stack of frames. */
module StrongComponents {
  import opened Graphs
  import opened TarjanSearch

  /** The vectors the search works on. */
  class SccSearch {
    const successors: Adjacency
    const index: array<nat>
    const lowLink: array<nat>
    const onStack: array<bool>
    const componentOfBlock: array<nat>
    var sccStack: seq<nat>
    var frames: seq<Frame>
    var nextIndex: nat
    var componentNodeCounts: seq<nat>
    var componentIsLoop: seq<bool>

    ghost function State(): Search
      reads this, index, lowLink, onStack, componentOfBlock
    {
      Search(index[..], lowLink[..], onStack[..], componentOfBlock[..], sccStack, frames, nextIndex,
        componentNodeCounts)
    }

    ghost predicate Separate() {
      && index != lowLink && index != componentOfBlock && lowLink != componentOfBlock
      && index.Length == lowLink.Length == onStack.Length == componentOfBlock.Length == |successors|
    }

    ghost predicate Valid()
      reads this, index, lowLink, onStack, componentOfBlock
    {
      Separate() && Inv(successors, State()) && LoopsFollowCounts()
    }

    /** So far a component is marked as a loop exactly when it has more than one member. */
    ghost predicate LoopsFollowCounts()
      reads this
    {
      && |componentIsLoop| == |componentNodeCounts|
      && forall c :: 0 <= c < |componentIsLoop| ==> componentIsLoop[c] == (componentNodeCounts[c] > 1)
    }

    constructor (successors: Adjacency)
      requires |successors| < UNVISITED
      ensures this.successors == successors
      ensures fresh(index) && fresh(lowLink) && fresh(onStack) && fresh(componentOfBlock)
      ensures Valid() && State() == Fresh(|successors|)
    {
      var n := |successors|;
      this.successors := successors;
      index := new nat[n](_ => UNVISITED);
      lowLink := new nat[n](_ => 0);
      onStack := new bool[n](_ => false);
      componentOfBlock := new nat[n](_ => 0);
      sccStack, frames, nextIndex, componentNodeCounts, componentIsLoop := [], [], 0, [], [];
      new;
      assert State() == Fresh(n);
      FreshInv(successors);
    }

    /** Number a new node and open a frame for it. */
    method Visit(node: nat)
      requires Separate() && node < |successors|
      modifies this, index, lowLink, onStack
      ensures State() == old(State()).Visit(node) && componentIsLoop == old(componentIsLoop)
    {
      index[node] := nextIndex;
      lowLink[node] := nextIndex;
      nextIndex := nextIndex + 1;
      sccStack := sccStack + [node];
      onStack[node] := true;
      frames := frames + [Frame(node, 0)];
    }

    /** Take the stack down to and including `node`, giving every node taken the next component. */
    method PopComponent(node: nat, ghost k: nat) returns (members: nat)
      requires Separate() && k < |sccStack| && sccStack[k] == node
      requires forall a :: 0 <= a < |sccStack| ==> sccStack[a] < |successors|
      requires forall a, b :: 0 <= a < b < |sccStack| ==> sccStack[a] != sccStack[b]
      modifies this`sccStack, onStack, componentOfBlock
      ensures members == |old(sccStack)| - k
      ensures sccStack == old(sccStack)[..k]
      ensures forall u :: 0 <= u < |successors| ==> onStack[u] == (old(onStack[u]) && u !in old(sccStack)[k..])
      ensures forall u :: 0 <= u < |successors| ==>
        componentOfBlock[u] == if u in old(sccStack)[k..] then |componentNodeCounts| else old(componentOfBlock[u])
    {
      ghost var start := sccStack;
      members := 0;
      while sccStack != []
        invariant k < |sccStack| <= |start| && sccStack == start[..|sccStack|]
        invariant members == |start| - |sccStack|
        invariant forall u :: 0 <= u < |successors| ==> onStack[u] == (old(onStack[u]) && u !in start[|sccStack|..])
        invariant forall u :: 0 <= u < |successors| ==>
          componentOfBlock[u] == if u in start[|sccStack|..] then |componentNodeCounts| else old(componentOfBlock[u])
      {
        var top := sccStack[|sccStack| - 1];
        assert start[|sccStack| - 1..] == [top] + start[|sccStack|..];
        sccStack := sccStack[..|sccStack| - 1];
        onStack[top] := false;
        componentOfBlock[top] := |componentNodeCounts|;
        members := members + 1;
        if top == node {
          break;
        }
      }
    }

    /** A round of the search loop while the top frame has an edge to look at. */
    method LookAtEdge()
      requires Separate() && frames != [] && State().Top().node < |successors|
      requires State().Top().cursor < |successors[State().Top().node]|
      modifies this, index, lowLink, onStack
      ensures State() == old(State()).LookAtEdge(successors) && componentIsLoop == old(componentIsLoop)
    {
      var node, cursor := frames[|frames| - 1].node, frames[|frames| - 1].cursor;
      frames := frames[|frames| - 1 := Frame(node, cursor + 1)];
      var child := successors[node][cursor];
      if child >= |successors| {
        return;
      }
      if index[child] == UNVISITED {
        Visit(child);
      } else if onStack[child] && index[child] < lowLink[node] {
        lowLink[node] := index[child];
      }
    }

    /** A round of the search loop when the top frame is finished. */
    method Leave(ghost k: nat)
      requires Separate() && frames != [] && State().Top().node < |successors|
      requires |frames| > 1 ==> frames[|frames| - 2].node < |successors|
      requires k < |sccStack| && sccStack[k] == State().Top().node
      requires forall a :: 0 <= a < |sccStack| ==> sccStack[a] < |successors|
      requires forall a, b :: 0 <= a < b < |sccStack| ==> sccStack[a] != sccStack[b]
      requires lowLink[State().Top().node] == index[State().Top().node] && |frames| > 1 ==>
                 lowLink[frames[|frames| - 2].node] <= lowLink[State().Top().node]
      modifies this, lowLink, onStack, componentOfBlock
      ensures State() == old(State()).Leave(k)
      ensures old(LoopsFollowCounts()) ==> LoopsFollowCounts()
    {
      ghost var before := State();
      var node := frames[|frames| - 1].node;
      if lowLink[node] == index[node] {
        var members := PopComponent(node, k);
        componentNodeCounts := componentNodeCounts + [members];
        componentIsLoop := componentIsLoop + [members > 1];
      }
      frames := frames[..|frames| - 1];
      if frames != [] {
        var parent := frames[|frames| - 1].node;
        if lowLink[node] < lowLink[parent] {
          lowLink[parent] := lowLink[node];
        }
      }
      if before.low[node] == before.index[node] {
        assert State().onStack == before.CloseComponent(k).onStack;
        assert State().component == before.CloseComponent(k).component;
        assert State() == before.CloseComponent(k);
      } else {
        assert State() == before.Retreat();
      }
    }

    /** One round of the search loop. */
    method Step(ghost k: nat)
      requires Separate() && CanGo(successors, State(), k)
      modifies this, index, lowLink, onStack, componentOfBlock
      ensures State() == AfterRound(successors, old(State()), k)
      ensures old(LoopsFollowCounts()) ==> LoopsFollowCounts()
    {
      var top := frames[|frames| - 1];
      if top.cursor < |successors[top.node]| {
        LookAtEdge();
      } else {
        Leave(k);
      }
    }

    /** Explore everything reachable from `root`. */
    method SearchFrom(root: nat)
      requires Valid() && frames == [] && root < |successors| && index[root] == UNVISITED
      modifies this, index, lowLink, onStack, componentOfBlock
      ensures Valid() && frames == [] && State().Visited(root)
      ensures forall u: nat :: old(State()).Visited(u) ==> State().Visited(u)
    {
      ghost var start := State();
      EnterKeepsInv(successors, start, root);
      Visit(root);
      InvWorkShape(successors, State());
      while frames != []
        invariant Valid() && WorkShape(successors, frames) && nextIndex <= |successors|
        invariant State().Visited(root)
        invariant forall u: nat :: start.Visited(u) ==> State().Visited(u)
        decreases |successors| - nextIndex, Work(successors, frames)
      {
        ghost var k := RoundFacts(successors, State());
        Step(k);
      }
    }

    method Run()
      requires Valid() && frames == []
      modifies this, index, lowLink, onStack, componentOfBlock
      ensures Partition(successors, componentOfBlock[..], componentNodeCounts) && LoopsFollowCounts()
    {
      for root := 0 to |successors|
        invariant Valid() && frames == []
        invariant forall u: nat :: u < root ==> State().Visited(u)
      {
        if index[root] == UNVISITED {
          SearchFrom(root);
        }
      }
      SearchGivesPartition(successors, State());
    }
  }

  /** Search the whole graph: component numbers, component sizes, and which components have several members. */
  method SearchGraph(successors: Adjacency) returns (component: seq<nat>, counts: seq<nat>, loops: seq<bool>)
    requires |successors| < UNVISITED
    ensures Partition(successors, component, counts) && |loops| == |counts|
    ensures forall c: nat :: c < |loops| ==> loops[c] == (counts[c] > 1)
  {
    var search := new SccSearch(successors);
    search.Run();
    component, counts, loops := search.componentOfBlock[..], search.componentNodeCounts, search.componentIsLoop;
  }
}
