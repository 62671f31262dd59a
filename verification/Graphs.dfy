/** Directed graphs as adjacency lists, with reachability in both the directed and the
    undirected sense. An entry that is not a node number is not an edge. */
module Graphs {

  type Adjacency = seq<seq<nat>>

  ghost predicate Edge(g: Adjacency, u: nat, v: nat) {
    u < |g| && v < |g| && v in g[u]
  }

  ghost predicate Path(g: Adjacency, u: nat, v: nat, p: seq<nat>)
    decreases |p|
  {
    if p == [] then u == v else Edge(g, u, p[0]) && Path(g, p[0], v, p[1..])
  }

  /** `v` can be reached from `u` along zero or more edges. */
  ghost predicate Reach(g: Adjacency, u: nat, v: nat) {
    exists p :: Path(g, u, v, p)
  }

  ghost predicate Mutual(g: Adjacency, u: nat, v: nat) {
    Reach(g, u, v) && Reach(g, v, u)
  }

  lemma {:induction false} ReachRefl(g: Adjacency, u: nat)
    ensures Reach(g, u, u)
  {
    assert Path(g, u, u, []);
  }

  lemma {:induction false} PathConcat(g: Adjacency, u: nat, v: nat, w: nat, p: seq<nat>, q: seq<nat>)
    requires Path(g, u, v, p) && Path(g, v, w, q)
    ensures Path(g, u, w, p + q)
    decreases |p|
  {
    if p == [] {
      assert p + q == q;
    } else {
      PathConcat(g, p[0], v, w, p[1..], q);
      assert (p + q)[1..] == p[1..] + q;
    }
  }

  lemma {:induction false} ReachTrans(g: Adjacency, u: nat, v: nat, w: nat)
    requires Reach(g, u, v) && Reach(g, v, w)
    ensures Reach(g, u, w)
  {
    var p :| Path(g, u, v, p);
    var q :| Path(g, v, w, q);
    PathConcat(g, u, v, w, p, q);
  }

  lemma {:induction false} EdgeReach(g: Adjacency, u: nat, v: nat)
    requires Edge(g, u, v)
    ensures Reach(g, u, v)
  {
    assert Path(g, v, v, [v][1..]);
    assert Path(g, u, v, [v]);
  }

  /** A set closed under edges holds everything reachable from its members. */
  lemma {:induction false} ClosedPath(g: Adjacency, s: set<nat>, u: nat, v: nat, p: seq<nat>)
    requires forall x, y :: x in s && Edge(g, x, y) ==> y in s
    requires u in s && Path(g, u, v, p)
    ensures v in s
    decreases |p|
  {
    if p != [] {
      ClosedPath(g, s, p[0], v, p[1..]);
    }
  }

  lemma {:induction false} ClosedReach(g: Adjacency, s: set<nat>, u: nat, v: nat)
    requires forall x, y :: x in s && Edge(g, x, y) ==> y in s
    requires u in s && Reach(g, u, v)
    ensures v in s
  {
    var p :| Path(g, u, v, p);
    ClosedPath(g, s, u, v, p);
  }

  /** A node lies on a cycle when one of its edges leads back to it. */
  ghost predicate OnCycle(g: Adjacency, u: nat) {
    exists v :: Edge(g, u, v) && Reach(g, v, u)
  }

  /** Two different mutually reachable nodes lie on a cycle. */
  lemma {:induction false} MutualOnCycle(g: Adjacency, u: nat, v: nat)
    requires u != v && Mutual(g, u, v)
    ensures OnCycle(g, u)
  {
    var p :| Path(g, u, v, p);
    var w := p[0];
    assert Path(g, w, v, p[1..]);
    assert Edge(g, u, w) && Reach(g, w, v);
    ReachTrans(g, w, v, u);
  }
}
