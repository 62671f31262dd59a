/** Weak connectivity, and the disjoint-set forest CfgFindRoot and CfgUnion keep. */
module WeakComponents {
  import opened SetFacts

  type Edges = set<(nat, nat)>

  ghost predicate Touch(es: Edges, u: nat, v: nat) {
    (u, v) in es || (v, u) in es
  }

  ghost predicate Walk(es: Edges, u: nat, v: nat, p: seq<nat>)
    decreases |p|
  {
    if p == [] then u == v else Touch(es, u, p[0]) && Walk(es, p[0], v, p[1..])
  }

  /** `u` and `v` are connected when the direction of edges is ignored. */
  ghost predicate Joined(es: Edges, u: nat, v: nat) {
    exists p :: Walk(es, u, v, p)
  }

  lemma {:induction false} JoinedRefl(es: Edges, u: nat)
    ensures Joined(es, u, u)
  {
    assert Walk(es, u, u, []);
  }

  lemma {:induction false} TouchJoined(es: Edges, u: nat, v: nat)
    requires Touch(es, u, v)
    ensures Joined(es, u, v)
  {
    assert Walk(es, v, v, [v][1..]);
    assert Walk(es, u, v, [v]);
  }

  lemma {:induction false} WalkConcat(es: Edges, u: nat, v: nat, w: nat, p: seq<nat>, q: seq<nat>)
    requires Walk(es, u, v, p) && Walk(es, v, w, q)
    ensures Walk(es, u, w, p + q)
    decreases |p|
  {
    if p == [] {
      assert p + q == q;
    } else {
      WalkConcat(es, p[0], v, w, p[1..], q);
      assert (p + q)[1..] == p[1..] + q;
    }
  }

  lemma {:induction false} JoinedTrans(es: Edges, u: nat, v: nat, w: nat)
    requires Joined(es, u, v) && Joined(es, v, w)
    ensures Joined(es, u, w)
  {
    var p :| Walk(es, u, v, p);
    var q :| Walk(es, v, w, q);
    WalkConcat(es, u, v, w, p, q);
  }

  lemma {:induction false} WalkBack(es: Edges, u: nat, v: nat, p: seq<nat>)
    requires Walk(es, u, v, p)
    ensures Joined(es, v, u)
    decreases |p|
  {
    if p == [] {
      JoinedRefl(es, u);
    } else {
      WalkBack(es, p[0], v, p[1..]);
      TouchJoined(es, p[0], u);
      JoinedTrans(es, v, p[0], u);
    }
  }

  lemma {:induction false} JoinedSymmetric(es: Edges, u: nat, v: nat)
    requires Joined(es, u, v)
    ensures Joined(es, v, u)
  {
    var p :| Walk(es, u, v, p);
    WalkBack(es, u, v, p);
  }

  lemma {:induction false} WalkGrows(es: Edges, more: Edges, u: nat, v: nat, p: seq<nat>)
    requires es <= more && Walk(es, u, v, p)
    ensures Walk(more, u, v, p)
    decreases |p|
  {
    if p != [] {
      WalkGrows(es, more, p[0], v, p[1..]);
    }
  }

  lemma {:induction false} JoinedGrows(es: Edges, more: Edges, u: nat, v: nat)
    requires es <= more && Joined(es, u, v)
    ensures Joined(more, u, v)
  {
    var p :| Walk(es, u, v, p);
    WalkGrows(es, more, u, v, p);
  }

  /** `rep[u]` is the root of `u`'s tree in the parent forest, and the trees are exactly the
      connected components of the edges joined so far. Ranks grow along parent links. */
  ghost predicate Forest(parent: seq<nat>, rank: seq<nat>, rep: seq<nat>, es: Edges) {
    ForestShape(parent, rank, rep) && ForestJoins(rep, es)
  }

  ghost predicate ForestShape(parent: seq<nat>, rank: seq<nat>, rep: seq<nat>) {
    var n := |parent|;
    && |rank| == n && |rep| == n
    && (forall u {:trigger parent[u]} :: 0 <= u < n ==> parent[u] < n && rep[parent[u]] == rep[u])
    && (forall u {:trigger rep[u]} :: 0 <= u < n ==> rep[u] < n && parent[rep[u]] == rep[u])
    && (forall u {:trigger parent[u]} :: 0 <= u < n && parent[u] == u ==> rep[u] == u)
    && (forall u {:trigger parent[u]} :: 0 <= u < n && parent[u] != u ==> rank[u] < rank[parent[u]])
    && (forall u {:trigger rep[u]} :: 0 <= u < n && rep[u] != u ==> rank[u] < rank[rep[u]])
  }

  ghost predicate ForestJoins(rep: seq<nat>, es: Edges) {
    && (forall a: nat, b: nat :: (a, b) in es ==> a < |rep| && b < |rep| && rep[a] == rep[b])
    && (forall u: nat {:trigger Joined(es, u, rep[u])} :: u < |rep| ==> Joined(es, u, rep[u]))
  }

  lemma {:induction false} WalkSameTree(parent: seq<nat>, rank: seq<nat>, rep: seq<nat>, es: Edges, u: nat, v: nat,
      p: seq<nat>)
    requires Forest(parent, rank, rep, es) && u < |parent| && Walk(es, u, v, p)
    ensures v < |parent| && rep[u] == rep[v]
    decreases |p|
  {
    if p != [] {
      WalkSameTree(parent, rank, rep, es, p[0], v, p[1..]);
    }
  }

  /** Two nodes are in the same tree exactly when they are connected. */
  lemma {:induction false} SameTreeJoined(parent: seq<nat>, rank: seq<nat>, rep: seq<nat>, es: Edges, u: nat, v: nat)
    requires Forest(parent, rank, rep, es) && u < |parent| && v < |parent|
    ensures rep[u] == rep[v] <==> Joined(es, u, v)
  {
    if Joined(es, u, v) {
      var p :| Walk(es, u, v, p);
      WalkSameTree(parent, rank, rep, es, u, v, p);
    }
    if rep[u] == rep[v] {
      assert Joined(es, u, rep[u]) && Joined(es, v, rep[v]);
      JoinedSymmetric(es, v, rep[v]);
      JoinedTrans(es, u, rep[u], v);
    }
  }

  ghost function Roots(parent: seq<nat>): set<nat> {
    set u: nat | u < |parent| && parent[u] == u
  }

  /** The trees after `left`'s tree was put under `right`. */
  ghost function Moved(rep: seq<nat>, left: nat, right: nat): seq<nat> {
    seq(|rep|, u requires 0 <= u < |rep| => if rep[u] == left then right else rep[u])
  }

  /** Hanging root `low` under root `high` joins the two trees `a` and `b` lie in. */
  lemma {:induction false} HangKeepsForest(parent: seq<nat>, rank: seq<nat>, rep: seq<nat>, es: Edges, low: nat,
      high: nat, a: nat, b: nat, newRank: seq<nat>)
    requires Forest(parent, rank, rep, es)
    requires low < |parent| && high < |parent| && parent[low] == low && parent[high] == high && low != high
    requires a < |parent| && b < |parent| && {rep[a], rep[b]} == {low, high}
    requires (newRank == rank && rank[low] < rank[high]) ||
      (newRank == rank[high := rank[high] + 1] && rank[low] == rank[high])
    ensures Forest(parent[low := high], newRank, Moved(rep, low, high), es + {(a, b)})
  {
    HangKeepsShape(parent, rank, rep, low, high, newRank);
    HangKeepsJoins(rep, es, low, high, a, b);
  }

  lemma {:induction false} HangKeepsShape(parent: seq<nat>, rank: seq<nat>, rep: seq<nat>, low: nat, high: nat,
      newRank: seq<nat>)
    requires ForestShape(parent, rank, rep)
    requires low < |parent| && high < |parent| && parent[low] == low && parent[high] == high && low != high
    requires (newRank == rank && rank[low] < rank[high]) ||
      (newRank == rank[high := rank[high] + 1] && rank[low] == rank[high])
    ensures ForestShape(parent[low := high], newRank, Moved(rep, low, high))
  {
  }

  lemma {:induction false} HangKeepsJoins(rep: seq<nat>, es: Edges, low: nat, high: nat, a: nat, b: nat)
    requires ForestJoins(rep, es) && low < |rep| && high < |rep| && low != high
    requires a < |rep| && b < |rep| && {rep[a], rep[b]} == {low, high}
    ensures ForestJoins(Moved(rep, low, high), es + {(a, b)})
  {
    var grown := es + {(a, b)};
    var after := Moved(rep, low, high);
    assert rep[a] in {low, high} && rep[b] in {low, high};
    forall u: nat | u < |rep| ensures Joined(grown, u, after[u]) {
      assert Joined(es, u, rep[u]);
      JoinedGrows(es, grown, u, rep[u]);
      if rep[u] == low {
        assert Joined(es, a, rep[a]) && Joined(es, b, rep[b]);
        HangJoins(es, grown, rep, low, high, a, b);
        JoinedTrans(grown, u, low, high);
      }
    }
  }

  lemma {:induction false} HangJoins(es: Edges, grown: Edges, rep: seq<nat>, low: nat, high: nat, a: nat, b: nat)
    requires grown == es + {(a, b)} && a < |rep| && b < |rep| && {rep[a], rep[b]} == {low, high} && low != high
    requires Joined(es, a, rep[a]) && Joined(es, b, rep[b])
    ensures Joined(grown, low, high)
  {
    JoinedGrows(es, grown, a, rep[a]);
    JoinedGrows(es, grown, b, rep[b]);
    TouchJoined(grown, a, b);
    JoinedSymmetric(grown, a, rep[a]);
    JoinedTrans(grown, rep[a], a, b);
    JoinedTrans(grown, rep[a], b, rep[b]);
    assert rep[a] in {low, high} && rep[b] in {low, high};
    assert low in {rep[a], rep[b]};
    if rep[a] == high {
      JoinedSymmetric(grown, high, low);
    }
  }

  /** The nodes below `n` that are connected to `u`. */
  ghost function WeakClass(n: nat, es: Edges, u: nat): set<nat> {
    set v: nat | v < n && Joined(es, u, v)
  }

  /** The weakly connected components of the nodes below `n`. */
  ghost function WeakClasses(n: nat, es: Edges): set<set<nat>> {
    set u: nat | u < n :: WeakClass(n, es, u)
  }

  ghost function ClassesOf(n: nat, es: Edges, us: set<nat>): set<set<nat>> {
    set u | u in us :: WeakClass(n, es, u)
  }

  lemma {:induction false} DistinctClasses(n: nat, es: Edges, us: set<nat>)
    requires forall u :: u in us ==> u < n
    requires forall u, v :: u in us && v in us && Joined(es, u, v) ==> u == v
    ensures |ClassesOf(n, es, us)| == |us|
  {
    if us == {} {
      assert ClassesOf(n, es, us) == {};
    } else {
      var x :| x in us;
      var rest := us - {x};
      DistinctClasses(n, es, rest);
      assert ClassesOf(n, es, us) == ClassesOf(n, es, rest) + {WeakClass(n, es, x)};
      JoinedRefl(es, x);
      assert x in WeakClass(n, es, x);
      forall u | u in rest ensures WeakClass(n, es, u) != WeakClass(n, es, x) {
        assert x !in WeakClass(n, es, u);
      }
    }
  }

  lemma {:induction false} SameClass(n: nat, es: Edges, u: nat, v: nat)
    requires Joined(es, u, v)
    ensures WeakClass(n, es, u) == WeakClass(n, es, v)
  {
    JoinedSymmetric(es, u, v);
    forall w: nat | w < n ensures Joined(es, u, w) <==> Joined(es, v, w) {
      if Joined(es, u, w) { JoinedTrans(es, v, u, w); }
      if Joined(es, v, w) { JoinedTrans(es, u, v, w); }
    }
  }

  /** The trees of the forest are as many as the weakly connected components. */
  lemma {:induction false} RootsCountClasses(parent: seq<nat>, rank: seq<nat>, rep: seq<nat>, es: Edges)
    requires Forest(parent, rank, rep, es)
    ensures |Roots(parent)| == |WeakClasses(|parent|, es)|
  {
    var n, roots := |parent|, Roots(parent);
    forall u: nat, v: nat | u in roots && v in roots && Joined(es, u, v) ensures u == v {
      SameTreeJoined(parent, rank, rep, es, u, v);
    }
    DistinctClasses(n, es, roots);
    forall u: nat | u < n ensures WeakClass(n, es, u) in ClassesOf(n, es, roots) {
      assert Joined(es, u, rep[u]);
      SameClass(n, es, u, rep[u]);
      assert rep[u] in roots;
    }
    assert WeakClasses(n, es) == ClassesOf(n, es, roots);
  }

  /** Hanging one root under another leaves one root fewer. */
  lemma {:induction false} HangRoots(parent: seq<nat>, low: nat, high: nat)
    requires low < |parent| && high < |parent| && parent[low] == low && low != high
    ensures |Roots(parent[low := high])| == |Roots(parent)| - 1
  {
    assert Roots(parent[low := high]) == Roots(parent) - {low};
  }

  lemma {:induction false} RootsFollowRep(parent: seq<nat>, rank: seq<nat>, rep: seq<nat>)
    requires ForestShape(parent, rank, rep)
    ensures Roots(parent) == set u: nat | u < |rep| && rep[u] == u
  {
    forall u: nat | u < |rep| ensures parent[u] == u <==> rep[u] == u {
    }
  }

  lemma {:induction false} IdentityForest(parent: seq<nat>)
    requires forall u :: 0 <= u < |parent| ==> parent[u] == u
    ensures Forest(parent, seq(|parent|, _ => 0), parent, {})
    ensures |Roots(parent)| == |parent|
  {
    forall u: nat | u < |parent| ensures Joined({}, u, parent[u]) {
      JoinedRefl({}, u);
    }
    assert Roots(parent) == Below(|parent|);
  }

  /** CfgFindRoot: the root of `node`'s tree; every node on the way is hung directly under it. */
  method FindRoot(parent: array<nat>, ghost rank: seq<nat>, ghost rep: seq<nat>, ghost bound: nat, node: nat)
    returns (root: nat)
    requires ForestShape(parent[..], rank, rep) && node < parent.Length
    requires forall u :: 0 <= u < |rank| ==> rank[u] <= bound
    modifies parent
    ensures ForestShape(parent[..], rank, rep) && root == rep[node]
  {
    root := node;
    while parent[root] != root
      invariant root < parent.Length && rep[root] == rep[node]
      decreases bound - rank[root]
    {
      root := parent[root];
    }
    var cursor: nat := node;
    while parent[cursor] != cursor
      invariant cursor < parent.Length == |rep| == |rank| && ForestShape(parent[..], rank, rep) && rep[cursor] == root
      decreases bound - rank[cursor]
    {
      ghost var before := parent[..];
      var next := parent[cursor];
      parent[cursor] := root;
      CompressKeepsShape(before, rank, rep, cursor);
      assert parent[..] == before[cursor := root];
      cursor := next;
    }
  }

  lemma {:induction false} CompressKeepsShape(parent: seq<nat>, rank: seq<nat>, rep: seq<nat>, node: nat)
    requires ForestShape(parent, rank, rep) && node < |parent|
    ensures ForestShape(parent[node := rep[node]], rank, rep)
  {
  }

  /** CfgUnion on two roots: the lower-ranked root goes under the other. Returns the trees
      afterwards, and whether two trees became one. */
  method Union(parent: array<nat>, rank: array<nat>, left: nat, right: nat,
               ghost rep: seq<nat>, ghost es: Edges, ghost a: nat, ghost b: nat)
    returns (ghost after: seq<nat>)
    requires parent != rank && Forest(parent[..], rank[..], rep, es)
    requires a < parent.Length && b < parent.Length && left == rep[a] && right == rep[b]
    modifies parent, rank
    ensures Forest(parent[..], rank[..], after, es + {(a, b)})
    ensures |Roots(parent[..])| + 1 >= |Roots(old(parent[..]))| >= |Roots(parent[..])|
    ensures forall u :: 0 <= u < rank.Length ==> rank[u] <= old(rank[u]) + 1
  {
    ghost var p, r := parent[..], rank[..];
    if left == right {
      after := rep;
      forall u: nat | u < |rep| ensures Joined(es + {(a, b)}, u, rep[u]) {
        assert Joined(es, u, rep[u]);
        JoinedGrows(es, es + {(a, b)}, u, rep[u]);
      }
      return;
    }
    if rank[left] < rank[right] {
      parent[left] := right;
      after := Moved(rep, left, right);
      HangKeepsForest(p, r, rep, es, left, right, a, b, r);
      HangRoots(p, left, right);
      assert parent[..] == p[left := right];
    } else if rank[left] > rank[right] {
      parent[right] := left;
      after := Moved(rep, right, left);
      HangKeepsForest(p, r, rep, es, right, left, a, b, r);
      HangRoots(p, right, left);
      assert parent[..] == p[right := left];
    } else {
      parent[right] := left;
      rank[left] := rank[left] + 1;
      after := Moved(rep, right, left);
      HangKeepsForest(p, r, rep, es, right, left, a, b, r[left := r[left] + 1]);
      HangRoots(p, right, left);
      assert parent[..] == p[right := left];
      assert rank[..] == r[left := r[left] + 1];
    }
  }
}
