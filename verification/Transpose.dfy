/** The transpose of an adjacency list, filled by counting as BuildPredecessors does. */
module Transpose {
  import opened Graphs

  function Repeat(x: nat, times: nat): seq<nat> {
    seq(times, _ => x)
  }

  ghost function Occurs(list: seq<nat>, v: nat): nat {
    multiset(list)[v]
  }

  /** The nodes before `i` that lead to `v`, in order, each as often as it does. */
  ghost function Sources(g: Adjacency, v: nat, i: nat): seq<nat>
    requires i <= |g|
  {
    if i == 0 then [] else Sources(g, v, i - 1) + Repeat(i - 1, Occurs(g[i - 1], v))
  }

  /** The same, with the first `j` entries of node `i` looked at too. */
  ghost function SourcesUpTo(g: Adjacency, v: nat, i: nat, j: nat): seq<nat>
    requires i < |g| && j <= |g[i]|
  {
    Sources(g, v, i) + Repeat(i, Occurs(g[i][..j], v))
  }

  lemma {:induction false} RepeatMeaning(x: nat, n: nat, u: nat)
    ensures u in Repeat(x, n) <==> u == x && n > 0
  {
    if n > 0 {
      assert Repeat(x, n)[0] == x;
    }
  }

  /** A node is a source of `v` exactly when it has an edge entry for `v`. */
  lemma {:induction false} SourcesMeaning(g: Adjacency, v: nat, i: nat, u: nat)
    requires i <= |g|
    ensures u in Sources(g, v, i) <==> u < i && v in g[u]
  {
    if i > 0 {
      SourcesMeaning(g, v, i - 1, u);
      RepeatMeaning(i - 1, Occurs(g[i - 1], v), u);
      assert Occurs(g[i - 1], v) > 0 <==> v in g[i - 1];
    }
  }

  lemma {:induction false} SourcesGrow(g: Adjacency, v: nat, i: nat, k: nat)
    requires i <= k <= |g|
    ensures |Sources(g, v, i)| <= |Sources(g, v, k)|
  {
    if i < k {
      SourcesGrow(g, v, i, k - 1);
    }
  }

  lemma {:induction false} OccursNext(list: seq<nat>, v: nat, j: nat)
    requires j < |list|
    ensures Occurs(list[..j + 1], v) == Occurs(list[..j], v) + if list[j] == v then 1 else 0
  {
    assert list[..j + 1] == list[..j] + [list[j]];
  }

  lemma {:induction false} OccursBound(list: seq<nat>, v: nat, j: nat)
    requires j <= |list|
    ensures Occurs(list[..j], v) <= Occurs(list, v)
  {
    assert list == list[..j] + list[j..];
  }

  lemma {:induction false} SourcesNext(g: Adjacency, v: nat, i: nat, j: nat)
    requires i < |g| && j < |g[i]|
    ensures SourcesUpTo(g, v, i, j + 1) == SourcesUpTo(g, v, i, j) + if g[i][j] == v then [i] else []
    ensures |SourcesUpTo(g, v, i, j + 1)| <= |Sources(g, v, |g|)|
  {
    OccursNext(g[i], v, j);
    OccursBound(g[i], v, j + 1);
    SourcesGrow(g, v, i + 1, |g|);
  }

  lemma {:induction false} SourcesRowEnd(g: Adjacency, v: nat, i: nat)
    requires i < |g|
    ensures SourcesUpTo(g, v, i, |g[i]|) == Sources(g, v, i + 1)
    ensures SourcesUpTo(g, v, i, 0) == Sources(g, v, i)
  {
    assert g[i][..|g[i]|] == g[i];
    assert g[i][..0] == [];
    assert Repeat(i, 0) == [];
  }

  /** Node `v` owns `count[v]` places from `first[v]` on, and the stretches do not overlap. */
  ghost predicate Ranges(first: seq<nat>, count: seq<nat>, total: nat) {
    && |first| == |count|
    && (forall v :: 0 <= v < |first| ==> first[v] + count[v] <= total)
    && (forall v, w :: 0 <= v < w < |first| ==> first[v] + count[v] <= first[w])
  }

  /** Up to entry `j` of node `i` every node's sources stand at the start of its stretch. */
  ghost predicate Filled(g: Adjacency, first: seq<nat>, cursor: seq<nat>, places: seq<nat>, i: nat, j: nat)
    requires i < |g| && j <= |g[i]|
  {
    |first| == |cursor| == |g| && forall v: nat :: v < |g| ==> FilledUpTo(g, first, cursor, places, i, j, v)
  }

  ghost predicate FilledUpTo(g: Adjacency, first: seq<nat>, cursor: seq<nat>, places: seq<nat>, i: nat, j: nat, v: nat)
    requires |first| == |cursor| == |g| && v < |g| && i < |g| && j <= |g[i]|
  {
    FilledAt(g, first, cursor, places, v, SourcesUpTo(g, v, i, j))
  }

  ghost predicate FilledAt(g: Adjacency, first: seq<nat>, cursor: seq<nat>, places: seq<nat>, v: nat, sources: seq<nat>)
    requires |first| == |cursor| == |g| && v < |g|
  {
    && cursor[v] == first[v] + |sources| <= |places|
    && places[first[v]..cursor[v]] == sources
  }

  lemma {:induction false} FillNext(g: Adjacency, first: seq<nat>, count: seq<nat>, cursor: seq<nat>, places: seq<nat>,
      i: nat, j: nat)
    requires i < |g| && j < |g[i]| && g[i][j] < |g|
    requires Ranges(first, count, |places|) && Filled(g, first, cursor, places, i, j)
    requires forall v: nat :: v < |g| ==> count[v] == |Sources(g, v, |g|)|
    ensures var v := g[i][j];
      cursor[v] < |places| && Filled(g, first, cursor[v := cursor[v] + 1], places[cursor[v] := i], i, j + 1)
  {
    var s := g[i][j];
    assert FilledUpTo(g, first, cursor, places, i, j, s);
    SourcesNext(g, s, i, j);
    assert cursor[s] < first[s] + count[s];
    var cursor', places', j' := cursor[s := cursor[s] + 1], places[cursor[s] := i], j + 1;
    forall v: nat | v < |g| ensures FilledUpTo(g, first, cursor', places', i, j', v) {
      assert FilledUpTo(g, first, cursor, places, i, j, v);
      SourcesNext(g, v, i, j);
      FillKeeps(g, first, count, cursor, places, i, s, v, SourcesUpTo(g, v, i, j));
    }
  }

  lemma {:induction false} FillKeeps(g: Adjacency, first: seq<nat>, count: seq<nat>, cursor: seq<nat>,
      places: seq<nat>, i: nat, s: nat, v: nat, sources: seq<nat>)
    requires |first| == |cursor| == |g| && s < |g| && v < |g| && Ranges(first, count, |places|)
    requires first[s] <= cursor[s] < first[s] + count[s] && FilledAt(g, first, cursor, places, v, sources)
    requires |sources| <= count[v]
    ensures FilledAt(g, first, cursor[s := cursor[s] + 1], places[cursor[s] := i], v,
      if v == s then sources + [i] else sources)
  {
    var places' := places[cursor[s] := i];
    if v == s {
      assert places'[first[v]..cursor[v]] == places[first[v]..cursor[v]];
      assert places'[first[v]..cursor[v] + 1] == places'[first[v]..cursor[v]] + [i];
    } else {
      assert cursor[s] < first[v] || cursor[v] <= cursor[s];
      assert places'[first[v]..cursor[v]] == places[first[v]..cursor[v]];
    }
  }

  /** Finishing a row and starting the next one changes nothing. */
  lemma {:induction false} FillRowEnd(g: Adjacency, first: seq<nat>, cursor: seq<nat>, places: seq<nat>, i: nat)
    requires i + 1 < |g| && Filled(g, first, cursor, places, i, |g[i]|)
    ensures Filled(g, first, cursor, places, i + 1, 0)
  {
    var i' := i + 1;
    forall v: nat | v < |g| ensures FilledUpTo(g, first, cursor, places, i', 0, v) {
      assert FilledUpTo(g, first, cursor, places, i, |g[i]|, v);
      SourcesRowEnd(g, v, i);
      SourcesRowEnd(g, v, i + 1);
    }
  }

  lemma {:induction false} FillStart(g: Adjacency, first: seq<nat>, count: seq<nat>, places: seq<nat>)
    requires g != [] && |first| == |g| && Ranges(first, count, |places|)
    ensures Filled(g, first, first, places, 0, 0)
  {
    forall v: nat | v < |g| ensures FilledUpTo(g, first, first, places, 0, 0, v) {
      SourcesRowEnd(g, v, 0);
    }
  }

  lemma {:induction false} FillEnd(g: Adjacency, first: seq<nat>, cursor: seq<nat>, places: seq<nat>, v: nat)
    requires g != [] && v < |g| && Filled(g, first, cursor, places, |g| - 1, |g[|g| - 1]|)
    ensures first[v] + |Sources(g, v, |g|)| <= |places|
    ensures places[first[v]..first[v] + |Sources(g, v, |g|)|] == Sources(g, v, |g|)
  {
    assert FilledUpTo(g, first, cursor, places, |g| - 1, |g[|g| - 1]|, v);
    SourcesRowEnd(g, v, |g| - 1);
  }
}
