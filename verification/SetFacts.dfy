/** Sizes of finite sets built from ranges and sequences. */
module SetFacts {

  ghost function Below(n: nat): (r: set<nat>)
    ensures forall u: nat :: u in r <==> u < n
    ensures |r| == n
  {
    if n == 0 then {} else Below(n - 1) + {n - 1}
  }

  ghost function SetOf<T>(q: seq<T>): set<T> {
    set u | u in q
  }

  lemma {:induction false} SubsetSize<T>(a: set<T>, b: set<T>)
    requires a <= b
    ensures |a| <= |b|
    ensures |a| == |b| ==> a == b
  {
    assert b == a + (b - a);
    assert |b| == |a| + |b - a|;
  }

  lemma {:induction false} SetOfLast<T>(q: seq<T>)
    requires q != []
    ensures SetOf(q) == SetOf(q[..|q| - 1]) + {q[|q| - 1]}
  {
    assert q == q[..|q| - 1] + [q[|q| - 1]];
  }

  lemma {:induction false} DistinctSize<T>(q: seq<T>)
    requires forall a, b :: 0 <= a < b < |q| ==> q[a] != q[b]
    ensures |SetOf(q)| == |q|
  {
    if q != [] {
      DistinctSize(q[..|q| - 1]);
      SetOfLast(q);
      assert q[|q| - 1] !in SetOf(q[..|q| - 1]);
    }
  }
}
