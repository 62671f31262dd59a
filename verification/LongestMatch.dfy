/** The index a sequence matcher keeps over its second sequence, and the longest-match search. */
module LongestMatch {

  const ABSENT: nat := 0xFFFFFFFF

  datatype MatchingBlock = MatchingBlock(a: nat, b: nat, size: nat)

  /** `positions[k]` lists where the element with key `k` stands in b, unless the element is
      popular; `aKey` and `bKey` give every element its key. */
  datatype Chain = Chain(positions: seq<seq<nat>>, popular: seq<bool>, aKey: seq<nat>, bKey: seq<nat>)

  predicate Ascending(s: seq<nat>) {
    forall i, j :: 0 <= i < j < |s| ==> s[i] < s[j]
  }

  ghost function Occurrences(b: seq<nat>, x: nat): nat {
    multiset(b)[x]
  }

  /** Elements that occur too often in a long second sequence are not searched for. */
  ghost predicate Popular(b: seq<nat>, autoJunk: bool, x: nat) {
    autoJunk && |b| >= 200 && Occurrences(b, x) > |b| / 100 + 1
  }

  ghost predicate KeysOfB(b: seq<nat>, bKey: seq<nat>, keys: nat) {
    && |bKey| == |b|
    && (forall j :: 0 <= j < |b| ==> bKey[j] < keys)
    && (forall i, j :: 0 <= i < |b| && 0 <= j < |b| ==> (bKey[i] == bKey[j] <==> b[i] == b[j]))
  }

  ghost predicate KeysOfA(a: seq<nat>, b: seq<nat>, aKey: seq<nat>, bKey: seq<nat>, keys: nat)
    requires |bKey| == |b|
  {
    && |aKey| == |a|
    && (forall i :: 0 <= i < |a| ==> (aKey[i] == ABSENT || aKey[i] < keys))
    && (forall i :: 0 <= i < |a| ==> (aKey[i] == ABSENT <==> a[i] !in b))
    && (forall i, j :: 0 <= i < |a| && 0 <= j < |b| ==> (aKey[i] == bKey[j] <==> a[i] == b[j]))
  }

  ghost predicate ChainFor(a: seq<nat>, b: seq<nat>, autoJunk: bool, chain: Chain) {
    && |chain.positions| == |chain.popular| <= ABSENT
    && KeysOfB(b, chain.bKey, |chain.positions|)
    && KeysOfA(a, b, chain.aKey, chain.bKey, |chain.positions|)
    && (forall j :: 0 <= j < |b| ==> (chain.popular[chain.bKey[j]] <==> Popular(b, autoJunk, b[j])))
    && (forall k :: 0 <= k < |chain.positions| ==> Ascending(chain.positions[k]))
    && (forall k, j: nat {:trigger j in chain.positions[k]} :: 0 <= k < |chain.positions| ==>
          (j in chain.positions[k] <==> j < |b| && chain.bKey[j] == k && !chain.popular[k]))
  }

  /** A part of a and of b in which to look for matches. */
  datatype Range = Range(alo: nat, ahi: nat, blo: nat, bhi: nat) {
    predicate Within(a: seq<nat>, b: seq<nat>) {
      alo <= ahi <= |a| && blo <= bhi <= |b|
    }
  }

  /** `size` equal elements from position `i` of a and `j` of b, inside the range. */
  ghost predicate Run(a: seq<nat>, b: seq<nat>, r: Range, i: nat, j: nat, size: nat)
    requires r.Within(a, b)
  {
    && r.alo <= i && i + size <= r.ahi && r.blo <= j && j + size <= r.bhi
    && a[i..i + size] == b[j..j + size]
  }

  /** Position `i` of a and `j` of b hold the same element, and the element is searched for. */
  ghost predicate Hit(a: seq<nat>, b: seq<nat>, autoJunk: bool, r: Range, i: int, j: int)
    requires r.Within(a, b)
  {
    r.alo <= i < r.ahi && r.blo <= j < r.bhi && a[i] == b[j] && !Popular(b, autoJunk, b[j])
  }

  /** Length of the longest run of hits that ends at positions `i` and `j`. */
  ghost function HitsEndingAt(a: seq<nat>, b: seq<nat>, autoJunk: bool, r: Range, i: int, j: int): nat
    requires r.Within(a, b)
    decreases i - r.alo
  {
    if Hit(a, b, autoJunk, r, i, j) then HitsEndingAt(a, b, autoJunk, r, i - 1, j - 1) + 1 else 0
  }

  // ----- building the index

  /** The first `i` elements of b are indexed: `keyOf` numbers the different elements. */
  ghost predicate Indexed(b: seq<nat>, i: nat, positions: seq<seq<nat>>, bKey: seq<nat>, keyOf: map<nat, nat>) {
    && i <= |b| && |positions| <= i
    && Numbered(b, i, |positions|, bKey, keyOf)
    && (forall k :: 0 <= k < |positions| ==> ListsKey(positions[k], bKey, k))
    && (forall x :: x in keyOf && keyOf[x] < |positions| ==> |positions[keyOf[x]]| == Occurrences(b[..i], x))
  }

  ghost predicate Numbered(b: seq<nat>, i: nat, keys: nat, bKey: seq<nat>, keyOf: map<nat, nat>)
    requires i <= |b|
  {
    && |bKey| == i
    && (forall j :: 0 <= j < i ==> b[j] in keyOf && keyOf[b[j]] == bKey[j])
    && (forall x :: x in keyOf ==> keyOf[x] < keys && Occurrences(b[..i], x) > 0)
    && (forall x, y :: x in keyOf && y in keyOf && keyOf[x] == keyOf[y] ==> x == y)
  }

  /** `list` holds, in order, the positions with key `k`. */
  ghost predicate ListsKey(list: seq<nat>, bKey: seq<nat>, k: nat) {
    Ascending(list) && forall j: nat :: j in list <==> j < |bKey| && bKey[j] == k
  }

  lemma {:induction false} ListNext(list: seq<nat>, bKey: seq<nat>, k: nat, key: nat)
    requires ListsKey(list, bKey, k)
    ensures ListsKey(if k == key then list + [|bKey|] else list, bKey + [key], k)
  {
    var next := if k == key then list + [|bKey|] else list;
    forall p | 0 <= p < |list| ensures list[p] < |bKey| {
      assert list[p] in list;
    }
    assert forall j :: j in next <==> j in list || (k == key && j == |bKey|);
  }

  lemma {:induction false} OccurrencesNext(b: seq<nat>, i: nat, x: nat)
    requires i < |b|
    ensures Occurrences(b[..i + 1], x) == Occurrences(b[..i], x) + if b[i] == x then 1 else 0
  {
    assert b[..i + 1] == b[..i] + [b[i]];
  }

  lemma {:induction false} NumberNext(b: seq<nat>, i: nat, keys: nat, bKey: seq<nat>, keyOf: map<nat, nat>)
    requires i < |b| && Numbered(b, i, keys, bKey, keyOf)
    ensures var k := if b[i] in keyOf then keyOf[b[i]] else keys;
      Numbered(b, i + 1, if b[i] in keyOf then keys else keys + 1, bKey + [k], keyOf[b[i] := k])
  {
    forall y ensures Occurrences(b[..i + 1], y) == Occurrences(b[..i], y) + if b[i] == y then 1 else 0 {
      OccurrencesNext(b, i, y);
    }
  }

  lemma {:induction false} IndexNext(b: seq<nat>, i: nat, positions: seq<seq<nat>>, bKey: seq<nat>,
      keyOf: map<nat, nat>, key: nat, grown: seq<seq<nat>>)
    requires i < |b| && Indexed(b, i, positions, bKey, keyOf)
    requires key == if b[i] in keyOf then keyOf[b[i]] else |positions|
    requires grown == if b[i] in keyOf then positions else positions + [[]]
    ensures Indexed(b, i + 1, grown[key := grown[key] + [i]], bKey + [key], keyOf[b[i] := key])
  {
    NumberNext(b, i, |positions|, bKey, keyOf);
    ListsNext(b, i, positions, bKey, keyOf, key, grown);
    forall x | x in keyOf || x == b[i]
      ensures |grown[key := grown[key] + [i]][if x == b[i] then key else keyOf[x]]| == Occurrences(b[..i + 1], x)
    {
      SizeNext(b, i, positions, bKey, keyOf, key, grown, x);
    }
  }

  lemma {:induction false} ListsNext(b: seq<nat>, i: nat, positions: seq<seq<nat>>, bKey: seq<nat>,
      keyOf: map<nat, nat>, key: nat, grown: seq<seq<nat>>)
    requires i < |b| && Indexed(b, i, positions, bKey, keyOf)
    requires key == if b[i] in keyOf then keyOf[b[i]] else |positions|
    requires grown == if b[i] in keyOf then positions else positions + [[]]
    ensures var after := grown[key := grown[key] + [i]];
      forall k :: 0 <= k < |after| ==> ListsKey(after[k], bKey + [key], k)
  {
    var after := grown[key := grown[key] + [i]];
    forall k | 0 <= k < |after| ensures ListsKey(after[k], bKey + [key], k) {
      if k == |positions| {
        assert ListsKey([], bKey, k) by { NoSuchKey(b, i, |positions|, bKey, keyOf); }
      }
      ListNext(grown[k], bKey, k, key);
    }
  }

  lemma {:induction false} SizeNext(b: seq<nat>, i: nat, positions: seq<seq<nat>>, bKey: seq<nat>,
      keyOf: map<nat, nat>, key: nat, grown: seq<seq<nat>>, x: nat)
    requires i < |b| && Indexed(b, i, positions, bKey, keyOf) && (x in keyOf || x == b[i])
    requires key == if b[i] in keyOf then keyOf[b[i]] else |positions|
    requires grown == if b[i] in keyOf then positions else positions + [[]]
    ensures |grown[key := grown[key] + [i]][if x == b[i] then key else keyOf[x]]| == Occurrences(b[..i + 1], x)
  {
    OccurrencesNext(b, i, x);
    if x !in keyOf {
      NotNumbered(b, i, |positions|, bKey, keyOf, x);
    }
  }

  lemma {:induction false} NoSuchKey(b: seq<nat>, i: nat, keys: nat, bKey: seq<nat>, keyOf: map<nat, nat>)
    requires i <= |b| && Numbered(b, i, keys, bKey, keyOf)
    ensures forall j :: 0 <= j < i ==> bKey[j] != keys
  {
  }

  lemma {:induction false} NotNumbered(b: seq<nat>, i: nat, keys: nat, bKey: seq<nat>, keyOf: map<nat, nat>, x: nat)
    requires i <= |b| && Numbered(b, i, keys, bKey, keyOf) && x !in keyOf
    ensures Occurrences(b[..i], x) == 0
  {
    assert forall j :: 0 <= j < i ==> b[..i][j] != x;
  }

  method IndexB(b: seq<nat>) returns (positions: seq<seq<nat>>, bKey: seq<nat>, keyOf: map<nat, nat>)
    ensures Indexed(b, |b|, positions, bKey, keyOf)
  {
    positions, bKey, keyOf := [], [], map[];
    for i: nat := 0 to |b|
      invariant Indexed(b, i, positions, bKey, keyOf)
    {
      positions, bKey, keyOf := IndexElement(b, i, positions, bKey, keyOf);
    }
  }

  method IndexElement(b: seq<nat>, i: nat, before: seq<seq<nat>>, keys: seq<nat>, known: map<nat, nat>)
    returns (positions: seq<seq<nat>>, bKey: seq<nat>, keyOf: map<nat, nat>)
    requires i < |b| && Indexed(b, i, before, keys, known)
    ensures Indexed(b, i + 1, positions, bKey, keyOf)
  {
    var key, grown := KeyFor(b[i], before, known);
    IndexNext(b, i, before, keys, known, key, grown);
    positions, bKey, keyOf := grown[key := grown[key] + [i]], keys + [key], known[b[i] := key];
  }

  /** The element's key, or a new one with an empty list. */
  method KeyFor(x: nat, positions: seq<seq<nat>>, keyOf: map<nat, nat>) returns (key: nat, grown: seq<seq<nat>>)
    ensures key == if x in keyOf then keyOf[x] else |positions|
    ensures grown == if x in keyOf then positions else positions + [[]]
  {
    if x in keyOf {
      return keyOf[x], positions;
    }
    return |positions|, positions + [[]];
  }

  /** Clear the lists that are too long, and remember which they were. */
  method PurgePopular(all: seq<seq<nat>>, n: nat, autoJunk: bool) returns (positions: seq<seq<nat>>, popular: seq<bool>)
    ensures |positions| == |popular| == |all|
    ensures forall k :: 0 <= k < |all| ==> (popular[k] <==> autoJunk && n >= 200 && |all[k]| > n / 100 + 1)
    ensures forall k :: 0 <= k < |all| ==> positions[k] == if popular[k] then [] else all[k]
  {
    positions := all;
    popular := seq(|all|, _ => false);
    if autoJunk && n >= 200 {
      var limit := n / 100 + 1;
      for key := 0 to |all|
        invariant |popular| == |all|
        invariant forall k :: 0 <= k < |all| ==> (popular[k] <==> k < key && |all[k]| > limit)
      {
        if |positions[key]| > limit {
          popular := popular[key := true];
        }
      }
      for key := 0 to |all|
        invariant |positions| == |all|
        invariant forall k :: 0 <= k < |all| ==> positions[k] == if k < key && popular[k] then [] else all[k]
      {
        if popular[key] {
          positions := positions[key := []];
        }
      }
    }
  }

  method KeysOf(a: seq<nat>, keyOf: map<nat, nat>) returns (aKey: seq<nat>)
    ensures |aKey| == |a| && forall k :: 0 <= k < |a| ==> aKey[k] == if a[k] in keyOf then keyOf[a[k]] else ABSENT
  {
    aKey := [];
    for i: nat := 0 to |a|
      invariant |aKey| == i
      invariant forall k :: 0 <= k < i ==> aKey[k] == if a[k] in keyOf then keyOf[a[k]] else ABSENT
    {
      aKey := aKey + [if a[i] in keyOf then keyOf[a[i]] else ABSENT];
    }
  }

  method ChainB(a: seq<nat>, b: seq<nat>, autoJunk: bool) returns (chain: Chain)
    requires |b| < ABSENT
    ensures ChainFor(a, b, autoJunk, chain)
  {
    var all, bKey, keyOf := IndexB(b);
    var positions, popular := PurgePopular(all, |b|, autoJunk);
    var aKey := KeysOf(a, keyOf);
    assert b[..|b|] == b;
    chain := Chain(positions, popular, aKey, bKey);
    KeysFound(a, b, |positions|, bKey, keyOf, aKey);
    forall k | 0 <= k < |positions|
      ensures Ascending(positions[k]) && forall j: nat :: j in positions[k] <==> j < |b| && bKey[j] == k && !popular[k]
    {
      assert ListsKey(all[k], bKey, k);
    }
    forall j | 0 <= j < |b| ensures popular[bKey[j]] <==> Popular(b, autoJunk, b[j]) {
      assert keyOf[b[j]] == bKey[j];
    }
  }

  /** Of fewer than 200 elements nothing is purged; of at least 200 exactly the elements that occur more often than one
      hundredth of the length, rounded down, and one. */
  lemma {:induction false} PurgedExactly(a: seq<nat>, b: seq<nat>, autoJunk: bool, chain: Chain, j: nat)
    requires ChainFor(a, b, autoJunk, chain) && j < |b|
    ensures chain.bKey[j] < |chain.positions|
    ensures j !in chain.positions[chain.bKey[j]] <==>
      autoJunk && |b| >= 200 && multiset(b)[b[j]] > |b| / 100 + 1
    ensures j !in chain.positions[chain.bKey[j]] <==> chain.positions[chain.bKey[j]] == []
  {
    var k := chain.bKey[j];
    assert chain.positions[k] != [] ==> chain.positions[k][0] in chain.positions[k];
  }

  lemma {:induction false} KeysFound(a: seq<nat>, b: seq<nat>, keys: nat, bKey: seq<nat>, keyOf: map<nat, nat>,
      aKey: seq<nat>)
    requires Numbered(b, |b|, keys, bKey, keyOf) && keys < ABSENT && b[..|b|] == b
    requires |aKey| == |a| && forall k :: 0 <= k < |a| ==> aKey[k] == if a[k] in keyOf then keyOf[a[k]] else ABSENT
    ensures KeysOfB(b, bKey, keys) && KeysOfA(a, b, aKey, bKey, keys)
  {
  }

  // ----- one row of the search

  /** A row entry: a run of `length` hits ends at position `j` of b. */
  datatype Entry = Entry(j: nat, length: nat)

  ghost predicate RowAscends(row: seq<Entry>) {
    forall p, q :: 0 <= p < q < |row| ==> row[p].j < row[q].j
  }

  ghost predicate Lists(row: seq<Entry>, j: int) {
    exists p :: 0 <= p < |row| && row[p].j == j
  }

  /** `row` holds the hits of position `i` of a below `limit`, in order, with their run lengths. */
  ghost predicate RowFor(a: seq<nat>, b: seq<nat>, autoJunk: bool, r: Range, i: int, limit: int, row: seq<Entry>)
    requires r.Within(a, b)
  {
    && RowAscends(row)
    && (forall p :: 0 <= p < |row| ==>
          row[p].j < limit && Hit(a, b, autoJunk, r, i, row[p].j) &&
            row[p].length == HitsEndingAt(a, b, autoJunk, r, i, row[p].j))
    && (forall j: nat :: j < limit && Hit(a, b, autoJunk, r, i, j) ==> Lists(row, j))
  }

  /** The hits of a position are the listed positions of its element inside the range. */
  lemma {:induction false} HitsAreListed(a: seq<nat>, b: seq<nat>, autoJunk: bool, chain: Chain, r: Range, i: nat,
      j: nat)
    requires ChainFor(a, b, autoJunk, chain) && r.Within(a, b) && r.alo <= i < r.ahi
    ensures Hit(a, b, autoJunk, r, i, j) <==>
      chain.aKey[i] != ABSENT && r.blo <= j < r.bhi && j in chain.positions[chain.aKey[i]]
  {
    if r.blo <= j < r.bhi {
      assert chain.aKey[i] == chain.bKey[j] <==> a[i] == b[j];
      assert a[i] == b[j] ==> a[i] in b;
    }
  }

  /** First index of `list` whose entry is not below `bound`. */
  function LowerBound(list: seq<nat>, bound: nat, from: nat): (r: nat)
    requires from <= |list| && Ascending(list)
    requires forall k :: 0 <= k < from ==> list[k] < bound
    ensures r <= |list| && (forall k :: 0 <= k < r ==> list[k] < bound) && (r < |list| ==> list[r] >= bound)
    decreases |list| - from
  {
    if from < |list| && list[from] < bound then LowerBound(list, bound, from + 1) else from
  }

  lemma {:induction false} NotListed(row: seq<Entry>, p: nat, j: int)
    requires RowAscends(row) && p <= |row| && (forall q :: 0 <= q < p ==> row[q].j < j) && (p < |row| ==> row[p].j > j)
    ensures !Lists(row, j)
  {
    assert forall q :: p < q < |row| ==> row[p].j < row[q].j;
  }

  /** Move the pointer into the previous row up to position `j`, and read the run that ends there. */
  method LookUp(a: seq<nat>, b: seq<nat>, autoJunk: bool, r: Range, ghost i: int, row: seq<Entry>, from: nat, j: int)
    returns (p: nat, length: nat)
    requires r.Within(a, b) && RowFor(a, b, autoJunk, r, i, r.bhi, row)
    requires from <= |row| && forall q :: 0 <= q < from ==> row[q].j < j
    ensures from <= p <= |row| && forall q :: 0 <= q < p ==> row[q].j < j
    ensures length == HitsEndingAt(a, b, autoJunk, r, i, j)
  {
    p := from;
    while p < |row| && row[p].j < j
      invariant from <= p <= |row| && forall q :: 0 <= q < p ==> row[q].j < j
    {
      p := p + 1;
    }
    if p < |row| && row[p].j == j {
      length := row[p].length;
    } else {
      length := 0;
      NotListed(row, p, j);
    }
  }

  /** Of all runs of hits that end at a position already seen, `best` is the longest, and of the
      longest ones the first in a and then in b. Seen are the rows before `i` and the entries of
      row `i` before `limit`. */
  ghost predicate BestSoFar(a: seq<nat>, b: seq<nat>, autoJunk: bool, r: Range, i: int, limit: int, best: MatchingBlock)
    requires r.Within(a, b)
  {
    && (if best.size == 0 then best.a == r.alo && best.b == r.blo
        else Seen(i, limit, best.a + best.size - 1, best.b + best.size - 1)
             && HitsEndingAt(a, b, autoJunk, r, best.a + best.size - 1, best.b + best.size - 1) == best.size)
    && (forall x: nat, y: nat {:trigger NoBetterAt(a, b, autoJunk, r, best, x, y)} :: Seen(i, limit, x, y) ==>
          NoBetterAt(a, b, autoJunk, r, best, x, y))
  }

  ghost predicate NoBetterAt(a: seq<nat>, b: seq<nat>, autoJunk: bool, r: Range, best: MatchingBlock, x: nat, y: nat)
    requires r.Within(a, b)
  {
    NoBetter(best, x, y, HitsEndingAt(a, b, autoJunk, r, x, y))
  }

  ghost predicate Seen(i: int, limit: int, x: nat, y: nat) {
    x < i || (x == i && y < limit)
  }

  /** A run of `size` that ends at `x` and `y` does not come before `best`. */
  ghost predicate NoBetter(best: MatchingBlock, x: nat, y: nat, size: nat) {
    size < best.size || size == 0
    || (size == best.size &&
      (best.a + best.size - 1 < x || (best.a + best.size - 1 == x && best.b + best.size - 1 <= y)))
  }

  lemma {:induction false} BestNext(a: seq<nat>, b: seq<nat>, autoJunk: bool, r: Range, i: nat, limit: nat, j: nat,
      best: MatchingBlock, length: nat)
    requires r.Within(a, b) && BestSoFar(a, b, autoJunk, r, i, limit, best) && limit <= j
    requires forall y: nat :: limit <= y < j ==> !Hit(a, b, autoJunk, r, i, y)
    requires length == HitsEndingAt(a, b, autoJunk, r, i, j) > 0
    ensures length <= i + 1 && length <= j + 1
    ensures BestSoFar(a, b, autoJunk, r, i, j + 1,
      if length > best.size then MatchingBlock(i + 1 - length, j + 1 - length, length) else best)
  {
    HitsFit(a, b, autoJunk, r, i, j);
    var next := if length > best.size then MatchingBlock(i + 1 - length, j + 1 - length, length) else best;
    forall x: nat, y: nat | Seen(i, j + 1, x, y) ensures NoBetterAt(a, b, autoJunk, r, next, x, y) {
      if Seen(i, limit, x, y) {
        assert NoBetterAt(a, b, autoJunk, r, best, x, y);
      } else if y < j {
        assert !Hit(a, b, autoJunk, r, i, y);
      }
    }
  }

  lemma {:induction false} BestSkip(a: seq<nat>, b: seq<nat>, autoJunk: bool, r: Range, i: nat, limit: nat,
      best: MatchingBlock)
    requires r.Within(a, b) && BestSoFar(a, b, autoJunk, r, i, limit, best)
    requires forall y: nat :: limit <= y ==> !Hit(a, b, autoJunk, r, i, y)
    ensures BestSoFar(a, b, autoJunk, r, i + 1, 0, best)
  {
    forall x: nat, y: nat | Seen(i + 1, 0, x, y) ensures NoBetterAt(a, b, autoJunk, r, best, x, y) {
      if Seen(i, limit, x, y) {
        assert NoBetterAt(a, b, autoJunk, r, best, x, y);
      } else {
        assert !Hit(a, b, autoJunk, r, i, y);
      }
    }
  }

  lemma {:induction false} RunGrowsBack(a: seq<nat>, b: seq<nat>, r: Range, i: nat, j: nat, size: nat)
    requires r.Within(a, b) && Run(a, b, r, i, j, size) && i + size < r.ahi && j + size < r.bhi &&
      a[i + size] == b[j + size]
    ensures Run(a, b, r, i, j, size + 1)
  {
    assert a[i..i + size + 1] == a[i..i + size] + [a[i + size]];
    assert b[j..j + size + 1] == b[j..j + size] + [b[j + size]];
  }

  lemma {:induction false} SlicePrefix(s: seq<nat>, lo: nat, hi: nat, k: nat)
    requires lo + k <= hi <= |s|
    ensures s[lo..hi][..k] == s[lo..lo + k]
  {
  }

  /** The beginning of a run is a run. */
  lemma {:induction false} RunPrefix(a: seq<nat>, b: seq<nat>, r: Range, i: nat, j: nat, size: nat, part: nat)
    requires r.Within(a, b) && Run(a, b, r, i, j, size) && part <= size
    ensures Run(a, b, r, i, j, part)
  {
    SlicePrefix(a, i, i + size, part);
    SlicePrefix(b, j, j + size, part);
  }

  /** A run of hits stays inside the range, and is a run of equal elements. */
  lemma {:induction false} HitsFit(a: seq<nat>, b: seq<nat>, autoJunk: bool, r: Range, i: int, j: int)
    requires r.Within(a, b)
    ensures var n := HitsEndingAt(a, b, autoJunk, r, i, j);
      n > 0 ==> n <= i + 1 - r.alo && n <= j + 1 - r.blo && Run(a, b, r, i + 1 - n, j + 1 - n, n)
    decreases i - r.alo
  {
    if Hit(a, b, autoJunk, r, i, j) {
      HitsFit(a, b, autoJunk, r, i - 1, j - 1);
      HitGrows(a, b, r, i, j, HitsEndingAt(a, b, autoJunk, r, i - 1, j - 1));
    }
  }

  lemma {:induction false} HitGrows(a: seq<nat>, b: seq<nat>, r: Range, i: nat, j: nat, n: nat)
    requires r.Within(a, b) && r.alo <= i < r.ahi && r.blo <= j < r.bhi && a[i] == b[j]
    requires n > 0 ==> n <= i - r.alo && n <= j - r.blo && Run(a, b, r, i - n, j - n, n)
    ensures n <= i - r.alo && n <= j - r.blo && Run(a, b, r, i - n, j - n, n + 1)
  {
    if n == 0 {
      assert a[i..i] == b[j..j];
    }
    RunGrowsBack(a, b, r, i - n, j - n, n);
  }

  ghost predicate NonePopular(b: seq<nat>, autoJunk: bool, lo: nat, hi: nat)
    requires hi <= |b|
  {
    forall k :: lo <= k < hi ==> !Popular(b, autoJunk, b[k])
  }

  /** A run without popular elements is no longer than the hits counted at its end. */
  lemma {:induction false} RunIsCounted(a: seq<nat>, b: seq<nat>, autoJunk: bool, r: Range, i: nat, j: nat, size: nat)
    requires r.Within(a, b) && Run(a, b, r, i, j, size) && size > 0
    requires NonePopular(b, autoJunk, j, j + size)
    ensures HitsEndingAt(a, b, autoJunk, r, i + size - 1, j + size - 1) >= size
    decreases size
  {
    assert a[i..i + size][size - 1] == b[j..j + size][size - 1];
    assert Hit(a, b, autoJunk, r, i + size - 1, j + size - 1);
    if size > 1 {
      RunPrefix(a, b, r, i, j, size, size - 1);
      RunIsCounted(a, b, autoJunk, r, i, j, size - 1);
    }
  }

  lemma {:induction false} RowNext(a: seq<nat>, b: seq<nat>, autoJunk: bool, r: Range, i: nat, limit: nat, j: nat,
      row: seq<Entry>)
    requires r.Within(a, b) && RowFor(a, b, autoJunk, r, i, limit, row) && limit <= j
    requires Hit(a, b, autoJunk, r, i, j) && forall y: nat :: limit <= y < j ==> !Hit(a, b, autoJunk, r, i, y)
    ensures RowFor(a, b, autoJunk, r, i, j + 1, row + [Entry(j, HitsEndingAt(a, b, autoJunk, r, i, j))])
  {
    var next := row + [Entry(j, HitsEndingAt(a, b, autoJunk, r, i, j))];
    forall y: nat | y < j + 1 && Hit(a, b, autoJunk, r, i, y) ensures Lists(next, y) {
      if y < j {
        assert Lists(row, y);
        var p :| 0 <= p < |row| && row[p].j == y;
        assert next[p].j == y;
      } else {
        assert next[|row|].j == y;
      }
    }
  }

  /** `list` holds, in order, the hits of position `i` of a (and maybe positions outside the range). */
  ghost predicate ListsHits(a: seq<nat>, b: seq<nat>, autoJunk: bool, r: Range, i: nat, list: seq<nat>)
    requires r.Within(a, b)
  {
    Ascending(list) && forall y: nat :: Hit(a, b, autoJunk, r, i, y) <==> r.blo <= y < r.bhi && y in list
  }

  lemma {:induction false} ChainListsHits(a: seq<nat>, b: seq<nat>, autoJunk: bool, chain: Chain, r: Range, i: nat)
    requires ChainFor(a, b, autoJunk, chain) && r.Within(a, b) && r.alo <= i < r.ahi
    ensures ListsHits(a, b, autoJunk, r, i, if chain.aKey[i] == ABSENT then [] else chain.positions[chain.aKey[i]])
  {
    forall y: nat ensures Hit(a, b, autoJunk, r, i, y) <==>
      chain.aKey[i] != ABSENT && r.blo <= y < r.bhi && y in chain.positions[chain.aKey[i]]
    {
      HitsAreListed(a, b, autoJunk, chain, r, i, y);
    }
  }

  /** Where the next listed position inside the range is, or the end of the range. */
  function NextStop(list: seq<nat>, at: nat, r: Range): nat {
    if at < |list| && list[at] < r.bhi then list[at] else r.bhi
  }

  ghost predicate Gap(a: seq<nat>, b: seq<nat>, autoJunk: bool, r: Range, i: nat, limit: nat, stop: nat)
    requires r.Within(a, b)
  {
    forall y: nat :: limit <= y < stop ==> !Hit(a, b, autoJunk, r, i, y)
  }

  /** No hit lies between consecutive listed positions. */
  lemma {:induction false} GapBeforeNext(a: seq<nat>, b: seq<nat>, autoJunk: bool, r: Range, i: nat, list: seq<nat>,
      at: nat, limit: nat)
    requires r.Within(a, b) && ListsHits(a, b, autoJunk, r, i, list) && at <= |list|
    requires forall k :: 0 <= k < at ==> list[k] < limit || list[k] < r.blo
    ensures Gap(a, b, autoJunk, r, i, limit, NextStop(list, at, r))
  {
  }

  ghost predicate RowState(a: seq<nat>, b: seq<nat>, autoJunk: bool, r: Range, i: nat, limit: nat, row: seq<Entry>,
      best: MatchingBlock)
    requires r.Within(a, b)
  {
    RowFor(a, b, autoJunk, r, i, limit, row) && BestSoFar(a, b, autoJunk, r, i, limit, best)
  }

  function Better(best: MatchingBlock, i: nat, j: nat, length: nat): MatchingBlock
    requires length <= i + 1 && length <= j + 1
  {
    if length > best.size then MatchingBlock(i + 1 - length, j + 1 - length, length) else best
  }

  lemma {:induction false} RowStep(a: seq<nat>, b: seq<nat>, autoJunk: bool, r: Range, i: nat, limit: nat, j: nat,
      row: seq<Entry>, best: MatchingBlock, length: nat)
    requires r.Within(a, b) && RowState(a, b, autoJunk, r, i, limit, row, best) && limit <= j
    requires Gap(a, b, autoJunk, r, i, limit, j) && Hit(a, b, autoJunk, r, i, j)
    requires length == HitsEndingAt(a, b, autoJunk, r, i - 1, j - 1) + 1
    ensures length <= i + 1 && length <= j + 1
    ensures RowState(a, b, autoJunk, r, i, j + 1, row + [Entry(j, length)], Better(best, i, j, length))
  {
    BestNext(a, b, autoJunk, r, i, limit, j, best, length);
    RowNext(a, b, autoJunk, r, i, limit, j, row);
  }

  lemma {:induction false} RowEnd(a: seq<nat>, b: seq<nat>, autoJunk: bool, r: Range, i: nat, limit: nat,
      row: seq<Entry>, best: MatchingBlock)
    requires r.Within(a, b) && RowState(a, b, autoJunk, r, i, limit, row, best) && limit <= r.bhi
    requires Gap(a, b, autoJunk, r, i, limit, r.bhi)
    ensures RowFor(a, b, autoJunk, r, i, r.bhi, row) && BestSoFar(a, b, autoJunk, r, i + 1, 0, best)
  {
    BestSkip(a, b, autoJunk, r, i, limit, best);
  }

  /** One hit: the run that ends there is one longer than the one that ends before it. */
  method SearchEntry(a: seq<nat>, b: seq<nat>, autoJunk: bool, r: Range, i: nat, ghost limit: nat, j: nat,
      previous: seq<Entry>, from: nat, before: seq<Entry>, best: MatchingBlock)
    returns (p: nat, row: seq<Entry>, better: MatchingBlock)
    requires r.Within(a, b) && RowState(a, b, autoJunk, r, i, limit, before, best) && limit <= j
    requires Gap(a, b, autoJunk, r, i, limit, j) && Hit(a, b, autoJunk, r, i, j)
    requires RowFor(a, b, autoJunk, r, i - 1, r.bhi, previous)
    requires from <= |previous| && forall q :: 0 <= q < from ==> previous[q].j + 1 < limit
    ensures p <= |previous| && forall q :: 0 <= q < p ==> previous[q].j < j
    ensures RowState(a, b, autoJunk, r, i, j + 1, row, better)
  {
    p := from;
    var length: nat := 0;
    if j > 0 {
      p, length := LookUp(a, b, autoJunk, r, i - 1, previous, p, j - 1);
    }
    length := length + 1;
    RowStep(a, b, autoJunk, r, i, limit, j, before, best, length);
    row, better := before + [Entry(j, length)], best;
    if length > best.size {
      better := MatchingBlock(i + 1 - length, j + 1 - length, length);
    }
  }

  /** Work through the hits of position `i` of a. */
  method SearchRow(a: seq<nat>, b: seq<nat>, autoJunk: bool, r: Range, i: nat, list: seq<nat>, previous: seq<Entry>,
      before: MatchingBlock)
    returns (row: seq<Entry>, best: MatchingBlock)
    requires r.Within(a, b) && r.alo <= i < r.ahi && ListsHits(a, b, autoJunk, r, i, list)
    requires RowFor(a, b, autoJunk, r, i - 1, r.bhi, previous)
    requires BestSoFar(a, b, autoJunk, r, i, 0, before)
    ensures RowFor(a, b, autoJunk, r, i, r.bhi, row)
    ensures BestSoFar(a, b, autoJunk, r, i + 1, 0, best)
  {
    row, best := [], before;
    ghost var limit: nat := 0;
    var at: nat := LowerBound(list, r.blo, 0);
    var p: nat := 0;
    GapBeforeNext(a, b, autoJunk, r, i, list, at, 0);
    while at < |list| && list[at] < r.bhi
      invariant at <= |list| && p <= |previous| && limit <= NextStop(list, at, r)
      invariant forall k :: 0 <= k < at ==> list[k] < limit || list[k] < r.blo
      invariant at < |list| ==> r.blo <= list[at]
      invariant forall q :: 0 <= q < p ==> previous[q].j + 1 < limit
      invariant Gap(a, b, autoJunk, r, i, limit, NextStop(list, at, r))
      invariant RowState(a, b, autoJunk, r, i, limit, row, best)
    {
      var j := list[at];
      assert j in list && Hit(a, b, autoJunk, r, i, j);
      p, row, best := SearchEntry(a, b, autoJunk, r, i, limit, j, previous, p, row, best);
      limit := j + 1;
      at := at + 1;
      GapBeforeNext(a, b, autoJunk, r, i, list, at, limit);
    }
    RowEnd(a, b, autoJunk, r, i, limit, row, best);
  }

  // ----- the search

  /** `x` cannot grow at its start. */
  ghost predicate ClosedAtStart(a: seq<nat>, b: seq<nat>, r: Range, x: MatchingBlock)
    requires r.Within(a, b) && Run(a, b, r, x.a, x.b, x.size)
  {
    x.a > r.alo && x.b > r.blo ==> a[x.a - 1] != b[x.b - 1]
  }

  /** `x` cannot grow at its end. */
  ghost predicate ClosedAtEnd(a: seq<nat>, b: seq<nat>, r: Range, x: MatchingBlock)
    requires r.Within(a, b) && Run(a, b, r, x.a, x.b, x.size)
  {
    x.a + x.size < r.ahi && x.b + x.size < r.bhi ==> a[x.a + x.size] != b[x.b + x.size]
  }

  /** Block `x` is no worse than the run at `i`, `j` of length `size`: longer, or as long and
      not later in a, or as long and at the same place in a and not later in b. */
  ghost predicate Precedes(x: MatchingBlock, i: nat, j: nat, size: nat) {
    size < x.size || (size == x.size && (x.a < i || (x.a == i && x.b <= j)))
  }

  /** The longest run without popular elements, the first in a and then in b among the longest. */
  ghost predicate FirstLongest(a: seq<nat>, b: seq<nat>, autoJunk: bool, r: Range, best: MatchingBlock)
    requires r.Within(a, b)
  {
    && Run(a, b, r, best.a, best.b, best.size) && NonePopular(b, autoJunk, best.b, best.b + best.size)
    && (best.size == 0 ==> best.a == r.alo && best.b == r.blo)
    && (forall i: nat, j: nat, size: nat ::
      Run(a, b, r, i, j, size) && NonePopular(b, autoJunk, j, j + size) ==> Precedes(best, i, j, size))
  }

  /** `x` is `best` with more elements at both ends. */
  ghost predicate GrownFrom(best: MatchingBlock, x: MatchingBlock) {
    x.a <= best.a && x.a - x.b == best.a - best.b && best.a + best.size <= x.a + x.size
  }

  /** What a longest match is: the first of the longest runs without popular elements, grown until it cannot grow at
      either end. So it is at least as long as every run without popular elements; and when nothing in the range is
      popular, it is the longest block, the first in a and then in b among the longest. */
  ghost predicate LongestIn(a: seq<nat>, b: seq<nat>, autoJunk: bool, r: Range, x: MatchingBlock)
    requires r.Within(a, b)
  {
    && Run(a, b, r, x.a, x.b, x.size) && ClosedAtStart(a, b, r, x) && ClosedAtEnd(a, b, r, x)
    && (exists best :: FirstLongest(a, b, autoJunk, r, best) && GrownFrom(best, x))
    && (forall i: nat, j: nat, size: nat ::
      Run(a, b, r, i, j, size) && NonePopular(b, autoJunk, j, j + size) ==> size <= x.size)
    && (NonePopular(b, autoJunk, r.blo, r.bhi) ==>
          forall i: nat, j: nat, size: nat :: Run(a, b, r, i, j, size) ==> Precedes(x, i, j, size))
  }

  lemma {:induction false} BestIsLongest(a: seq<nat>, b: seq<nat>, autoJunk: bool, r: Range, best: MatchingBlock)
    requires r.Within(a, b) && BestSoFar(a, b, autoJunk, r, r.ahi, 0, best)
    ensures Run(a, b, r, best.a, best.b, best.size)
    ensures forall i: nat, j: nat, size: nat ::
      Run(a, b, r, i, j, size) && NonePopular(b, autoJunk, j, j + size) ==> Precedes(best, i, j, size)
  {
    if best.size > 0 {
      HitsFit(a, b, autoJunk, r, best.a + best.size - 1, best.b + best.size - 1);
    }
    forall i: nat, j: nat, size: nat | Run(a, b, r, i, j, size) && NonePopular(b, autoJunk, j, j + size)
      ensures Precedes(best, i, j, size)
    {
      if size > 0 {
        RunIsCounted(a, b, autoJunk, r, i, j, size);
        assert NoBetterAt(a, b, autoJunk, r, best, i + size - 1, j + size - 1);
      }
    }
  }

  /** Growing the best block keeps what matters of it. */
  lemma {:induction false} GrownIsLongest(a: seq<nat>, b: seq<nat>, autoJunk: bool, r: Range, best: MatchingBlock,
      x: MatchingBlock)
    requires r.Within(a, b) && FirstLongest(a, b, autoJunk, r, best) && GrownFrom(best, x)
    requires Run(a, b, r, x.a, x.b, x.size) && ClosedAtStart(a, b, r, x) && ClosedAtEnd(a, b, r, x)
    ensures LongestIn(a, b, autoJunk, r, x)
  {
    if NonePopular(b, autoJunk, r.blo, r.bhi) {
      assert NonePopular(b, autoJunk, x.b, x.b + x.size);
      assert Precedes(best, x.a, x.b, x.size);
      forall i: nat, j: nat, size: nat | Run(a, b, r, i, j, size) ensures Precedes(x, i, j, size) {
        assert NonePopular(b, autoJunk, j, j + size);
      }
    }
  }

  lemma {:induction false} RunGrowsFront(a: seq<nat>, b: seq<nat>, r: Range, i: nat, j: nat, size: nat)
    requires r.Within(a, b) && Run(a, b, r, i, j, size) && i > r.alo && j > r.blo && a[i - 1] == b[j - 1]
    ensures Run(a, b, r, i - 1, j - 1, size + 1)
  {
    assert a[i - 1..i + size] == [a[i - 1]] + a[i..i + size];
    assert b[j - 1..j + size] == [b[j - 1]] + b[j..j + size];
  }

  method ExtendFront(a: seq<nat>, b: seq<nat>, r: Range, best: MatchingBlock) returns (x: MatchingBlock)
    requires r.Within(a, b) && Run(a, b, r, best.a, best.b, best.size)
    ensures Run(a, b, r, x.a, x.b, x.size) && ClosedAtStart(a, b, r, x) && GrownFrom(best, x)
  {
    var i: nat, j: nat, size: nat := best.a, best.b, best.size;
    while i > r.alo && j > r.blo && a[i - 1] == b[j - 1]
      invariant Run(a, b, r, i, j, size) && GrownFrom(best, MatchingBlock(i, j, size))
    {
      RunGrowsFront(a, b, r, i, j, size);
      i, j, size := i - 1, j - 1, size + 1;
    }
    x := MatchingBlock(i, j, size);
  }

  method ExtendBack(a: seq<nat>, b: seq<nat>, r: Range, best: MatchingBlock) returns (size: nat)
    requires r.Within(a, b) && Run(a, b, r, best.a, best.b, best.size)
    ensures size >= best.size && Run(a, b, r, best.a, best.b, size)
    ensures ClosedAtEnd(a, b, r, MatchingBlock(best.a, best.b, size))
  {
    size := best.size;
    while best.a + size < r.ahi && best.b + size < r.bhi && a[best.a + size] == b[best.b + size]
      invariant size >= best.size && Run(a, b, r, best.a, best.b, size)
    {
      RunGrowsBack(a, b, r, best.a, best.b, size);
      size := size + 1;
    }
  }

  /** Extend a block over equal elements, popular ones included, at both ends. */
  method Extend(a: seq<nat>, b: seq<nat>, r: Range, best: MatchingBlock) returns (x: MatchingBlock)
    requires r.Within(a, b) && Run(a, b, r, best.a, best.b, best.size)
    ensures Run(a, b, r, x.a, x.b, x.size) && ClosedAtStart(a, b, r, x) && ClosedAtEnd(a, b, r, x)
    ensures GrownFrom(best, x)
  {
    x := ExtendFront(a, b, r, best);
    var size := ExtendBack(a, b, r, x);
    x := MatchingBlock(x.a, x.b, size);
  }

  method FindLongestMatch(a: seq<nat>, b: seq<nat>, autoJunk: bool, chain: Chain, r: Range) returns (x: MatchingBlock)
    requires ChainFor(a, b, autoJunk, chain) && r.Within(a, b)
    ensures LongestIn(a, b, autoJunk, r, x)
    ensures SameRange(a, b, r) ==> x == MatchingBlock(r.alo, r.blo, r.ahi - r.alo)
  {
    var best := SearchRows(a, b, autoJunk, chain, r);
    BestIsLongest(a, b, autoJunk, r, best);
    BestIsUnpopular(a, b, autoJunk, r, best);
    x := Extend(a, b, r, best);
    GrownIsLongest(a, b, autoJunk, r, best, x);
    if SameRange(a, b, r) {
      BestOnDiagonal(a, b, autoJunk, r, best);
      WholeRange(a, b, r, x);
    }
  }

  // ----- equal ranges

  /** The range holds the same elements in both sequences. */
  ghost predicate SameRange(a: seq<nat>, b: seq<nat>, r: Range)
    requires r.Within(a, b)
  {
    a[r.alo..r.ahi] == b[r.blo..r.bhi]
  }

  lemma {:induction false} SameElement(a: seq<nat>, b: seq<nat>, r: Range, k: nat)
    requires r.Within(a, b) && SameRange(a, b, r) && r.alo + k < r.ahi
    ensures r.blo + k < r.bhi && a[r.alo + k] == b[r.blo + k]
  {
    assert |a[r.alo..r.ahi]| == |b[r.blo..r.bhi]|;
    assert a[r.alo..r.ahi][k] == b[r.blo..r.bhi][k];
  }

  /** The part of an equal range at one offset is a run. */
  lemma {:induction false} DiagonalRun(a: seq<nat>, b: seq<nat>, r: Range, p: nat, size: nat)
    requires r.Within(a, b) && SameRange(a, b, r) && r.alo + p + size <= r.ahi
    ensures Run(a, b, r, r.alo + p, r.blo + p, size)
  {
    assert |a[r.alo..r.ahi]| == |b[r.blo..r.bhi]|;
    var x, y := a[r.alo + p..r.alo + p + size], b[r.blo + p..r.blo + p + size];
    forall k: nat | k < size ensures x[k] == y[k] {
      SameElement(a, b, r, p + k);
    }
  }

  /** Runs of the same elements are popular together. */
  lemma {:induction false} SameNonePopular(a: seq<nat>, b: seq<nat>, autoJunk: bool, r: Range, i: nat, j: nat, k: nat,
      size: nat)
    requires r.Within(a, b) && Run(a, b, r, i, j, size) && Run(a, b, r, i, k, size) &&
      NonePopular(b, autoJunk, j, j + size)
    ensures NonePopular(b, autoJunk, k, k + size)
  {
    forall q: nat | k <= q < k + size ensures !Popular(b, autoJunk, b[q]) {
      assert b[k..k + size][q - k] == b[j..j + size][q - k];
      assert b[q] == b[j + (q - k)];
    }
  }

  /** A run of hits holds no popular element. */
  lemma {:induction false} HitsUnpopular(a: seq<nat>, b: seq<nat>, autoJunk: bool, r: Range, i: int, j: int, n: nat)
    requires r.Within(a, b) && n == HitsEndingAt(a, b, autoJunk, r, i, j) > 0
    ensures 0 <= j + 1 - n && j < |b| && NonePopular(b, autoJunk, j + 1 - n, j + 1)
    decreases n
  {
    HitsFit(a, b, autoJunk, r, i, j);
    if n > 1 {
      HitsUnpopular(a, b, autoJunk, r, i - 1, j - 1, n - 1);
    }
  }

  lemma {:induction false} BestIsUnpopular(a: seq<nat>, b: seq<nat>, autoJunk: bool, r: Range, best: MatchingBlock)
    requires r.Within(a, b) && BestSoFar(a, b, autoJunk, r, r.ahi, 0, best) && Run(a, b, r, best.a, best.b, best.size)
    ensures best.size == 0 ==> best.a == r.alo && best.b == r.blo
    ensures NonePopular(b, autoJunk, best.b, best.b + best.size)
  {
    if best.size > 0 {
      HitsUnpopular(a, b, autoJunk, r, best.a + best.size - 1, best.b + best.size - 1, best.size);
    }
  }

  /** In an equal range the first longest run lies at the same offset on both sides: it occurs at each of its two
      offsets on both of them. */
  lemma {:induction false} BestOnDiagonal(a: seq<nat>, b: seq<nat>, autoJunk: bool, r: Range, best: MatchingBlock)
    requires r.Within(a, b) && SameRange(a, b, r) && Run(a, b, r, best.a, best.b, best.size)
    requires best.size == 0 ==> best.a == r.alo && best.b == r.blo
    requires NonePopular(b, autoJunk, best.b, best.b + best.size)
    requires forall i: nat, j: nat, size: nat ::
      Run(a, b, r, i, j, size) && NonePopular(b, autoJunk, j, j + size) ==> Precedes(best, i, j, size)
    ensures best.a - r.alo == best.b - r.blo
  {
    assert |a[r.alo..r.ahi]| == |b[r.blo..r.bhi]|;
    if best.size > 0 {
      var p, q := best.a - r.alo, best.b - r.blo;
      DiagonalRun(a, b, r, p, best.size);
      SameNonePopular(a, b, autoJunk, r, best.a, best.b, r.blo + p, best.size);
      assert Precedes(best, best.a, r.blo + p, best.size);
      DiagonalRun(a, b, r, q, best.size);
      assert Precedes(best, r.alo + q, best.b, best.size);
    }
  }

  /** A block at one offset that cannot grow is the whole of an equal range. */
  lemma {:induction false} WholeRange(a: seq<nat>, b: seq<nat>, r: Range, x: MatchingBlock)
    requires r.Within(a, b) && SameRange(a, b, r) && Run(a, b, r, x.a, x.b, x.size) && x.a - r.alo == x.b - r.blo
    requires ClosedAtStart(a, b, r, x) && ClosedAtEnd(a, b, r, x)
    ensures x == MatchingBlock(r.alo, r.blo, r.ahi - r.alo)
  {
    assert |a[r.alo..r.ahi]| == |b[r.blo..r.bhi]|;
    if x.a > r.alo {
      SameElement(a, b, r, x.a - 1 - r.alo);
    }
    if x.a + x.size < r.ahi {
      SameElement(a, b, r, x.a + x.size - r.alo);
    }
  }

  /** The first longest run of hits, one row of the table after the other. */
  method SearchRows(a: seq<nat>, b: seq<nat>, autoJunk: bool, chain: Chain, r: Range) returns (best: MatchingBlock)
    requires ChainFor(a, b, autoJunk, chain) && r.Within(a, b)
    ensures BestSoFar(a, b, autoJunk, r, r.ahi, 0, best)
  {
    best := MatchingBlock(r.alo, r.blo, 0);
    var row: seq<Entry> := [];
    NothingSeen(a, b, autoJunk, r);
    for i: nat := r.alo to r.ahi
      invariant RowsDone(a, b, autoJunk, r, i, row, best)
    {
      row, best := SearchNextRow(a, b, autoJunk, chain, r, i, row, best);
    }
  }

  /** The last row and the best run when the rows before i are done. */
  ghost predicate RowsDone(a: seq<nat>, b: seq<nat>, autoJunk: bool, r: Range, i: nat, row: seq<Entry>,
      best: MatchingBlock)
    requires r.Within(a, b)
  {
    RowFor(a, b, autoJunk, r, i - 1, r.bhi, row) && BestSoFar(a, b, autoJunk, r, i, 0, best)
  }

  method SearchNextRow(a: seq<nat>, b: seq<nat>, autoJunk: bool, chain: Chain, r: Range, i: nat, previous: seq<Entry>,
      before: MatchingBlock)
    returns (row: seq<Entry>, best: MatchingBlock)
    requires ChainFor(a, b, autoJunk, chain) && r.Within(a, b) && r.alo <= i < r.ahi
    requires RowsDone(a, b, autoJunk, r, i, previous, before)
    ensures RowsDone(a, b, autoJunk, r, i + 1, row, best)
  {
    ChainListsHits(a, b, autoJunk, chain, r, i);
    var list := if chain.aKey[i] == ABSENT then [] else chain.positions[chain.aKey[i]];
    row, best := SearchRow(a, b, autoJunk, r, i, list, previous, before);
  }

  /** Before the first row there is nothing to beat. */
  lemma {:induction false} NothingSeen(a: seq<nat>, b: seq<nat>, autoJunk: bool, r: Range)
    requires r.Within(a, b)
    ensures BestSoFar(a, b, autoJunk, r, r.alo, 0, MatchingBlock(r.alo, r.blo, 0))
  {
    forall x: nat, y: nat | Seen(r.alo, 0, x, y)
      ensures NoBetterAt(a, b, autoJunk, r, MatchingBlock(r.alo, r.blo, 0), x, y)
    {
      assert !Hit(a, b, autoJunk, r, x, y);
    }
  }
}
