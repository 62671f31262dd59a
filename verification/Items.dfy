/** Match items, the keys they are told apart by, and the stable descending sort. */
module Items {

  /** An address or name as the exports give it; Null is Python's None. */
  datatype Text = Null | Text(text: string)

  datatype Item = Item(ea1: Text, name1: Text, ea2: Text, name2: Text, desc: string, ratio: real, nodes1: int,
      nodes2: int)

  function KeyText(t: Text): string {
    if t.Null? then "None" else t.text
  }

  /** The two texts with a dash between them; a dash inside a text can make two pairs collide. */
  function PairKey(x: Text, y: Text): string {
    KeyText(x) + "-" + KeyText(y)
  }

  ghost predicate DashFree(s: string) {
    forall k :: 0 <= k < |s| ==> s[k] != '-'
  }

  /** A text that holds no dash. */
  ghost predicate Plain(t: Text) {
    t.Text? && DashFree(t.text)
  }

  lemma {:induction false} FirstDash(a: string, b: string, c: string, d: string)
    requires DashFree(a) && a + "-" + b == c + "-" + d
    ensures |a| <= |c|
  {
    var k := a + "-" + b;
    assert forall i {:trigger k[i]} :: 0 <= i < |a| ==> k[i] == a[i];
    assert k == c + "-" + d && k[|c|] == '-';
  }

  /** Plain pairs have different keys. */
  lemma {:induction false} PlainKeysDiffer(x1: Text, y1: Text, x2: Text, y2: Text)
    requires Plain(x1) && Plain(x2) && y1.Text? && y2.Text? && PairKey(x1, y1) == PairKey(x2, y2)
    ensures x1 == x2 && y1 == y2
  {
    FirstDash(x1.text, y1.text, x2.text, y2.text);
    FirstDash(x2.text, y2.text, x1.text, y1.text);
    var k, n := PairKey(x1, y1), |x1.text|;
    assert x1.text == k[..n] && x2.text == k[..n];
    assert y1.text == k[n + 1..] && y2.text == k[n + 1..];
  }

  ghost predicate Descending(items: seq<Item>) {
    forall p, q :: 0 <= p < q < |items| ==> items[p].ratio >= items[q].ratio
  }

  /** Put `x` behind every item whose ratio is not smaller, starting from the end. */
  function Place(items: seq<Item>, x: Item): seq<Item> {
    if items == [] || items[|items| - 1].ratio >= x.ratio then items + [x]
    else Place(items[..|items| - 1], x) + [items[|items| - 1]]
  }

  /** The stable sort by descending ratio. */
  function SortDescending(items: seq<Item>): seq<Item> {
    if items == [] then [] else Place(SortDescending(items[..|items| - 1]), items[|items| - 1])
  }

  lemma {:induction false} PlaceElements(items: seq<Item>, x: Item)
    ensures multiset(Place(items, x)) == multiset(items) + multiset{x}
  {
    if items != [] && items[|items| - 1].ratio < x.ratio {
      PlaceElements(items[..|items| - 1], x);
      assert items == items[..|items| - 1] + [items[|items| - 1]];
    }
  }

  lemma {:induction false} PlaceDescends(items: seq<Item>, x: Item)
    requires Descending(items)
    ensures Descending(Place(items, x))
    ensures forall p :: 0 <= p < |Place(items, x)| ==> Place(items, x)[p] == x || Place(items, x)[p] in items
  {
    if items != [] {
      var front, last := items[..|items| - 1], items[|items| - 1];
      if last.ratio < x.ratio {
        PlaceDescends(front, x);
        var placed := Place(front, x);
        forall p | 0 <= p < |placed| ensures placed[p].ratio >= last.ratio {
          if placed[p] in front {
            var q :| 0 <= q < |front| && front[q] == placed[p];
            assert items[q].ratio >= last.ratio;
          }
        }
      } else {
        forall p | 0 <= p < |items| ensures items[p].ratio >= x.ratio {
          assert items[p].ratio >= last.ratio;
        }
      }
    }
  }

  lemma {:induction false} SortedDescends(items: seq<Item>)
    ensures Descending(SortDescending(items)) && multiset(SortDescending(items)) == multiset(items)
  {
    if items != [] {
      var front, last := items[..|items| - 1], items[|items| - 1];
      SortedDescends(front);
      PlaceDescends(SortDescending(front), last);
      PlaceElements(SortDescending(front), last);
      assert items == front + [last];
    }
  }

  lemma {:induction false} PlaceLast(items: seq<Item>, x: Item)
    requires items == [] || items[|items| - 1].ratio >= x.ratio
    ensures Place(items, x) == items + [x]
  {
  }

  /** Sorting a list that already descends changes nothing. */
  lemma {:induction false} SortedAlready(items: seq<Item>)
    requires Descending(items)
    ensures SortDescending(items) == items
  {
    if items != [] {
      var front, last := items[..|items| - 1], items[|items| - 1];
      SortedAlready(front);
      PlaceLast(front, last);
      assert items == front + [last];
    }
  }

  /** The items of ratio `r`, in order. */
  ghost function OfRatio(items: seq<Item>, r: real): seq<Item> {
    if items == [] then []
    else OfRatio(items[..|items| - 1], r) + if items[|items| - 1].ratio == r then [items[|items| - 1]] else []
  }

  lemma {:induction false} OfRatioNext(items: seq<Item>, x: Item, r: real)
    ensures OfRatio(items + [x], r) == OfRatio(items, r) + if x.ratio == r then [x] else []
  {
    assert (items + [x])[..|items|] == items;
  }

  lemma {:induction false} PlaceStable(items: seq<Item>, x: Item, r: real)
    requires Descending(items)
    ensures OfRatio(Place(items, x), r) == OfRatio(items + [x], r)
  {
    OfRatioNext(items, x, r);
    if items != [] && items[|items| - 1].ratio < x.ratio {
      var front, last := items[..|items| - 1], items[|items| - 1];
      PlaceStable(front, x, r);
      OfRatioNext(front, x, r);
      OfRatioNext(Place(front, x), last, r);
    }
  }

  /** The sort keeps items of equal ratio in their order. */
  lemma {:induction false} SortedStable(items: seq<Item>, r: real)
    ensures OfRatio(SortDescending(items), r) == OfRatio(items, r)
  {
    if items != [] {
      var front, last := items[..|items| - 1], items[|items| - 1];
      SortedStable(front, r);
      SortedDescends(front);
      PlaceStable(SortDescending(front), last, r);
      OfRatioNext(SortDescending(front), last, r);
    }
  }
}
