/**
 * The data and the two sorts of lab06/moving.py.
 *
 * `sort_items` and `sort_boxes` are the same three-way quicksort (pivot = the
 * first element, the list split by `partition_items` / `partition_boxes`, the
 * outer parts sorted recursively). Both are specified here by one function,
 * `KeySort`, that sorts ascending by an integer key: boxes use their capacity,
 * items the negated weight, since `partition_items` puts the HEAVIER items in
 * its first list.
 */
module Moving {

  /** `ITEM`. */
  datatype Item = Item(name: string, weight: int)

  /** `BOX`: `capacity` is what is left of the box's allowance; packing appends to `items`. */
  class Box {
    var capacity: int
    var items: seq<Item>

    constructor (capacity: int)
      ensures this.capacity == capacity && items == []
    {
      this.capacity := capacity;
      items := [];
    }
  }

  /** The value of a box at one moment. */
  datatype BoxState = BoxState(capacity: int, items: seq<Item>)

  function Capacity(b: BoxState): int {
    b.capacity
  }

  /** The key under which `sort_items` sorts ascending: heavier items first. */
  function Lightness(x: Item): int {
    -x.weight
  }

  /** The boxes' current states, in list order. */
  function Snapshot(boxes: seq<Box>): (st: seq<BoxState>)
    reads boxes
    ensures |st| == |boxes|
  {
    seq(|boxes|, i reads boxes requires 0 <= i < |boxes| => BoxState(boxes[i].capacity, boxes[i].items))
  }

  lemma SnapshotAppend(a: seq<Box>, b: seq<Box>)
    ensures Snapshot(a + b) == Snapshot(a) + Snapshot(b)
  {
  }

  lemma SnapshotPush(a: seq<Box>, b: Box)
    ensures Snapshot(a + [b]) == Snapshot(a) + [BoxState(b.capacity, b.items)]
  {
  }

  // ---------------------------------------------------------------------------
  // Three-way partition by a key, each part in input order
  // ---------------------------------------------------------------------------

  /** The elements whose key is below `pivot`, in their order. */
  function Below<T>(s: seq<T>, key: T -> int, pivot: int): seq<T> {
    if s == [] then []
    else Below(s[..|s| - 1], key, pivot) + if key(s[|s| - 1]) < pivot then [s[|s| - 1]] else []
  }

  /** The elements whose key equals `pivot`, in their order. */
  function At<T>(s: seq<T>, key: T -> int, pivot: int): seq<T> {
    if s == [] then []
    else At(s[..|s| - 1], key, pivot) + if key(s[|s| - 1]) == pivot then [s[|s| - 1]] else []
  }

  /** The elements whose key is above `pivot`, in their order. */
  function Above<T>(s: seq<T>, key: T -> int, pivot: int): seq<T> {
    if s == [] then []
    else Above(s[..|s| - 1], key, pivot) + if key(s[|s| - 1]) > pivot then [s[|s| - 1]] else []
  }

  /** Sorted ascending by `key`. */
  predicate Ordered<T>(s: seq<T>, key: T -> int) {
    forall i, j :: 0 <= i < j < |s| ==> key(s[i]) <= key(s[j])
  }

  /** Extending the input by one element extends exactly the part that element belongs to. */
  lemma PartsStep<T>(s: seq<T>, k: int, key: T -> int, pivot: int)
    requires 0 <= k < |s|
    ensures Below(s[..k + 1], key, pivot) == Below(s[..k], key, pivot) + if key(s[k]) < pivot then [s[k]] else []
    ensures At(s[..k + 1], key, pivot) == At(s[..k], key, pivot) + if key(s[k]) == pivot then [s[k]] else []
    ensures Above(s[..k + 1], key, pivot) == Above(s[..k], key, pivot) + if key(s[k]) > pivot then [s[k]] else []
  {
    assert s[..k + 1][..k] == s[..k];
  }

  lemma PrefixGrows<T>(s: seq<T>, k: int)
    requires 0 <= k < |s|
    ensures multiset(s[..k + 1]) == multiset(s[..k]) + multiset{s[k]}
  {
    assert s[..k + 1] == s[..k] + [s[k]];
  }

  /** Adding one element to any of three parts adds it to their sum. */
  lemma AddToPart<T>(p: multiset<T>, q: multiset<T>, r: multiset<T>, x: T)
    ensures (p + multiset{x}) + q + r == p + q + r + multiset{x}
    ensures p + (q + multiset{x}) + r == p + q + r + multiset{x}
    ensures p + q + (r + multiset{x}) == p + q + r + multiset{x}
  {
  }

  lemma LastCounts<T>(s: seq<T>)
    requires s != []
    ensures multiset(s) == multiset(s[..|s| - 1]) + multiset{s[|s| - 1]}
  {
    assert s == s[..|s| - 1] + [s[|s| - 1]];
  }

  /** The last element of the input lands in exactly one of the three parts. */
  lemma PartsPush<T>(s: seq<T>, key: T -> int, pivot: int)
    requires s != []
    ensures var front := s[..|s| - 1];
      multiset(Below(s, key, pivot)) + multiset(At(s, key, pivot)) + multiset(Above(s, key, pivot)) ==
      multiset(Below(front, key, pivot)) + multiset(At(front, key, pivot)) + multiset(Above(front, key, pivot)) + multiset{s[|s| - 1]}
  {
    var front, x := s[..|s| - 1], s[|s| - 1];
    AddToPart(multiset(Below(front, key, pivot)), multiset(At(front, key, pivot)), multiset(Above(front, key, pivot)), x);
  }

  /** The three parts hold every element of the input exactly once. */
  lemma {:induction false} PartitionParts<T>(s: seq<T>, key: T -> int, pivot: int)
    ensures multiset(Below(s, key, pivot)) + multiset(At(s, key, pivot)) + multiset(Above(s, key, pivot)) == multiset(s)
  {
    if s != [] {
      var front := s[..|s| - 1];
      PartitionParts(front, key, pivot);
      PartsPush(s, key, pivot);
      LastCounts(s);
    }
  }

  /** Each part's keys lie on its side of the pivot. */
  lemma {:induction false} PartitionSides<T>(s: seq<T>, key: T -> int, pivot: int)
    ensures forall x :: x in Below(s, key, pivot) ==> key(x) < pivot
    ensures forall x :: x in At(s, key, pivot) ==> key(x) == pivot
    ensures forall x :: x in Above(s, key, pivot) ==> key(x) > pivot
  {
    if s != [] {
      PartitionSides(s[..|s| - 1], key, pivot);
    }
  }

  /** The three parts together are as long as the input. */
  lemma {:induction false} PartsLength<T>(s: seq<T>, key: T -> int, pivot: int)
    ensures |Below(s, key, pivot)| + |At(s, key, pivot)| + |Above(s, key, pivot)| == |s|
  {
    if s != [] {
      PartsLength(s[..|s| - 1], key, pivot);
    }
  }

  /** With the first element's key as pivot, both outer parts are strictly shorter than the input. */
  lemma PartitionShrinks<T>(s: seq<T>, key: T -> int)
    requires s != []
    ensures |Below(s, key, key(s[0]))| < |s| && |Above(s, key, key(s[0]))| < |s|
  {
    var p := key(s[0]);
    PartsLength(s, key, p);
    assert s == s[..1] + s[1..];
    AtAppend(s[..1], s[1..], key, p);
    assert s[..1][..0] == [];
    assert At(s[..1], key, p) == [s[0]];
  }

  lemma {:induction false} AtAppend<T>(a: seq<T>, b: seq<T>, key: T -> int, w: int)
    ensures At(a + b, key, w) == At(a, key, w) + At(b, key, w)
    decreases |b|
  {
    if b != [] {
      var ab := a + b;
      assert ab[..|ab| - 1] == a + b[..|b| - 1];
      AtAppend(a, b[..|b| - 1], key, w);
    } else {
      assert a + b == a;
    }
  }

  /** The elements of key `w` below the pivot are all those of the input when `w` is below it, else none. */
  lemma {:induction false} AtOfBelow<T>(s: seq<T>, key: T -> int, pivot: int, w: int)
    ensures At(Below(s, key, pivot), key, w) == if w < pivot then At(s, key, w) else []
  {
    if s != [] {
      var n := |s| - 1;
      AtOfBelow(s[..n], key, pivot, w);
      AtAppend(Below(s[..n], key, pivot), if key(s[n]) < pivot then [s[n]] else [], key, w);
    }
  }

  /** The elements of key `w` at the pivot are all those of the input when `w` is the pivot, else none. */
  lemma {:induction false} AtOfAt<T>(s: seq<T>, key: T -> int, pivot: int, w: int)
    ensures At(At(s, key, pivot), key, w) == if w == pivot then At(s, key, w) else []
  {
    if s != [] {
      var n := |s| - 1;
      AtOfAt(s[..n], key, pivot, w);
      AtAppend(At(s[..n], key, pivot), if key(s[n]) == pivot then [s[n]] else [], key, w);
    }
  }

  /** The elements of key `w` above the pivot are all those of the input when `w` is above it, else none. */
  lemma {:induction false} AtOfAbove<T>(s: seq<T>, key: T -> int, pivot: int, w: int)
    ensures At(Above(s, key, pivot), key, w) == if w > pivot then At(s, key, w) else []
  {
    if s != [] {
      var n := |s| - 1;
      AtOfAbove(s[..n], key, pivot, w);
      AtAppend(Above(s[..n], key, pivot), if key(s[n]) > pivot then [s[n]] else [], key, w);
    }
  }

  // ---------------------------------------------------------------------------
  // The quicksort
  // ---------------------------------------------------------------------------

  /** `sort_boxes` / `sort_items`: three-way quicksort, ascending by `key`, pivot = the first element. */
  function KeySort<T(==)>(s: seq<T>, key: T -> int): seq<T>
    decreases |s|
  {
    if s == [] then []
    else
      var p := key(s[0]);
      PartitionShrinks(s, key);
      KeySort(Below(s, key, p), key) + At(s, key, p) + KeySort(Above(s, key, p), key)
  }

  /** The sort returns a permutation of its input. */
  lemma {:induction false} KeySortPermutes<T>(s: seq<T>, key: T -> int)
    ensures multiset(KeySort(s, key)) == multiset(s)
    decreases |s|
  {
    if s != [] {
      var p := key(s[0]);
      PartitionShrinks(s, key);
      PartitionParts(s, key, p);
      KeySortPermutes(Below(s, key, p), key);
      KeySortPermutes(Above(s, key, p), key);
    }
  }

  /** Two ascending runs around a block of pivot keys make one ascending sequence. */
  lemma OrderedJoin<T>(a: seq<T>, mid: seq<T>, b: seq<T>, key: T -> int, pivot: int)
    requires Ordered(a, key) && Ordered(b, key)
    requires forall x :: x in a ==> key(x) < pivot
    requires forall x :: x in mid ==> key(x) == pivot
    requires forall x :: x in b ==> key(x) > pivot
    ensures Ordered(a + mid + b, key)
  {
    var r := a + mid + b;
    forall i, j | 0 <= i < j < |r| ensures key(r[i]) <= key(r[j]) {
      if j < |a| {
        assert r[i] == a[i] && r[j] == a[j];
      } else if i >= |a| + |mid| {
        assert r[i] == b[i - |a| - |mid|] && r[j] == b[j - |a| - |mid|];
      } else {
        assert r[i] in a || r[i] in mid;
        assert r[j] in mid || r[j] in b;
      }
    }
  }

  /** The sort's output is ascending by `key`. */
  lemma {:induction false} KeySortOrders<T>(s: seq<T>, key: T -> int)
    ensures Ordered(KeySort(s, key), key)
    decreases |s|
  {
    if s != [] {
      var p := key(s[0]);
      PartitionShrinks(s, key);
      PartitionSides(s, key, p);
      var lo, mid, hi := Below(s, key, p), At(s, key, p), Above(s, key, p);
      KeySortOrders(lo, key);
      KeySortOrders(hi, key);
      KeySortPermutes(lo, key);
      KeySortPermutes(hi, key);
      var a, b := KeySort(lo, key), KeySort(hi, key);
      forall x | x in a ensures key(x) < p {
        assert x in multiset(a);
      }
      forall x | x in b ensures key(x) > p {
        assert x in multiset(b);
      }
      OrderedJoin(a, mid, b, key, p);
    }
  }

  /** The sort is stable: the elements of any one key come out in their input order. */
  lemma {:induction false} KeySortStable<T>(s: seq<T>, key: T -> int, w: int)
    ensures At(KeySort(s, key), key, w) == At(s, key, w)
    decreases |s|
  {
    if s != [] {
      var p := key(s[0]);
      PartitionShrinks(s, key);
      var lo, mid, hi := Below(s, key, p), At(s, key, p), Above(s, key, p);
      KeySortStable(lo, key, w);
      KeySortStable(hi, key, w);
      var a, b := KeySort(lo, key), KeySort(hi, key);
      AtAppend(a + mid, b, key, w);
      AtAppend(a, mid, key, w);
      AtOfBelow(s, key, p, w);
      AtOfAt(s, key, p, w);
      AtOfAbove(s, key, p, w);
    }
  }

  // ---------------------------------------------------------------------------
  // The source's functions
  // ---------------------------------------------------------------------------

  /**
   * `partition_items`: `less` gets the items heavier than `pivot`, `same` those
   * of equal weight, `more` the lighter ones, each in input order.
   */
  method PartitionItems(pivot: int, items: seq<Item>) returns (less: seq<Item>, same: seq<Item>, more: seq<Item>)
    ensures less == Below(items, Lightness, -pivot)
    ensures same == At(items, Lightness, -pivot)
    ensures more == Above(items, Lightness, -pivot)
    ensures (forall x :: x in less ==> x.weight > pivot) && (forall x :: x in same ==> x.weight == pivot)
    ensures forall x :: x in more ==> x.weight < pivot
  {
    less, same, more := [], [], [];
    for k := 0 to |items|
      invariant less == Below(items[..k], Lightness, -pivot)
      invariant same == At(items[..k], Lightness, -pivot)
      invariant more == Above(items[..k], Lightness, -pivot)
    {
      var i := items[k];
      PartsStep(items, k, Lightness, -pivot);
      if i.weight < pivot {
        more := more + [i];
      } else if i.weight > pivot {
        less := less + [i];
      } else {
        same := same + [i];
      }
    }
    assert items[..|items|] == items;
    PartitionSides(items, Lightness, -pivot);
  }

  /**
   * `sort_items`: a permutation of `items`, heaviest first; items of equal
   * weight keep their input order.
   */
  method SortItems(items: seq<Item>) returns (sorted: seq<Item>)
    ensures sorted == KeySort(items, Lightness)
    ensures multiset(sorted) == multiset(items)
    ensures forall i, j :: 0 <= i < j < |sorted| ==> sorted[i].weight >= sorted[j].weight
    decreases |items|
  {
    if items == [] {
      return [];
    }
    var pivot := items[0].weight;
    var less, same, more := PartitionItems(pivot, items);
    PartitionShrinks(items, Lightness);
    var front := SortItems(less);
    var back := SortItems(more);
    sorted := front + same + back;
    KeySortPermutes(items, Lightness);
    KeySortOrders(items, Lightness);
    assert forall i, j :: 0 <= i < j < |sorted| ==> Lightness(sorted[i]) <= Lightness(sorted[j]);
  }

  /**
   * `partition_boxes`: `less` gets the boxes whose capacity is below `pivot`,
   * `same` those equal to it, `more` the larger ones, each in input order.
   */
  method PartitionBoxes(pivot: int, boxes: seq<Box>) returns (less: seq<Box>, same: seq<Box>, more: seq<Box>)
    ensures Snapshot(less) == Below(Snapshot(boxes), Capacity, pivot)
    ensures Snapshot(same) == At(Snapshot(boxes), Capacity, pivot)
    ensures Snapshot(more) == Above(Snapshot(boxes), Capacity, pivot)
    ensures multiset(less) + multiset(same) + multiset(more) == multiset(boxes)
  {
    less, same, more := [], [], [];
    ghost var st := Snapshot(boxes);
    for k := 0 to |boxes|
      invariant Snapshot(less) == Below(st[..k], Capacity, pivot)
      invariant Snapshot(same) == At(st[..k], Capacity, pivot)
      invariant Snapshot(more) == Above(st[..k], Capacity, pivot)
      invariant multiset(less) + multiset(same) + multiset(more) == multiset(boxes[..k])
    {
      var i := boxes[k];
      PrefixGrows(boxes, k);
      AddToPart(multiset(less), multiset(same), multiset(more), i);
      PartsStep(st, k, Capacity, pivot);
      if i.capacity < pivot {
        SnapshotPush(less, i);
        less := less + [i];
      } else if i.capacity > pivot {
        SnapshotPush(more, i);
        more := more + [i];
      } else {
        SnapshotPush(same, i);
        same := same + [i];
      }
    }
    assert boxes[..|boxes|] == boxes;
    assert st[..|boxes|] == st;
  }

  /**
   * `sort_boxes`: the same box objects, reordered; their states come out in
   * the order `KeySort` gives by capacity (ascending, stable).
   */
  method SortBoxes(boxes: seq<Box>) returns (sorted: seq<Box>)
    ensures Snapshot(sorted) == KeySort(Snapshot(boxes), Capacity)
    ensures multiset(sorted) == multiset(boxes)
    decreases |boxes|
  {
    if boxes == [] {
      return [];
    }
    var pivot := boxes[0].capacity;
    var less, same, more := PartitionBoxes(pivot, boxes);
    PartitionShrinks(Snapshot(boxes), Capacity);
    var front := SortBoxes(less);
    var back := SortBoxes(more);
    sorted := front + same + back;
    SnapshotAppend(front + same, back);
    SnapshotAppend(front, same);
  }
}
