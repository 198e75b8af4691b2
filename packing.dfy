/**
 * The three greedy packers of lab06/moving.py: `roomiest`, `tightest_fit` and
 * `one_at_a_time`. Each walks the items in order and appends an item to at
 * most one box, lowering that box's remaining capacity by the item's weight;
 * an item that fits nowhere is skipped. They differ only in the box they try.
 *
 * Each packer is a method over the shared `Box` objects, proved against a fold
 * (`RoomiestPack`, `TightPack`, `OnePack`) of one pure step over the boxes'
 * states; the rules the steps follow are the lemmas below them.
 */
module Packing {
  import opened Wrappers
  import opened Moving

  // ---------------------------------------------------------------------------
  // Box states
  // ---------------------------------------------------------------------------

  /** Total weight of a list of items. */
  function Weight(items: seq<Item>): int {
    if items == [] then 0 else Weight(items[..|items| - 1]) + items[|items| - 1].weight
  }

  /** The allowance a box started from: what is left plus what it holds. */
  function Load(b: BoxState): int {
    b.capacity + Weight(b.items)
  }

  /** A box state after `x` has been put into it. */
  function Filled(b: BoxState, x: Item): (r: BoxState)
    ensures Load(r) == Load(b) && b.items <= r.items
  {
    var r := BoxState(b.capacity - x.weight, b.items + [x]);
    assert r.items[..|r.items| - 1] == b.items;
    r
  }

  /**
   * `b` is a later state of a box that started as `a`: the same allowance, the
   * old items still first, and either untouched or with room left (an item is
   * only put in when it fits, so a box that received one is never overfull).
   */
  predicate Grows(a: BoxState, b: BoxState) {
    Load(b) == Load(a) && a.items <= b.items && (b == a || b.capacity >= 0)
  }

  lemma GrowsTransitive(a: BoxState, b: BoxState, c: BoxState)
    requires Grows(a, b) && Grows(b, c)
    ensures Grows(a, c)
  {
  }

  /** Putting in an item that fits is growth. */
  lemma FilledGrows(a: BoxState, b: BoxState, x: Item)
    requires Grows(a, b) && x.weight <= b.capacity
    ensures Grows(a, Filled(b, x))
  {
  }

  /** Put `x` into box `k` if it fits there, otherwise change nothing. */
  function Place(st: seq<BoxState>, k: nat, x: Item): seq<BoxState>
    requires k < |st|
  {
    if x.weight <= st[k].capacity then st[k := Filled(st[k], x)] else st
  }

  /** A placement changes at most box `k`, and that box only grows. */
  lemma PlaceGrows(st: seq<BoxState>, k: nat, x: Item)
    requires k < |st|
    ensures |Place(st, k, x)| == |st|
    ensures forall i :: 0 <= i < |st| ==> Grows(st[i], Place(st, k, x)[i])
    ensures forall i :: 0 <= i < |st| && i != k ==> Place(st, k, x)[i] == st[i]
  {
    if x.weight <= st[k].capacity {
      FilledGrows(st[k], st[k], x);
    }
  }

  // ---------------------------------------------------------------------------
  // roomiest
  // ---------------------------------------------------------------------------

  /** The box the strict `>` scan of `roomiest` settles on, starting from `boxes[0]`. */
  function FirstMax(st: seq<BoxState>): (k: nat)
    requires st != []
    ensures k < |st|
  {
    if |st| == 1 then 0
    else
      var k := FirstMax(st[..|st| - 1]);
      if st[|st| - 1].capacity > st[k].capacity then |st| - 1 else k
  }

  /** The scan finds the first box of largest remaining capacity. */
  lemma {:induction false} FirstMaxIsFirstLargest(st: seq<BoxState>)
    requires st != []
    ensures forall i :: 0 <= i < |st| ==> st[i].capacity <= st[FirstMax(st)].capacity
    ensures forall i :: 0 <= i < FirstMax(st) ==> st[i].capacity < st[FirstMax(st)].capacity
  {
    if |st| > 1 {
      var front := st[..|st| - 1];
      FirstMaxIsFirstLargest(front);
      var k := FirstMax(front);
      assert forall i :: 0 <= i < |front| ==> front[i] == st[i];
    }
  }

  /** One item of `roomiest`. */
  function RoomiestStep(st: seq<BoxState>, x: Item): seq<BoxState>
    requires st != []
  {
    Place(st, FirstMax(st), x)
  }

  /**
   * `roomiest` puts an item into the first roomiest box when it fits there;
   * otherwise it fits in no box at all and nothing changes.
   */
  lemma RoomiestStepRule(st: seq<BoxState>, x: Item)
    requires st != []
    ensures var k := FirstMax(st);
      if x.weight <= st[k].capacity then RoomiestStep(st, x) == st[k := Filled(st[k], x)]
      else RoomiestStep(st, x) == st && forall i :: 0 <= i < |st| ==> st[i].capacity < x.weight
  {
    FirstMaxIsFirstLargest(st);
  }

  /** `roomiest` over a list of items, first to last. */
  function RoomiestPack(items: seq<Item>, st: seq<BoxState>): seq<BoxState>
    requires st != []
    decreases |items|
  {
    if items == [] then st
    else
      PlaceGrows(st, FirstMax(st), items[0]);
      RoomiestPack(items[1..], RoomiestStep(st, items[0]))
  }

  /** Under `roomiest` every box keeps its allowance and its old items, and a box that receives an item never goes below zero. */
  lemma {:induction false} RoomiestPackGrows(items: seq<Item>, st: seq<BoxState>)
    requires st != []
    ensures |RoomiestPack(items, st)| == |st|
    ensures forall i :: 0 <= i < |st| ==> Grows(st[i], RoomiestPack(items, st)[i])
    decreases |items|
  {
    if items != [] {
      var next := RoomiestStep(st, items[0]);
      PlaceGrows(st, FirstMax(st), items[0]);
      RoomiestPackGrows(items[1..], next);
      forall i | 0 <= i < |st| ensures Grows(st[i], RoomiestPack(items, st)[i]) {
        GrowsTransitive(st[i], next[i], RoomiestPack(items[1..], next)[i]);
      }
    }
  }

  // ---------------------------------------------------------------------------
  // one_at_a_time
  // ---------------------------------------------------------------------------

  /** One item of `one_at_a_time`: the first of boxes 0, 1, 2 it fits in. */
  function OneStep(st: seq<BoxState>, x: Item): seq<BoxState>
    requires |st| >= 3
  {
    if x.weight <= st[0].capacity then st[0 := Filled(st[0], x)]
    else if x.weight <= st[1].capacity then st[1 := Filled(st[1], x)]
    else if x.weight <= st[2].capacity then st[2 := Filled(st[2], x)]
    else st
  }

  /** The first box, from index `from` on, that `x` fits in. */
  function FirstFit(st: seq<BoxState>, x: Item, from: nat): (r: Option<nat>)
    ensures r.Some? ==> from <= r.value < |st| && x.weight <= st[r.value].capacity
    decreases |st| - from
  {
    if from >= |st| then None
    else if x.weight <= st[from].capacity then Some(from)
    else FirstFit(st, x, from + 1)
  }

  /** `FirstFit` finds the first fitting box, and finds none exactly when no box from `from` on fits. */
  lemma {:induction false} FirstFitIsFirst(st: seq<BoxState>, x: Item, from: nat)
    ensures FirstFit(st, x, from).None? <==> forall i :: from <= i < |st| ==> st[i].capacity < x.weight
    ensures FirstFit(st, x, from).Some? ==> forall i :: from <= i < FirstFit(st, x, from).value ==> st[i].capacity < x.weight
    decreases |st| - from
  {
    if from < |st| && st[from].capacity < x.weight {
      FirstFitIsFirst(st, x, from + 1);
    }
  }

  /** `one_at_a_time` is first fit restricted to the first three boxes. */
  lemma OneStepIsFirstFit(st: seq<BoxState>, x: Item)
    requires |st| >= 3
    ensures OneStep(st, x) == match FirstFit(st[..3], x, 0) {
      case None => st
      case Some(k) => st[k := Filled(st[k], x)]
    }
  {
    var head := st[..3];
    assert head[0] == st[0] && head[1] == st[1] && head[2] == st[2];
    if x.weight <= st[0].capacity {
      assert FirstFit(head, x, 0) == Some(0);
    } else if x.weight <= st[1].capacity {
      assert FirstFit(head, x, 1) == Some(1);
    } else if x.weight <= st[2].capacity {
      assert FirstFit(head, x, 2) == Some(2);
    } else {
      assert FirstFit(head, x, 3) == None;
    }
  }

  /** `one_at_a_time` over a list of items, first to last. */
  function OnePack(items: seq<Item>, st: seq<BoxState>): (r: seq<BoxState>)
    requires |st| >= 3
    ensures |r| == |st|
    decreases |items|
  {
    if items == [] then st else OnePack(items[1..], OneStep(st, items[0]))
  }

  /** One item of `one_at_a_time` changes at most one of the first three boxes, which grows. */
  lemma OneStepGrows(st: seq<BoxState>, x: Item)
    requires |st| >= 3
    ensures forall i :: 0 <= i < |st| ==> Grows(st[i], OneStep(st, x)[i])
    ensures forall i :: 3 <= i < |st| ==> OneStep(st, x)[i] == st[i]
    ensures forall i, j :: 0 <= i < j < 3 ==> OneStep(st, x)[i] == st[i] || OneStep(st, x)[j] == st[j]
  {
    if x.weight <= st[0].capacity {
      PlaceGrows(st, 0, x);
    } else if x.weight <= st[1].capacity {
      PlaceGrows(st, 1, x);
    } else {
      PlaceGrows(st, 2, x);
    }
  }

  /**
   * Under `one_at_a_time` every box keeps its allowance and its old items and
   * a box that receives an item never goes below zero; the boxes after the third
   * are never touched.
   */
  lemma {:induction false} OnePackGrows(items: seq<Item>, st: seq<BoxState>)
    requires |st| >= 3
    ensures forall i :: 0 <= i < |st| ==> Grows(st[i], OnePack(items, st)[i])
    ensures forall i :: 3 <= i < |st| ==> OnePack(items, st)[i] == st[i]
    decreases |items|
  {
    if items != [] {
      var next := OneStep(st, items[0]);
      OneStepGrows(st, items[0]);
      OnePackGrows(items[1..], next);
      forall i | 0 <= i < |st| ensures Grows(st[i], OnePack(items, st)[i]) {
        GrowsTransitive(st[i], next[i], OnePack(items[1..], next)[i]);
      }
    }
  }

  // ---------------------------------------------------------------------------
  // tightest_fit
  // ---------------------------------------------------------------------------

  /** First fit into the given order, or no change when nothing fits. */
  function FitFirst(st: seq<BoxState>, x: Item): seq<BoxState> {
    match FirstFit(st, x, 0)
    case None => st
    case Some(k) => st[k := Filled(st[k], x)]
  }

  /** One item of `tightest_fit`: re-sort the boxes by capacity, then first fit. */
  function TightStep(st: seq<BoxState>, x: Item): seq<BoxState> {
    FitFirst(KeySort(st, Capacity), x)
  }

  /** In an ascending order, the first box that fits is a tightest one that fits. */
  lemma FirstFitInOrder(sorted: seq<BoxState>, x: Item)
    requires Ordered(sorted, Capacity)
    ensures FirstFit(sorted, x, 0).Some? ==> forall i :: 0 <= i < |sorted| && x.weight <= sorted[i].capacity ==>
      sorted[FirstFit(sorted, x, 0).value].capacity <= sorted[i].capacity
    ensures FirstFit(sorted, x, 0).None? ==> forall i :: 0 <= i < |sorted| ==> sorted[i].capacity < x.weight
  {
    FirstFitIsFirst(sorted, x, 0);
    if FirstFit(sorted, x, 0).Some? {
      var k := FirstFit(sorted, x, 0).value;
      forall i | 0 <= i < |sorted| && x.weight <= sorted[i].capacity ensures sorted[k].capacity <= sorted[i].capacity {
        assert k <= i;
        if k < i {
          assert Capacity(sorted[k]) <= Capacity(sorted[i]);
        }
      }
    }
  }

  /**
   * `tightest_fit` puts an item into a box of smallest remaining capacity among
   * those it fits in; when it fits in none, the boxes are only reordered.
   */
  lemma TightStepRule(st: seq<BoxState>, x: Item)
    ensures var sorted := KeySort(st, Capacity);
      match FirstFit(sorted, x, 0)
      case None =>
        TightStep(st, x) == sorted && forall b :: b in st ==> b.capacity < x.weight
      case Some(k) =>
        TightStep(st, x) == sorted[k := Filled(sorted[k], x)] &&
        forall b :: b in st && x.weight <= b.capacity ==> sorted[k].capacity <= b.capacity
  {
    var sorted := KeySort(st, Capacity);
    KeySortPermutes(st, Capacity);
    KeySortOrders(st, Capacity);
    FirstFitInOrder(sorted, x);
    forall b | b in st ensures b in sorted {
      assert b in multiset(sorted);
    }
  }

  /** `tightest_fit` over a list of items, first to last; the states are in the boxes' current list order. */
  function TightPack(items: seq<Item>, st: seq<BoxState>): seq<BoxState>
    decreases |items|
  {
    if items == [] then st else TightPack(items[1..], TightStep(st, items[0]))
  }

  // ---------------------------------------------------------------------------
  // The packers over the shared BOX objects
  // ---------------------------------------------------------------------------

  /** The state of one box. */
  function State(b: Box): BoxState
    reads b
  {
    BoxState(b.capacity, b.items)
  }

  /** No box object appears twice in the list. */
  predicate Distinct(boxes: seq<Box>) {
    forall i, j :: 0 <= i < j < |boxes| ==> boxes[i] != boxes[j]
  }

  /** A list without repeats holds each box at most once. */
  lemma {:induction false} DistinctCounts(boxes: seq<Box>, b: Box)
    requires Distinct(boxes)
    ensures multiset(boxes)[b] <= 1
  {
    if boxes != [] {
      var front := boxes[..|boxes| - 1];
      assert boxes == front + [boxes[|boxes| - 1]];
      DistinctCounts(front, b);
      if boxes[|boxes| - 1] == b {
        assert b !in front;
      }
    }
  }

  /** Reordering a list without repeats gives a list without repeats. */
  lemma DistinctPermuted(a: seq<Box>, b: seq<Box>)
    requires Distinct(a) && multiset(a) == multiset(b)
    ensures Distinct(b)
  {
    forall i, j | 0 <= i < j < |b| ensures b[i] != b[j] {
      if b[i] == b[j] {
        var x := b[j];
        assert b == b[..j] + [x] + b[j + 1..];
        assert b[..j][i] == x;
        assert multiset(b)[x] >= 2;
        DistinctCounts(a, x);
      }
    }
  }

  /** The success message of the report: the first three boxes are exactly full. */
  function ReportsSuccess(st: seq<BoxState>): bool
    requires |st| >= 3
  {
    st[0].capacity + st[1].capacity + st[2].capacity == 0
  }

  /** Append `item` to box `k` and lower its capacity by the item's weight. */
  method Stow(boxes: seq<Box>, k: nat, item: Item)
    requires k < |boxes| && Distinct(boxes)
    modifies boxes[k]
    ensures State(boxes[k]) == Filled(old(State(boxes[k])), item)
    ensures Snapshot(boxes) == old(Snapshot(boxes))[k := State(boxes[k])]
  {
    ghost var st := Snapshot(boxes);
    var box := boxes[k];
    box.items := box.items + [item];
    box.capacity := box.capacity - item.weight;
  }

  /** The inner scan of `roomiest`: the first box of largest remaining capacity. */
  method RoomiestBox(boxes: seq<Box>) returns (k: nat)
    requires boxes != []
    ensures k == FirstMax(Snapshot(boxes))
  {
    ghost var st := Snapshot(boxes);
    k := 0;
    for j := 0 to |boxes|
      invariant k < |boxes|
      invariant j == 0 ==> k == 0
      invariant j > 0 ==> k == FirstMax(st[..j])
    {
      assert st[..j + 1][..j] == st[..j];
      if boxes[j].capacity > boxes[k].capacity {
        k := j;
      }
    }
    assert st[..|boxes|] == st;
  }

  /** The inner scan of `tightest_fit`: the first box, in list order, that `item` fits in. */
  method FirstFitting(boxes: seq<Box>, item: Item) returns (found: bool, k: nat)
    ensures FirstFit(Snapshot(boxes), item, 0) == if found then Some(k) else None
  {
    ghost var st := Snapshot(boxes);
    k := 0;
    while k < |boxes|
      invariant k <= |boxes|
      invariant FirstFit(st, item, k) == FirstFit(st, item, 0)
    {
      if item.weight <= boxes[k].capacity {
        return true, k;
      }
      k := k + 1;
    }
    found := false;
  }

  /** One item of `roomiest`. */
  method RoomiestItem(boxes: seq<Box>, item: Item)
    requires boxes != [] && Distinct(boxes)
    modifies set b | b in boxes
    ensures Snapshot(boxes) == RoomiestStep(old(Snapshot(boxes)), item)
  {
    var k := RoomiestBox(boxes);
    if item.weight <= boxes[k].capacity {
      Stow(boxes, k, item);
    }
  }

  /** One item of `one_at_a_time`. */
  method OneItem(boxes: seq<Box>, item: Item)
    requires |boxes| >= 3 && Distinct(boxes)
    modifies set b | b in boxes
    ensures Snapshot(boxes) == OneStep(old(Snapshot(boxes)), item)
  {
    if item.weight <= boxes[0].capacity {
      Stow(boxes, 0, item);
    } else if item.weight <= boxes[1].capacity {
      Stow(boxes, 1, item);
    } else if item.weight <= boxes[2].capacity {
      Stow(boxes, 2, item);
    }
  }

  /**
   * One item of `tightest_fit`: the boxes re-sorted, then the item put into the
   * first that fits. `sorted` is the new order of the same boxes.
   */
  method TightestItem(boxes: seq<Box>, item: Item) returns (sorted: seq<Box>)
    requires Distinct(boxes)
    modifies set b | b in boxes
    ensures multiset(sorted) == multiset(boxes) && |sorted| == |boxes| && Distinct(sorted)
    ensures forall b :: b in sorted <==> b in boxes
    ensures Snapshot(sorted) == TightStep(old(Snapshot(boxes)), item)
    ensures forall b :: b in boxes ==> Grows(old(State(b)), State(b))
  {
    sorted := SortBoxes(boxes);
    assert |sorted| == |multiset(sorted)|;
    DistinctPermuted(boxes, sorted);
    var found, k := FirstFitting(sorted, item);
    if found {
      var box := sorted[k];
      assert box in multiset(boxes);
      FilledGrows(State(box), State(box), item);
      Stow(sorted, k, item);
    }
    forall b | b in boxes ensures b in sorted {
      assert b in multiset(sorted);
    }
    forall b | b in sorted ensures b in boxes {
      assert b in multiset(boxes);
    }
  }

  /**
   * `roomiest`: every item goes to the first box of largest remaining capacity
   * when it fits there. `success` is the report's verdict on the first three boxes.
   */
  method Roomiest(items: seq<Item>, boxes: seq<Box>) returns (success: bool)
    requires |boxes| >= 3 && Distinct(boxes)
    modifies set b | b in boxes
    ensures Snapshot(boxes) == RoomiestPack(items, old(Snapshot(boxes)))
    ensures success == ReportsSuccess(Snapshot(boxes))
    ensures forall i :: 0 <= i < |boxes| ==> Grows(old(State(boxes[i])), State(boxes[i]))
  {
    ghost var start := Snapshot(boxes);
    for n := 0 to |items|
      invariant RoomiestPack(items[n..], Snapshot(boxes)) == RoomiestPack(items, start)
    {
      assert items[n..][1..] == items[n + 1..];
      RoomiestItem(boxes, items[n]);
    }
    assert items[|items|..] == [];
    RoomiestPackGrows(items, start);
    forall i | 0 <= i < |boxes| ensures Grows(old(State(boxes[i])), State(boxes[i])) {
      assert start[i] == old(State(boxes[i]));
      assert Snapshot(boxes)[i] == State(boxes[i]);
    }
    success := boxes[0].capacity + boxes[1].capacity + boxes[2].capacity == 0;
  }

  /**
   * `one_at_a_time`: every item goes to the first of the first three boxes it
   * fits in. `success` is the report's verdict on the first three boxes.
   */
  method OneAtATime(items: seq<Item>, boxes: seq<Box>) returns (success: bool)
    requires |boxes| >= 3 && Distinct(boxes)
    modifies set b | b in boxes
    ensures Snapshot(boxes) == OnePack(items, old(Snapshot(boxes)))
    ensures success == ReportsSuccess(Snapshot(boxes))
    ensures forall i :: 0 <= i < |boxes| ==> Grows(old(State(boxes[i])), State(boxes[i]))
  {
    ghost var start := Snapshot(boxes);
    for n := 0 to |items|
      invariant OnePack(items[n..], Snapshot(boxes)) == OnePack(items, start)
    {
      assert items[n..][1..] == items[n + 1..];
      OneItem(boxes, items[n]);
    }
    assert items[|items|..] == [];
    OnePackGrows(items, start);
    forall i | 0 <= i < |boxes| ensures Grows(old(State(boxes[i])), State(boxes[i])) {
      assert start[i] == old(State(boxes[i]));
      assert Snapshot(boxes)[i] == State(boxes[i]);
    }
    success := boxes[0].capacity + boxes[1].capacity + boxes[2].capacity == 0;
  }

  /**
   * `tightest_fit`: before each item the boxes are re-sorted by capacity and
   * the item goes to the first that fits. `arranged` is the box list as the
   * function leaves it (the order its report reads), and `success` the
   * report's verdict on its first three boxes.
   */
  method TightestFit(items: seq<Item>, boxes: seq<Box>) returns (success: bool, arranged: seq<Box>)
    requires |boxes| >= 3 && Distinct(boxes)
    modifies set b | b in boxes
    ensures |arranged| == |boxes| && Distinct(arranged) && forall b :: b in arranged <==> b in boxes
    ensures Snapshot(arranged) == TightPack(items, old(Snapshot(boxes)))
    ensures success == ReportsSuccess(Snapshot(arranged))
    ensures forall b :: b in boxes ==> Grows(old(State(b)), State(b))
  {
    ghost var start := Snapshot(boxes);
    arranged := boxes;
    for n := 0 to |items|
      invariant |arranged| == |boxes| && Distinct(arranged)
      invariant forall b :: b in arranged <==> b in boxes
      invariant TightPack(items[n..], Snapshot(arranged)) == TightPack(items, start)
      invariant forall b :: b in boxes ==> Grows(old(State(b)), State(b))
    {
      assert items[n..][1..] == items[n + 1..];
      label before:
      arranged := TightestItem(arranged, items[n]);
      forall b | b in boxes ensures Grows(old(State(b)), State(b)) {
        GrowsTransitive(old(State(b)), old@before(State(b)), State(b));
      }
    }
    assert items[|items|..] == [];
    success := arranged[0].capacity + arranged[1].capacity + arranged[2].capacity == 0;
  }
}
