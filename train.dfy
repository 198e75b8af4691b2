/**
 * The train yard of lab08/command_list.py: a train (`Entire_Train`) owns a
 * singly linked chain of cars (`Train_Car`) kept in delivery order, that is,
 * non-decreasing in the integer value of each car's `miles`.
 *
 * A car's `miles` is the text the caller passes (the command loop hands over
 * the third token of the `add_car` command unconverted); `add_car` compares
 * cars through `int(...)`, modelled by `Decimal.ParseInt`.
 */
module TrainYard {
  import opened Wrappers
  import Decimal

  /** The value of one car, as the chain lists it. */
  datatype Car = Car(contents: string, destination: string, miles: string)

  /** `Train_Car`: the three labels never change after construction; `next` is rewired in place. */
  class TrainCar {
    const contents: string
    const destination: string
    const miles: string
    var next: TrainCar?

    constructor (contents: string, destination: string, miles: string)
      ensures this.contents == contents && this.destination == destination && this.miles == miles
      ensures next == null
    {
      this.contents := contents;
      this.destination := destination;
      this.miles := miles;
      next := null;
    }

    function Info(): Car {
      Car(contents, destination, miles)
    }
  }

  // ---------------------------------------------------------------------------
  // Specification of the chain as a sequence of car values
  // ---------------------------------------------------------------------------

  /** `int(car.miles)`. */
  function Miles(c: Car): Option<int> {
    Decimal.ParseInt(c.miles)
  }

  /** `int(a.miles) < int(b.miles)` evaluates to True (both conversions succeed). */
  predicate Below(a: Car, b: Car) {
    Miles(a).Some? && Miles(b).Some? && Miles(a).value < Miles(b).value
  }

  /** `int(c.miles)` succeeds. */
  predicate Numeric(c: Car) {
    Miles(c).Some?
  }

  /** Both distances are integers and `a`'s is not greater than `b`'s. */
  predicate InOrder(a: Car, b: Car) {
    Numeric(a) && Numeric(b) && Miles(a).value <= Miles(b).value
  }

  /** Every car has a numeric distance, and distances never decrease from head to tail. */
  predicate Sorted(cars: seq<Car>) {
    (forall i :: 0 <= i < |cars| ==> Numeric(cars[i])) &&
    (forall i, j :: 0 <= i < j < |cars| ==> InOrder(cars[i], cars[j]))
  }

  /**
   * What `add_car` does to the chain: walk from the head past every car that is
   * strictly nearer, and put the new car in front of the first one that is not
   * (or at the tail). `None` is the ValueError of a failed `int()` conversion.
   * No comparison is made on an empty chain.
   */
  function InsertCar(cars: seq<Car>, car: Car): Option<seq<Car>> {
    if cars == [] then
      Some([car])
    else
      match (Miles(cars[0]), Miles(car))
      case (Some(m), Some(n)) =>
        if m < n then
          match InsertCar(cars[1..], car)
          case None => None
          case Some(rest) => Some([cars[0]] + rest)
        else
          Some([car] + cars)
      case _ => None
  }

  /** The number of cars at the head that are strictly nearer than `car`. */
  function LeadCount(cars: seq<Car>, car: Car): (k: nat)
    ensures k <= |cars|
  {
    if cars == [] || !Below(cars[0], car) then 0 else 1 + LeadCount(cars[1..], car)
  }

  lemma {:induction false} LeadCountMeaning(cars: seq<Car>, car: Car)
    ensures forall j :: 0 <= j < LeadCount(cars, car) ==> Below(cars[j], car)
    ensures LeadCount(cars, car) < |cars| ==> !Below(cars[LeadCount(cars, car)], car)
  {
    if cars != [] && Below(cars[0], car) {
      LeadCountMeaning(cars[1..], car);
    }
  }

  /** The leading run of nearer cars ends exactly where the first car that is not nearer stands. */
  lemma {:induction false} LeadCountAt(cars: seq<Car>, car: Car, k: nat)
    requires k <= |cars|
    requires forall j :: 0 <= j < k ==> Below(cars[j], car)
    requires k < |cars| ==> !Below(cars[k], car)
    ensures LeadCount(cars, car) == k
  {
    if k > 0 {
      LeadCountAt(cars[1..], car, k - 1);
    }
  }

  /** Dropping the head car keeps a chain sorted. */
  lemma SortedTail(cars: seq<Car>)
    requires cars != []
    ensures Sorted(cars) ==> Sorted(cars[1..])
  {
    if Sorted(cars) {
      var tail := cars[1..];
      assert forall i :: 0 <= i < |tail| ==> tail[i] == cars[i + 1];
    }
  }

  /**
   * `add_car` either fails, or splices the new car in at exactly one place:
   * after every strictly nearer car and before the first car whose distance is
   * greater than or equal to its own (so the new car precedes equal distances),
   * keeping all other cars in their order.
   */
  lemma {:induction false} InsertCarSplices(cars: seq<Car>, car: Car)
    ensures InsertCar(cars, car).Some? ==>
      InsertCar(cars, car).value == cars[..LeadCount(cars, car)] + [car] + cars[LeadCount(cars, car)..]
    ensures InsertCar(cars, car).None? <==>
      LeadCount(cars, car) < |cars| && (Miles(cars[LeadCount(cars, car)]).None? || Miles(car).None?)
  {
    if cars != [] && Below(cars[0], car) {
      InsertCarSplices(cars[1..], car);
      var k := LeadCount(cars, car);
      assert cars[1..][..k - 1] == cars[1..k];
      assert cars[1..][k - 1..] == cars[k..];
      assert cars[..k] == [cars[0]] + cars[1..k];
    }
  }

  /** The new chain is the old one plus exactly the new car. */
  lemma InsertCarAddsOne(cars: seq<Car>, car: Car)
    requires InsertCar(cars, car).Some?
    ensures |InsertCar(cars, car).value| == |cars| + 1
    ensures multiset(InsertCar(cars, car).value) == multiset(cars) + multiset{car}
  {
    InsertCarSplices(cars, car);
    SpliceCounts(cars, LeadCount(cars, car), car);
  }

  /** Splicing one element into a sequence adds exactly that element. */
  lemma SpliceCounts<T>(s: seq<T>, k: nat, x: T)
    requires k <= |s|
    ensures multiset(s[..k] + [x] + s[k..]) == multiset(s) + multiset{x}
  {
    var front, back := s[..k], s[k..];
    assert s == front + back;
    assert multiset(s) == multiset(front) + multiset(back);
    assert multiset(front + [x] + back) == multiset(front) + multiset{x} + multiset(back);
  }

  /** A head car whose distance is not an integer makes every `add_car` fail. */
  lemma NonIntegerHeadBlocks(cars: seq<Car>, car: Car)
    requires cars != [] && !Numeric(cars[0])
    ensures InsertCar(cars, car).None?
  {
    InsertCarSplices(cars, car);
  }

  /**
   * On a sorted chain `add_car` fails exactly when the chain is non-empty and
   * the new distance is not an integer, and a successful insertion keeps the
   * chain sorted exactly when the new distance is an integer (an empty train
   * accepts any text, since nothing is compared).
   */
  lemma InsertCarKeepsSorted(cars: seq<Car>, car: Car)
    requires Sorted(cars)
    ensures InsertCar(cars, car).None? <==> cars != [] && Miles(car).None?
    ensures InsertCar(cars, car).Some? ==> (Sorted(InsertCar(cars, car).value) <==> Miles(car).Some?)
  {
    InsertCarSplices(cars, car);
    LeadCountMeaning(cars, car);
    var k := LeadCount(cars, car);
    if InsertCar(cars, car).Some? {
      var r := InsertCar(cars, car).value;
      assert r[k] == car;
      if Miles(car).Some? {
        forall i, j | 0 <= i < j < |r|
          ensures InOrder(r[i], r[j])
        {
          if j < k {
            assert r[i] == cars[i] && r[j] == cars[j];
          } else if j == k {
            assert r[i] == cars[i];
          } else if i < k {
            assert r[i] == cars[i] && r[j] == cars[j - 1];
          } else if i == k {
            assert r[j] == cars[j - 1];
          } else {
            assert r[i] == cars[i - 1] && r[j] == cars[j - 1];
          }
        }
      }
    }
  }

  /**
   * Two cars at the same distance: the one added second ends up in front of
   * the one added first.
   */
  lemma EqualDistancesNewestFirst(first: Car, second: Car)
    requires Miles(first).Some? && Miles(first) == Miles(second)
    ensures InsertCar([], first) == Some([first])
    ensures InsertCar([first], second) == Some([second, first])
  {
    var m := Miles(first).value;
    assert (Miles([first][0]), Miles(second)) == (Some(m), Some(m));
    assert [second] + [first] == [second, first];
  }

  /** `add_car` applied to a chain whose first `k` cars are all nearer than the new car. */
  lemma {:induction false} InsertCarPastPrefix(cars: seq<Car>, car: Car, k: nat)
    requires k <= |cars|
    requires forall j :: 0 <= j < k ==> Below(cars[j], car)
    ensures InsertCar(cars, car) ==
      match InsertCar(cars[k..], car)
      case None => None
      case Some(rest) => Some(cars[..k] + rest)
  {
    if k > 0 {
      assert Below(cars[0], car);
      InsertCarPastPrefix(cars[1..], car, k - 1);
      assert cars[1..][k - 1..] == cars[k..];
      var m, n := Miles(cars[0]).value, Miles(car).value;
      assert (Miles(cars[0]), Miles(car)) == (Some(m), Some(n)) && m < n;
      match InsertCar(cars[k..], car)
      case None =>
        assert InsertCar(cars[1..], car) == None;
      case Some(rest) =>
        assert InsertCar(cars[1..], car) == Some(cars[1..][..k - 1] + rest);
        assert cars[..k] + rest == [cars[0]] + (cars[1..][..k - 1] + rest);
    } else {
      assert cars[k..] == cars;
      match InsertCar(cars, car)
      case None =>
      case Some(rest) => assert cars[..k] + rest == rest;
    }
  }

  // ---------------------------------------------------------------------------
  // show_train's text
  // ---------------------------------------------------------------------------

  /** What `show_train` returns: the empty list `[]` for an empty train, or the listing text. */
  datatype Shown = EmptyList | Listing(text: string)

  function CarText(c: Car): string {
    "(contents=" + c.contents + " , " + "destination=" + c.destination + " , " + "miles=" + c.miles + ")"
  }

  /** The separator `show_train` writes between two cars. */
  const Separator := " , Train_Car"

  /** `texts` in order, with `sep` between each two neighbours. */
  function Joined(texts: seq<string>, sep: string): string {
    if texts == [] then ""
    else if |texts| == 1 then texts[0]
    else Joined(texts[..|texts| - 1], sep) + sep + texts[|texts| - 1]
  }

  function Texts(cars: seq<Car>): (texts: seq<string>)
    ensures |texts| == |cars|
  {
    seq(|cars|, i requires 0 <= i < |cars| => CarText(cars[i]))
  }

  /** `show_train`'s result for a chain: `[]` when it is empty, otherwise every car in chain order. */
  function Render(cars: seq<Car>): Shown {
    if cars == [] then EmptyList else Listing("[ Train_Car" + Joined(Texts(cars), Separator) + " ]")
  }

  /** Joining the concatenation of two lists is joining each and putting one separator between. */
  lemma {:induction false} JoinedSplit(a: seq<string>, b: seq<string>, sep: string)
    requires a != [] && b != []
    ensures Joined(a + b, sep) == Joined(a, sep) + sep + Joined(b, sep)
    decreases |b|
  {
    var ab := a + b;
    var last := b[|b| - 1];
    assert ab[|ab| - 1] == last;
    if |b| == 1 {
      assert ab[..|ab| - 1] == a;
    } else {
      var front := b[..|b| - 1];
      assert ab[..|ab| - 1] == a + front;
      JoinedSplit(a, front, sep);
      var ja, jf := Joined(a, sep), Joined(front, sep);
      assert Joined(ab, sep) == ja + sep + jf + sep + last;
      assert Joined(b, sep) == jf + sep + last;
      assert ja + sep + jf + sep + last == ja + sep + (jf + sep + last);
    }
  }

  /**
   * String concatenation regroups. Stated once as a lemma so that the proofs
   * below can regroup one concatenation without the solver regrouping all of them.
   */
  lemma AppendAssociates(a: string, b: string, c: string)
    ensures a + b + c == a + (b + c)
  {
  }

  /** Joining one more text onto a prefix of a list. */
  lemma JoinedStep(texts: seq<string>, k: nat, sep: string)
    requires k < |texts|
    ensures Joined(texts[..k + 1], sep) == (if k == 0 then "" else Joined(texts[..k], sep) + sep) + texts[k]
  {
    if k == 0 {
      assert texts[..1] == [texts[0]];
    } else {
      assert texts[..k + 1][..k] == texts[..k];
    }
  }

  /**
   * The listing of a train made of two parts is the listing of the front part
   * followed by the back part's cars: every car appears once, in chain order.
   */
  lemma RenderSplit(front: seq<Car>, back: seq<Car>)
    requires front != [] && back != []
    ensures Render(front + back) ==
      Listing("[ Train_Car" + Joined(Texts(front), Separator) + Separator + Joined(Texts(back), Separator) + " ]")
  {
    var tf, tb := Texts(front), Texts(back);
    assert Texts(front + back) == tf + tb;
    var jf, jb := Joined(tf, Separator), Joined(tb, Separator);
    JoinedSplit(tf, tb, Separator);
    AppendAssociates("[ Train_Car", jf + Separator, jb);
    AppendAssociates("[ Train_Car", jf, Separator);
  }

  // ---------------------------------------------------------------------------
  // The linked structure
  // ---------------------------------------------------------------------------

  /** The values of a chain of car nodes. */
  function Values(chain: seq<TrainCar>): (cars: seq<Car>)
    ensures |cars| == |chain|
  {
    seq(|chain|, i requires 0 <= i < |chain| => chain[i].Info())
  }

  lemma ValuesSplice(chain: seq<TrainCar>, car: TrainCar, k: nat)
    requires k <= |chain|
    ensures Values(chain[..k] + [car] + chain[k..]) == Values(chain)[..k] + [car.Info()] + Values(chain)[k..]
  {
  }

  /** Splicing a car into an owned chain leaves a chain owned once that car is added. */
  lemma SpliceOwned(chain: seq<TrainCar>, k: nat, car: TrainCar, owned: set<TrainCar>)
    requires k <= |chain|
    requires forall c :: c in chain ==> c in owned
    ensures forall c :: c in chain[..k] + [car] + chain[k..] ==> c in owned + {car}
  {
    assert chain == chain[..k] + chain[k..];
  }

  /** Position `i` of a chain with `car` spliced in at `k`, and what should follow it, in terms of the old chain. */
  lemma SpliceAt(chain: seq<TrainCar>, car: TrainCar, k: nat, i: nat)
    requires k <= |chain| && i <= |chain|
    ensures var s := chain[..k] + [car] + chain[k..];
      |s| == |chain| + 1 &&
      s[i] == (if i < k then chain[i] else if i == k then car else chain[i - 1]) &&
      NextIn(s, i) == if i + 1 < k then chain[i + 1]
        else if i + 1 == k then car
        else if i == k then (if k < |chain| then chain[k] else null)
        else NextIn(chain, i - 1)
  {
  }

  /** The car that should follow position `i` of a chain: the next one, or none after the tail. */
  function NextIn(chain: seq<TrainCar>, i: nat): TrainCar?
    requires i < |chain|
  {
    if i + 1 < |chain| then chain[i + 1] else null
  }

  /** `Entire_Train`: the head of the chain, the speed in mph and the maintained car counter. */
  class Train {
    var head: TrainCar?
    var speed: real
    var numCars: int
    /** The cars reachable from `head`, in chain order. */
    ghost var spine: seq<TrainCar>
    /** Every car node this train has ever linked in; it holds the whole spine. */
    ghost var Repr: set<TrainCar>

    /** `spine` is an acyclic chain starting at `head`, each car linking to the next and the last to nothing. */
    ghost predicate Linked()
      reads this, spine
    {
      (forall i, j :: 0 <= i < j < |spine| ==> spine[i] != spine[j]) &&
      head == (if spine == [] then null else spine[0]) &&
      (forall i :: 0 <= i < |spine| ==> spine[i].next == NextIn(spine, i))
    }

    /** The chain is well formed, owned by the train, and the counter equals its length. */
    ghost predicate Valid()
      reads this, spine
    {
      Linked() && numCars == |spine| && (forall c :: c in spine ==> c in Repr)
    }

    /** The chain, head first, as car values. */
    ghost function Cars(): (cars: seq<Car>)
      reads this
    {
      Values(spine)
    }

    /** `Entire_Train(None, 0, 0)`, the train the command loop starts with. */
    constructor ()
      ensures Valid() && fresh(Repr)
      ensures Cars() == [] && head == null && speed == 0.0
    {
      head := null;
      speed := 0.0;
      numCars := 0;
      spine := [];
      Repr := {};
    }

    /** `set_speed`: accepts 0 and every positive speed; a negative one raises and changes nothing. */
    method SetSpeed(newSpeed: real) returns (ok: bool)
      modifies this`speed
      ensures ok == (newSpeed >= 0.0)
      ensures speed == if ok then newSpeed else old(speed)
    {
      if newSpeed >= 0.0 {
        speed := newSpeed;
        ok := true;
      } else {
        ok := false;
      }
    }

    /**
     * `add_car`: the chain becomes `InsertCar` of the old chain, and the counter
     * rises by one; when a distance comparison raises, nothing has been rewired
     * and the train is as it was.
     */
    method AddCar(content: string, place: string, distance: string) returns (ok: bool)
      requires Valid()
      modifies this, Repr
      ensures Valid() && fresh(Repr - old(Repr))
      ensures var r := InsertCar(old(Cars()), Car(content, place, distance));
        ok == r.Some? && Cars() == if ok then r.value else old(Cars())
      ensures numCars == old(numCars) + if ok then 1 else 0
      ensures !ok ==> head == old(head) && spine == old(spine)
      ensures old(head) == null ==> ok && head != null && head.next == null && spine == [head]
      ensures Sorted(old(Cars())) && Decimal.ParseInt(distance).Some? ==> ok && Sorted(Cars())
      ensures speed == old(speed)
    {
      var car := new TrainCar(content, place, distance);
      if Sorted(Cars()) {
        InsertCarKeepsSorted(Cars(), car.Info());
      }
      if head == null {
        head := car;
        spine := [car];
        Repr := Repr + {car};
        numCars := numCars + 1;
        ok := true;
      } else {
        ok := Insert(car);
      }
    }

    /** `add_car` on a non-empty train, once the new car has been built. */
    method Insert(car: TrainCar) returns (ok: bool)
      requires Valid() && spine != [] && car !in Repr
      modifies this, Repr, car
      ensures Valid() && Repr <= old(Repr) + {car}
      ensures var r := InsertCar(old(Cars()), car.Info());
        ok == r.Some? && Cars() == if ok then r.value else old(Cars())
      ensures numCars == old(numCars) + if ok then 1 else 0
      ensures !ok ==> head == old(head) && spine == old(spine)
      ensures speed == old(speed)
    {
      ghost var cars := Cars();
      var previous, successor;
      ghost var k;
      ok, previous, successor, k := FindPlace(car);
      if !ok {
        return;
      }
      // The source splices the car in just before its `break`, or after the
      // loop when the walk ran off the tail; both are this one `Link`.
      ghost var chain := spine;
      Link(previous, car, successor, k);
      SpliceOwned(chain, k, car, Repr);
      Repr := Repr + {car};
      InsertCarSplices(cars, car.Info());
      ValuesSplice(chain, car, k);
      numCars := numCars + 1;
    }

    /**
     * The walk of `add_car` over a non-empty chain: `successor` is the first car
     * that is not strictly nearer than `car` (none when all are), `previous` the
     * one before it. `ok` is false when an `int()` conversion raises on the way.
     */
    method FindPlace(car: TrainCar) returns (ok: bool, previous: TrainCar?, successor: TrainCar?, ghost k: nat)
      requires Linked() && spine != []
      ensures ok == InsertCar(Cars(), car.Info()).Some?
      ensures ok ==> k == LeadCount(Cars(), car.Info())
      ensures k <= |spine|
      ensures successor == if k < |spine| then spine[k] else null
      ensures previous == if k == 0 then null else spine[k - 1]
    {
      ghost var cars := Cars();
      ghost var info := car.Info();
      InsertCarSplices(cars, info);
      k := 0;
      successor := head;
      previous := null;
      while successor != null
        invariant 0 <= k <= |spine|
        invariant successor == if k < |spine| then spine[k] else null
        invariant previous == if k == 0 then null else spine[k - 1]
        invariant forall j :: 0 <= j < k ==> Below(cars[j], info)
        decreases |spine| - k
      {
        var m := Decimal.ParseInt(successor.miles);
        var n := Decimal.ParseInt(car.miles);
        if m.None? || n.None? {
          // int() raises ValueError
          assert cars[k] == successor.Info();
          LeadCountAt(cars, info, k);
          return false, previous, successor, k;
        }
        if m.value < n.value {
          assert successor.next == NextIn(spine, k);
          previous := successor;
          successor := successor.next;
          k := k + 1;
        } else {
          assert cars[k] == successor.Info();
          break;
        }
      }
      LeadCountAt(cars, info, k);
      ok := true;
    }

    /**
     * The rewiring step of `add_car`: `car` goes between `previous` (or the head
     * position, when there is none) and `successor`, which sit at positions
     * `k - 1` and `k` of the chain. The counter is not touched here.
     */
    method Link(previous: TrainCar?, car: TrainCar, successor: TrainCar?, ghost k: nat)
      requires Linked() && car !in spine && k <= |spine|
      requires successor == if k < |spine| then spine[k] else null
      requires previous == if k == 0 then null else spine[k - 1]
      modifies this`head, this`spine, previous, car
      ensures Linked()
      ensures spine == old(spine)[..k] + [car] + old(spine)[k..]
      ensures numCars == old(numCars) && speed == old(speed)
    {
      if previous != null {
        previous.next := car;
      } else {
        head := car;
      }
      car.next := successor;
      ghost var chain := spine;
      spine := chain[..k] + [car] + chain[k..];
      forall i | 0 <= i < |spine| ensures spine[i].next == NextIn(spine, i) {
        SpliceAt(chain, car, k, i);
        if i + 1 < k || i > k {
          var j := if i < k then i else i - 1;
          assert spine[i] == chain[j] && chain[j] != previous && chain[j] != car;
          assert spine[i].next == old(chain[j].next) == NextIn(chain, j);
        }
      }
    }

    /** `remove`: the second car becomes the head; an empty train is left alone. */
    method Remove()
      requires Valid()
      modifies this
      ensures Valid() && Repr == old(Repr)
      ensures Cars() == if old(Cars()) == [] then [] else old(Cars())[1..]
      ensures Sorted(old(Cars())) ==> Sorted(Cars())
      ensures numCars == if old(head) == null then old(numCars) else old(numCars) - 1
      ensures old(head) != null ==> head == old(head.next)
      ensures speed == old(speed)
    {
      if head != null {
        assert head.next == if 1 < |spine| then spine[1] else null;
        head := head.next;
        spine := spine[1..];
        numCars := numCars - 1;
        assert forall i :: 0 <= i < |spine| ==> spine[i] == old(spine)[i + 1];
        SortedTail(old(Cars()));
      }
    }

    /** `train_size`: the counter, which equals the number of reachable cars. */
    method TrainSize() returns (n: int)
      requires Valid()
      ensures n == |Cars()|
    {
      n := numCars;
    }

    /** `show_train` without its printed speed line: the chain listed head to tail. */
    method ShowTrain() returns (shown: Shown)
      requires Valid()
      ensures shown == Render(Cars())
    {
      if head == null {
        return EmptyList;
      }
      ghost var texts := Texts(Cars());
      var result := "[ Train_Car";
      var node: TrainCar? := head;
      ghost var k := 0;
      ghost var listed := "";
      while node != null
        invariant 0 <= k <= |spine|
        invariant node == if k < |spine| then spine[k] else null
        invariant result == "[ Train_Car" + listed
        invariant listed == Joined(texts[..k], Separator) + if 0 < k < |spine| then Separator else ""
        decreases |spine| - k
      {
        var text := CarText(node.Info());
        assert texts[k] == text;
        JoinedStep(texts, k, Separator);
        AppendAssociates("[ Train_Car", listed, text);
        result := result + text;
        listed := listed + text;
        if node.next != null {
          AppendAssociates("[ Train_Car", listed, Separator);
          result := result + Separator;
          listed := listed + Separator;
        }
        node := node.next;
        k := k + 1;
      }
      result := result + " ]";
      assert texts[..|spine|] == texts;
      shown := Listing(result);
    }

    /**
     * The draining loop of `start`: an empty train is refused and left alone;
     * otherwise cars are unloaded head first until none is left. `unloaded`
     * lists the cars in the order they are unloaded.
     */
    method Start() returns (started: bool, unloaded: seq<Car>)
      requires Valid() && (head != null ==> speed > 0.0)
      modifies this
      ensures Valid() && Repr == old(Repr)
      ensures started == (old(Cars()) != [])
      ensures unloaded == if started then old(Cars()) else []
      ensures started ==> Cars() == [] && head == null && numCars == 0
      ensures !started ==> head == old(head) && spine == old(spine) && numCars == old(numCars)
      ensures speed == old(speed)
    {
      unloaded := [];
      if head == null {
        started := false;
        return;
      }
      started := true;
      while head != null
        invariant Valid() && speed == old(speed) && Repr == old(Repr)
        invariant unloaded + Cars() == old(Cars())
        decreases |spine|
      {
        unloaded := unloaded + [head.Info()];
        Remove();
      }
    }
  }

  /**
   * The lifecycle of a one-car train: the car added to the new, empty train
   * is its sole car, and removing it leaves the train empty again.
   */
  method AddThenRemove(content: string, place: string, distance: string) returns (train: Train)
    ensures fresh(train) && train.Valid()
    ensures train.Cars() == [] && train.head == null && train.numCars == 0
  {
    train := new Train();
    var ok := train.AddCar(content, place, distance);
    assert ok && train.Cars() == [Car(content, place, distance)];
    var size := train.TrainSize();
    assert size == 1;
    train.Remove();
  }

  /**
   * Two cars loaded one after the other at the same distance: both are added,
   * the second one goes in front of the first, and the train stays sorted.
   */
  method AddTwoAtTen() returns (train: Train)
    ensures fresh(train) && train.Valid() && Sorted(train.Cars())
    ensures train.Cars() == [Car("b", "y", "10"), Car("a", "x", "10")] && train.numCars == 2
  {
    train := new Train();
    assert Decimal.ParseInt("10") == Some(10) by {
      Decimal.ParseIntRoundTrip(10);
      assert Decimal.IntText(10) == "10";
    }
    assert Sorted(train.Cars());
    var first := train.AddCar("a", "x", "10");
    var second := train.AddCar("b", "y", "10");
    EqualDistancesNewestFirst(Car("a", "x", "10"), Car("b", "y", "10"));
  }

  /** One more car of `cargo` added to a train that already gained the first `n`. */
  lemma LoadStep(start: seq<Car>, before: seq<Car>, cargo: seq<Car>, n: nat)
    requires n < |cargo| && InsertCar(before, cargo[n]).Some?
    requires multiset(before) == multiset(start) + multiset(cargo[..n])
    ensures multiset(InsertCar(before, cargo[n]).value) == multiset(start) + multiset(cargo[..n + 1])
  {
    InsertCarAddsOne(before, cargo[n]);
    assert cargo[..n + 1] == cargo[..n] + [cargo[n]];
  }

  /**
   * The cars of `cargo` added one at a time, as a run of `add_car` commands
   * does: when every distance is an integer, every addition succeeds, the
   * train gains exactly those cars and stays sorted.
   */
  method AddAll(train: Train, cargo: seq<Car>)
    requires train.Valid() && Sorted(train.Cars())
    requires forall i :: 0 <= i < |cargo| ==> Numeric(cargo[i])
    modifies train, train.Repr
    ensures train.Valid() && fresh(train.Repr - old(train.Repr)) && Sorted(train.Cars())
    ensures train.numCars == old(train.numCars) + |cargo|
    ensures multiset(train.Cars()) == multiset(old(train.Cars())) + multiset(cargo)
    ensures train.speed == old(train.speed)
  {
    var n := 0;
    while n < |cargo|
      invariant n <= |cargo|
      invariant train.Valid() && fresh(train.Repr - old(train.Repr)) && Sorted(train.Cars())
      invariant train.numCars == old(train.numCars) + n
      invariant multiset(train.Cars()) == multiset(old(train.Cars())) + multiset(cargo[..n])
      invariant train.speed == old(train.speed)
    {
      var c := cargo[n];
      ghost var before := train.Cars();
      assert Numeric(c) && c == Car(c.contents, c.destination, c.miles);
      var ok := train.AddCar(c.contents, c.destination, c.miles);
      LoadStep(old(train.Cars()), before, cargo, n);
      n := n + 1;
    }
    assert cargo[..n] == cargo;
  }

  /**
   * A train emptied by `start` takes new cars again: with a positive speed
   * set, one car with an integer distance added and delivered, the next car
   * added is the train's only car.
   */
  method RunTwice(mph: real, first: Car, second: Car) returns (train: Train)
    requires mph > 0.0 && Numeric(first)
    ensures fresh(train) && train.Valid()
    ensures train.Cars() == [second] && train.numCars == 1 && train.speed == mph
  {
    train := new Train();
    var accepted := train.SetSpeed(mph);
    var added := train.AddCar(first.contents, first.destination, first.miles);
    var started, unloaded := train.Start();
    assert started && unloaded == [first];
    added := train.AddCar(second.contents, second.destination, second.miles);
  }
}
