# Train yard and moving boxes, in Dafny

This project models two small exercises and proves properties of the models.

**The train yard** (`lab08/command_list.py`, in `train.dfy`). A train
(`Entire_Train`) holds a head pointer, a speed and a car counter. Its cars
(`Train_Car`) form a singly linked chain ordered by delivery distance.

- `TrainYard.Train` is a class with the source's three fields and a ghost
  `spine`, which lists the reachable nodes from head to tail.
- `Valid()` says three things: the spine is an acyclic chain from `head`, the
  counter equals its length, and every car of the spine belongs to the ghost set
  `Repr` of nodes the train owns. `add_car` only adds freshly built cars to
  `Repr`, so a caller can add car after car (`AddTwoAtTen`, `AddAll`).
- `add_car` is proved against the pure function `InsertCar` over car values.
  Lemmas about `InsertCar` give the rest:
  - the exact splice position, before the first car that is not strictly
    nearer (ties go to the newest car);
  - exactly one car is added;
  - sortedness is preserved;
  - a failed `int()` conversion leaves the train unchanged.
- `remove`, `train_size`, `set_speed`, the listing text of `show_train` and the
  draining loop of `start` are methods over the same state.
- A car's distance is kept as the text the command loop passes, i.e. the third
  token of the `add_car` command, unconverted. Every comparison goes through a
  model of Python's `int()` (`decimal.dfy`).

**Moving boxes** (`lab06/moving.py`, in `moving.dfy` and `packing.dfy`).

- `ITEM` is a datatype. `BOX` is a class whose `capacity` and `items` the
  packers update in place.
- `partition_items` and `partition_boxes` are loops. Each is proved equal to
  three filters that keep input order.
- `sort_items` and `sort_boxes` are the same three-way quicksort. Both are
  proved equal to one generic function, `KeySort`. Lemmas show it returns a
  permutation, ascending by its key, and stable.
  - Boxes use their capacity as the key.
  - Items use the negated weight as the key, so they come out heaviest first.
- `roomiest`, `tightest_fit` and `one_at_a_time` are methods over the shared
  box objects. Each is proved equal to a fold of one pure step over the boxes'
  states.
- Lemmas state each step's rule for choosing a box. Others show every box
  keeps its allowance: remaining capacity plus the weight of its items. The
  same lemmas show every box keeps its old items, and a box that receives an
  item never goes below zero.

Where the code and its documented behaviour disagree, the model follows the code.

- `Train_Car` annotates `miles` as an `int` (`lab08/command_list.py:23`), but
  nothing converts it: the command loop (`lab08/train_run.py:30-31`) passes the
  raw token, and `add_car` stores it as given.
- So an empty train accepts any distance text, since no comparison is made.
  After a non-integer text has been accepted that way, every later `add_car`
  fails in `int()` for as long as that car is the head.
- `InsertCarKeepsSorted` states the first fact: on an empty train any text is
  accepted. `NonIntegerHeadBlocks` states the second: an `add_car` fails while a
  non-integer car is the head.

## Model

| member | source | states |
|---|---|---|
| Decimal.ParseIntRoundTrip | lab08/command_list.py:76 | `int()` reads the decimal text of every integer back as that integer |
| Decimal.ParseIntRejectsNonDigit | lab08/command_list.py:76 | `int()` raises on text with a non-digit after the first character |
| Decimal.DigitsRoundTrip | lab08/command_list.py:76 | the digits of a natural number read back as that number |
| TrainYard.TrainCar.constructor | lab08/command_list.py:19-24 | a new car carries the given contents, destination and miles, and links to nothing |
| TrainYard.Train.constructor | lab08/train_run.py:59 | the train the command loop starts with is valid and empty, with no head and speed 0 |
| TrainYard.Train.SetSpeed | lab08/command_list.py:40-53 | a speed is stored exactly when it is at least 0 (0 included); a negative one reports failure and leaves the speed as it was |
| TrainYard.Train.AddCar | lab08/command_list.py:56-89 | the chain becomes `InsertCar` of the old chain and the counter rises by one; if a conversion fails, the head, chain and counter are unchanged; a car added to an empty train becomes the sole head with no successor; on a sorted train an integer distance is always accepted and the train stays sorted; the train stays valid and only newly built cars join it, so calls can follow one another |
| TrainYard.Train.Insert | lab08/command_list.py:72-88 | on a non-empty train, the chain becomes `InsertCar` of the old chain with the counter one higher, or, when a conversion fails, head and chain are unchanged; only the new car joins the train |
| TrainYard.Train.FindPlace | lab08/command_list.py:73-79 | the walk stops at the first car that is not strictly nearer (`successor`, none past the tail), with `previous` the car before it; it fails exactly when `InsertCar` fails |
| TrainYard.Train.Link | lab08/command_list.py:80-87 | the new car is spliced in at position `k`, between `previous` (or the head slot) and `successor`; the chain stays acyclic and linked |
| TrainYard.LeadCountMeaning | lab08/command_list.py:75-79 | the cars the walk passes are all strictly nearer, and the car where it stops is not |
| TrainYard.LeadCountAt | lab08/command_list.py:75-79 | a nearer prefix of length `k` followed by a car that is not nearer means the walk passes exactly `k` cars |
| TrainYard.InsertCarSplices | lab08/command_list.py:75-87 | a successful insertion is the old chain with the car spliced in after the strictly nearer prefix; insertion fails exactly when the walk reaches a car whose distance, or the new car's, is not an integer |
| TrainYard.InsertCarAddsOne | lab08/command_list.py:75-88 | a successful insertion adds exactly one car: the length rises by one and the multiset gains exactly the new car |
| TrainYard.NonIntegerHeadBlocks | lab08/command_list.py:73-76 | while the head car's distance is not an integer, every `add_car` fails in `int()` |
| TrainYard.InsertCarKeepsSorted | lab08/command_list.py:68-87 | on a sorted chain, insertion fails exactly when the chain is non-empty and the new distance is not an integer; the result is sorted exactly when the new distance is an integer |
| TrainYard.EqualDistancesNewestFirst | lab08/command_list.py:76-84 | of two cars at one distance, the one added second ends up in front |
| TrainYard.InsertCarPastPrefix | lab08/command_list.py:75-78 | inserting past a prefix of strictly nearer cars keeps that prefix in front of the insertion into the rest |
| TrainYard.Train.Remove | lab08/command_list.py:161-174 | on a non-empty train, the old `head.next` becomes the head, the first car leaves the chain and the counter drops by one; an empty train is unchanged; a sorted train stays sorted; the train stays valid |
| TrainYard.Train.TrainSize | lab08/command_list.py:92-100 | the stored counter equals the number of reachable cars |
| TrainYard.Train.ShowTrain | lab08/command_list.py:112-126 | the result is `Render` of the chain: `[]` for an empty train, otherwise every car's text from head to tail, separated by ` , Train_Car`, inside `[ Train_Car` … ` ]` |
| TrainYard.RenderSplit | lab08/command_list.py:116-125 | the listing of a train split into two parts is the front part's listing, one separator, then the back part's |
| TrainYard.JoinedSplit | lab08/command_list.py:118-124 | joining two lists of car texts equals joining each and putting one separator between them |
| TrainYard.JoinedStep | lab08/command_list.py:118-124 | one more car text extends the listing by a separator (none before the first car) and that text |
| TrainYard.Train.Start | lab08/command_list.py:129-156 | requires a positive speed on a non-empty train, as `start` states and the command loop enforces; an empty train is refused and unchanged; otherwise the cars are unloaded head first, in chain order, until the head is none and the counter is 0; speed and the set of owned cars are untouched, so the train can be refilled |
| TrainYard.AddThenRemove | lab08/command_list.py:68-71 | a car added to a new train is its only car, and removing it empties the train again |
| TrainYard.AddTwoAtTen | lab08/command_list.py:75-85 | two cars added to a new train at distance 10 are both accepted, the second is placed in front of the first, and the train is sorted |
| TrainYard.RunTwice | lab08/train_run.py:40-48 | after a positive speed is set, a car with an integer distance is added and the train is started, the emptied train accepts a new car, which becomes its only car, and keeps its speed |
| TrainYard.AddAll | lab08/train_run.py:28-33 | adding cars one `add_car` at a time, all with integer distances, to a sorted train accepts every one: the counter rises by their number, the chain gains exactly those cars, and it stays sorted |
| Moving.Box.constructor | lab06/moving.py:22-30 | a new box has the given capacity and no items |
| Moving.PartitionItems | lab06/moving.py:217-235 | the three lists are the heavier, equal and lighter items, each in input order |
| Moving.PartitionBoxes | lab06/moving.py:238-256 | the three lists are the boxes of lower, equal and higher capacity, each in input order; together they are exactly the input boxes |
| Moving.PartitionParts | lab06/moving.py:227-235 | the three parts together hold every input element exactly once |
| Moving.PartitionSides | lab06/moving.py:248-256 | every element of a part has its key on that part's side of the pivot |
| Moving.PartitionShrinks | lab06/moving.py:94-96 | with the first element's key as pivot, both outer parts are shorter than the input, so the recursion ends |
| Moving.SortItems | lab06/moving.py:83-96 | the result is `KeySort` of the items by negated weight: a permutation, heaviest first |
| Moving.SortBoxes | lab06/moving.py:99-112 | the result's states are `KeySort` of the boxes' states by capacity, and the result holds exactly the input boxes |
| Moving.KeySortPermutes | lab06/moving.py:91-96 | the quicksort returns a permutation of its input |
| Moving.KeySortOrders | lab06/moving.py:107-112 | the quicksort's output is ascending by its key |
| Moving.KeySortStable | lab06/moving.py:91-96 | elements with equal keys come out in their input order |
| Packing.Filled | lab06/moving.py:131-132 | putting an item into a box keeps its allowance (capacity plus item weight) and keeps its old items first |
| Packing.PlaceGrows | lab06/moving.py:130-132 | a fit-checked placement changes at most the chosen box, which keeps its allowance and old items and stays non-negative |
| Packing.Stow | lab06/moving.py:131-132 | the chosen box gets the item appended and loses exactly its weight in capacity; no other box in the list changes |
| Packing.FirstMaxIsFirstLargest | lab06/moving.py:126-129 | the strict `>` scan from `boxes[0]` picks the first box of largest remaining capacity |
| Packing.RoomiestBox | lab06/moving.py:126-129 | the scan loop returns that box, `FirstMax` of the states |
| Packing.RoomiestStepRule | lab06/moving.py:126-132 | an item goes into the first roomiest box if it fits there; otherwise it fits in no box and nothing changes |
| Packing.RoomiestItem | lab06/moving.py:126-132 | one pass of the item loop turns the boxes' states into `RoomiestStep` of them |
| Packing.RoomiestPackGrows | lab06/moving.py:125-132 | after all items, every box keeps its allowance and its old items and is untouched or non-negative |
| Packing.Roomiest | lab06/moving.py:115-145 | the boxes end as the `roomiest` fold of the items; each box grows as above; success holds exactly when the first three capacities sum to 0 |
| Packing.FirstFitIsFirst | lab06/moving.py:161-165 | first fit finds the first box the item fits in, and finds none exactly when no box fits |
| Packing.FirstFitting | lab06/moving.py:161-165 | the box loop of `tightest_fit` stops at that first fitting box |
| Packing.FirstFitInOrder | lab06/moving.py:159-165 | in an ascending order, the first fitting box has the smallest capacity among the fitting ones |
| Packing.TightStepRule | lab06/moving.py:159-165 | after re-sorting, an item goes into a box of smallest remaining capacity among those it fits; if none fits, the boxes are only reordered |
| Packing.DistinctPermuted | lab06/moving.py:160 | re-sorting a list of distinct boxes gives a list of distinct boxes |
| Packing.TightestItem | lab06/moving.py:159-165 | one pass re-sorts the same boxes and turns their states into `TightStep` of them; every box keeps its allowance and old items |
| Packing.TightestFit | lab06/moving.py:148-178 | the final list holds the same boxes and its states are the `tightest_fit` fold of the items; every box keeps its allowance and old items and is untouched or non-negative; success is judged on the final list's first three boxes |
| Packing.OneStepIsFirstFit | lab06/moving.py:193-201 | `one_at_a_time` is first fit over `boxes[0..2]` alone |
| Packing.OneStepGrows | lab06/moving.py:193-201 | one item changes at most one of the first three boxes, which grows; boxes after the third are untouched |
| Packing.OneItem | lab06/moving.py:193-201 | one pass turns the boxes' states into `OneStep` of them |
| Packing.OnePackGrows | lab06/moving.py:192-201 | after all items, every box keeps its allowance and old items and is untouched or non-negative; boxes after the third never change |
| Packing.OneAtATime | lab06/moving.py:181-214 | the boxes end as the `one_at_a_time` fold of the items; each box grows as above; success holds exactly when the first three capacities sum to 0 |

## Left out

- `lab08/train_run.py`, the command loop, is not part of this model. It does tokenising, `input()`, `print` and dispatch by recursive self-calls. Its starting train is cited for the constructor, a run of its `add_car` commands for `AddAll`, and its `start` command, which refuses a train whose speed is not positive, for `RunTwice` and for the speed precondition of `Start`.
- `help`, `quit` and every `print` are console output. This includes the speed line of `show_train`, which is float-to-string conversion, and the "Illegal Command Use" message of `start`.
- TrainYard.Train.Start: models only the draining loop. The travel-time and distance arithmetic is left out because it is floating point and rounding whose results are only printed. So the model does not capture the `float()`/`int()` conversions of a car's miles in that arithmetic. A text that `int()` rejects can only be a train's sole car, since every later `add_car` converts the head's distance. On such a car `start` raises ValueError before anything is removed: at line 145 when `float()` also rejects the text, at line 153 when the segment's rounded time is not zero. The command loop (`lab08/train_run.py:40-44`) has no `try` there, so the program ends. Only when the rounded time is zero (a text such as `0.0`) is the car unloaded. The model's `Start` drains the car in every case. A zero speed is refused by the command loop before `start` runs.
- TrainYard.Train.SetSpeed: the speed is a `real` the caller has already converted. It does not model `float()` parsing of the token, or NaN and infinities.
- Decimal.ParseInt models `int()` on ASCII text: an optional sign, then at least one ASCII digit. Python also accepts surrounding whitespace, `_` between digits and non-ASCII digits; these are not modelled. Python 3.11 and later also raise ValueError on a text of more than 4300 digits; the model reads texts of any length.
- TrainYard.Train.ShowTrain appends each car's text in one step, where the source appends it in three `+=` steps. The resulting text is the same.
- `make_boxes`, `make_items` and `make_boxes_and_items` read a file; `main` and the `run_*` wrappers only compose calls. None of them is modelled.
- The report lines the packers print ("Box N of weight 12 …", the item listings) are output only. The success verdict is modelled as the returned `success`.
- Packing.Roomiest, Packing.TightestFit, Packing.OneAtATime: these require at least three boxes. Each packer reads `boxes[0]`, `boxes[1]` and `boxes[2]` unconditionally at its end, so fewer boxes raise IndexError there.
- Packing.Roomiest, Packing.TightestFit, Packing.OneAtATime: these also require the list to hold distinct box objects, which is how `make_boxes` builds it. A list that named one box twice would alias, and that is not modelled.
- Packing.FirstFitting: the scan returns the first fitting box, and the caller then fills it. The source fills the box inside its loop and then breaks; the effect is the same.
