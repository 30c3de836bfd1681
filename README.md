# elevator-optim, modelled in Dafny

elevator-optim simulates a building with a number of floors and elevator cars.
It serves as a workbench for comparing dispatch policies. Each tick:

- every tracked passenger's clock advances;
- new people arrive on the floors;
- a policy looks at a restricted view of the building and gives every
  elevator an action (move toward a floor, or open going up or down);
- the elevators carry out those actions.

A passenger who reaches their destination is charged the square of the ticks
they were tracked. The simulation's score is the banked charges plus what
everyone still waiting would be charged now.

This project models the bookkeeping core of that simulation and proves
properties of it:

- `Persons`: the passenger, with its clock and quadratic wait cost.
- `Elevators`: the elevator car.
  - `move` steps toward an absolute target by at most the top speed and
    never overshoots.
  - `open` releases and charges the passengers who have arrived, then boards
    people first come first served up to capacity.
  - `end` charges the remaining passengers.
- `Simulation`: the building.
  - The constructor.
  - The restricted view `view_simple`: each floor's up/down hall calls, and
    each elevator's destination flags and location.
  - `active_ppl` and `cum_cost`.
  - The deterministic steps of a tick: the clock, the up/down split of a
    floor's queue, which elevators open at a floor, and how evenly a group is
    shared among them.
- `Logic`: the `move` policy. It flattens the view, answers "open going down"
  for every elevator, and remembers its last answer.
- `Models`: two more policies.
  - `default` answers "open going up" for every elevator.
  - `scan` is a partial SCAN rule for one elevator.
- `ListUtils`: order-preserving list difference and intersection, and the
  facts about list comprehensions the other modules rely on.
- Shared modules:
  - `Outcomes` holds `Option` and `Result`. Python's `KeyError`,
    `AttributeError` and `ValueError` become `Err` values.
  - `Constants` holds the per-elevator `Action`. It replaces the float door
    sentinels 0.5 and -0.5.
  - `Views` holds the view dictionary: keys `E{i}`, `floor_buttons` and
    `n_floors`, and their values.

Passengers, elevators and the building are classes, because the source
updates their fields in place. List fields are `seq` fields that the methods
reassign. A Python list or dictionary that the source mutates on behalf of
its caller is taken as a value instead, and the part the caller would be left
with is returned: the `people` list `open` pops from, and the view dictionary
`move` and `default` pop from.

## Model

| member | source | states |
|---|---|---|
| Persons.WaitCost | Person.py:14-15 | the charge for a wait is never negative, and positive for any non-zero wait |
| Persons.WaitCostGrows | Person.py:14-15 | a longer wait never costs less (the charge is non-decreasing on non-negative waits) |
| Persons.Person.constructor | Person.py:6-8 | a new passenger has the given destination (floor 1 by default) and a clock at 0 |
| Persons.Person.Update | Person.py:10-12 | the clock advances by exactly one; the charge is the wait cost of the advanced clock at the destination and 0 anywhere else; the destination is a constant |
| Persons.TotalWaitCost | State.py:121-123 | the summed wait cost of a list of passengers is never negative |
| Elevators.Step | Elevator.py:34-40 | for a non-negative speed the new floor lies between the old floor and the target (no overshoot) and is exactly min(speed, distance) away from the old floor; a target nearer than the speed is reached |
| Elevators.Elevator.Move | Elevator.py:34-40 | only the location changes, and it becomes the floor `Step` describes |
| Elevators.ArrivalCharge | Elevator.py:23-27 | the charge for the alighting passengers is never negative |
| Elevators.ArrivalChargeZero | Elevator.py:23-27 | opening the doors charges nothing exactly when no passenger's destination is the current floor |
| Elevators.BoardCount | Elevator.py:28-29 | the number boarding is at most the number waiting, at most the free room, and is one of those two, or 0 when the car is over capacity |
| Elevators.Elevator.constructor | Elevator.py:10-17 | a new car is empty, at floor 0, with the given speed (1 by default) and capacity (20 by default) |
| Elevators.Elevator.Open | Elevator.py:19-32 | every original passenger's clock advances by one; the charge is the summed wait cost of exactly the alighting passengers; the new passenger list is the staying passengers in order followed by the front of the waiting list, as many as fit; the rest of the waiting list is returned; nobody who alighted is still aboard; a car within capacity stays within capacity; passengers stay distinct |
| Elevators.Elevator.Release | Elevator.py:23-27 | after the release loop the passenger list is exactly the staying passengers in their original order, every clock has advanced by one, and the charge is that of the alighting passengers |
| Elevators.ReleaseOne | Elevator.py:24-27 | one pass of the release loop at index i: that passenger's clock advances by one, it is removed when its destination is the current floor, the kept list grows by the filtered passenger, and the charge is its wait cost at the advanced clock there and 0 otherwise |
| Elevators.ReleaseStep | Elevator.py:24-26 | one step of the backward release loop: removing an arrived passenger with `list.remove`, or keeping a staying one, extends the filtered tail by that passenger |
| Elevators.Elevator.Board | Elevator.py:28-30 | the first `BoardCount` waiting people are appended in order and the remainder is returned |
| Elevators.Elevator.End | Elevator.py:49-53 | every passenger's clock advances by one and the result is the summed wait cost of all passengers at their advanced clocks |
| ListUtils.Filter | ListUtils.py:1-2 | a comprehension `[x for x in s if keep(x)]` is never longer than its source |
| ListUtils.FilterMembers | ListUtils.py:1-2 | an element is in the comprehension's result exactly when it is in the source and satisfies the condition |
| ListUtils.FilterIsSubsequence | ListUtils.py:1-2 | the comprehension keeps the source's order (its result is a subsequence of the source) |
| ListUtils.FilterCount | ListUtils.py:1-2 | each element occurs in the result as often as in the source if it satisfies the condition, and not at all otherwise |
| ListUtils.FilterSplit | ListUtils.py:1-5 | two complementary comprehensions over the same list have lengths summing to the list's length |
| ListUtils.FilterIdempotent | ListUtils.py:1-2 | filtering twice with the same condition is filtering once |
| ListUtils.FilterKeepsAll | ListUtils.py:1-2 | a condition every element satisfies keeps the whole list |
| ListUtils.FilterKeepsNone | ListUtils.py:4-5 | a condition no element satisfies gives the empty list |
| ListUtils.FilterDistinct | Elevator.py:24-26 | filtering a list without repetitions gives a list without repetitions |
| ListUtils.Remove | Elevator.py:26 | `list.remove` of a present element shortens the list by one |
| ListUtils.RemoveAt | Elevator.py:26 | in a list where the element first occurs at index i, `list.remove` deletes exactly index i |
| ListUtils.Subtract | ListUtils.py:1-2 | every element of `list_subtract(a, b)` is in `a` and not in `b`, and every element of `a` not in `b` is kept |
| ListUtils.Intersect | ListUtils.py:4-5 | every element of `list_intersect(a, b)` is in `a` and in `b`, and every element of `a` in `b` is kept |
| ListUtils.SubtractMembers | ListUtils.py:1-2 | membership in the difference is exactly "in `a` and not in `b`" |
| ListUtils.IntersectMembers | ListUtils.py:4-5 | membership in the intersection is exactly "in `a` and in `b`" |
| ListUtils.SubtractIntersectSplit | ListUtils.py:1-5 | difference and intersection are both subsequences of `a`, and their lengths sum to the length of `a` |
| ListUtils.SubtractIntersectCounts | ListUtils.py:1-5 | duplicates are kept per occurrence: each element occurs in exactly one of the two results, as often as in `a` |
| ListUtils.SubtractNothing | ListUtils.py:1-2 | subtracting the empty list changes nothing |
| ListUtils.IntersectNothing | ListUtils.py:4-5 | intersecting with the empty list gives the empty list |
| ListUtils.SubtractIdempotent | ListUtils.py:1-2 | subtracting the same list twice is subtracting it once |
| ListUtils.IntersectSelf | ListUtils.py:4-5 | a list intersected with itself is unchanged |
| ListUtils.ConcatLength | State.py:133-136 | the concatenated floor queues are as long as the queues together |
| ListUtils.ConcatMembers | State.py:133-136 | a person is in the concatenated queues exactly when they are in one of the queues |
| Simulation.GoingUp | State.py:57 | `ppl_up` holds only people from the queue bound above the floor, and every such person |
| Simulation.GoingDown | State.py:58 | `ppl_down` holds only people from the queue bound below the floor, and every such person |
| Simulation.QueueSplit | State.py:57-58 | both groups keep the queue's order, and with the people whose destination is the floor itself they account for the whole queue |
| Simulation.SharesSum | State.py:65-66 | the part sizes of an `np.array_split` into k > 0 parts add up to the group size |
| Simulation.SplitSizes | State.py:65-66 | splitting among no elevators raises `ValueError`; otherwise there is one share per elevator, the shares add up to the group size, never grow along the list and differ by at most one |
| Simulation.ChooseOpeners | State.py:59-64 | the loop collects exactly the elevators `Openers` describes, for both doors at once |
| Simulation.OpenersChosen | State.py:59-64 | every elevator in `open_up` / `open_down` is at that floor and was told OPEN_UP / OPEN_DOWN |
| Simulation.OpenersComplete | State.py:59-64 | every elevator at that floor told OPEN_UP / OPEN_DOWN is in `open_up` / `open_down` |
| Simulation.OpenersOrdered | State.py:59-64 | `open_up` and `open_down` keep the elevators' order |
| Simulation.PassengersMembers | State.py:137-139 | a person is among the elevators' passengers exactly when some elevator carries them |
| Simulation.ActiveMembers | State.py:126-140 | `active_ppl` lists exactly the people waiting on some floor or riding some elevator, and its length is the queues' total plus the passengers' total |
| Simulation.State.constructor | State.py:24-28 | at least one floor and one elevator (each a new empty car at floor 0 with default speed and capacity, all distinct), empty queues, clock and cost at 0, and a non-negative arrival rate |
| Simulation.State.Tick | State.py:39 | each tick advances the clock by exactly one, changes nothing else, and keeps the building's invariant (at least one floor and elevator, distinct cars, non-negative rate) |
| Simulation.State.ViewSimple | State.py:90-111 | the view has one `E{i}` entry per elevator plus `floor_buttons`; a floor's up call is set exactly when someone waiting there is bound above it, its down call exactly when someone is bound below it; an elevator's destination vector covers every floor and flags exactly the floors a passenger is bound for; its location is the car's; nothing in the building changes |
| Simulation.State.ActivePpl | State.py:126-140 | the result is the floors' queues in floor order followed by the elevators' passengers in elevator order |
| Simulation.State.CumCost | State.py:113-124 | the result is the banked cost plus the wait cost of every tracked person; it is never below the banked cost and equals it when nobody is tracked |
| Simulation.State.PlanFloor | State.py:53-66 | the direction groups, the opening elevators and the shares of one floor are those `GoingUp`, `GoingDown`, `Openers` and `SplitSizes` describe |
| Views.CarKeysSize | State.py:104-109 | the keys `E0` .. `E{k-1}` are k distinct keys |
| Views.SimpleShapedRest | Logic.py:15-18 | popping `floor_buttons` from a view shaped like `view_simple`'s leaves exactly the k elevator records |
| Logic.CarCellsLength | Logic.py:18-22 | when every destination vector covers `n_floors` floors, the elevators contribute k * (n_floors + 1) cells to the flattened view |
| Logic.ReadCars | Logic.py:18-22 | the loop succeeds exactly when every `E{i}` it looks up is an elevator record and the popped value can be extended; when it succeeds on a popped hall-call list, the flattened list is those hall calls followed by each elevator's flags and location in index order (just the hall calls when there is no elevator entry) |
| Logic.Flatten | Logic.py:15-24 | a missing `floor_buttons` raises `KeyError` and leaves the view unchanged; otherwise the key is popped, a bad lookup raises `AttributeError`, and on success there is one OPEN_DOWN per remaining entry and, when the popped value is a hall-call list, the flattened list has the shape above |
| Logic.Dispatcher.Move | Logic.py:15-24 | the same `KeyError`, `AttributeError`, popped view, actions and flattened list as `Flatten`, and after a successful call `prev_actions` is the returned list; a call that raises leaves it as it was |
| Logic.SimpleViewAccepted | Logic.py:15-24 | on a view shaped like `view_simple`'s, `move` raises nothing, answers one action per elevator, and flattens to n_floors + k * (n_floors + 1) cells |
| Models.Default | Models.py:3-22 | a missing `floor_buttons` or `n_floors` raises `KeyError` (after the first pop when only `n_floors` is missing); a bad `E{i}` lookup raises `AttributeError`; otherwise both keys are gone and there is one OPEN_UP per remaining entry |
| Models.DefaultOnCompleteView | Models.py:15-22 | on a complete view for k elevators, exactly the k elevator records remain after the two pops, so `default` answers once per elevator |
| Models.Scan | Models.py:24-43 | a move is given exactly at floor 0 (to the top floor) and at the top floor (to floor 0); a door opens exactly at an interior floor with a hall call or a destination there; it opens going up exactly when the previous action was a move to the top floor or an OPEN_UP; no action exactly at an interior floor without a request |

## Left out

- Train.py (a genetic-algorithm training harness over a foreign library) and main.py (an interactive terminal loop) are not part of this model.
- Rendering is not modelled: Vis.py, `__str__` and `verbose` only build display text.
- Printing is not modelled (State.py:46, Models.py:44), nor is the module-level code at Logic.py:26-29, which builds a state and prints through the circular import of State and Logic.
- Poisson arrivals (State.py:42-44) are not modelled: they are random, and `Person.from_range` does not exist.
- `Elevator.move_logic` (Elevator.py:42-46) has an empty body and no behaviour.
- The glue of `State.update` (State.py:40-41, 47-52, 67-70) is not modelled, because it cannot run as written:
  - `step_time` does not exist;
  - the local `move` shadows the policy;
  - OPEN_UP passes the `>= 0` comparison and would be used as a move target;
  - `open` is called with two arguments but takes one;
  - boarding pops from the copies made at lines 57-58, so the queues never lose anyone.
  `PlanFloor` and `Tick` model the deterministic steps around it.
- Simulation.State.CumCost: `Person.cost` does not exist; each person's cost is taken to be the wait cost of their clock.
- The claim that a passenger's clock equals the number of `update` calls made is not a separate statement. It follows from `Persons.Person.Update` (one tick per call) and the constructor (clock at 0).
- Hall calls are pairs of booleans (up wanted, down wanted). The source adds integer constants `NO_REQ`, `UP_REQ` and `DOWN_REQ`, which do not exist in Constants.py; a call counts as a request when either flag is set.
- Actions are a datatype instead of floats: `Move(target)`, `OpenUp` for 0.5, and `OpenDown` for -0.5.
- Elevators.Elevator.Open: the caller's `people` list is not popped in place. The people left waiting are returned instead, so aliasing of that list is not modelled.
- Elevators.Elevator.Open, Elevators.Elevator.Release and Elevators.Elevator.End require the car's passengers to be distinct objects, and `Open` requires the boarding people to be distinct and not already aboard. The source does not check this; with a repeated passenger, `list.remove` during the backward walk would behave differently.
- Elevators.Elevator.Release builds the kept list in a local variable (one loop pass is `ReleaseOne`) and assigns it to the passenger field after the loop. The source removes from the field while walking it; the resulting list and charges are the same.
- Elevators.Step: the bounds on the step hold for a non-negative speed only. The function also computes the source's result for a negative speed, but nothing is proved about that case.
- Simulation.State.ViewSimple requires every passenger's destination to be a floor of the building. The source would raise `IndexError` for a destination past the top floor or below minus the number of floors, and for a destination from minus the number of floors up to -1 it would flag a floor counted from the top.
- Models.Scan requires a non-negative location, and at an interior floor a location inside both lists. Python's negative-index wrap-around and `IndexError` are not modelled, nor is a floor button that short-circuits past a too-short `destinations`.
- Logic.Flatten and Logic.Dispatcher.Move take the view by value and return the dictionary left after the pop. The popped `floor_buttons` list, which the source extends in place, is returned as the flattened list. When the popped value is not a list and there is no elevator entry, the source's `flattened_info` is that value itself and nothing raises; the model returns an empty flattened list and states nothing about it.
- Logic.ReadCars checks whether the popped value can be extended before looking up `E0`. The source does the lookup first, but either failure raises the same `AttributeError`.
- Models.Default ignores the values it reads from each `E{i}` record, as the source does. Only the `AttributeError` from a missing or non-dictionary record is kept.
