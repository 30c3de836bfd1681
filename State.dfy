/** The building: the queue waiting on each floor, the elevators, the clock
    and the cost banked so far; with the restricted view handed to dispatch
    policies and the deterministic steps of a tick. */
module Simulation {
  import opened Outcomes
  import opened Constants
  import opened ListUtils
  import opened Persons
  import opened Elevators
  import opened Views

  function Max(a: int, b: int): int
  {
    if a >= b then a else b
  }

  // ---------------------------------------------------------------------
  // Splitting a floor's queue by direction

  function Above(floor: int): Person -> bool
  {
    (p: Person) => p.dst > floor
  }

  function Below(floor: int): Person -> bool
  {
    (p: Person) => p.dst < floor
  }

  function AtFloor(floor: int): Person -> bool
  {
    (p: Person) => p.dst == floor
  }

  /** `ppl_up`: the people in the queue who want to go up, in queue order. */
  function GoingUp(ppl: seq<Person>, floor: int): (r: seq<Person>)
    ensures forall i :: 0 <= i < |r| ==> r[i] in ppl && r[i].dst > floor
    ensures forall i :: 0 <= i < |ppl| && ppl[i].dst > floor ==> ppl[i] in r
  {
    FilterMembers(ppl, Above(floor));
    var r := Filter(ppl, Above(floor));
    assert forall i :: 0 <= i < |r| ==> r[i] in r;
    r
  }

  /** `ppl_down`: the people in the queue who want to go down, in queue order. */
  function GoingDown(ppl: seq<Person>, floor: int): (r: seq<Person>)
    ensures forall i :: 0 <= i < |r| ==> r[i] in ppl && r[i].dst < floor
    ensures forall i :: 0 <= i < |ppl| && ppl[i].dst < floor ==> ppl[i] in r
  {
    FilterMembers(ppl, Below(floor));
    var r := Filter(ppl, Below(floor));
    assert forall i :: 0 <= i < |r| ==> r[i] in r;
    r
  }

  /** Both groups keep the queue's order, and together with the people whose
      destination is this very floor they account for the whole queue. */
  lemma {:induction false} QueueSplit(ppl: seq<Person>, floor: int)
    ensures IsSubsequence(GoingUp(ppl, floor), ppl) && IsSubsequence(GoingDown(ppl, floor), ppl)
    ensures |GoingUp(ppl, floor)| + |GoingDown(ppl, floor)| + |Filter(ppl, AtFloor(floor))| == |ppl|
  {
    FilterIsSubsequence(ppl, Above(floor));
    FilterIsSubsequence(ppl, Below(floor));
    if ppl != [] {
      QueueSplit(ppl[1..], floor);
    }
  }

  // ---------------------------------------------------------------------
  // Sharing a direction group among the elevators that open for it

  /** The sum of a list of counts. */
  function Sum(s: seq<nat>): nat
  {
    if s == [] then 0 else Sum(s[..|s| - 1]) + s[|s| - 1]
  }

  /** `k` parts of `q` items each, the first `extra` of them with one more. */
  function Parts(q: nat, extra: nat, k: nat): (r: seq<nat>)
    ensures |r| == k
  {
    seq(k, i => if i < extra then q + 1 else q)
  }

  /** The part sizes `np.array_split` gives `n` items cut into `k` parts: the
      first `n % k` parts get one item more than the others. */
  function Shares(n: nat, k: nat): (r: seq<nat>)
    requires k > 0
    ensures |r| == k
  {
    Parts(n / k, n % k, k)
  }

  /** The parts account for every item. */
  lemma SharesSum(n: nat, k: nat)
    requires k > 0
    ensures Sum(Shares(n, k)) == n
  {
    PartsPrefixSum(n / k, n % k, k, k);
    assert Shares(n, k)[..k] == Shares(n, k);
  }

  lemma {:induction false} PartsPrefixSum(q: nat, extra: nat, k: nat, m: nat)
    requires m <= k
    ensures Sum(Parts(q, extra, k)[..m]) == m * q + Min(m, extra)
  {
    if m > 0 {
      var s := Parts(q, extra, k);
      PartsPrefixSum(q, extra, k, m - 1);
      assert s[..m][..m - 1] == s[..m - 1];
      assert m * q == (m - 1) * q + q;
    }
  }

  /** `[len(x) for x in np.array_split(group, k)]`, which raises when no
      elevator opens in that direction (`k == 0`). */
  function SplitSizes(n: nat, k: nat): (r: Result<seq<nat>>)
    ensures r.Err? <==> k == 0
    ensures r.Ok? ==> |r.value| == k && Sum(r.value) == n
    ensures r.Ok? ==> forall i, j :: 0 <= i < j < k ==> r.value[j] <= r.value[i] <= r.value[j] + 1
  {
    if k == 0 then Err(ValueError)
    else
      SharesSum(n, k);
      Ok(Shares(n, k))
  }

  // ---------------------------------------------------------------------
  // Choosing which elevators open at a floor

  /** The elevators at `floor` whose action is the door-open `door`, in
      elevator order (`open_up` or `open_down`). */
  function Openers(es: seq<Elevator>, actions: seq<Action>, floor: int, door: Action): seq<Elevator>
    requires |es| <= |actions|
    reads es
  {
    if es == [] then []
    else
      var last := |es| - 1;
      Openers(es[..last], actions, floor, door)
        + (if es[last].loc == floor && actions[last] == door then [es[last]] else [])
  }

  /** The loop of `update` over the elevators that collects, for one floor,
      the elevators opening up and those opening down. */
  method ChooseOpeners(cars: seq<Elevator>, actions: seq<Action>, floor: int)
    returns (openUp: seq<Elevator>, openDown: seq<Elevator>)
    requires |cars| <= |actions|
    ensures openUp == Openers(cars, actions, floor, OpenUp)
    ensures openDown == Openers(cars, actions, floor, OpenDown)
  {
    openUp, openDown := [], [];
    var i := 0;
    while i < |cars|
      invariant 0 <= i <= |cars|
      invariant openUp == Openers(cars[..i], actions, floor, OpenUp)
      invariant openDown == Openers(cars[..i], actions, floor, OpenDown)
    {
      var car := cars[i];
      assert cars[..i + 1][..i] == cars[..i];
      if car.loc == floor {
        if actions[i] == OpenUp {
          openUp := openUp + [car];
        } else if actions[i] == OpenDown {
          openDown := openDown + [car];
        }
      }
      i := i + 1;
    }
    assert cars[..i] == cars;
  }

  /** Every elevator chosen to open for `door` at `floor` is at that floor and
      was told `door`. */
  lemma {:induction false} OpenersChosen(es: seq<Elevator>, actions: seq<Action>, floor: int, door: Action)
    requires |es| <= |actions|
    ensures forall e :: e in Openers(es, actions, floor, door) ==>
      exists i :: 0 <= i < |es| && es[i] == e && e.loc == floor && actions[i] == door
  {
    if es != [] {
      var last := |es| - 1;
      var init := es[..last];
      OpenersChosen(init, actions, floor, door);
      var front := Openers(init, actions, floor, door);
      forall e | e in Openers(es, actions, floor, door)
        ensures exists i :: 0 <= i < |es| && es[i] == e && e.loc == floor && actions[i] == door
      {
        if e in front {
          var i :| 0 <= i < |init| && init[i] == e && e.loc == floor && actions[i] == door;
          assert es[i] == e;
        } else {
          assert es[last] == e && e.loc == floor && actions[last] == door;
        }
      }
    }
  }

  /** Every elevator at `floor` that was told `door` is chosen. */
  lemma {:induction false} OpenersComplete(es: seq<Elevator>, actions: seq<Action>, floor: int, door: Action)
    requires |es| <= |actions|
    ensures forall i :: 0 <= i < |es| && es[i].loc == floor && actions[i] == door ==> es[i] in Openers(es, actions, floor, door)
  {
    if es != [] {
      var last := |es| - 1;
      var init := es[..last];
      OpenersComplete(init, actions, floor, door);
      forall i | 0 <= i < |es| && es[i].loc == floor && actions[i] == door
        ensures es[i] in Openers(es, actions, floor, door)
      {
        if i < last {
          assert init[i] == es[i];
        }
      }
    }
  }

  /** The chosen elevators keep the elevators' order. */
  lemma {:induction false} OpenersOrdered(es: seq<Elevator>, actions: seq<Action>, floor: int, door: Action)
    requires |es| <= |actions|
    ensures IsSubsequence(Openers(es, actions, floor, door), es)
  {
    if es != [] {
      var last := |es| - 1;
      var init := es[..last];
      OpenersOrdered(init, actions, floor, door);
      var front := Openers(init, actions, floor, door);
      SubsequenceAppend(front, init, es[last]);
      assert init + [es[last]] == es;
      if es[last].loc == floor && actions[last] == door {
        assert Openers(es, actions, floor, door) == front + [es[last]];
      } else {
        assert Openers(es, actions, floor, door) == front;
      }
    }
  }

  // ---------------------------------------------------------------------
  // The restricted view

  /** The hall call a floor's queue produces: up if anyone there is bound
      above it, down if anyone is bound below it. */
  ghost function HallCallOf(ppl: seq<Person>, floor: int): HallCall
  {
    HallCall(exists k :: 0 <= k < |ppl| && ppl[k].dst > floor,
             exists k :: 0 <= k < |ppl| && ppl[k].dst < floor)
  }

  /** An elevator's destination flags over `n` floors: floor `d` is flagged
      exactly when some passenger is bound for it. */
  ghost function DestFlags(ppl: seq<Person>, n: nat): seq<bool>
  {
    seq(n, d => exists k :: 0 <= k < |ppl| && ppl[k].dst == d)
  }

  // ---------------------------------------------------------------------
  // Who is tracked

  /** A person is among the elevators' passengers exactly when some
      elevator carries them. */
  lemma {:induction false} PassengersMembers(es: seq<Elevator>, p: Person)
    ensures p in Passengers(es) <==> exists i :: 0 <= i < |es| && p in es[i].ppl
  {
    if es != [] {
      var init := es[..|es| - 1];
      PassengersMembers(init, p);
      assert forall i :: 0 <= i < |init| ==> init[i] == es[i];
      if p in es[|es| - 1].ppl {
        assert p in Passengers(es);
      }
    }
  }

  /** `active_ppl` lists exactly the people waiting on some floor or riding
      some elevator, and as many entries as the queues and cars hold. */
  lemma ActiveMembers(floors: seq<seq<Person>>, es: seq<Elevator>, p: Person)
    ensures p in Concat(floors) + Passengers(es) <==>
      (exists f :: 0 <= f < |floors| && p in floors[f]) || (exists i :: 0 <= i < |es| && p in es[i].ppl)
    ensures |Concat(floors) + Passengers(es)| == TotalLength(floors) + |Passengers(es)|
  {
    ConcatMembers(floors, p);
    PassengersMembers(es, p);
    ConcatLength(floors);
  }

  class State {
    var elevators: seq<Elevator>
    var floors: seq<seq<Person>>
    var time: int
    var cost: int
    var avgPpl: real

    /** At least one floor and one elevator, a non-negative arrival rate, and
        elevators that are distinct cars. */
    ghost predicate Valid()
      reads this, elevators
    {
      && |floors| >= 1
      && |elevators| >= 1
      && avgPpl >= 0.0
      && Distinct(elevators)
      && forall e :: e in elevators ==> e.Valid()
    }

    /** A building of `nFloors` empty floors and `nElevators` new elevators
        (at least one of each), with `rate` expected arrivals per floor per
        tick (never negative). */
    constructor (nFloors: int := 1, nElevators: int := 1, rate: real := 0.1)
      ensures Valid()
      ensures |elevators| == Max(1, nElevators) && |floors| == Max(1, nFloors)
      ensures forall e :: e in elevators ==> fresh(e) && e.ppl == [] && e.loc == 0 && e.vMax == 1 && e.pplMax == 20
      ensures forall f :: 0 <= f < |floors| ==> floors[f] == []
      ensures time == 0 && cost == 0
      ensures avgPpl == if rate < 0.0 then 0.0 else rate
    {
      var cars: seq<Elevator> := [];
      while |cars| < Max(1, nElevators)
        invariant |cars| <= Max(1, nElevators)
        invariant Distinct(cars)
        invariant forall e :: e in cars ==> fresh(e) && e.Valid() && e.ppl == [] && e.loc == 0 && e.vMax == 1 && e.pplMax == 20
      {
        var car := new Elevator();
        cars := cars + [car];
      }
      elevators := cars;
      floors := seq(Max(1, nFloors), _ => []);
      time := 0;
      cost := 0;
      avgPpl := if rate < 0.0 then 0.0 else rate;
    }

    /** The clock step of `update`. */
    method Tick()
      requires Valid()
      modifies this`time
      ensures Valid()
      ensures time == old(time) + 1
    {
      time := time + 1;
    }

    /** `view_simple`: the hall calls of every floor and, for each elevator,
        its destination flags and location. Nothing in the building changes. */
    method ViewSimple() returns (view: View)
      requires forall e, p :: e in elevators && p in e.ppl ==> 0 <= p.dst < |floors|
      ensures view.Keys == CarKeys(|elevators|) + {FloorButtons}
      ensures SimpleShaped(view, |elevators|)
      ensures view[FloorButtons].Buttons? && |view[FloorButtons].calls| == |floors|
      ensures forall f :: 0 <= f < |floors| ==> view[FloorButtons].calls[f] == HallCallOf(floors[f], f)
      ensures forall i :: 0 <= i < |elevators| ==>
        E(i) in view && view[E(i)] == Car(DestFlags(elevators[i].ppl, |floors|), elevators[i].loc)
    {
      var calls: seq<HallCall> := [];
      while |calls| < |floors|
        invariant |calls| <= |floors|
        invariant forall g :: 0 <= g < |calls| ==> calls[g] == HallCallOf(floors[g], g)
      {
        var floor := |calls|;
        var ppl := floors[floor];
        var up, down := false, false;
        var j := 0;
        while j < |ppl|
          invariant 0 <= j <= |ppl|
          invariant up <==> exists k :: 0 <= k < j && ppl[k].dst > floor
          invariant down <==> exists k :: 0 <= k < j && ppl[k].dst < floor
        {
          var person := ppl[j];
          if !up && person.dst > floor {
            up := true;
          } else if !down && person.dst < floor {
            down := true;
          } else if up && down {
            break;
          }
          j := j + 1;
        }
        calls := calls + [HallCall(up, down)];
      }
      view := map[];
      var i := 0;
      while i < |elevators|
        invariant 0 <= i <= |elevators|
        invariant view.Keys == CarKeys(i)
        invariant forall k :: 0 <= k < i ==> E(k) in view && view[E(k)] == Car(DestFlags(elevators[k].ppl, |floors|), elevators[k].loc)
      {
        var car := elevators[i];
        var dests := seq(|floors|, _ => false);
        var j := 0;
        while j < |car.ppl|
          invariant 0 <= j <= |car.ppl|
          invariant |dests| == |floors|
          invariant forall d :: 0 <= d < |floors| ==> (dests[d] <==> exists k :: 0 <= k < j && car.ppl[k].dst == d)
        {
          assert car.ppl[j] in car.ppl;
          dests := dests[car.ppl[j].dst := true];
          j := j + 1;
        }
        assert dests == DestFlags(car.ppl, |floors|);
        assert CarKeys(i + 1) == CarKeys(i) + {E(i)};
        view := view[E(i) := Car(dests, car.loc)];
        i := i + 1;
      }
      view := view[FloorButtons := Buttons(calls)];
    }

    /** `active_ppl`: everyone tracked, the floors' queues in floor order and
        then the elevators' passengers in elevator order. */
    method ActivePpl() returns (people: seq<Person>)
      ensures people == Concat(floors) + Passengers(elevators)
    {
      people := [];
      var f := 0;
      while f < |floors|
        invariant 0 <= f <= |floors|
        invariant people == Concat(floors[..f])
      {
        var j := 0;
        while j < |floors[f]|
          invariant 0 <= j <= |floors[f]|
          invariant people == Concat(floors[..f]) + floors[f][..j]
        {
          people := people + [floors[f][j]];
          j := j + 1;
        }
        assert floors[..f + 1][..f] == floors[..f];
        assert floors[f][..j] == floors[f];
        f := f + 1;
      }
      assert floors[..f] == floors;
      var i := 0;
      while i < |elevators|
        invariant 0 <= i <= |elevators|
        invariant people == Concat(floors) + Passengers(elevators[..i])
      {
        var car := elevators[i];
        var j := 0;
        while j < |car.ppl|
          invariant 0 <= j <= |car.ppl|
          invariant people == Concat(floors) + Passengers(elevators[..i]) + car.ppl[..j]
        {
          people := people + [car.ppl[j]];
          j := j + 1;
        }
        assert elevators[..i + 1][..i] == elevators[..i];
        assert car.ppl[..j] == car.ppl;
        i := i + 1;
      }
      assert elevators[..i] == elevators;
    }

    /** `cum_cost`: the banked cost plus the wait cost every tracked person
        would be charged now. */
    method CumCost() returns (total: int)
      ensures total == cost + TotalWaitCost(Concat(floors) + Passengers(elevators))
      ensures total >= cost
      ensures Concat(floors) + Passengers(elevators) == [] ==> total == cost
    {
      var people := ActivePpl();
      var sum := 0;
      var i := 0;
      while i < |people|
        invariant 0 <= i <= |people|
        invariant sum == TotalWaitCost(people[..i])
      {
        assert people[..i + 1][..i] == people[..i];
        sum := sum + WaitCost(people[i].time);
        i := i + 1;
      }
      assert people[..i] == people;
      total := sum + cost;
    }

    /** The deterministic part of a floor's door resolution in `update`: the
        queue split by direction, the elevators opening for each direction, and
        how many of each group every opening elevator is to take. */
    method PlanFloor(floor: nat, actions: seq<Action>)
      returns (pplUp: seq<Person>, pplDown: seq<Person>,
               openUp: seq<Elevator>, openDown: seq<Elevator>,
               upShares: Result<seq<nat>>, downShares: Result<seq<nat>>)
      requires floor < |floors| && |elevators| <= |actions|
      ensures pplUp == GoingUp(floors[floor], floor) && pplDown == GoingDown(floors[floor], floor)
      ensures openUp == Openers(elevators, actions, floor, OpenUp)
      ensures openDown == Openers(elevators, actions, floor, OpenDown)
      ensures upShares == SplitSizes(|pplUp|, |openUp|)
      ensures downShares == SplitSizes(|pplDown|, |openDown|)
    {
      pplUp := GoingUp(floors[floor], floor);
      pplDown := GoingDown(floors[floor], floor);
      openUp, openDown := ChooseOpeners(elevators, actions, floor);
      upShares := SplitSizes(|pplUp|, |openUp|);
      downShares := SplitSizes(|pplDown|, |openDown|);
    }
  }
}
