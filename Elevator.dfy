/** One elevator car: where it is, how fast it moves, and who rides in it. */
module Elevators {
  import opened ListUtils
  import opened Persons

  function Abs(x: int): nat
  {
    if x < 0 then -x else x
  }

  function Min(a: int, b: int): int
  {
    if a <= b then a else b
  }

  /** `x` lies on the closed stretch between `a` and `b`. */
  predicate Between(x: int, a: int, b: int)
  {
    (a <= x <= b) || (b <= x <= a)
  }

  /** The floor an elevator at `loc` reaches in one `move` toward `target` at
      top speed `vMax`: it arrives if the target is nearer than `vMax`, and
      otherwise travels exactly `vMax` floors toward it. */
  function Step(loc: int, target: int, vMax: int): (r: int)
    ensures vMax >= 0 ==> Between(r, loc, target)
    ensures vMax >= 0 ==> Abs(r - loc) == Min(vMax, Abs(target - loc))
    ensures Abs(target - loc) < vMax ==> r == target
  {
    if Abs(target - loc) < vMax then target
    else if target > loc then loc + vMax
    else loc - vMax
  }

  /** Whether a passenger stays aboard when the doors open at `loc`. */
  function StaysAboard(loc: int): Person -> bool
  {
    (p: Person) => p.dst != loc
  }

  /** The passengers that do not leave when the doors open at `loc`, in order. */
  function Staying(ppl: seq<Person>, loc: int): seq<Person>
  {
    Filter(ppl, StaysAboard(loc))
  }

  /** What opening the doors at `loc` charges, judged before they open: every
      passenger whose destination is `loc` pays the wait cost of its clock
      advanced by the tick the opening takes. */
  function ArrivalCharge(ppl: seq<Person>, loc: int): (c: int)
    reads ppl
    ensures c >= 0
  {
    if ppl == [] then 0
    else (if ppl[0].dst == loc then WaitCost(ppl[0].time + 1) else 0) + ArrivalCharge(ppl[1..], loc)
  }

  /** Opening the doors costs nothing exactly when nobody leaves: every
      alighting passenger pays for at least the one tick the opening takes. */
  lemma {:induction false} ArrivalChargeZero(ppl: seq<Person>, loc: int)
    ensures ArrivalCharge(ppl, loc) == 0 <==> forall i :: 0 <= i < |ppl| ==> ppl[i].dst != loc
  {
    if ppl != [] {
      ArrivalChargeZero(ppl[1..], loc);
      assert forall i :: 1 <= i < |ppl| ==> ppl[i] == ppl[1..][i - 1];
    }
  }

  /** How many of `waiting` people board when `room` places are free
      (`range` of a negative count is empty). */
  function BoardCount(room: int, waiting: nat): (n: nat)
    ensures n <= waiting
    ensures n <= room || n == 0
    ensures n == waiting || n == room || (room < 0 && n == 0)
  {
    if room < 0 then 0 else Min(room, waiting)
  }

  /** All passengers of the listed elevators, elevator by elevator. */
  function Passengers(es: seq<Elevator>): seq<Person>
    reads es
  {
    if es == [] then [] else Passengers(es[..|es| - 1]) + es[|es| - 1].ppl
  }

  class Elevator {
    var ppl: seq<Person>
    var loc: int
    var vMax: int
    var pplMax: int

    /** A passenger rides in a car at most once. */
    ghost predicate Valid()
      reads this
    {
      Distinct(ppl)
    }

    /** An empty car at floor 0 with top speed `speed` and room for `max` people. */
    constructor (speed: int := 1, max: int := 20)
      ensures Valid()
      ensures ppl == [] && loc == 0 && vMax == speed && pplMax == max
    {
      ppl := [];
      loc := 0;
      vMax := speed;
      pplMax := max;
    }

    /** Opens the doors: every passenger's clock advances, those at their
        destination leave and are charged, then people board from the front of
        `people` while there is room. Returns the charge and the people left
        waiting. */
    method Open(people: seq<Person>) returns (cost: int, rest: seq<Person>)
      requires Valid()
      requires Distinct(people) && forall p :: p in people ==> p !in ppl
      modifies this`ppl, ppl
      ensures Valid()
      ensures forall p :: p in old(ppl) ==> p.time == old(p.time) + 1
      ensures cost == old(ArrivalCharge(ppl, loc))
      ensures ppl == Staying(old(ppl), loc) + people[..BoardCount(pplMax - |Staying(old(ppl), loc)|, |people|)]
      ensures rest == people[BoardCount(pplMax - |Staying(old(ppl), loc)|, |people|)..]
      ensures forall p :: p in old(ppl) && p.dst == loc ==> p !in ppl
      ensures |old(ppl)| <= pplMax ==> |ppl| <= pplMax
    {
      cost := Release();
      FilterMembers(old(ppl), StaysAboard(loc));
      ghost var staying := ppl;
      rest := Board(people);
      DistinctAppend(staying, people[..|ppl| - |staying|]);
    }

    /** The first half of `open`: walking the passengers from the back, each
        clock advances and those whose destination is here leave the car. */
    method Release() returns (cost: int)
      requires Valid()
      modifies this`ppl, ppl
      ensures Valid()
      ensures forall p :: p in old(ppl) ==> p.time == old(p.time) + 1
      ensures cost == old(ArrivalCharge(ppl, loc))
      ensures ppl == Staying(old(ppl), loc)
    {
      var riders, here := ppl, loc;
      var kept := riders;
      cost := 0;
      var i := |riders|;
      while i > 0
        invariant 0 <= i <= |riders|
        invariant kept == riders[..i] + Staying(riders[i..], here)
        invariant forall k :: 0 <= k < i ==> riders[k].time == old(riders[k].time)
        invariant forall k :: i <= k < |riders| ==> riders[k].time == old(riders[k].time) + 1
        invariant cost == old(ArrivalCharge(riders[i..], here))
      {
        i := i - 1;
        DistinctAt(riders, i);
        assert riders[i..][1..] == riders[i + 1..];
        var charge;
        kept, charge := ReleaseOne(riders, i, kept, here);
        cost := cost + charge;
      }
      assert riders[0..] == riders;
      FilterDistinct(riders, StaysAboard(here));
      ppl := kept;
    }

    /** The second half of `open`: people board from the front of `people`
        while there is room; the rest are returned. */
    method Board(people: seq<Person>) returns (rest: seq<Person>)
      modifies this`ppl
      ensures ppl == old(ppl) + people[..BoardCount(pplMax - |old(ppl)|, |people|)]
      ensures rest == people[BoardCount(pplMax - |old(ppl)|, |people|)..]
    {
      var n := Min(pplMax - |ppl|, |people|);
      rest := people;
      var j := 0;
      while j < n
        invariant 0 <= j <= |people|
        invariant j <= if n < 0 then 0 else n
        invariant ppl == old(ppl) + people[..j]
        invariant rest == people[j..]
      {
        ppl := ppl + [rest[0]];
        rest := rest[1..];
        j := j + 1;
      }
      assert j == BoardCount(pplMax - |old(ppl)|, |people|);
    }

    /** Moves one tick toward floor `target`. */
    method Move(target: int := 0)
      modifies this`loc
      ensures loc == Step(old(loc), target, vMax)
    {
      loc := Step(loc, target, vMax);
    }

    /** At the end of a run, charges every remaining passenger as if it had
        arrived: each clock advances once and the total wait cost is returned. */
    method End() returns (cost: int)
      requires Valid()
      modifies ppl
      ensures forall p :: p in ppl ==> p.time == old(p.time) + 1
      ensures cost == TotalWaitCost(ppl)
    {
      var riders := ppl;
      cost := 0;
      var i := 0;
      while i < |riders|
        invariant 0 <= i <= |riders|
        invariant forall k :: 0 <= k < i ==> riders[k].time == old(riders[k].time) + 1
        invariant forall k :: i <= k < |riders| ==> riders[k].time == old(riders[k].time)
        invariant cost == TotalWaitCost(riders[..i])
      {
        var person := riders[i];
        DistinctAt(riders, i);
        var charge := person.Update(person.dst);
        assert riders[..i + 1][..i] == riders[..i];
        cost := cost + charge;
        i := i + 1;
      }
      assert riders[..i] == riders;
    }
  }

  /** The body of the release loop for the passenger at index `i`: its clock
      advances, it is removed with `list.remove` if `here` is its destination,
      and the charge is its wait cost then. */
  method ReleaseOne(riders: seq<Person>, i: nat, kept: seq<Person>, here: int) returns (next: seq<Person>, charge: int)
    requires i < |riders| && Distinct(riders)
    requires kept == riders[..i + 1] + Staying(riders[i + 1..], here)
    modifies riders[i]
    ensures next == riders[..i] + Staying(riders[i..], here)
    ensures riders[i].time == old(riders[i].time) + 1
    ensures charge == if riders[i].dst == here then WaitCost(old(riders[i].time) + 1) else 0
  {
    var person := kept[i];
    ReleaseStep(riders, i, kept, here);
    next := kept;
    if here == person.dst {
      next := Remove(kept, person);
    }
    charge := person.Update(here);
  }

  /** One step of the release loop, which walks the passengers from the back:
      once the passengers after index `i` are filtered, dealing with the one at
      `i` (removing it with `list.remove` if it has arrived) extends the filtered
      part by one. */
  lemma ReleaseStep(riders: seq<Person>, i: nat, kept: seq<Person>, loc: int)
    requires i < |riders| && Distinct(riders)
    requires kept == riders[..i + 1] + Staying(riders[i + 1..], loc)
    ensures riders[i] in kept && kept[i] == riders[i]
    ensures riders[i..] == [riders[i]] + riders[i + 1..]
    ensures riders[i].dst == loc ==> Remove(kept, riders[i]) == riders[..i] + Staying(riders[i..], loc)
    ensures riders[i].dst != loc ==> kept == riders[..i] + Staying(riders[i..], loc)
  {
    var person := riders[i];
    assert riders[i..] == [person] + riders[i + 1..];
    assert kept[i] == person;
    assert kept[..i] == riders[..i];
    if person.dst == loc {
      assert person !in kept[..i];
      RemoveAt(kept, i, person);
      assert kept[i + 1..] == Staying(riders[i + 1..], loc);
    } else {
      assert riders[..i + 1] == riders[..i] + [person];
    }
  }

  lemma DistinctAt<T>(s: seq<T>, i: nat)
    requires Distinct(s) && i < |s|
    ensures forall k :: 0 <= k < |s| && k != i ==> s[k] != s[i]
  {
  }

  /** Two distinct lists with no common element form a distinct list. */
  lemma DistinctAppend<T>(a: seq<T>, b: seq<T>)
    requires Distinct(a) && Distinct(b)
    requires forall x :: x in b ==> x !in a
    ensures Distinct(a + b)
  {
    forall i, j | 0 <= i < j < |a + b| ensures (a + b)[i] != (a + b)[j] {
      if j >= |a| && i < |a| {
        assert (a + b)[j] == b[j - |a|] && b[j - |a|] in b;
      }
    }
  }
}
