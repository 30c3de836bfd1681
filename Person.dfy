/** A passenger: a destination floor and a clock counting the ticks it has been tracked. */
module Persons {

  /** The cost charged for a journey that took `time` ticks: its square, so
      that long waits are punished disproportionately. */
  function WaitCost(time: int): (c: int)
    ensures c >= 0
    ensures time != 0 ==> c > 0
  {
    time * time
  }

  /** Longer waits never cost less. */
  lemma WaitCostGrows(s: int, t: int)
    requires 0 <= s <= t
    ensures WaitCost(s) <= WaitCost(t)
  {
    assert s * s <= s * t;
    assert s * t <= t * t;
  }

  class Person {
    const dst: int
    var time: nat

    /** A new passenger bound for `dest` (floor 1 unless given), not yet waited. */
    constructor (dest: int := 1)
      ensures dst == dest && time == 0
    {
      dst := dest;
      time := 0;
    }

    /** One tick passes for this passenger at floor `loc`; it is charged the
        cost of its (already advanced) wait only if `loc` is its destination. */
    method Update(loc: int) returns (cost: int)
      modifies this
      ensures time == old(time) + 1
      ensures loc == dst ==> cost == WaitCost(time)
      ensures loc != dst ==> cost == 0
    {
      time := time + 1;
      cost := if loc == dst then WaitCost(time) else 0;
    }
  }

  /** The summed wait cost of the listed passengers, added up from the front. */
  function TotalWaitCost(ps: seq<Person>): (c: int)
    reads ps
    ensures c >= 0
  {
    if ps == [] then 0 else TotalWaitCost(ps[..|ps| - 1]) + WaitCost(ps[|ps| - 1].time)
  }
}
