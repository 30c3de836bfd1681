/** Two more dispatch policies: the `default` placeholder, which tells every
    elevator to open going up, and `scan`, a partial SCAN rule for one
    elevator. */
module Models {
  import opened Outcomes
  import opened Constants
  import opened Views

  /** `default`: pops `floor_buttons` and then `n_floors` from the caller's
      view (the remaining dictionary is returned as `rest`; when the second
      pop raises, the first has already happened), then looks up `E0` ..
      `E{n-1}` for the `n` remaining entries and answers OPEN_UP for each. */
  method Default(view: View) returns (rest: View, actions: Result<seq<Action>>)
    ensures FloorButtons !in view ==> rest == view && actions == Err(KeyError)
    ensures FloorButtons in view && NFloors !in view ==> rest == view - {FloorButtons} && actions == Err(KeyError)
    ensures FloorButtons in view && NFloors in view ==> rest == view - {FloorButtons, NFloors}
    ensures actions.Ok? <==> FloorButtons in view && NFloors in view && CarsListed(rest, |rest|)
    ensures FloorButtons in view && NFloors in view && !CarsListed(rest, |rest|) ==> actions == Err(AttributeError)
    ensures actions.Ok? ==> |actions.value| == |rest| && forall i :: 0 <= i < |rest| ==> actions.value[i] == OpenUp
  {
    if FloorButtons !in view {
      return view, Err(KeyError);
    }
    rest := view - {FloorButtons};
    if NFloors !in rest {
      return rest, Err(KeyError);
    }
    rest := rest - {NFloors};
    var n := |rest|;
    var answer := seq(n, _ => OpenUp);
    var i := 0;
    while i < n
      invariant 0 <= i <= n
      invariant CarsListed(rest, i)
    {
      if E(i) !in rest || !rest[E(i)].Car? {
        return rest, Err(AttributeError);
      }
      i := i + 1;
    }
    actions := Ok(answer);
  }

  /** A complete view for `k` elevators (the keys `E0` .. `E{k-1}` holding
      elevator records, plus `floor_buttons` and `n_floors`) leaves exactly
      those `k` records once the two pops are done, so `default` answers
      OPEN_UP for each of the `k` elevators. */
  lemma DefaultOnCompleteView(view: View, k: nat)
    requires view.Keys == CarKeys(k) + {FloorButtons, NFloors}
    requires CarsListed(view, k)
    ensures |view - {FloorButtons, NFloors}| == k
    ensures CarsListed(view - {FloorButtons, NFloors}, k)
  {
    var rest := view - {FloorButtons, NFloors};
    assert rest.Keys == CarKeys(k);
    CarKeysSize(k);
  }

  /** Whether a request is pending at an interior floor: a hall call in
      either direction, or a passenger bound for it. */
  predicate Requested(destinations: seq<bool>, location: int, floorButtons: seq<HallCall>)
    requires 0 <= location < |destinations| && location < |floorButtons|
  {
    floorButtons[location].up || floorButtons[location].down || destinations[location]
  }

  /** `scan` for one elevator on a building with `|destinations|` floors.
      At floor 0 it sends the car to the top floor, at the top floor back to
      0; at an interior floor with a request it opens in the direction the car
      was last heading (up after a move to the top floor or an OPEN_UP, down
      otherwise); at an interior floor without a request it gives no action. */
  function Scan(destinations: seq<bool>, location: int, floorButtons: seq<HallCall>, prevAction: Option<Action>): (r: Option<Action>)
    requires 0 <= location
    requires location != 0 && location != |destinations| - 1 ==>
      location < |destinations| && location < |floorButtons|
    ensures r.Some? && r.value.Move? <==> location == 0 || location == |destinations| - 1
    ensures location == 0 ==> r == Some(Move(|destinations| - 1))
    ensures location != 0 && location == |destinations| - 1 ==> r == Some(Move(0))
    ensures r.Some? && !r.value.Move? <==>
      location != 0 && location != |destinations| - 1 && Requested(destinations, location, floorButtons)
    ensures r == Some(OpenUp) <==>
      location != 0 && location != |destinations| - 1 && Requested(destinations, location, floorButtons)
      && (prevAction == Some(Move(|destinations| - 1)) || prevAction == Some(OpenUp))
    ensures r == None <==>
      location != 0 && location != |destinations| - 1 && !Requested(destinations, location, floorButtons)
  {
    var highest := |destinations| - 1;
    if location != 0 && location != highest then
      if floorButtons[location].up || floorButtons[location].down || destinations[location] then
        if prevAction == Some(Move(highest)) || prevAction == Some(OpenUp) then Some(OpenUp) else Some(OpenDown)
      else
        None
    else if location == 0 then
      Some(Move(highest))
    else
      Some(Move(0))
  }
}
