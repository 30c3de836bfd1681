/** The placeholder dispatch policy `move`: it flattens the view into one
    fixed-size list of cells, tells every elevator to open its doors going
    down, and remembers the actions it returned. */
module Logic {
  import opened Outcomes
  import opened Constants
  import opened Views

  /** One cell of the flattened view: a floor's hall call, one destination
      flag of an elevator, or an elevator's location. */
  datatype Cell = Call(call: HallCall) | Flag(flag: bool) | Floor(floor: int)

  function Calls(calls: seq<HallCall>): (r: seq<Cell>)
    ensures |r| == |calls|
  {
    seq(|calls|, j requires 0 <= j < |calls| => Call(calls[j]))
  }

  function Flags(dst: seq<bool>): (r: seq<Cell>)
    ensures |r| == |dst|
  {
    seq(|dst|, j requires 0 <= j < |dst| => Flag(dst[j]))
  }

  /** For `E0` .. `E{n-1}` in turn, the elevator's destination flags followed
      by its location. */
  function CarCells(view: View, n: nat): seq<Cell>
    requires CarsListed(view, n)
  {
    if n == 0 then []
    else
      var car := view[E(n - 1)];
      CarCells(view, n - 1) + Flags(car.dst) + [Floor(car.loc)]
  }

  /** The flattened view has a fixed size: one cell per floor, then one per
      floor plus one for the location for every elevator. */
  lemma {:induction false} CarCellsLength(view: View, n: nat, nFloors: nat)
    requires CarsListed(view, n)
    requires forall i: nat :: i < n ==> |view[E(i)].dst| == nFloors
    ensures |CarCells(view, n)| == n * (nFloors + 1)
  {
    if n > 0 {
      CarCellsLength(view, n - 1, nFloors);
    }
  }

  lemma CarCellsStep(view: View, i: nat)
    requires CarsListed(view, i) && E(i) in view && view[E(i)].Car?
    ensures CarsListed(view, i + 1)
    ensures CarCells(view, i + 1) == CarCells(view, i) + Flags(view[E(i)].dst) + [Floor(view[E(i)].loc)]
  {
  }

  /** What `move` needs from the dictionary left after popping
      `floor_buttons`: every `E{i}` it looks up is an elevator record, and
      when there is one the popped value is a list it can extend. */
  predicate Accepts(rest: View, popped: Entry)
  {
    CarsListed(rest, |rest|) && (|rest| > 0 ==> popped.Buttons?)
  }

  /** The loop of `move` over `E0` .. `E{n-1}` for the `n` entries left in
      `rest`, extending the popped list with each elevator's flags and
      location; `ok` is false where a lookup or the extension would raise. */
  method ReadCars(rest: View, popped: Entry) returns (ok: bool, flat: seq<Cell>)
    ensures ok <==> Accepts(rest, popped)
    ensures ok && popped.Buttons? ==> flat == Calls(popped.calls) + CarCells(rest, |rest|)
  {
    var n := |rest|;
    if n == 0 {
      // No lookup happens; the flattened list is the popped value itself.
      return true, if popped.Buttons? then Calls(popped.calls) else [];
    }
    // The first lookup or the first extension raises; both raise the same error.
    if !popped.Buttons? {
      return false, [];
    }
    flat := Calls(popped.calls);
    var i := 0;
    while i < n
      invariant 0 <= i <= n
      invariant CarsListed(rest, i)
      invariant flat == Calls(popped.calls) + CarCells(rest, i)
    {
      if E(i) !in rest || !rest[E(i)].Car? {
        assert !CarsListed(rest, n);
        return false, flat;
      }
      var car := rest[E(i)];
      CarCellsStep(rest, i);
      flat := flat + Flags(car.dst) + [Floor(car.loc)];
      i := i + 1;
    }
    ok := true;
  }

  /** `move` without its memory: pops `floor_buttons` from the caller's view
      (the remaining dictionary is returned as `rest`), builds the flattened
      list and answers OPEN_DOWN for every remaining entry. */
  method Flatten(view: View) returns (rest: View, actions: Result<seq<Action>>, flat: seq<Cell>)
    ensures FloorButtons !in view ==> rest == view && actions == Err(KeyError)
    ensures FloorButtons in view ==> rest == view - {FloorButtons}
    ensures FloorButtons in view && !Accepts(rest, view[FloorButtons]) ==> actions == Err(AttributeError)
    ensures actions.Ok? <==> FloorButtons in view && Accepts(rest, view[FloorButtons])
    ensures actions.Ok? ==> |actions.value| == |rest| && forall i :: 0 <= i < |rest| ==> actions.value[i] == OpenDown
    ensures actions.Ok? && view[FloorButtons].Buttons? ==> flat == Calls(view[FloorButtons].calls) + CarCells(rest, |rest|)
  {
    if FloorButtons !in view {
      return view, Err(KeyError), [];
    }
    var popped := view[FloorButtons];
    rest := view - {FloorButtons};
    var answer := seq(|rest|, _ => OpenDown);
    var ok;
    ok, flat := ReadCars(rest, popped);
    actions := if ok then Ok(answer) else Err(AttributeError);
  }

  /** The policy with the memory the source keeps as the function attribute
      `move.prev_actions`. */
  class Dispatcher {
    var prevActions: Option<seq<Action>>

    constructor ()
      ensures prevActions == None
    {
      prevActions := None;
    }

    /** `move`: as `Flatten`, and on success the returned actions are
        remembered; a call that raises leaves the memory as it was. */
    method Move(view: View) returns (rest: View, actions: Result<seq<Action>>, flat: seq<Cell>)
      modifies this
      ensures FloorButtons !in view ==> rest == view && actions == Err(KeyError)
      ensures FloorButtons in view ==> rest == view - {FloorButtons}
      ensures FloorButtons in view && !Accepts(rest, view[FloorButtons]) ==> actions == Err(AttributeError)
      ensures actions.Ok? <==> FloorButtons in view && Accepts(rest, view[FloorButtons])
      ensures actions.Ok? ==> |actions.value| == |rest| && forall i :: 0 <= i < |rest| ==> actions.value[i] == OpenDown
      ensures actions.Ok? && view[FloorButtons].Buttons? ==> flat == Calls(view[FloorButtons].calls) + CarCells(rest, |rest|)
      ensures actions.Ok? ==> prevActions == Some(actions.value)
      ensures actions.Err? ==> prevActions == old(prevActions)
    {
      rest, actions, flat := Flatten(view);
      if actions.Ok? {
        prevActions := Some(actions.value);
      }
    }
  }

  /** On a view of the shape `view_simple` produces for `k` elevators, `move`
      raises nothing, answers OPEN_DOWN for each of the `k` elevators, and the
      flattened list has `n_floors + k * (n_floors + 1)` cells when every
      destination vector covers the `n_floors` floors. */
  lemma SimpleViewAccepted(view: View, k: nat, nFloors: nat)
    requires SimpleShaped(view, k)
    requires |view[FloorButtons].calls| == nFloors
    requires forall i: nat :: i < k ==> |view[E(i)].dst| == nFloors
    ensures Accepts(view - {FloorButtons}, view[FloorButtons])
    ensures |view - {FloorButtons}| == k
    ensures CarsListed(view - {FloorButtons}, k)
    ensures |Calls(view[FloorButtons].calls) + CarCells(view - {FloorButtons}, k)| == nFloors + k * (nFloors + 1)
  {
    SimpleShapedRest(view, k);
    var rest := view - {FloorButtons};
    assert forall i: nat :: i < k ==> rest[E(i)] == view[E(i)];
    CarCellsLength(rest, k, nFloors);
  }
}
