/** The restricted view a dispatch policy receives: a dictionary with one entry
    per elevator (`E0`, `E1`, ...) holding its destination flags and location,
    and an entry `floor_buttons` holding each floor's hall calls. */
module Views {

  /** A floor's hall-call indicator: whether anyone waiting there wants to go
      up, and whether anyone wants to go down (never how many). */
  datatype HallCall = HallCall(up: bool, down: bool)

  /** The keys a view dictionary can hold: `E{index}`, `floor_buttons` and
      `n_floors`. */
  datatype Key = E(index: nat) | FloorButtons | NFloors

  /** The values stored under those keys. */
  datatype Entry =
    | Car(dst: seq<bool>, loc: int)
    | Buttons(calls: seq<HallCall>)
    | Count(n: int)

  type View = map<Key, Entry>

  /** The keys `E0` .. `E{k-1}`. */
  function CarKeys(k: nat): set<Key>
  {
    set i: nat | i < k :: E(i)
  }

  lemma {:induction false} CarKeysSize(k: nat)
    ensures |CarKeys(k)| == k
  {
    if k == 0 {
      assert CarKeys(0) == {};
    } else {
      CarKeysSize(k - 1);
      assert CarKeys(k) == CarKeys(k - 1) + {E(k - 1)};
      assert E(k - 1) !in CarKeys(k - 1);
    }
  }

  /** Every key `E0` .. `E{n-1}` is present and holds an elevator's record:
      what a policy needs to look up all `n` elevators without raising. */
  predicate CarsListed(view: View, n: nat)
  {
    forall i: nat :: i < n ==> E(i) in view && view[E(i)].Car?
  }

  /** The shape `view_simple` produces for `k` elevators: the keys `E0` ..
      `E{k-1}` holding elevator records, plus `floor_buttons` holding hall calls. */
  predicate SimpleShaped(view: View, k: nat)
  {
    && view.Keys == CarKeys(k) + {FloorButtons}
    && view[FloorButtons].Buttons?
    && CarsListed(view, k)
  }

  /** Once `floor_buttons` is popped from such a view, exactly the `k`
      elevator records remain. */
  lemma SimpleShapedRest(view: View, k: nat)
    requires SimpleShaped(view, k)
    ensures |view - {FloorButtons}| == k
    ensures CarsListed(view - {FloorButtons}, k)
  {
    var rest := view - {FloorButtons};
    assert rest.Keys == CarKeys(k);
    CarKeysSize(k);
  }
}
