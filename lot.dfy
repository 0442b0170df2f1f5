/**
  A single parking lot: a capacity fixed at construction and the cars it
  holds, each filed under the serial of the ticket that claims it.
 */
module Lot {
  import opened Ticketing

  /** The value of a lot. `cars` maps the serial of every ticket that is still
      good to the car it claims; `next` is the serial the lot hands out next. */
  datatype LotState = LotState(capacity: nat, cars: map<nat, Car>, next: nat)

  /** The lot invariant: occupancy never exceeds capacity, and every live
      serial was handed out earlier (so `next` is never a live serial). */
  predicate LotValid(l: LotState)
  {
    |l.cars| <= l.capacity && forall s :: s in l.cars ==> s < l.next
  }

  /** The lot can take one more car. */
  predicate HasSpace(l: LotState)
  {
    |l.cars| < l.capacity
  }

  /** A lot as constructed: empty. */
  function EmptyLot(capacity: nat): (l: LotState)
    ensures LotValid(l) && l.capacity == capacity && l.cars == map[]
  {
    LotState(capacity, map[], 0)
  }

  /** Parking into one lot: with room left, the car is filed under a serial
      no live ticket carries and that serial is returned; a full lot refuses
      and is left as it was. The serial is fresh: it was never handed out
      before, and the lot will not hand it out again. */
  function LotPark(l: LotState, car: Car): (r: (LotState, Option<nat>))
    requires LotValid(l)
    ensures LotValid(r.0) && r.0.capacity == l.capacity
    ensures r.1.Some? <==> HasSpace(l)
    ensures r.1.None? ==> r.0 == l
    ensures r.1.Some? ==> r.1.value !in l.cars && r.0.cars == l.cars[r.1.value := car]
    ensures l.next <= r.0.next
    ensures r.1.Some? ==> l.next <= r.1.value < r.0.next
  {
    if HasSpace(l) then
      (LotState(l.capacity, l.cars[l.next := car], l.next + 1), Some(l.next))
    else
      (l, None)
  }

  /** Fetching from one lot: a live serial gives back its car and stops being
      live; any other serial is refused and the lot is left as it was. */
  function LotFetch(l: LotState, serial: nat): (r: (LotState, Option<Car>))
    ensures LotValid(l) ==> LotValid(r.0)
    ensures r.0.capacity == l.capacity && r.0.next == l.next
    ensures r.1.Some? <==> serial in l.cars
    ensures r.1.None? ==> r.0 == l
    ensures r.1.Some? ==> r.1.value == l.cars[serial] && r.0.cars == l.cars - {serial}
  {
    if serial in l.cars then
      (l.(cars := l.cars - {serial}), Some(l.cars[serial]))
    else
      (l, None)
  }

  /** `ParkingLot(capacity)`: the mutable lot the attendant parks into. */
  class ParkingLot {
    const capacity: nat
    var cars: map<nat, Car>
    var nextSerial: nat

    /** The lot's current value. */
    function State(): LotState
      reads this
    {
      LotState(capacity, cars, nextSerial)
    }

    constructor (capacity: nat)
      ensures State() == EmptyLot(capacity)
    {
      this.capacity := capacity;
      cars := map[];
      nextSerial := 0;
    }

    /** Whether the lot can take one more car. */
    method HasPosition() returns (free: bool)
      ensures free <==> HasSpace(State())
    {
      free := |cars| < capacity;
    }

    method Park(car: Car) returns (serial: Option<nat>)
      requires LotValid(State())
      modifies this
      ensures (State(), serial) == LotPark(old(State()), car)
    {
      if |cars| < capacity {
        serial := Some(nextSerial);
        cars := cars[nextSerial := car];
        nextSerial := nextSerial + 1;
      } else {
        serial := None;
      }
    }

    method Fetch(serial: nat) returns (car: Option<Car>)
      modifies this
      ensures (State(), car) == LotFetch(old(State()), serial)
    {
      if serial in cars {
        car := Some(cars[serial]);
        cars := cars - {serial};
      } else {
        car := None;
      }
    }
  }
}
