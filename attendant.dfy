/**
  `ParkingBoy`: the public `park` / `fetch` surface. It refuses a null car or
  one that is already parked, and a missing ticket, before handing the rest of
  the work to the lots.
 */
module Attendant {
  import opened Ticketing
  import opened Lot
  import opened LotGroup

  /** Everything the attendant's answers depend on: the lots in order and the
      cars it has parked and not yet given back. */
  datatype Facility = Facility(lots: seq<LotState>, parked: set<Car>)

  /** The serials under which one lot holds the given car. */
  function SlotsOf(cars: map<nat, Car>, car: Car): set<nat>
  {
    set s | s in cars && cars[s] == car
  }

  /** How many slots, over all lots, hold the given car. */
  function Count(lots: seq<LotState>, car: Car): nat
  {
    if lots == [] then 0 else |SlotsOf(lots[0].cars, car)| + Count(lots[1..], car)
  }

  /** The attendant's invariant: every lot keeps its own, and a car is on the
      parked list exactly when one slot, and only one, holds it. */
  ghost predicate FacilityValid(f: Facility)
  {
    AllValid(f.lots) && forall car :: Count(f.lots, car) == (if car in f.parked then 1 else 0)
  }

  /** Lots freshly built with no car in them. */
  predicate AllEmpty(lots: seq<LotState>)
  {
    forall i :: 0 <= i < |lots| ==> lots[i].cars == map[]
  }

  /** The facility as the tests build it: empty lots of the given capacities. */
  function Initial(capacities: seq<nat>): (f: Facility)
    ensures FacilityValid(f) && AllEmpty(f.lots) && |f.lots| == |capacities|
    ensures forall i :: 0 <= i < |capacities| ==> f.lots[i].capacity == capacities[i]
  {
    var lots := seq(|capacities|, i requires 0 <= i < |capacities| => EmptyLot(capacities[i]));
    CountEmpty(lots);
    Facility(lots, {})
  }

  /** `park(car)`: a null car or one already parked is refused with
      ParkErrorCar; with every lot full the call is refused with
      ParkingLotNotPosition; otherwise the first lot with room takes the car,
      the car goes on the parked list and the ticket redeems exactly it. A
      refused call changes nothing. */
  function FacilityPark(f: Facility, car: Option<Car>): (r: (Facility, ParkResult))
    requires AllValid(f.lots)
    ensures AllValid(r.0.lots) && |r.0.lots| == |f.lots|
    ensures r.1.ParkFailed? ==> r.0 == f
    ensures r.1 == ParkFailed(ParkErrorCar) <==> car.None? || car.value in f.parked
    ensures r.1 == ParkFailed(ParkingLotNotPosition) <==>
              car.Some? && car.value !in f.parked && FirstFit(f.lots).None?
    ensures r.1.Parked? <==> car.Some? && car.value !in f.parked && FirstFit(f.lots).Some?
    ensures r.1.Parked? ==>
      var t := r.1.ticket;
      && t.lotId == FirstFit(f.lots).value
      && !Redeemable(f.lots, t)
      && Redeemable(r.0.lots, t)
      && r.0.lots[t.lotId].cars[t.serial] == car.value
      && r.0.parked == f.parked + {car.value}
      && (r.0.lots, Some(t)) == GroupPark(f.lots, car.value)
  {
    if car.None? || car.value in f.parked then
      (f, ParkFailed(ParkErrorCar))
    else
      var (lots, ticket) := GroupPark(f.lots, car.value);
      if ticket.None? then
        (f, ParkFailed(ParkingLotNotPosition))
      else
        (Facility(lots, f.parked + {car.value}), Parked(ticket.value))
  }

  /** `fetch(ticket)`: a missing ticket is refused with NullTicket; a ticket
      that is not good right now (never issued, or used) with WrongTicket;
      a good ticket gives back the car filed under it, takes the car off the
      parked list and is used up. A refused call changes nothing. */
  function FacilityFetch(f: Facility, ticket: Option<Ticket>): (r: (Facility, FetchResult))
    ensures |r.0.lots| == |f.lots|
    ensures AllValid(f.lots) ==> AllValid(r.0.lots)
    ensures r.1.FetchFailed? ==> r.0 == f
    ensures r.1 == FetchFailed(NullTicket) <==> ticket.None?
    ensures r.1 == FetchFailed(WrongTicket) <==> ticket.Some? && !Redeemable(f.lots, ticket.value)
    ensures r.1.Fetched? <==> ticket.Some? && Redeemable(f.lots, ticket.value)
    ensures r.1.Fetched? ==>
      var t := ticket.value;
      && r.1.car == f.lots[t.lotId].cars[t.serial]
      && !Redeemable(r.0.lots, t)
      && r.0.parked == f.parked - {r.1.car}
      && r.0.lots == GroupFetch(f.lots, t).0
  {
    if ticket.None? then
      (f, FetchFailed(NullTicket))
    else
      var (lots, car) := GroupFetch(f.lots, ticket.value);
      if car.None? then
        (f, FetchFailed(WrongTicket))
      else
        (Facility(lots, f.parked - {car.value}), Fetched(car.value))
  }

  lemma {:induction false} CountEmpty(lots: seq<LotState>)
    requires AllEmpty(lots)
    ensures forall car :: Count(lots, car) == 0
  {
    if lots != [] {
      CountEmpty(lots[1..]);
      forall car ensures Count(lots, car) == 0 {
        assert SlotsOf(lots[0].cars, car) == {};
      }
    }
  }

  lemma SlotsOfAdd(cars: map<nat, Car>, s: nat, d: Car, car: Car)
    requires s !in cars
    ensures |SlotsOf(cars[s := d], car)| == |SlotsOf(cars, car)| + (if d == car then 1 else 0)
  {
    if d == car {
      assert SlotsOf(cars[s := d], car) == SlotsOf(cars, car) + {s};
    } else {
      assert SlotsOf(cars[s := d], car) == SlotsOf(cars, car);
    }
  }

  lemma SlotsOfRemove(cars: map<nat, Car>, s: nat, car: Car)
    requires s in cars
    ensures |SlotsOf(cars - {s}, car)| + (if cars[s] == car then 1 else 0) == |SlotsOf(cars, car)|
  {
    if cars[s] == car {
      assert SlotsOf(cars, car) == SlotsOf(cars - {s}, car) + {s};
    } else {
      assert SlotsOf(cars - {s}, car) == SlotsOf(cars, car);
    }
  }

  /** Replacing one lot changes the count of a car by that lot's difference. */
  lemma {:induction false} CountUpdate(lots: seq<LotState>, k: nat, l: LotState, car: Car)
    requires k < |lots|
    ensures Count(lots[k := l], car) + |SlotsOf(lots[k].cars, car)|
         == Count(lots, car) + |SlotsOf(l.cars, car)|
  {
    if k == 0 {
      assert lots[k := l][1..] == lots[1..];
    } else {
      assert lots[k := l][1..] == lots[1..][k - 1 := l];
      CountUpdate(lots[1..], k - 1, l, car);
    }
  }

  /** `park` keeps the attendant's invariant. */
  lemma ParkPreservesValid(f: Facility, car: Option<Car>)
    requires FacilityValid(f)
    ensures FacilityValid(FacilityPark(f, car).0)
  {
    var (g, r) := FacilityPark(f, car);
    if r.Parked? {
      var t := r.ticket;
      var k: nat := t.lotId;
      var lots := GroupPark(f.lots, car.value).0;
      assert g.lots == lots;
      assert lots == f.lots[k := lots[k]];
      forall c ensures Count(g.lots, c) == (if c in g.parked then 1 else 0) {
        CountUpdate(f.lots, k, lots[k], c);
        SlotsOfAdd(f.lots[k].cars, t.serial, car.value, c);
      }
    }
  }

  /** `fetch` keeps the attendant's invariant. */
  lemma FetchPreservesValid(f: Facility, ticket: Option<Ticket>)
    requires FacilityValid(f)
    ensures FacilityValid(FacilityFetch(f, ticket).0)
  {
    var (g, r) := FacilityFetch(f, ticket);
    if r.Fetched? {
      var t := ticket.value;
      var k: nat := t.lotId;
      var lots := GroupFetch(f.lots, t).0;
      assert g.lots == lots;
      assert lots == f.lots[k := lots[k]];
      forall c ensures Count(g.lots, c) == (if c in g.parked then 1 else 0) {
        CountUpdate(f.lots, k, lots[k], c);
        SlotsOfRemove(f.lots[k].cars, t.serial, c);
      }
    }
  }

  /** `ParkingBoy(parkingLots, name)`; the name is not modelled. */
  class ParkingBoy {
    const parkingLots: ParkingLots
    var parked: set<Car>
    /** The facility as the attendant sees it; Valid ties it to the lots. */
    ghost var Contents: Facility

    ghost predicate Valid()
      reads this, parkingLots, parkingLots.lots
    {
      && parkingLots.Valid()
      && Contents == Facility(parkingLots.States(), parked)
      && FacilityValid(Contents)
    }

    constructor (parkingLots: ParkingLots)
      requires parkingLots.Valid() && AllEmpty(parkingLots.States())
      ensures this.parkingLots == parkingLots && Valid()
      ensures Contents == Facility(parkingLots.States(), {})
    {
      this.parkingLots := parkingLots;
      parked := {};
      Contents := Facility(parkingLots.States(), {});
      new;
      CountEmpty(parkingLots.States());
    }

    method Park(car: Option<Car>) returns (result: ParkResult)
      requires Valid()
      modifies this, parkingLots.lots
      ensures Valid()
      ensures (Contents, result) == FacilityPark(old(Contents), car)
    {
      ParkPreservesValid(Contents, car);
      if car.None? || car.value in parked {
        return ParkFailed(ParkErrorCar);
      }
      var ticket := parkingLots.Park(car.value);
      if ticket.None? {
        return ParkFailed(ParkingLotNotPosition);
      }
      parked := parked + {car.value};
      result := Parked(ticket.value);
      Contents := FacilityPark(Contents, car).0;
    }

    method Fetch(ticket: Option<Ticket>) returns (result: FetchResult)
      requires Valid()
      modifies this, parkingLots.lots
      ensures Valid()
      ensures (Contents, result) == FacilityFetch(old(Contents), ticket)
    {
      FetchPreservesValid(Contents, ticket);
      if ticket.None? {
        return FetchFailed(NullTicket);
      }
      var car := parkingLots.Fetch(ticket.value);
      if car.None? {
        return FetchFailed(WrongTicket);
      }
      parked := parked - {car.value};
      result := Fetched(car.value);
      Contents := FacilityFetch(Contents, ticket).0;
    }
  }
}
