/**
  `ParkingLots`: the ordered array of lots. Parking goes to the first lot,
  lowest index first, that still has room; fetching is routed by the lot
  index the ticket carries.
 */
module LotGroup {
  import opened Ticketing
  import opened Lot

  /** Every lot keeps its own invariant. */
  predicate AllValid(lots: seq<LotState>)
  {
    forall i :: 0 <= i < |lots| ==> LotValid(lots[i])
  }

  /** The lot a new car goes to: the lowest index with room, if any. */
  function FirstFit(lots: seq<LotState>): (r: Option<nat>)
    ensures r.Some? ==> r.value < |lots| && HasSpace(lots[r.value])
    ensures r.Some? ==> forall j :: 0 <= j < r.value ==> !HasSpace(lots[j])
    ensures r.None? <==> forall j :: 0 <= j < |lots| ==> !HasSpace(lots[j])
  {
    if lots == [] then None
    else if HasSpace(lots[0]) then Some(0)
    else
      match FirstFit(lots[1..])
      case None => None
      case Some(i) => Some(i + 1)
  }

  /** The ticket is good right now: it names an existing lot and a serial
      that lot still holds a car under. */
  predicate Redeemable(lots: seq<LotState>, t: Ticket)
  {
    0 <= t.lotId < |lots| && t.serial in lots[t.lotId].cars
  }

  /** Parking into the group: the first lot with room takes the car and the
      ticket names that lot; every other lot is untouched. With every lot
      full, nothing changes and no ticket is issued. */
  function GroupPark(lots: seq<LotState>, car: Car): (r: (seq<LotState>, Option<Ticket>))
    requires AllValid(lots)
    ensures AllValid(r.0) && |r.0| == |lots|
    ensures r.1.None? <==> FirstFit(lots).None?
    ensures r.1.None? ==> r.0 == lots
    ensures r.1.Some? ==>
      var t := r.1.value;
      && t.lotId == FirstFit(lots).value
      && !Redeemable(lots, t)
      && r.0[t.lotId].cars == lots[t.lotId].cars[t.serial := car]
      && r.0[t.lotId].capacity == lots[t.lotId].capacity
      && lots[t.lotId].next <= t.serial < r.0[t.lotId].next
      && (forall j :: 0 <= j < |lots| && j != t.lotId ==> r.0[j] == lots[j])
  {
    match FirstFit(lots)
    case None => (lots, None)
    case Some(i) =>
      var (l, serial) := LotPark(lots[i], car);
      (lots[i := l], Some(Ticket(i, serial.value)))
  }

  /** Fetching from the group: a ticket naming no lot is refused; otherwise the
      named lot decides. A good ticket gives back the car filed under it and
      is used up; every other lot is untouched. */
  function GroupFetch(lots: seq<LotState>, t: Ticket): (r: (seq<LotState>, Option<Car>))
    ensures |r.0| == |lots|
    ensures AllValid(lots) ==> AllValid(r.0)
    ensures r.1.Some? <==> Redeemable(lots, t)
    ensures r.1.None? ==> r.0 == lots
    ensures r.1.Some? ==>
      && r.1.value == lots[t.lotId].cars[t.serial]
      && !Redeemable(r.0, t)
      && r.0[t.lotId].cars == lots[t.lotId].cars - {t.serial}
      && r.0[t.lotId].capacity == lots[t.lotId].capacity
      && r.0[t.lotId].next == lots[t.lotId].next
    ensures forall j :: 0 <= j < |lots| && j != t.lotId ==> r.0[j] == lots[j]
  {
    if 0 <= t.lotId < |lots| then
      var (l, car) := LotFetch(lots[t.lotId], t.serial);
      (lots[t.lotId := l], car)
    else
      (lots, None)
  }

  /** The values of a sequence of lot objects, in order. */
  function StatesOf(ls: seq<ParkingLot>): (r: seq<LotState>)
    reads ls
    ensures |r| == |ls| && forall i :: 0 <= i < |ls| ==> r[i] == ls[i].State()
  {
    seq(|ls|, i requires 0 <= i < |ls| reads ls => ls[i].State())
  }

  /** `ParkingLots(parkingLotArray)`: the lots in their fixed order. */
  class ParkingLots {
    const lots: seq<ParkingLot>

    function States(): seq<LotState>
      reads this, lots
    {
      StatesOf(lots)
    }

    ghost predicate Valid()
      reads this, lots
    {
      Distinct(lots) && AllValid(States())
    }

    constructor (lots: seq<ParkingLot>)
      requires Distinct(lots) && AllValid(StatesOf(lots))
      ensures this.lots == lots && Valid()
    {
      this.lots := lots;
    }

    /** Scans the lots in index order and parks in the first with room. */
    method Park(car: Car) returns (ticket: Option<Ticket>)
      requires Valid()
      modifies lots
      ensures Valid()
      ensures (States(), ticket) == GroupPark(old(States()), car)
    {
      var i := 0;
      while i < |lots|
        invariant 0 <= i <= |lots|
        invariant States() == old(States())
        invariant forall j :: 0 <= j < i ==> !HasSpace(lots[j].State())
      {
        var free := lots[i].HasPosition();
        if free {
          var serial := lots[i].Park(car);
          ticket := Some(Ticket(i, serial.value));
          assert forall j :: 0 <= j < |lots| && j != i ==> lots[j].State() == old(lots[j].State());
          assert States() == old(States())[i := lots[i].State()];
          return;
        }
        i := i + 1;
      }
      ticket := None;
    }

    /** Hands the ticket to the lot it names; a ticket naming no lot is refused. */
    method Fetch(ticket: Ticket) returns (car: Option<Car>)
      requires Valid()
      modifies lots
      ensures Valid()
      ensures (States(), car) == GroupFetch(old(States()), ticket)
    {
      if 0 <= ticket.lotId < |lots| {
        car := lots[ticket.lotId].Fetch(ticket.serial);
        assert forall j :: 0 <= j < |lots| && j != ticket.lotId ==> lots[j].State() == old(lots[j].State());
        assert States() == old(States())[ticket.lotId := lots[ticket.lotId].State()];
      } else {
        car := None;
      }
    }
  }
}
