/**
  What the attendant's tests pin down, stated for every facility that keeps
  the attendant's invariant: a ticket gives back its own car, once; a ticket
  that was never issued is refused; no lot takes more cars than its capacity;
  and allocation is first fit.
 */
module Properties {
  import opened Ticketing
  import opened Lot
  import opened LotGroup
  import opened Attendant

  /** Free places in one lot. */
  function Vacancy(l: LotState): nat
  {
    if |l.cars| < l.capacity then l.capacity - |l.cars| else 0
  }

  /** Free places over all lots. */
  function FreeSpace(lots: seq<LotState>): nat
  {
    if lots == [] then 0 else Vacancy(lots[0]) + FreeSpace(lots[1..])
  }

  /** Some lot has room exactly when there is a free place somewhere. */
  lemma {:induction false} FreeSpaceMeansRoom(lots: seq<LotState>)
    ensures FreeSpace(lots) > 0 <==> FirstFit(lots).Some?
  {
    if lots != [] && !HasSpace(lots[0]) {
      FreeSpaceMeansRoom(lots[1..]);
      if FirstFit(lots[1..]).None? {
        assert forall j :: 0 <= j < |lots| ==> !HasSpace(lots[j]) by {
          forall j | 0 <= j < |lots| ensures !HasSpace(lots[j]) {
            if j > 0 { assert lots[j] == lots[1..][j - 1]; }
          }
        }
      }
    }
  }

  /** Replacing one lot changes the free space by that lot's difference. */
  lemma {:induction false} FreeSpaceUpdate(lots: seq<LotState>, k: nat, l: LotState)
    requires k < |lots|
    ensures FreeSpace(lots[k := l]) + Vacancy(lots[k]) == FreeSpace(lots) + Vacancy(l)
  {
    if k == 0 {
      assert lots[k := l][1..] == lots[1..];
    } else {
      assert lots[k := l][1..] == lots[1..][k - 1 := l];
      FreeSpaceUpdate(lots[1..], k - 1, l);
    }
  }

  /** A successful park takes exactly one free place. */
  lemma ParkUsesOnePlace(f: Facility, car: Option<Car>)
    requires AllValid(f.lots)
    ensures var (g, r) := FacilityPark(f, car);
            r.Parked? ==> FreeSpace(g.lots) + 1 == FreeSpace(f.lots)
  {
    var (g, r) := FacilityPark(f, car);
    if r.Parked? {
      var k: nat := r.ticket.lotId;
      assert g.lots == f.lots[k := g.lots[k]];
      FreeSpaceUpdate(f.lots, k, g.lots[k]);
    }
  }

  /** A park issues one new good ticket and leaves every other ticket as it
      was: good tickets stay good for the same car, and no other is made good. */
  lemma ParkIssuesOneTicket(f: Facility, car: Option<Car>, u: Ticket)
    requires AllValid(f.lots)
    ensures var (g, r) := FacilityPark(f, car);
            r.Parked? ==>
              && (Redeemable(g.lots, u) <==> Redeemable(f.lots, u) || u == r.ticket)
              && (Redeemable(f.lots, u) ==> g.lots[u.lotId].cars[u.serial] == f.lots[u.lotId].cars[u.serial])
  {
    var (g, r) := FacilityPark(f, car);
    if r.Parked? {
      var (lots, t) := GroupPark(f.lots, car.value);
      assert g.lots == lots;
    }
  }

  /** A fetch uses up its own ticket and leaves every other ticket as it was. */
  lemma FetchRevokesOneTicket(f: Facility, ticket: Option<Ticket>, u: Ticket)
    requires AllValid(f.lots)
    ensures var (g, r) := FacilityFetch(f, ticket);
            r.Fetched? ==>
              && (Redeemable(g.lots, u) <==> Redeemable(f.lots, u) && u != ticket.value)
              && (Redeemable(g.lots, u) ==> g.lots[u.lotId].cars[u.serial] == f.lots[u.lotId].cars[u.serial])
  {
    var (g, r) := FacilityFetch(f, ticket);
    if r.Fetched? {
      var (lots, c) := GroupFetch(f.lots, ticket.value);
      assert g.lots == lots;
    }
  }

  /** Parking a car and fetching it with the ticket returned gives back that
      car, and leaves every lot holding what it held before. */
  lemma RoundTrip(f: Facility, car: Car)
    requires FacilityValid(f) && car !in f.parked && FreeSpace(f.lots) > 0
    ensures var (g, r) := FacilityPark(f, Some(car));
            && r.Parked?
            && var (h, s) := FacilityFetch(g, Some(r.ticket));
               && s == Fetched(car)
               && h.parked == f.parked
               && |h.lots| == |f.lots|
               && forall i :: 0 <= i < |f.lots| ==> h.lots[i].cars == f.lots[i].cars
  {
    FreeSpaceMeansRoom(f.lots);
    var (g, r) := FacilityPark(f, Some(car));
    var t := r.ticket;
    var (h, s) := FacilityFetch(g, Some(t));
    var k := t.lotId;
    var (lots, _) := GroupPark(f.lots, car);
    assert g.lots == lots;
    var (lots', _) := GroupFetch(g.lots, t);
    assert h.lots == lots';
    assert h.lots[k].cars == f.lots[k].cars;
  }

  /** Two cars parked one after the other get different tickets, and each
      ticket fetches back its own car, never the other, whichever of the two
      is fetched first. */
  lemma IndependentTickets(f: Facility, first: Car, second: Car)
    requires FacilityValid(f) && first != second
    requires first !in f.parked && second !in f.parked && FreeSpace(f.lots) >= 2
    ensures var (f1, r1) := FacilityPark(f, Some(first));
            var (f2, r2) := FacilityPark(f1, Some(second));
            && r1.Parked? && r2.Parked? && r1.ticket != r2.ticket
            && FacilityFetch(f2, Some(r2.ticket)).1 == Fetched(second)
            && (var (f3, s1) := FacilityFetch(f2, Some(r1.ticket));
                && s1 == Fetched(first)
                && FacilityFetch(f3, Some(r2.ticket)).1 == Fetched(second))
            && (var (f3, s2) := FacilityFetch(f2, Some(r2.ticket));
                && s2 == Fetched(second)
                && FacilityFetch(f3, Some(r1.ticket)).1 == Fetched(first))
  {
    FreeSpaceMeansRoom(f.lots);
    var (f1, r1) := FacilityPark(f, Some(first));
    ParkUsesOnePlace(f, Some(first));
    FreeSpaceMeansRoom(f1.lots);
    var (f2, r2) := FacilityPark(f1, Some(second));
    ParkIssuesOneTicket(f1, Some(second), r1.ticket);
    FetchRevokesOneTicket(f2, Some(r1.ticket), r2.ticket);
    FetchRevokesOneTicket(f2, Some(r2.ticket), r1.ticket);
  }

  /** A ticket works once: fetching again with a ticket just redeemed is
      refused as an unrecognized ticket, and the ticket is spent from then
      on (see UsedTicketStaysRefused). */
  lemma SingleUse(f: Facility, t: Ticket)
    requires AllValid(f.lots)
    ensures var (g, r) := FacilityFetch(f, Some(t));
            r.Fetched? ==> FacilityFetch(g, Some(t)) == (g, FetchFailed(WrongTicket)) && Spent(g.lots, t)
  {
  }

  /** The ticket was issued by the lot it names and is no longer good: its
      serial is below the lot's next serial, and no car is filed under it. */
  predicate Spent(lots: seq<LotState>, t: Ticket)
  {
    0 <= t.lotId < |lots| && t.serial < lots[t.lotId].next && !Redeemable(lots, t)
  }

  /** A spent ticket stays spent through any park: a new ticket never carries
      a serial handed out before. */
  lemma ParkKeepsSpent(f: Facility, car: Option<Car>, t: Ticket)
    requires AllValid(f.lots) && Spent(f.lots, t)
    ensures Spent(FacilityPark(f, car).0.lots, t)
  {
    var (g, r) := FacilityPark(f, car);
    if r.Parked? {
      var (lots, _) := GroupPark(f.lots, car.value);
      assert g.lots == lots;
    }
  }

  /** A spent ticket stays spent through any fetch. */
  lemma FetchKeepsSpent(f: Facility, ticket: Option<Ticket>, t: Ticket)
    requires Spent(f.lots, t)
    ensures Spent(FacilityFetch(f, ticket).0.lots, t)
  {
    var (g, r) := FacilityFetch(f, ticket);
    if r.Fetched? {
      var (lots, _) := GroupFetch(f.lots, ticket.value);
      assert g.lots == lots;
    }
  }

  /** One call on the attendant. */
  datatype Call = ParkCall(car: Option<Car>) | FetchCall(ticket: Option<Ticket>)

  /** The facility after the calls, made in order. */
  function Run(f: Facility, calls: seq<Call>): (g: Facility)
    requires AllValid(f.lots)
    ensures AllValid(g.lots) && |g.lots| == |f.lots|
    decreases |calls|
  {
    if calls == [] then f
    else
      match calls[0]
      case ParkCall(car) => Run(FacilityPark(f, car).0, calls[1..])
      case FetchCall(ticket) => Run(FacilityFetch(f, ticket).0, calls[1..])
  }

  /** A used ticket is refused for good: once a fetch has redeemed it,
      whatever parks and fetches follow, fetching with it again is refused
      with WrongTicket and changes nothing. */
  lemma {:induction false} UsedTicketStaysRefused(f: Facility, t: Ticket, calls: seq<Call>)
    requires AllValid(f.lots) && FacilityFetch(f, Some(t)).1.Fetched?
    ensures var h := Run(FacilityFetch(f, Some(t)).0, calls);
            FacilityFetch(h, Some(t)) == (h, FetchFailed(WrongTicket))
  {
    SingleUse(f, t);
    SpentAfterRun(FacilityFetch(f, Some(t)).0, t, calls);
  }

  /** A spent ticket stays spent through any run of calls. */
  lemma {:induction false} SpentAfterRun(f: Facility, t: Ticket, calls: seq<Call>)
    requires AllValid(f.lots) && Spent(f.lots, t)
    ensures Spent(Run(f, calls).lots, t)
    decreases |calls|
  {
    if calls != [] {
      match calls[0]
      case ParkCall(car) =>
        ParkKeepsSpent(f, car, t);
        SpentAfterRun(FacilityPark(f, car).0, t, calls[1..]);
      case FetchCall(ticket) =>
        FetchKeepsSpent(f, ticket, t);
        SpentAfterRun(FacilityFetch(f, ticket).0, t, calls[1..]);
    }
  }

  /** A ticket the lot it names has not issued yet is refused, whatever lot
      index it carries, and nothing changes. */
  lemma NeverIssuedRejected(f: Facility, t: Ticket)
    requires FacilityValid(f)
    requires !(0 <= t.lotId < |f.lots|) || t.serial >= f.lots[t.lotId].next
    ensures FacilityFetch(f, Some(t)) == (f, FetchFailed(WrongTicket))
  {
    if 0 <= t.lotId < |f.lots| {
      assert LotValid(f.lots[t.lotId]);
    }
  }

  /** Parking a car that is already parked is refused and changes nothing. */
  lemma DoubleParkRejected(f: Facility, car: Car)
    requires AllValid(f.lots)
    ensures var (g, r) := FacilityPark(f, Some(car));
            r.Parked? ==> FacilityPark(g, Some(car)) == (g, ParkFailed(ParkErrorCar))
  {
  }

  /** Parks the cars one after another, as the tests' loops do. */
  function ParkAll(f: Facility, cars: seq<Car>): (r: (Facility, seq<ParkResult>))
    requires AllValid(f.lots)
    ensures AllValid(r.0.lots) && |r.0.lots| == |f.lots| && |r.1| == |cars|
    decreases |cars|
  {
    if cars == [] then (f, [])
    else
      var (g, r) := FacilityPark(f, Some(cars[0]));
      var (h, rs) := ParkAll(g, cars[1..]);
      (h, [r] + rs)
  }

  /** A car that is not parked goes to lot 0 whenever lot 0 has room; the
      other lots are untouched. */
  lemma ParkIntoFirstLot(f: Facility, car: Car)
    requires AllValid(f.lots) && |f.lots| > 0 && HasSpace(f.lots[0]) && car !in f.parked
    ensures var (g, r) := FacilityPark(f, Some(car));
            && r.Parked? && r.ticket.lotId == 0
            && |g.lots| == |f.lots|
            && |g.lots[0].cars| == |f.lots[0].cars| + 1
            && g.lots[0].capacity == f.lots[0].capacity
            && (forall j :: 1 <= j < |f.lots| ==> g.lots[j] == f.lots[j])
            && g.parked == f.parked + {car}
  {
    var (g, r) := FacilityPark(f, Some(car));
    var (lots, _) := GroupPark(f.lots, car);
    assert g.lots == lots;
  }

  /** While the first lot has room, every car goes to it: each park succeeds
      with a ticket naming lot 0, the first lot grows by one car per park and
      the other lots are untouched. */
  lemma {:induction false} FillFirstLot(f: Facility, cars: seq<Car>)
    requires AllValid(f.lots) && |f.lots| > 0 && Distinct(cars)
    requires forall i :: 0 <= i < |cars| ==> cars[i] !in f.parked
    requires |f.lots[0].cars| + |cars| <= f.lots[0].capacity
    ensures var (g, rs) := ParkAll(f, cars);
            && AllValid(g.lots) && |g.lots| == |f.lots|
            && (forall i :: 0 <= i < |rs| ==> rs[i].Parked? && rs[i].ticket.lotId == 0)
            && |g.lots[0].cars| == |f.lots[0].cars| + |cars|
            && g.lots[0].capacity == f.lots[0].capacity
            && (forall j :: 1 <= j < |f.lots| ==> g.lots[j] == f.lots[j])
            && g.parked == f.parked + (set c | c in cars)
    decreases |cars|
  {
    if cars != [] {
      var (g, r) := FacilityPark(f, Some(cars[0]));
      ParkIntoFirstLot(f, cars[0]);
      var rest := cars[1..];
      assert Distinct(rest) by {
        forall i, j | 0 <= i < j < |rest| ensures rest[i] != rest[j] {
          assert rest[i] == cars[i + 1] && rest[j] == cars[j + 1];
        }
      }
      assert forall i :: 0 <= i < |rest| ==> rest[i] !in g.parked by {
        forall i | 0 <= i < |rest| ensures rest[i] !in g.parked {
          assert rest[i] == cars[i + 1];
        }
      }
      FillFirstLot(g, rest);
      var (h, rs) := ParkAll(g, rest);
      assert (set c | c in cars) == {cars[0]} + (set c | c in rest);
      assert ParkAll(f, cars) == (h, [r] + rs);
      forall i | 0 <= i < |[r] + rs|
        ensures ([r] + rs)[i].Parked? && ([r] + rs)[i].ticket.lotId == 0
      {
        if i > 0 { assert ([r] + rs)[i] == rs[i - 1]; }
      }
    }
  }

  /** A lot of capacity C, alone, takes C distinct cars and refuses the next
      with ParkingLotNotPosition, changing nothing. */
  lemma SingleLotCapacity(capacity: nat, cars: seq<Car>, extra: Car)
    requires |cars| == capacity && Distinct(cars) && extra !in cars
    ensures var (g, rs) := ParkAll(Initial([capacity]), cars);
            && (forall i :: 0 <= i < |rs| ==> rs[i].Parked?)
            && FacilityPark(g, Some(extra)) == (g, ParkFailed(ParkingLotNotPosition))
  {
    var f := Initial([capacity]);
    assert |f.lots| == 1 && f.lots[0] == EmptyLot(capacity);
    FillFirstLot(f, cars);
    var (g, rs) := ParkAll(f, cars);
    assert !HasSpace(g.lots[0]);
    assert FirstFit(g.lots).None?;
  }

  /** With the first lot filled to capacity and room in the second, the next
      car goes to the second lot: its ticket names lot 1. */
  lemma SpillsToSecondLot(capacities: seq<nat>, cars: seq<Car>, extra: Car)
    requires |capacities| >= 2 && capacities[1] > 0
    requires |cars| == capacities[0] && Distinct(cars) && extra !in cars
    ensures var (g, rs) := ParkAll(Initial(capacities), cars);
            var (h, r) := FacilityPark(g, Some(extra));
            && (forall i :: 0 <= i < |rs| ==> rs[i].Parked? && rs[i].ticket.lotId == 0)
            && r.Parked? && r.ticket.lotId == 1
  {
    var f := Initial(capacities);
    assert f.lots[0].cars == map[] && f.lots[0].capacity == capacities[0];
    FillFirstLot(f, cars);
    var (g, rs) := ParkAll(f, cars);
    assert !HasSpace(g.lots[0]) && HasSpace(g.lots[1]);
    assert FirstFit(g.lots) == Some(1);
  }
}
