/**
  The attendant's tests as methods on the classes: build the lots, the array
  of lots and the attendant, then park and fetch as the test does. A test
  that repeats another shares its method, and the hand-made ticket is a
  parameter. Each `new Car()` is a car id not used before in that method.
 */
module Scenarios {
  import opened Ticketing
  import opened Lot
  import opened LotGroup
  import opened Attendant
  import Properties

  /** The "given" block of most tests: one lot of the given capacity in an
      array of lots, and an attendant over it. */
  method OneLotParkingBoy(capacity: nat) returns (boy: ParkingBoy)
    ensures fresh(boy) && fresh(boy.parkingLots) && fresh(boy.parkingLots.lots)
    ensures boy.Valid() && boy.Contents == Initial([capacity])
  {
    var lot := new ParkingLot(capacity);
    var parkingLots := new ParkingLots([lot]);
    boy := new ParkingBoy(parkingLots);
  }

  /** The array of lots of the last test: three lots in that order. */
  method ThreeParkingLots(first: nat, second: nat, third: nat) returns (parkingLots: ParkingLots)
    ensures fresh(parkingLots) && fresh(parkingLots.lots) && parkingLots.Valid()
    ensures parkingLots.States() == [EmptyLot(first), EmptyLot(second), EmptyLot(third)]
  {
    var firstLot := new ParkingLot(first);
    var secondLot := new ParkingLot(second);
    var thirdLot := new ParkingLot(third);
    var lots := [firstLot, secondLot, thirdLot];
    assert StatesOf(lots) == [EmptyLot(first), EmptyLot(second), EmptyLot(third)];
    parkingLots := new ParkingLots(lots);
  }

  /** The "given" block of the last test: an attendant over three lots. */
  method ThreeLotParkingBoy(first: nat, second: nat, third: nat) returns (boy: ParkingBoy)
    ensures fresh(boy) && fresh(boy.parkingLots) && fresh(boy.parkingLots.lots)
    ensures boy.Valid() && boy.Contents == Initial([first, second, third])
  {
    var parkingLots := ThreeParkingLots(first, second, third);
    boy := new ParkingBoy(parkingLots);
  }

  /** A parked car comes back with its ticket. */
  method ParkThenFetch() returns (car: Car, fetched: FetchResult)
    ensures fetched == Fetched(car)
  {
    var boy := OneLotParkingBoy(5);
    car := 0;
    var parked := boy.Park(Some(car));
    fetched := boy.Fetch(Some(parked.ticket));
  }

  /** Two cars, two tickets: each ticket fetches its own car. */
  method EachTicketFetchesItsOwnCar() returns (first: Car, second: Car, fetchedFirst: FetchResult, fetchedSecond: FetchResult)
    ensures first != second
    ensures fetchedFirst == Fetched(first) && fetchedSecond == Fetched(second)
  {
    first, second := 0, 1;
    var boy := OneLotParkingBoy(5);
    Properties.IndependentTickets(boy.Contents, first, second);
    var firstParked := boy.Park(Some(first));
    var secondParked := boy.Park(Some(second));
    fetchedFirst := boy.Fetch(Some(firstParked.ticket));
    fetchedSecond := boy.Fetch(Some(secondParked.ticket));
  }

  /** A ticket made by hand, and not by `park`, is refused as unrecognized,
      even when it names the existing lot 0: only the very ticket issued is
      accepted. */
  method HandMadeTicketRefused(handMade: Ticket) returns (issued: Ticket, result: FetchResult)
    ensures issued.lotId == 0
    ensures result == if handMade == issued then Fetched(0) else FetchFailed(WrongTicket)
    ensures result.FetchFailed? ==> Message(result.error) == "Unrecognized parking ticket."
  {
    Messages();
    var boy := OneLotParkingBoy(5);
    var car: Car := 0;
    Properties.ParkIssuesOneTicket(boy.Contents, Some(car), handMade);
    var parked := boy.Park(Some(car));
    issued := parked.ticket;
    result := boy.Fetch(Some(handMade));
  }

  /** A ticket already used to fetch its car is refused the second time. */
  method UsedTicketRefused() returns (result: FetchResult)
    ensures result == FetchFailed(WrongTicket)
    ensures Message(result.error) == "Unrecognized parking ticket."
  {
    Messages();
    var boy := OneLotParkingBoy(5);
    var car: Car := 0;
    var parked := boy.Park(Some(car));
    var fetched := boy.Fetch(Some(parked.ticket));
    result := boy.Fetch(Some(parked.ticket));
  }

  /** The loop of the two capacity tests: `count` new cars, with ids 0 up to
      count - 1, parked one after another while the first lot has room for
      all of them. Each goes to the first lot; the other lots are untouched. */
  method ParkNewCars(boy: ParkingBoy, count: nat)
    requires boy.Valid() && |boy.Contents.lots| > 0 && boy.Contents.parked == {}
    requires |boy.Contents.lots[0].cars| + count <= boy.Contents.lots[0].capacity
    modifies boy, boy.parkingLots.lots
    ensures boy.Valid() && |boy.Contents.lots| == |old(boy.Contents.lots)|
    ensures boy.Contents.lots[0].capacity == old(boy.Contents.lots[0].capacity)
    ensures |boy.Contents.lots[0].cars| == |old(boy.Contents.lots[0].cars)| + count
    ensures forall j :: 1 <= j < |boy.Contents.lots| ==> boy.Contents.lots[j] == old(boy.Contents.lots[j])
    ensures forall c :: c in boy.Contents.parked ==> c < count
  {
    for i := 0 to count
      invariant boy.Valid() && |boy.Contents.lots| == |old(boy.Contents.lots)|
      invariant boy.Contents.lots[0].capacity == old(boy.Contents.lots[0].capacity)
      invariant |boy.Contents.lots[0].cars| == |old(boy.Contents.lots[0].cars)| + i
      invariant forall j :: 1 <= j < |boy.Contents.lots| ==> boy.Contents.lots[j] == old(boy.Contents.lots[j])
      invariant forall c :: c in boy.Contents.parked ==> c < i
    {
      var car: Car := i;
      Properties.ParkIntoFirstLot(boy.Contents, car);
      var parked := boy.Park(Some(car));
    }
  }

  /** Five cars fill a lot of capacity 5; the sixth is refused. */
  method FullLotRefusesCar() returns (result: ParkResult)
    ensures result == ParkFailed(ParkingLotNotPosition)
    ensures Message(result.error) == "Not enough position."
  {
    Messages();
    var boy := OneLotParkingBoy(5);
    ParkNewCars(boy, 5);
    var overflowCar: Car := 5;
    result := boy.Park(Some(overflowCar));
  }

  /** A car that is already parked cannot be parked again. */
  method ParkedCarRefused() returns (result: ParkResult)
    ensures result == ParkFailed(ParkErrorCar)
    ensures Message(result.error) == "Can not park a parked car or park a null car."
  {
    Messages();
    var boy := OneLotParkingBoy(5);
    var car: Car := 0;
    var parked := boy.Park(Some(car));
    result := boy.Park(Some(car));
  }

  /** A null car cannot be parked. */
  method NullCarRefused() returns (result: ParkResult)
    ensures result == ParkFailed(ParkErrorCar)
    ensures Message(result.error) == "Can not park a parked car or park a null car."
  {
    Messages();
    var boy := OneLotParkingBoy(5);
    result := boy.Park(None);
  }

  /** Fetching without a ticket is refused. */
  method NullTicketRefused() returns (result: FetchResult)
    ensures result == FetchFailed(NullTicket)
    ensures Message(result.error) == "Please provide your parking ticket."
  {
    Messages();
    var boy := OneLotParkingBoy(5);
    var car: Car := 0;
    var parked := boy.Park(Some(car));
    result := boy.Fetch(None);
  }

  /** Lots of capacities 5, 8 and 10: after five cars fill lot 0, the next
      car's ticket names lot 1. */
  method SecondLotWhenFirstFull() returns (ticket: Ticket)
    ensures ticket.lotId == 1
  {
    var boy := ThreeLotParkingBoy(5, 8, 10);
    ParkNewCars(boy, 5);
    assert !HasSpace(boy.Contents.lots[0]) && HasSpace(boy.Contents.lots[1]);
    var overflowCar: Car := 5;
    var parked := boy.Park(Some(overflowCar));
    ticket := parked.ticket;
  }
}
