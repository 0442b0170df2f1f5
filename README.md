# Parking lot with a parking boy

A model of the parking-lot allocator of the `com.thoughtworks.tdd` package, as
its `ParkingBoyTest` fixes it. There are three objects:

- a `ParkingLot(capacity)` holds at most `capacity` cars, each filed under the
  ticket that claims it;
- `ParkingLots` puts an ordered array of lots side by side. A new car goes to
  the first lot that still has room, lowest index first, and the ticket
  records that lot's index (`getParkingLotId()`);
- a `ParkingBoy` is the public `park(car)` / `fetch(ticket)` surface. It
  refuses four things, each with its own exception and fixed message:
  - a null car, or a car that is already parked: `ParkErrorCarException`,
    "Can not park a parked car or park a null car.";
  - a car when every lot is full: `ParkingLotNotPositionException`,
    "Not enough position.";
  - a missing ticket: `NullTicketException`,
    "Please provide your parking ticket.";
  - a ticket it never issued, or one already used: `WrongTicketException`,
    "Unrecognized parking ticket.".

The files follow the objects:

- `ticketing.dfy` holds cars, tickets, error kinds, messages and result
  wrappers;
- `lot.dfy` holds one lot;
- `lot_group.dfy` holds the array of lots;
- `attendant.dfy` holds the parking boy.

Each class keeps its state in fields that its methods update. Each method is
proved against a pure function of the old state (`LotPark`, `GroupPark`,
`FacilityPark`, and their fetch partners). `properties.dfy` proves the tests'
claims about those functions for every state that keeps the attendant's
invariant. `scenarios.dfy` restates each test as a verified method on the classes.

A ticket is a pair of the issuing lot's index and a serial. The serial is
unique to that issue. A lot maps the serials of its live tickets to cars. A
hand-made `new Ticket(0)` names lot 0 but was not issued, so it is refused.
The attendant's invariant (`Attendant.FacilityValid`) says that every lot
keeps its capacity bound, and that a car is on the attendant's parked list
exactly when one slot, and only one, holds it.

## Model

| member | source | states |
|---|---|---|
| Ticketing.Messages | src/test/java/com/thoughtworks/tdd/ParkingBoyTest.java:94-181 | each error kind carries the exact message the tests assert |
| Lot.EmptyLot | src/test/java/com/thoughtworks/tdd/ParkingBoyTest.java:15 | a new lot is valid, has the given capacity and holds no car |
| Lot.LotPark | src/test/java/com/thoughtworks/tdd/ParkingBoyTest.java:82-94 | a lot takes a car exactly when it has room; the serial returned is fresh (at least every serial handed out before, below every serial handed out later) and now files the car; a full lot is left unchanged; occupancy never exceeds capacity |
| Lot.LotFetch | src/test/java/com/thoughtworks/tdd/ParkingBoyTest.java:66-78 | a live serial gives back its car and stops being live; any other serial is refused and the lot is unchanged; capacity and the numbering are kept |
| Lot.ParkingLot.constructor | src/test/java/com/thoughtworks/tdd/ParkingBoyTest.java:15 | `new ParkingLot(c)` is the empty lot of capacity c |
| Lot.ParkingLot.HasPosition | src/test/java/com/thoughtworks/tdd/ParkingBoyTest.java:187-199 | true exactly when the lot holds fewer cars than its capacity |
| Lot.ParkingLot.Park | src/test/java/com/thoughtworks/tdd/ParkingBoyTest.java:82-94 | the new state and the serial are those of `LotPark` on the old state |
| Lot.ParkingLot.Fetch | src/test/java/com/thoughtworks/tdd/ParkingBoyTest.java:22-23 | the new state and the car are those of `LotFetch` on the old state |
| LotGroup.FirstFit | src/test/java/com/thoughtworks/tdd/ParkingBoyTest.java:185-200 | the index chosen has room and every lower index is full; there is none exactly when every lot is full |
| LotGroup.GroupPark | src/test/java/com/thoughtworks/tdd/ParkingBoyTest.java:185-200 | the ticket names the first-fit lot and carries a serial that lot never handed out before; that lot files the car under it; every other lot is untouched; with every lot full nothing changes and no ticket is issued |
| LotGroup.GroupFetch | src/test/java/com/thoughtworks/tdd/ParkingBoyTest.java:51-78 | a ticket gives back a car exactly when it names an existing lot and a live serial; it then is used up; every other lot is untouched; otherwise nothing changes |
| LotGroup.ParkingLots.constructor | src/test/java/com/thoughtworks/tdd/ParkingBoyTest.java:189-190 | the array of lots is kept in its order |
| LotGroup.ParkingLots.Park | src/test/java/com/thoughtworks/tdd/ParkingBoyTest.java:185-200 | a loop over the lots in index order; the new states and the ticket are those of `GroupPark` |
| LotGroup.ParkingLots.Fetch | src/test/java/com/thoughtworks/tdd/ParkingBoyTest.java:22-23 | the new states and the car are those of `GroupFetch` |
| Attendant.Initial | src/test/java/com/thoughtworks/tdd/ParkingBoyTest.java:15-19 | empty lots of the given capacities keep the attendant's invariant |
| Attendant.FacilityPark | src/test/java/com/thoughtworks/tdd/ParkingBoyTest.java:98-121 | ParkErrorCar exactly for a null or parked car; ParkingLotNotPosition exactly when every lot is full; otherwise a new ticket, good for this car, in the first-fit lot, with the car now parked; a refusal changes nothing |
| Attendant.FacilityFetch | src/test/java/com/thoughtworks/tdd/ParkingBoyTest.java:140-165 | NullTicket exactly for a missing ticket; WrongTicket exactly for a ticket that is not good now; otherwise the car filed under it, which leaves the parked list, and the ticket is used up; a refusal changes nothing |
| Attendant.ParkPreservesValid | src/test/java/com/thoughtworks/tdd/ParkingBoyTest.java:107-109 | `park` keeps the invariant: each parked car sits in exactly one slot |
| Attendant.FetchPreservesValid | src/test/java/com/thoughtworks/tdd/ParkingBoyTest.java:75-78 | `fetch` keeps the invariant |
| Attendant.ParkingBoy.constructor | src/test/java/com/thoughtworks/tdd/ParkingBoyTest.java:19 | an attendant over empty lots starts with no car parked and keeps its invariant |
| Attendant.ParkingBoy.Park | src/test/java/com/thoughtworks/tdd/ParkingBoyTest.java:22 | keeps the invariant; the new state and the result are those of `FacilityPark` |
| Attendant.ParkingBoy.Fetch | src/test/java/com/thoughtworks/tdd/ParkingBoyTest.java:23 | keeps the invariant; the new state and the result are those of `FacilityFetch` |
| Properties.FreeSpaceMeansRoom | src/test/java/com/thoughtworks/tdd/ParkingBoyTest.java:82-94 | some lot has room exactly when the free places over all lots are more than zero |
| Properties.ParkUsesOnePlace | src/test/java/com/thoughtworks/tdd/ParkingBoyTest.java:82-94 | a successful park takes exactly one free place |
| Properties.ParkIssuesOneTicket | src/test/java/com/thoughtworks/tdd/ParkingBoyTest.java:40-41 | a park makes exactly its own ticket good, and every ticket good before still claims the same car |
| Properties.FetchRevokesOneTicket | src/test/java/com/thoughtworks/tdd/ParkingBoyTest.java:42-43 | a fetch uses up exactly its own ticket, and every other good ticket still claims the same car |
| Properties.RoundTrip | src/test/java/com/thoughtworks/tdd/ParkingBoyTest.java:13-26 | parking an unparked car with room left succeeds, and fetching with its ticket gives back that car and restores what every lot holds and the parked list (the used lot keeps its advanced serial counter) |
| Properties.IndependentTickets | src/test/java/com/thoughtworks/tdd/ParkingBoyTest.java:30-47 | two cars get different tickets, and each ticket fetches its own car, whichever of the two is fetched first |
| Properties.SingleUse | src/test/java/com/thoughtworks/tdd/ParkingBoyTest.java:66-78 | a ticket just redeemed is refused with WrongTicket the second time, nothing changes, and the ticket is spent |
| Properties.ParkKeepsSpent | src/test/java/com/thoughtworks/tdd/ParkingBoyTest.java:66-78 | a spent ticket (issued by its lot, no longer good) stays spent through any park |
| Properties.FetchKeepsSpent | src/test/java/com/thoughtworks/tdd/ParkingBoyTest.java:66-78 | a spent ticket stays spent through any fetch |
| Properties.Run | src/test/java/com/thoughtworks/tdd/ParkingBoyTest.java:75-78 | a sequence of park and fetch calls made in order keeps every lot valid and the number of lots |
| Properties.SpentAfterRun | src/test/java/com/thoughtworks/tdd/ParkingBoyTest.java:66-78 | a spent ticket stays spent through any sequence of calls |
| Properties.UsedTicketStaysRefused | src/test/java/com/thoughtworks/tdd/ParkingBoyTest.java:140-151 | once a fetch has redeemed a ticket, whatever parks and fetches follow, the ticket is refused with WrongTicket and nothing changes |
| Properties.NeverIssuedRejected | src/test/java/com/thoughtworks/tdd/ParkingBoyTest.java:51-62 | a ticket naming no lot, or a serial its lot has not issued, is refused with WrongTicket and nothing changes |
| Properties.DoubleParkRejected | src/test/java/com/thoughtworks/tdd/ParkingBoyTest.java:98-110 | parking a car just parked is refused with ParkErrorCar and nothing changes |
| Properties.ParkAll | src/test/java/com/thoughtworks/tdd/ParkingBoyTest.java:87-90 | parking a sequence of cars in turn gives one result per car and keeps every lot valid |
| Properties.ParkIntoFirstLot | src/test/java/com/thoughtworks/tdd/ParkingBoyTest.java:193-196 | while lot 0 has room, an unparked car goes to lot 0 and the other lots are untouched |
| Properties.FillFirstLot | src/test/java/com/thoughtworks/tdd/ParkingBoyTest.java:87-90 | distinct new cars that fit in lot 0 all get tickets naming lot 0; lot 0 grows by their number; the other lots are untouched; all of them are parked |
| Properties.SingleLotCapacity | src/test/java/com/thoughtworks/tdd/ParkingBoyTest.java:169-181 | a single lot of capacity C takes C distinct cars, then refuses the next with ParkingLotNotPosition and changes nothing |
| Properties.SpillsToSecondLot | src/test/java/com/thoughtworks/tdd/ParkingBoyTest.java:185-200 | once lot 0 is full and lot 1 has room, the next car's ticket names lot 1 |
| Scenarios.OneLotParkingBoy | src/test/java/com/thoughtworks/tdd/ParkingBoyTest.java:15-19 | the usual set-up: an attendant over one new lot of the given capacity |
| Scenarios.ThreeParkingLots | src/test/java/com/thoughtworks/tdd/ParkingBoyTest.java:186-190 | three new lots in an array, in order |
| Scenarios.ThreeLotParkingBoy | src/test/java/com/thoughtworks/tdd/ParkingBoyTest.java:186-191 | an attendant over three new lots of the given capacities |
| Scenarios.ParkThenFetch | src/test/java/com/thoughtworks/tdd/ParkingBoyTest.java:13-26 | the fetched car is the parked car |
| Scenarios.EachTicketFetchesItsOwnCar | src/test/java/com/thoughtworks/tdd/ParkingBoyTest.java:30-47 | each ticket fetches its own car |
| Scenarios.HandMadeTicketRefused | src/test/java/com/thoughtworks/tdd/ParkingBoyTest.java:125-136 | after one park, any ticket other than the issued one is refused with WrongTicket and its message |
| Scenarios.UsedTicketRefused | src/test/java/com/thoughtworks/tdd/ParkingBoyTest.java:140-151 | a used ticket is refused with WrongTicket and its message |
| Scenarios.ParkNewCars | src/test/java/com/thoughtworks/tdd/ParkingBoyTest.java:174-177 | the loop of new cars: lot 0 grows by one car per turn and the other lots are untouched |
| Scenarios.FullLotRefusesCar | src/test/java/com/thoughtworks/tdd/ParkingBoyTest.java:169-181 | after five cars fill a lot of capacity 5, the sixth is refused with ParkingLotNotPosition and its message |
| Scenarios.ParkedCarRefused | src/test/java/com/thoughtworks/tdd/ParkingBoyTest.java:98-111 | parking the same car twice is refused with ParkErrorCar and its message |
| Scenarios.NullCarRefused | src/test/java/com/thoughtworks/tdd/ParkingBoyTest.java:114-122 | parking null is refused with ParkErrorCar and its message |
| Scenarios.NullTicketRefused | src/test/java/com/thoughtworks/tdd/ParkingBoyTest.java:155-166 | fetching without a ticket is refused with NullTicket and its message |
| Scenarios.SecondLotWhenFirstFull | src/test/java/com/thoughtworks/tdd/ParkingBoyTest.java:185-200 | with lots of capacities 5, 8 and 10, the sixth car's ticket names lot 1 |

## Left out

- The Java source of the implementation classes (`ParkingLot`, `ParkingLots`, `ParkingBoy`, `Ticket`, the result wrappers and the exceptions) is not available. The classes are modelled here, but their behaviour is inferred from `ParkingBoyTest` alone. Where no test decides a case, the model makes a choice, listed in the next lines.
- Modelling choice: a ticket naming no existing lot is refused with WrongTicket (`LotGroup.GroupFetch`, `Properties.NeverIssuedRejected`). No test passes such a ticket.
- Modelling choice: `park` checks the car before it checks for room, so a null or parked car meets ParkErrorCar even when every lot is full (`Attendant.FacilityPark`). No test has both at once.
- Modelling choice: an attendant over no lot at all refuses every car with ParkingLotNotPosition. No test builds an empty array.
- Modelling choice: a successful `fetch` takes the car off the parked list, so the car may be parked again. No test parks a car after fetching it.
- The attendant's name (`"EL0315"`) is passed at construction and never read, so the model drops it.
- Cars are `nat` ids rather than Java objects. A `new Car()` is an id not used before, and a null car or ticket is `None`.
- Java exceptions are the `ErrorKind` of a result datatype. The exception hierarchy, `throws Exception` and the JUnit assertions are not modelled. `assertSame` compares strings by identity; the model compares their values.
- Ticket serials come from a per-lot counter. This is one way to meet what the tests require, which is that live tickets are unique and that copies and used tickets are refused. It is not a claim about the original numbering.
- A hand-made ticket is modelled as any ticket other than the one issued. Java tells `new Ticket(0)` apart from the issued ticket by reference identity.
- LotGroup.ParkingLots.constructor: requires the lots to be distinct objects. A Java array may hold one lot twice, and no test does.
- Attendant.ParkingBoy.constructor: requires empty lots, as every test builds them. The parked list starts empty, and the invariant needs the lots to agree with it.
- Lot.ParkingLot.constructor: the capacity is a `nat`. A negative Java `int` capacity, which no test uses, is not modelled.
- The array of lots is a `seq` of lot references fixed at construction, not a Java array. The tests never reassign its elements.
- Tests that repeat another test share one scenario method. Lines 125-136 repeat 51-62 and lines 140-151 repeat 66-78, each adding a message check. Lines 82-94 and 169-181 are the same test twice, both checking the message.
