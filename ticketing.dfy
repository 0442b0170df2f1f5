/**
  The values that pass between the parking attendant and its callers: cars,
  tickets, the four kinds of failure with their fixed messages, and the
  wrappers that `park` and `fetch` hand back.
 */
module Ticketing {

  /** A car is known only by its identity; an id stands for the Java object. */
  type Car = nat

  datatype Option<T> = None | Some(value: T)

  /** A claim check: the index of the lot that issued it, read by
      `getParkingLotId()`, and a serial that is unique to that issue. Two
      tickets that name the same lot but were issued separately differ in
      their serials, as two distinct Java ticket objects do. */
  datatype Ticket = Ticket(lotId: int, serial: nat)

  /** The four exceptions the attendant raises, one constructor each. */
  datatype ErrorKind =
    | ParkErrorCar           // a null car, or a car that is already parked
    | ParkingLotNotPosition  // every lot is full
    | NullTicket             // fetch without a ticket
    | WrongTicket            // a ticket that was never issued or is used up

  /** The message each exception carries. */
  function Message(kind: ErrorKind): string
  {
    match kind
    case ParkErrorCar => "Can not park a parked car or park a null car."
    case ParkingLotNotPosition => "Not enough position."
    case NullTicket => "Please provide your parking ticket."
    case WrongTicket => "Unrecognized parking ticket."
  }

  /** The message each failure is reported with, kind by kind. */
  lemma Messages()
    ensures Message(ParkErrorCar) == "Can not park a parked car or park a null car."
    ensures Message(ParkingLotNotPosition) == "Not enough position."
    ensures Message(NullTicket) == "Please provide your parking ticket."
    ensures Message(WrongTicket) == "Unrecognized parking ticket."
  {
  }

  /** What `park` returns: a ticket, read by `getTicket()`, or the failure. */
  datatype ParkResult = Parked(ticket: Ticket) | ParkFailed(error: ErrorKind)

  /** What `fetch` returns: the car, read by `getCar()`, or the failure. */
  datatype FetchResult = Fetched(car: Car) | FetchFailed(error: ErrorKind)

  /** No element occurs twice. */
  predicate Distinct<T(==)>(s: seq<T>)
  {
    forall i, j :: 0 <= i < j < |s| ==> s[i] != s[j]
  }
}
