/** Reservations, and the browser's `mock_reservations` entry that holds the ones made for listings
    the database does not know. */
module Reservations {
  import opened Js

  /** The `funeral_homes` part of a reservation: the booked home's name and address. */
  datatype HomeRef = HomeRef(name: string, address: string)

  /** One reservation. `createdAt` is `created_at` read as a date, in milliseconds since the epoch;
      `None` when it does not read as one (`new Date(...)` is then `NaN`). */
  datatype Reservation = Reservation(
    id: Id,
    homeId: Id,
    funeralHome: Option<HomeRef>,
    date: string,
    time: string,
    customerName: string,
    customerPhone: string,
    status: string,
    createdAt: Option<int>)

  /** The three statuses the pages write. */
  const Pending := "pending"
  const Confirmed := "confirmed"
  const Cancelled := "cancelled"

  /** The `mock_reservations` entry as `JSON.parse` sees it: missing (`null` or the empty string),
      text that is not JSON, a JSON value that is not a list, or a saved list. */
  datatype Stored = Missing | Malformed | NotAList | Saved(items: seq<Reservation>)

  /** `localStorage` as the pages use it: one mutable entry. */
  class MockReservationStore {
    var value: Stored

    constructor (value: Stored)
      ensures this.value == value
    {
      this.value := value;
    }
  }

  /** The list `JSON.parse(localStorage.getItem(...) || '[]')` gives: a missing entry reads as the
      empty list; `None` when the parse throws or the result is not a list. */
  function StoredList(stored: Stored): (r: Option<seq<Reservation>>)
    ensures r.None? <==> stored.Malformed? || stored.NotAList?
    ensures r.Some? && r.value != [] ==> stored.Saved? && r.value == stored.items
  {
    match stored
    case Missing => Some([])
    case Saved(items) => Some(items)
    case _ => None
  }
}
