/** The booking form: a listing from the CSV file is booked in the browser's `mock_reservations`
    entry, any other listing by a database insert. */
module Booking {
  import opened Js
  import opened Homes
  import opened Reservations
  import opened CsvLoader

  /** `typeof home.id === 'string' && home.id.startsWith('csv-')`. */
  predicate IsCsvItem(id: Id): (b: bool)
    ensures b ==> id.StrId? && |id.s| >= 4
  {
    id.StrId? && StartsWith(id.s, "csv-")
  }

  /** `mock-${Date.now()}`. */
  function MockId(now: nat): Id {
    StrId("mock-" + NatToString(now))
  }

  /** The reservation saved for a CSV listing at time `now`. */
  function MockReservation(home: Home, date: string, time: string, name: string, phone: string, now: nat)
    : (r: Reservation)
    ensures r.status == Pending
    ensures r.id.StrId? && StartsWith(r.id.s, "mock-")
    ensures r.homeId == home.id && r.funeralHome == Some(HomeRef(home.name, home.address))
    ensures r.date == date && r.time == time && r.customerName == name && r.customerPhone == phone
    ensures r.createdAt == Some(now)
  {
    Reservation(MockId(now), home.id, Some(HomeRef(home.name, home.address)), date, time, name, phone,
      Pending, Some(now))
  }

  /** The row inserted into the `reservations` table. */
  datatype InsertRow = InsertRow(homeId: Id, date: string, time: string, customerName: string,
    customerPhone: string, status: string)

  /** The database row for a booking: the form's fields, for the listing, awaiting approval. */
  function PendingRow(homeId: Id, date: string, time: string, name: string, phone: string): (row: InsertRow)
    ensures row.status == Pending && row.homeId == homeId
    ensures row.date == date && row.time == time && row.customerName == name && row.customerPhone == phone
  {
    InsertRow(homeId, date, time, name, phone, Pending)
  }

  /** Where the submit leads: the success page, or the failure alert. */
  datatype Outcome = Navigated(path: string) | Alerted(message: string)

  const SuccessPath := "/reservation/success"
  const FailureMessage := "예약 중 오류가 발생했습니다. 다시 시도해주세요."

  class BookingModal {
    /** The listing being booked. */
    const home: Home
    var step: int
    var date: string
    var time: string
    var name: string
    var phone: string
    var isSubmitting: bool

    constructor (home: Home)
      ensures this.home == home && step == 1
      ensures date == "" && time == "" && name == "" && phone == "" && !isSubmitting
    {
      this.home := home;
      step := 1;
      date, time, name, phone := "", "", "", "";
      isSubmitting := false;
    }

    /** The form's inputs. */
    method EnterDetails(date: string, time: string, name: string, phone: string)
      modifies this
      ensures this.date == date && this.time == time && this.name == name && this.phone == phone
      ensures step == old(step) && isSubmitting == old(isSubmitting)
    {
      this.date, this.time, this.name, this.phone := date, time, name, phone;
    }

    /** `handleSubmit`. A CSV listing puts its mock reservation in front of the stored list (the
        write is skipped when the stored entry does not parse as a list) and always succeeds; any
        other listing inserts one pending row, and the submit fails exactly when the insert does.
        `now` is the clock, `insertFails` the database's answer. */
    method HandleSubmit(now: nat, store: MockReservationStore, insertFails: bool)
      returns (outcome: Outcome, inserted: Option<InsertRow>)
      modifies this, store
      ensures !isSubmitting
      ensures date == old(date) && time == old(time) && name == old(name) && phone == old(phone)
      ensures step == old(step)
      ensures IsCsvItem(home.id) ==> inserted.None? && outcome == Navigated(SuccessPath)
      ensures IsCsvItem(home.id) && StoredList(old(store.value)).Some? ==>
        store.value == Saved([MockReservation(home, date, time, name, phone, now)] + StoredList(old(store.value)).value)
      ensures IsCsvItem(home.id) && StoredList(old(store.value)).None? ==> store.value == old(store.value)
      ensures !IsCsvItem(home.id) ==> inserted == Some(PendingRow(home.id, date, time, name, phone))
      ensures !IsCsvItem(home.id) ==> store.value == old(store.value)
      ensures !IsCsvItem(home.id) ==>
        outcome == (if insertFails then Alerted(FailureMessage) else Navigated(SuccessPath))
    {
      isSubmitting := true;
      if IsCsvItem(home.id) {
        var mock := MockReservation(home, date, time, name, phone, now);
        var existing := StoredList(store.value);
        if existing.Some? {
          store.value := Saved([mock] + existing.value);
        }
        inserted := None;
        outcome := Navigated(SuccessPath);
      } else {
        inserted := Some(PendingRow(home.id, date, time, name, phone));
        if insertFails {
          outcome := Alerted(FailureMessage);
        } else {
          outcome := Navigated(SuccessPath);
        }
      }
      isSubmitting := false;
    }
  }

  /** Every listing the CSV loader produces is booked through the mock path. */
  lemma LoadedHomesAreCsvItems(text: string, enrich: nat -> Enrichment)
    ensures forall i :: 0 <= i < |Load(text, enrich)| ==> IsCsvItem(Load(text, enrich)[i].id)
    ensures forall i :: 0 <= i < |LoadAsWritten(text, enrich)| ==> IsCsvItem(LoadAsWritten(text, enrich)[i].id)
  {
    LoadIds(text, enrich);
    LoadAsWrittenIds(text, enrich);
  }

  /** A database listing's integer id never takes the mock path. */
  lemma NumericIdIsNotCsvItem(n: int)
    ensures !IsCsvItem(NumId(n))
  {
  }
}
