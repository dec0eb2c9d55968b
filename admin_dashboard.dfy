/** The reservation dashboard: the stored mock reservations and the database's merged newest
    first, status changes routed by id, and the status labels and buttons. */
module AdminDashboard {
  import opened Js
  import opened StableSort
  import opened Homes
  import opened Reservations
  import opened Booking

  /** The answer to the `reservations` select: an error, or the `data` it returned (`null` is
      `None`). */
  datatype Select = SelectError | SelectRows(data: Option<seq<Reservation>>)

  /** `dbReservations`: empty after an error or a `null` answer. */
  function DbReservations(q: Select): seq<Reservation> {
    match q
    case SelectError => []
    case SelectRows(data) => if data.Some? then data.value else []
  }

  /** `mockReservations`: an empty or missing entry is skipped and text that does not parse is
      caught, both leaving the list empty; `None` when the entry parses to something other than a
      list, whose spread into the merge throws. */
  function MockList(stored: Stored): (r: Option<seq<Reservation>>)
    ensures r.None? <==> stored.NotAList?
    ensures r.Some? ==> forall x :: x in r.value ==> stored.Saved? && x in stored.items
  {
    match stored
    case Missing => Some([])
    case Malformed => Some([])
    case NotAList => None
    case Saved(items) => Some(items)
  }

  /** `new Date(created_at)`, as the comparator subtracts it. */
  function CreatedKey(r: Reservation): Option<real> {
    if r.createdAt.Some? then Some(r.createdAt.value as real) else None
  }

  /** `[...mockReservations, ...dbReservations]` sorted by `new Date(b) - new Date(a)`. */
  function Merge(mock: seq<Reservation>, db: seq<Reservation>): (r: seq<Reservation>)
    ensures |r| == |mock| + |db|
  {
    SortPermutes(mock + db, CreatedKey, Descending);
    Sort(mock + db, CreatedKey, Descending)
  }

  /** The list a refresh shows; `None` when it throws before showing anything. */
  function Refreshed(q: Select, stored: Stored): (r: Option<seq<Reservation>>)
    ensures r.None? <==> stored.NotAList?
    ensures r.Some? ==> |r.value| == |MockList(stored).value| + |DbReservations(q)|
  {
    var mock := MockList(stored);
    if mock.None? then None else Some(Merge(mock.value, DbReservations(q)))
  }

  /** `id.toString().startsWith('mock-')`. */
  predicate IsMockId(id: Id): (b: bool)
    ensures b ==> |IdToString(id)| >= 5
  {
    StartsWith(IdToString(id), "mock-")
  }

  /** `stored.map(res => res.id === id ? { ...res, status: newStatus } : res)`. */
  function UpdateStatusById(xs: seq<Reservation>, id: Id, status: string): (r: seq<Reservation>)
    ensures |r| == |xs|
    ensures forall i :: 0 <= i < |xs| && xs[i].id == id ==> r[i] == xs[i].(status := status)
    ensures forall i :: 0 <= i < |xs| && xs[i].id != id ==> r[i] == xs[i]
  {
    if xs == [] then []
    else
      var last := xs[|xs| - 1];
      UpdateStatusById(xs[..|xs| - 1], id, status) + [if last.id == id then last.(status := status) else last]
  }

  /** The database update a status change sends. */
  datatype StatusUpdate = StatusUpdate(id: Id, status: string)

  class Dashboard {
    var reservations: seq<Reservation>
    var isLoading: bool

    constructor ()
      ensures reservations == [] && isLoading
    {
      reservations := [];
      isLoading := true;
    }

    /** `fetchReservations`, given the database's answer `q`: the merged list is shown and loading
        ends, unless the stored entry is not a list, when nothing changes. */
    method FetchReservations(q: Select, store: MockReservationStore)
      modifies this
      ensures Refreshed(q, store.value).Some? ==> reservations == Refreshed(q, store.value).value && !isLoading
      ensures Refreshed(q, store.value).None? ==> reservations == old(reservations) && isLoading == old(isLoading)
    {
      var db := DbReservations(q);
      var mock := MockList(store.value);
      if mock.None? {
        return;
      }
      var all := mock.value + db;
      var a := new Reservation[|all|](i requires 0 <= i < |all| => all[i]);
      assert a[..] == all;
      SortInPlace(a, CreatedKey, Descending);
      reservations := a[..];
      isLoading := false;
    }

    /** `handleStatusChange`. A mock id is updated in the stored list, which is then shown again;
        when the stored entry does not parse as a list nothing changes. Any other id is sent as a
        database update, and the list is shown again when the update succeeds. `q` is the select's
        answer afterwards. */
    method HandleStatusChange(id: Id, newStatus: string, store: MockReservationStore, updateFails: bool, q: Select)
      returns (sent: Option<StatusUpdate>)
      modifies this, store
      ensures IsMockId(id) ==> sent.None?
      ensures IsMockId(id) && StoredList(old(store.value)).Some? ==>
        && store.value == Saved(UpdateStatusById(StoredList(old(store.value)).value, id, newStatus))
        && reservations == Merge(store.value.items, DbReservations(q)) && !isLoading
      ensures IsMockId(id) && StoredList(old(store.value)).None? ==>
        store.value == old(store.value) && reservations == old(reservations) && isLoading == old(isLoading)
      ensures !IsMockId(id) ==> sent == Some(StatusUpdate(id, newStatus)) && store.value == old(store.value)
      ensures !IsMockId(id) && (updateFails || Refreshed(q, store.value).None?) ==>
        reservations == old(reservations) && isLoading == old(isLoading)
      ensures !IsMockId(id) && !updateFails && Refreshed(q, store.value).Some? ==>
        reservations == Refreshed(q, store.value).value && !isLoading
    {
      if IsMockId(id) {
        var stored := StoredList(store.value);
        if stored.Some? {
          store.value := Saved(UpdateStatusById(stored.value, id, newStatus));
          FetchReservations(q, store);
        }
        return None;
      }
      sent := Some(StatusUpdate(id, newStatus));
      if !updateFails {
        FetchReservations(q, store);
      }
    }
  }

  // ---------------------------------------------------------------------------------------------
  // The merged list

  /** The merged list holds every mock and every database reservation, nothing else. */
  lemma MergePermutes(mock: seq<Reservation>, db: seq<Reservation>)
    ensures |Merge(mock, db)| == |mock| + |db|
    ensures multiset(Merge(mock, db)) == multiset(mock) + multiset(db)
  {
    SortPermutes(mock + db, CreatedKey, Descending);
  }

  /** When every creation time reads as a date, the merged list is newest first. */
  lemma MergeNewestFirst(mock: seq<Reservation>, db: seq<Reservation>)
    requires forall i :: 0 <= i < |mock| ==> mock[i].createdAt.Some?
    requires forall i :: 0 <= i < |db| ==> db[i].createdAt.Some?
    ensures forall i :: 0 <= i < |Merge(mock, db)| ==> Merge(mock, db)[i].createdAt.Some?
    ensures forall i, j :: 0 <= i < j < |Merge(mock, db)| ==>
      Merge(mock, db)[i].createdAt.value >= Merge(mock, db)[j].createdAt.value
  {
    var all := mock + db;
    assert Numeric(all, CreatedKey) by {
      forall i | 0 <= i < |all|
        ensures CreatedKey(all[i]).Some?
      {
        if i >= |mock| {
          assert all[i] == db[i - |mock|];
        }
      }
    }
    SortOrdered(all, CreatedKey, Descending);
    OrderedValues(Sort(all, CreatedKey, Descending), CreatedKey, Descending);
  }

  /** Reservations made at the same time keep their order, the mock ones first. */
  lemma MergeStable(mock: seq<Reservation>, db: seq<Reservation>, t: Option<real>)
    ensures WithKey(Merge(mock, db), CreatedKey, t) == WithKey(mock + db, CreatedKey, t)
  {
    SortStable(mock + db, CreatedKey, Descending, t);
  }

  /** A stored entry that is missing or does not parse adds no reservations to the list. */
  lemma UnusableEntryAddsNothing(q: Select, stored: Stored)
    requires stored.Missing? || stored.Malformed?
    ensures Refreshed(q, stored) == Some(Sort(DbReservations(q), CreatedKey, Descending))
  {
    assert [] + DbReservations(q) == DbReservations(q);
  }

  // ---------------------------------------------------------------------------------------------
  // The status update

  /** Applying the same update twice is applying it once. */
  lemma {:induction false} UpdateIdempotent(xs: seq<Reservation>, id: Id, status: string)
    ensures UpdateStatusById(UpdateStatusById(xs, id, status), id, status) == UpdateStatusById(xs, id, status)
  {
    var once := UpdateStatusById(xs, id, status);
    var twice := UpdateStatusById(once, id, status);
    assert forall i :: 0 <= i < |xs| ==> once[i].id == xs[i].id;
    assert forall i :: 0 <= i < |xs| ==> twice[i] == once[i];
  }

  /** The update changes only statuses: ids, and every other field, stay as they were. */
  lemma UpdateChangesOnlyStatus(xs: seq<Reservation>, id: Id, status: string)
    ensures var r := UpdateStatusById(xs, id, status);
      forall i :: 0 <= i < |xs| ==> r[i].(status := xs[i].status) == xs[i] && r[i].id == xs[i].id
  {
  }

  /** An id no reservation has leaves the list as it is. */
  lemma UpdateAbsentId(xs: seq<Reservation>, id: Id, status: string)
    requires forall i :: 0 <= i < |xs| ==> xs[i].id != id
    ensures UpdateStatusById(xs, id, status) == xs
  {
  }

  // ---------------------------------------------------------------------------------------------
  // Routing of ids

  /** A reservation booked for a CSV listing is updated in the stored list. */
  lemma BookedMockIsLocal(home: Home, date: string, time: string, name: string, phone: string, now: nat)
    ensures IsMockId(MockReservation(home, date, time, name, phone, now).id)
  {
  }

  /** A database reservation's integer id is never taken for a mock one. */
  lemma NumericIdIsRemote(n: int)
    ensures !IsMockId(NumId(n))
  {
    var s := IdToString(NumId(n));
    assert s[0] == '-' || IsDigit(s[0]);
  }

  // ---------------------------------------------------------------------------------------------
  // Labels and buttons

  /** The badge text: `confirmed` and `cancelled` have their own, every other status reads as
      awaiting approval. */
  function StatusLabel(status: string): (badge: string)
    ensures badge == "확정됨" <==> status == Confirmed
    ensures badge == "취소됨" <==> status == Cancelled
    ensures badge == "대기중" <==> status != Confirmed && status != Cancelled
  {
    if status == Confirmed then "확정됨" else if status == Cancelled then "취소됨" else "대기중"
  }

  /** A button: its caption and the status it sets. */
  datatype Action = Action(caption: string, target: string)

  /** The buttons a reservation's row shows. */
  function Actions(status: string): (buttons: seq<Action>)
    ensures |buttons| <= 2
    ensures forall k :: 0 <= k < |buttons| ==> buttons[k].target != status
    ensures status == Cancelled ==> buttons == []
  {
    if status == Pending then [Action("승인", Confirmed), Action("취소", Cancelled)]
    else if status == Confirmed then [Action("상태 변경", Pending)]
    else []
  }

  /** Some button moves `from` to `to`. */
  predicate Offered(from: string, to: string) {
    exists k :: 0 <= k < |Actions(from)| && Actions(from)[k].target == to
  }

  /** The transitions offered: pending to confirmed or cancelled, confirmed back to pending, and
      nothing else; in particular a cancelled reservation is final. */
  lemma OfferedTransitions(from: string, to: string)
    ensures Offered(from, to) <==>
      (from == Pending && (to == Confirmed || to == Cancelled)) || (from == Confirmed && to == Pending)
  {
    if from == Pending && to == Cancelled {
      assert Actions(from)[1].target == to;
    }
    if (from == Pending && to == Confirmed) || (from == Confirmed && to == Pending) {
      assert Actions(from)[0].target == to;
    }
  }

  /** A status outside the three reads as awaiting approval but offers no button. */
  lemma UnknownStatus(status: string)
    requires status != Pending && status != Confirmed && status != Cancelled
    ensures StatusLabel(status) == "대기중" && Actions(status) == []
  {
  }
}
