/** The seat-booking store behind `createBooking`, `confirmBooking` and
    `cancelBooking`, as one sequential abstract state: the `shows`,
    `bookings` and `booking_seats` tables, the booking-id sequence and the
    Redis key space. Each handler is one atomic step over it; the step
    functions here are the specification that the imperative handlers in
    module BookingService are proved against, and the lemmas below state what
    the handlers promise. */
module Bookings {
  import opened Wrappers
  import opened Cache

  type ShowId = nat
  type SeatId = nat
  type BookingId = nat
  type UserId = nat

  datatype BookingStatus = Pending | Confirmed | Cancelled

  /** Status column of a `booking_seats` row: 'booked' or 'cancelled'. */
  datatype SeatStatus = SeatBooked | SeatCancelled

  datatype Show = Show(price: int, availableSeats: int)

  datatype Booking = Booking(userId: UserId, showId: ShowId, totalAmount: int,
                             status: BookingStatus, paymentId: Option<string>)

  datatype SeatRow = SeatRow(bookingId: BookingId, seatId: SeatId, showId: ShowId, status: SeatStatus)

  datatype State = State(shows: map<ShowId, Show>, bookings: map<BookingId, Booking>,
                         seatRows: seq<SeatRow>, nextId: BookingId, cache: Keyspace)

  /** HTTP outcome of a handler: 201 with the new booking and its expiry,
      200, or an error status. */
  datatype Reply = Created(bookingId: BookingId, expiresIn: int) | Ok | Failure(status: nat)

  /** Which awaited call throws, if any. `StoreThrows(k)`: the k-th database
      statement the handler issues (its BEGIN or first query is 0; ROLLBACK
      statements are not counted and always succeed). `CacheThrows(k)`: the
      k-th Redis call. The catch block rolls the transaction back and
      answers 500; Redis writes already made are not undone. */
  datatype Fault = NoFault | StoreThrows(step: nat) | CacheThrows(step: nat)

  datatype Step = Step(post: State, reply: Reply)

  /** The database part of two states agrees; the key space may differ. */
  predicate SameDatabase(a: State, b: State)
  {
    a.shows == b.shows && a.bookings == b.bookings && a.seatRows == b.seatRows && a.nextId == b.nextId
  }

  // ---------------------------------------------------------------- queries

  /** A `booked` row for this seat of this show exists. */
  predicate SeatTaken(rows: seq<SeatRow>, showId: ShowId, seatId: SeatId)
  {
    exists i :: 0 <= i < |rows| && rows[i].showId == showId && rows[i].seatId == seatId && rows[i].status == SeatBooked
  }

  /** The 'already booked' query returns a row: some requested seat is taken. */
  predicate AnyTaken(rows: seq<SeatRow>, showId: ShowId, seatIds: seq<SeatId>)
  {
    exists j :: 0 <= j < |seatIds| && SeatTaken(rows, showId, seatIds[j])
  }

  /** Number of `booked` rows of a show. */
  function BookedCount(rows: seq<SeatRow>, showId: ShowId): nat
  {
    if rows == [] then 0
    else
      var last := rows[|rows| - 1];
      BookedCount(rows[..|rows| - 1], showId) + (if last.showId == showId && last.status == SeatBooked then 1 else 0)
  }

  /** The COUNT of a booking's seat rows, whatever their status. */
  function RowCount(rows: seq<SeatRow>, id: BookingId): nat
  {
    if rows == [] then 0
    else RowCount(rows[..|rows| - 1], id) + (if rows[|rows| - 1].bookingId == id then 1 else 0)
  }

  /** The rows the insertion loop adds: one `booked` row per requested seat, in request order. */
  function BookedRows(id: BookingId, showId: ShowId, seatIds: seq<SeatId>): (rows: seq<SeatRow>)
    ensures |rows| == |seatIds|
    ensures forall i :: 0 <= i < |seatIds| ==> rows[i] == SeatRow(id, seatIds[i], showId, SeatBooked)
  {
    if seatIds == [] then []
    else BookedRows(id, showId, seatIds[..|seatIds| - 1]) + [SeatRow(id, seatIds[|seatIds| - 1], showId, SeatBooked)]
  }

  function CancelRow(r: SeatRow, id: BookingId): SeatRow
  {
    if r.bookingId == id then r.(status := SeatCancelled) else r
  }

  /** The UPDATE that marks every seat row of booking `id` cancelled. */
  function CancelRowsOf(rows: seq<SeatRow>, id: BookingId): (out: seq<SeatRow>)
    ensures |out| == |rows|
    ensures forall i :: 0 <= i < |rows| ==> out[i] == CancelRow(rows[i], id)
  {
    if rows == [] then []
    else CancelRowsOf(rows[..|rows| - 1], id) + [CancelRow(rows[|rows| - 1], id)]
  }

  // ------------------------------------------------------------- invariants

  /** A seat row belongs to a stored booking, for that booking's show, and is
      `booked` exactly while the booking is not cancelled. */
  predicate RowAgrees(bookings: map<BookingId, Booking>, r: SeatRow)
  {
    r.bookingId in bookings && r.showId == bookings[r.bookingId].showId &&
    (r.status == SeatBooked <==> bookings[r.bookingId].status != Cancelled)
  }

  /** What the database keeps true between handler calls. */
  predicate Consistent(s: State)
  {
    (forall sh :: sh in s.shows ==> s.shows[sh].availableSeats >= 0) &&
    (forall id :: id in s.bookings ==> id < s.nextId && s.bookings[id].showId in s.shows) &&
    (forall i :: 0 <= i < |s.seatRows| ==> RowAgrees(s.bookings, s.seatRows[i]))
  }

  /** At most one `booked` row per (show, seat). */
  predicate SeatsUnique(rows: seq<SeatRow>)
  {
    forall i, j ::
      0 <= i < j < |rows| && rows[i].status == SeatBooked && rows[j].status == SeatBooked && rows[i].showId == rows[j].showId
      ==> rows[i].seatId != rows[j].seatId
  }

  /** No two different bookings hold a `booked` row for the same (show, seat);
      one booking may hold it twice. */
  predicate SeatsHeldByOneBooking(rows: seq<SeatRow>)
  {
    forall i, j ::
      0 <= i < |rows| && 0 <= j < |rows| && rows[i].status == SeatBooked && rows[j].status == SeatBooked &&
      rows[i].showId == rows[j].showId && rows[i].seatId == rows[j].seatId
      ==> rows[i].bookingId == rows[j].bookingId
  }

  /** With at most one booked row per (show, seat), each booked seat has
      one holder. */
  lemma UniqueSeatsHeldByOneBooking(rows: seq<SeatRow>)
    requires SeatsUnique(rows)
    ensures SeatsHeldByOneBooking(rows)
  {
    forall i, j | 0 <= i < |rows| && 0 <= j < |rows| && rows[i].status == SeatBooked && rows[j].status == SeatBooked
                  && rows[i].showId == rows[j].showId && rows[i].seatId == rows[j].seatId
      ensures rows[i].bookingId == rows[j].bookingId
    {
      assert i == j;
    }
  }

  predicate Distinct(seatIds: seq<SeatId>)
  {
    forall i, j :: 0 <= i < j < |seatIds| ==> seatIds[i] != seatIds[j]
  }

  /** Remaining plus sold seats of a show: its fixed size. */
  function Capacity(s: State, showId: ShowId): int
    requires showId in s.shows
  {
    s.shows[showId].availableSeats + BookedCount(s.seatRows, showId)
  }

  // ------------------------------------------------------------ the steps

  /** Seconds a fresh booking stays pending before its marker lapses. */
  function ExpirySeconds(expiryMinutes: int): int
  {
    expiryMinutes * 60
  }

  /** A validation failure after the lock was taken: ROLLBACK, then DEL the
      lock (the handler's second Redis call) and answer `status`. */
  function Reject(locked: State, showId: ShowId, status: nat, fault: Fault): Step
  {
    if fault == CacheThrows(1) then Step(locked, Failure(500))
    else Step(locked.(cache := Del(locked.cache, LockKey(showId))), Failure(status))
  }

  /** The committed transaction of a booking: a pending booking under the
      next id charging `price * n`, one booked row per requested seat, and
      `n` fewer available seats. */
  function CreateCommit(s: State, userId: UserId, showId: ShowId, seatIds: seq<SeatId>): State
    requires showId in s.shows
  {
    var id := s.nextId;
    var show := s.shows[showId];
    var n := |seatIds|;
    s.(shows := s.shows[showId := show.(availableSeats := show.availableSeats - n)],
       bookings := s.bookings[id := Booking(userId, showId, show.price * n, Pending, None)],
       seatRows := s.seatRows + BookedRows(id, showId, seatIds),
       nextId := id + 1)
  }

  /** `createBooking`. Database statements in order: BEGIN (0), the
      booked-seat query (1), the show query (2), INSERT booking (3), one
      INSERT per seat (4 .. 3+n), UPDATE shows (4+n), COMMIT (5+n). Redis
      calls: SET NX (0), DEL lock (1), SETEX marker (2). */
  function CreateStep(s: State, userId: UserId, showId: ShowId, seatIds: seq<SeatId>,
                      expiryMinutes: int, now: int, fault: Fault): Step
  {
    var lock := LockKey(showId);
    if fault == StoreThrows(0) || fault == CacheThrows(0) then Step(s, Failure(500))
    else if !SetNx(s.cache, lock, LockTtl, now).0 then Step(s, Failure(409))
    else LockedStep(s.(cache := SetNx(s.cache, lock, LockTtl, now).1), userId, showId, seatIds, expiryMinutes, now, fault)
  }

  /** `createBooking` once the lock is held: the checks and the transaction. */
  function LockedStep(s: State, userId: UserId, showId: ShowId, seatIds: seq<SeatId>,
                      expiryMinutes: int, now: int, fault: Fault): Step
  {
    var n := |seatIds|;
    if fault == StoreThrows(1) then Step(s, Failure(500))
    else if AnyTaken(s.seatRows, showId, seatIds) then Reject(s, showId, 400, fault)
    else if fault == StoreThrows(2) then Step(s, Failure(500))
    else if showId !in s.shows then Reject(s, showId, 404, fault)
    else if s.shows[showId].availableSeats < n then Reject(s, showId, 400, fault)
    else if fault.StoreThrows? && 3 <= fault.step <= 5 + n then Step(s, Failure(500))
    else CommittedStep(CreateCommit(s, userId, showId, seatIds), showId, s.nextId, expiryMinutes, now, fault)
  }

  /** `createBooking` after COMMIT: DEL the lock, then SETEX the marker of
      booking `id`. */
  function CommittedStep(s: State, showId: ShowId, id: BookingId, expiryMinutes: int, now: int, fault: Fault): Step
  {
    if fault == CacheThrows(1) then Step(s, Failure(500))
    else
      var released := s.(cache := Del(s.cache, LockKey(showId)));
      var marked := SetEx(released.cache, MarkerKey(id), ExpirySeconds(expiryMinutes), now);
      if fault == CacheThrows(2) || marked.None? then Step(released, Failure(500))
      else Step(released.(cache := marked.value), Created(id, ExpirySeconds(expiryMinutes)))
  }

  /** The guarded UPDATE of `confirmBooking` matches a row. */
  predicate Confirmable(s: State, bookingId: BookingId, userId: UserId)
  {
    bookingId in s.bookings && s.bookings[bookingId].userId == userId && s.bookings[bookingId].status == Pending
  }

  /** `confirmBooking`: one autocommitted UPDATE (statement 0), then DEL of
      the marker (Redis call 0). */
  function ConfirmStep(s: State, bookingId: BookingId, userId: UserId, paymentId: Option<string>, fault: Fault): Step
  {
    if fault == StoreThrows(0) then Step(s, Failure(500))
    else if !Confirmable(s, bookingId, userId) then Step(s, Failure(404))
    else
      var b := s.bookings[bookingId];
      var updated := s.(bookings := s.bookings[bookingId := b.(status := Confirmed, paymentId := paymentId)]);
      if fault == CacheThrows(0) then Step(updated, Failure(500))
      else Step(updated.(cache := Del(updated.cache, MarkerKey(bookingId))), Ok)
  }

  /** The committed effect of a cancellation: the booking and all its rows
      become cancelled and the show gets back as many seats as the booking
      has rows. */
  function CancelCommit(s: State, bookingId: BookingId): State
    requires bookingId in s.bookings
  {
    var b := s.bookings[bookingId];
    var rows := CancelRowsOf(s.seatRows, bookingId);
    var count := RowCount(rows, bookingId);
    s.(bookings := s.bookings[bookingId := b.(status := Cancelled)],
       seatRows := rows,
       shows := if b.showId in s.shows
                then s.shows[b.showId := s.shows[b.showId].(availableSeats := s.shows[b.showId].availableSeats + count)]
                else s.shows)
  }

  /** `cancelBooking`. Statements: BEGIN (0), SELECT booking (1), UPDATE
      bookings (2), UPDATE booking_seats (3), COUNT (4), UPDATE shows (5),
      COMMIT (6). No Redis call. */
  function CancelStep(s: State, bookingId: BookingId, userId: UserId, fault: Fault): Step
  {
    if fault == StoreThrows(0) || fault == StoreThrows(1) then Step(s, Failure(500))
    else if bookingId !in s.bookings || s.bookings[bookingId].userId != userId then Step(s, Failure(404))
    else if s.bookings[bookingId].status == Cancelled then Step(s, Failure(400))
    else CancelUpdates(s, bookingId, fault)
  }

  /** The updates of `cancelBooking` once the booking is found and not yet
      cancelled: statements 2 to 6, all rolled back if one throws. */
  function CancelUpdates(s: State, bookingId: BookingId, fault: Fault): Step
    requires bookingId in s.bookings
  {
    if fault.StoreThrows? && 2 <= fault.step <= 6 then Step(s, Failure(500))
    else Step(CancelCommit(s, bookingId), Ok)
  }

  // ------------------------------------------------------ counting lemmas

  lemma {:induction false} BookedCountAppend(a: seq<SeatRow>, b: seq<SeatRow>, showId: ShowId)
    ensures BookedCount(a + b, showId) == BookedCount(a, showId) + BookedCount(b, showId)
    decreases |b|
  {
    if b == [] {
      assert a + b == a;
    } else {
      var init := b[..|b| - 1];
      assert (a + b)[..|a + b| - 1] == a + init;
      BookedCountAppend(a, init, showId);
    }
  }

  lemma {:induction false} BookedRowsCount(id: BookingId, showId: ShowId, seatIds: seq<SeatId>, other: ShowId)
    ensures BookedCount(BookedRows(id, showId, seatIds), other) == if other == showId then |seatIds| else 0
    decreases |seatIds|
  {
    if seatIds != [] {
      var rows := BookedRows(id, showId, seatIds);
      var init := seatIds[..|seatIds| - 1];
      assert rows[..|rows| - 1] == BookedRows(id, showId, init);
      BookedRowsCount(id, showId, init, other);
    }
  }

  /** Cancelling a booking whose rows are all booked for show `bShow` takes
      exactly its row count off that show's booked count, and nothing off
      any other show's. */
  lemma {:induction false} CancelRowsCount(rows: seq<SeatRow>, id: BookingId, bShow: ShowId, showId: ShowId)
    requires forall i :: 0 <= i < |rows| && rows[i].bookingId == id ==> rows[i].status == SeatBooked && rows[i].showId == bShow
    ensures BookedCount(CancelRowsOf(rows, id), showId) + (if showId == bShow then RowCount(rows, id) else 0)
            == BookedCount(rows, showId)
    decreases |rows|
  {
    if rows != [] {
      var init := rows[..|rows| - 1];
      var out := CancelRowsOf(rows, id);
      assert out[..|out| - 1] == CancelRowsOf(init, id);
      CancelRowsCount(init, id, bShow, showId);
    }
  }

  /** The status update does not change which rows belong to the booking. */
  lemma {:induction false} RowCountAfterCancel(rows: seq<SeatRow>, id: BookingId, other: BookingId)
    ensures RowCount(CancelRowsOf(rows, id), other) == RowCount(rows, other)
    decreases |rows|
  {
    if rows != [] {
      var out := CancelRowsOf(rows, id);
      assert out[..|out| - 1] == CancelRowsOf(rows[..|rows| - 1], id);
      RowCountAfterCancel(rows[..|rows| - 1], id, other);
    }
  }
}
