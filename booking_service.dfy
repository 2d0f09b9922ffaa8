/** The booking handlers as they run: one object holding the `shows`,
    `bookings` and `booking_seats` tables, the booking-id sequence and the
    Redis key space, and three methods that update them statement by
    statement. A transaction works on local copies of the tables and only
    COMMIT writes them back, so returning early is a ROLLBACK; Redis writes
    go to `cache` at once and are never undone. Each method is proved to
    end in exactly the state and reply its step function in module Bookings
    prescribes, which the lemmas of module BookingProperties are about. */
module BookingService {
  import opened Wrappers
  import opened Cache
  import opened Bookings
  import BookingProperties

  class Backend {
    var shows: map<ShowId, Show>
    var bookings: map<BookingId, Booking>
    var seatRows: seq<SeatRow>
    var nextId: BookingId
    var cache: Keyspace

    /** The whole store as a value. */
    function Snapshot(): State
      reads this
    {
      State(shows, bookings, seatRows, nextId, cache)
    }

    ghost predicate Valid()
      reads this
    {
      Consistent(Snapshot())
    }

    /** A store with the given shows and no bookings yet. */
    constructor (catalog: map<ShowId, Show>)
      requires forall sh :: sh in catalog ==> catalog[sh].availableSeats >= 0
      ensures Valid() && Snapshot() == State(catalog, map[], [], 0, map[])
    {
      shows, bookings, seatRows, nextId, cache := catalog, map[], [], 0, map[];
    }

    /** `createBooking` (bookingController.ts): BEGIN, then the seat lock. */
    method CreateBooking(userId: UserId, showId: ShowId, seatIds: seq<SeatId>,
                         expiryMinutes: int, now: int, fault: Fault) returns (reply: Reply)
      requires Valid()
      modifies this
      ensures Valid()
      ensures Step(Snapshot(), reply) == CreateStep(old(Snapshot()), userId, showId, seatIds, expiryMinutes, now, fault)
    {
      BookingProperties.ApplyKeepsInvariants(Snapshot(),
        BookingProperties.Call(BookingProperties.CreateRequest(userId, showId, seatIds, expiryMinutes), now, fault));
      // BEGIN
      if fault == StoreThrows(0) {
        return Failure(500);
      }
      // SET show:<id>:seats locked NX EX 30
      if fault == CacheThrows(0) {
        return Failure(500);
      }
      var acquired;
      acquired, cache := SetNx(cache, LockKey(showId), LockTtl, now).0, SetNx(cache, LockKey(showId), LockTtl, now).1;
      if !acquired {
        return Failure(409);
      }
      reply := Reserve(userId, showId, seatIds, expiryMinutes, now, fault);
    }

    /** The checks and the transaction of `createBooking`, with the lock held. */
    method Reserve(userId: UserId, showId: ShowId, seatIds: seq<SeatId>,
                   expiryMinutes: int, now: int, fault: Fault) returns (reply: Reply)
      modifies this
      ensures Step(Snapshot(), reply) == LockedStep(old(Snapshot()), userId, showId, seatIds, expiryMinutes, now, fault)
    {
      var lockKey := LockKey(showId);
      // the booked-seat query: is any requested seat already booked for this show?
      if fault == StoreThrows(1) {
        return Failure(500);
      }
      if AnyTaken(seatRows, showId, seatIds) {
        reply := ReleaseAfterRollback(lockKey, 400, fault);
        return;
      }
      // the show query: its price and available seats
      if fault == StoreThrows(2) {
        return Failure(500);
      }
      if showId !in shows {
        reply := ReleaseAfterRollback(lockKey, 404, fault);
        return;
      }
      var show := shows[showId];
      if show.availableSeats < |seatIds| {
        reply := ReleaseAfterRollback(lockKey, 400, fault);
        return;
      }
      var totalAmount := show.price * |seatIds|;
      // insert the pending booking
      if fault == StoreThrows(3) {
        return Failure(500);
      }
      var id := nextId;
      var txBookings := bookings[id := Booking(userId, showId, totalAmount, Pending, None)];
      var txRows, failed := InsertSeatRows(id, showId, seatIds, fault);
      if failed {
        return Failure(500);
      }
      assert txRows == seatRows + BookedRows(id, showId, seatIds);
      // take the booked seats off the show's available count
      if fault == StoreThrows(4 + |seatIds|) {
        return Failure(500);
      }
      var txShows := shows[showId := show.(availableSeats := show.availableSeats - |seatIds|)];
      // COMMIT
      if fault == StoreThrows(5 + |seatIds|) {
        return Failure(500);
      }
      shows, bookings, seatRows, nextId := txShows, txBookings, txRows, id + 1;
      reply := ReleaseAndMark(showId, id, expiryMinutes, now, fault);
    }

    /** The insertion loop: one `booked` row per requested seat, appended in
        request order to the transaction's copy of `booking_seats`; the
        INSERT for seat `i` is database statement 4+i. */
    method InsertSeatRows(id: BookingId, showId: ShowId, seatIds: seq<SeatId>, fault: Fault)
      returns (rows: seq<SeatRow>, failed: bool)
      ensures failed <==> fault.StoreThrows? && 4 <= fault.step < 4 + |seatIds|
      ensures !failed ==> |rows| == |seatRows| + |seatIds| && rows[..|seatRows|] == seatRows
      ensures !failed ==> forall k :: 0 <= k < |seatIds| ==> rows[|seatRows| + k] == SeatRow(id, seatIds[k], showId, SeatBooked)
    {
      rows, failed := seatRows, false;
      var i := 0;
      while i < |seatIds|
        invariant 0 <= i <= |seatIds|
        invariant |rows| == |seatRows| + i && rows[..|seatRows|] == seatRows
        invariant forall k :: 0 <= k < i ==> rows[|seatRows| + k] == SeatRow(id, seatIds[k], showId, SeatBooked)
        invariant !(fault.StoreThrows? && 4 <= fault.step < 4 + i)
      {
        if fault == StoreThrows(4 + i) {
          return rows, true;
        }
        rows := rows + [SeatRow(id, seatIds[i], showId, SeatBooked)];
        i := i + 1;
      }
    }

    /** After COMMIT: DEL the lock, then SETEX `booking:<id>` for the expiry window. */
    method ReleaseAndMark(showId: ShowId, id: BookingId, expiryMinutes: int, now: int, fault: Fault)
      returns (reply: Reply)
      modifies this`cache
      ensures Step(Snapshot(), reply) == CommittedStep(old(Snapshot()), showId, id, expiryMinutes, now, fault)
    {
      if fault == CacheThrows(1) {
        return Failure(500);
      }
      cache := Del(cache, LockKey(showId));
      var expiresIn := ExpirySeconds(expiryMinutes);
      var marked := SetEx(cache, MarkerKey(id), expiresIn, now);
      if fault == CacheThrows(2) || marked.None? {
        return Failure(500);
      }
      cache := marked.value;
      reply := Created(id, expiresIn);
    }

    /** The shared tail of the three validation failures: after the
        ROLLBACK, DEL the lock and answer `status`; a failing DEL turns the
        reply into 500 and leaves the lock in place. */
    method ReleaseAfterRollback(lockKey: string, status: nat, fault: Fault) returns (reply: Reply)
      modifies this`cache
      ensures fault == CacheThrows(1) ==> cache == old(cache) && reply == Failure(500)
      ensures fault != CacheThrows(1) ==> cache == Del(old(cache), lockKey) && reply == Failure(status)
    {
      if fault == CacheThrows(1) {
        return Failure(500);
      }
      cache := Del(cache, lockKey);
      reply := Failure(status);
    }

    /** `confirmBooking` (bookingController.ts). */
    method ConfirmBooking(bookingId: BookingId, userId: UserId, paymentId: Option<string>, fault: Fault)
      returns (reply: Reply)
      requires Valid()
      modifies this
      ensures Valid()
      ensures Step(Snapshot(), reply) == ConfirmStep(old(Snapshot()), bookingId, userId, paymentId, fault)
    {
      BookingProperties.ApplyKeepsInvariants(Snapshot(),
        BookingProperties.Call(BookingProperties.ConfirmRequest(bookingId, userId, paymentId), 0, fault));
      // the guarded UPDATE: confirm the user's pending booking and record the payment
      if fault == StoreThrows(0) {
        return Failure(500);
      }
      if !(bookingId in bookings && bookings[bookingId].userId == userId && bookings[bookingId].status == Pending) {
        return Failure(404);
      }
      bookings := bookings[bookingId := bookings[bookingId].(status := Confirmed, paymentId := paymentId)];
      // DEL booking:<id>
      if fault == CacheThrows(0) {
        return Failure(500);
      }
      cache := Del(cache, MarkerKey(bookingId));
      reply := Ok;
    }

    /** `cancelBooking` (bookingController.ts). */
    method CancelBooking(bookingId: BookingId, userId: UserId, fault: Fault) returns (reply: Reply)
      requires Valid()
      modifies this
      ensures Valid()
      ensures Step(Snapshot(), reply) == CancelStep(old(Snapshot()), bookingId, userId, fault)
    {
      BookingProperties.ApplyKeepsInvariants(Snapshot(),
        BookingProperties.Call(BookingProperties.CancelRequest(bookingId, userId), 0, fault));
      // BEGIN, then the booking query for this id and user
      if fault == StoreThrows(0) || fault == StoreThrows(1) {
        return Failure(500);
      }
      if bookingId !in bookings || bookings[bookingId].userId != userId {
        return Failure(404);
      }
      if bookings[bookingId].status == Cancelled {
        return Failure(400);
      }
      reply := ReleaseSeats(bookingId, fault);
    }

    /** The updates of `cancelBooking`, inside its transaction. */
    method ReleaseSeats(bookingId: BookingId, fault: Fault) returns (reply: Reply)
      requires bookingId in bookings
      modifies this
      ensures Step(Snapshot(), reply) == CancelUpdates(old(Snapshot()), bookingId, fault)
    {
      var booking := bookings[bookingId];
      // mark the booking cancelled
      if fault == StoreThrows(2) {
        return Failure(500);
      }
      var txBookings := bookings[bookingId := booking.(status := Cancelled)];
      // mark the booking's seat rows cancelled
      if fault == StoreThrows(3) {
        return Failure(500);
      }
      var txRows := CancelRowsOf(seatRows, bookingId);
      // COUNT of the booking's seat rows
      if fault == StoreThrows(4) {
        return Failure(500);
      }
      var seatCount := RowCount(txRows, bookingId);
      // give that many seats back to the show
      if fault == StoreThrows(5) {
        return Failure(500);
      }
      var txShows := shows;
      if booking.showId in shows {
        txShows := shows[booking.showId := shows[booking.showId].(availableSeats := shows[booking.showId].availableSeats + seatCount)];
      }
      // COMMIT
      if fault == StoreThrows(6) {
        return Failure(500);
      }
      shows, bookings, seatRows := txShows, txBookings, txRows;
      reply := Ok;
    }
  }
}
