/** What the three booking handlers promise, stated over the step functions
    of module Bookings: their outcomes and error branches, the invariants
    every step keeps (no negative availability, available plus booked seats
    constant per show, at most one booked row per seat), and the facts about
    sequences of calls (a second confirmation or cancellation fails, a stale
    lock lapses after its ttl, a cancelled booking never changes again). */
module BookingProperties {
  import opened Wrappers
  import opened Cache
  import opened Bookings

  // ------------------------------------------------------- createBooking

  /** The lock is tried first: 409 exactly when another request holds
      `show:<id>:seats`, and then nothing at all changes. */
  lemma CreateConflictIffLocked(s: State, userId: UserId, showId: ShowId, seatIds: seq<SeatId>,
                                expiryMinutes: int, now: int, fault: Fault)
    requires fault != StoreThrows(0) && fault != CacheThrows(0)
    ensures var r := CreateStep(s, userId, showId, seatIds, expiryMinutes, now, fault);
      (r.reply == Failure(409) <==> Live(s.cache, LockKey(showId), now)) &&
      (r.reply == Failure(409) ==> r.post == s)
  {
  }

  /** With no call throwing, the reply is decided by the checks in the
      handler's order: lock, already-booked seats, missing show, capacity,
      and finally the marker's ttl, which Redis rejects unless positive. */
  lemma CreateOutcomeWithoutFaults(s: State, userId: UserId, showId: ShowId, seatIds: seq<SeatId>,
                                   expiryMinutes: int, now: int)
    ensures var r := CreateStep(s, userId, showId, seatIds, expiryMinutes, now, NoFault);
      var free := !Live(s.cache, LockKey(showId), now);
      var taken := AnyTaken(s.seatRows, showId, seatIds);
      var enough := showId in s.shows && |seatIds| <= s.shows[showId].availableSeats;
      (r.reply == Failure(409) <==> !free) &&
      (r.reply == Failure(400) <==> free && (taken || (showId in s.shows && !enough))) &&
      (r.reply == Failure(404) <==> free && !taken && showId !in s.shows) &&
      (r.reply.Created? <==> free && !taken && enough && 0 < ExpirySeconds(expiryMinutes)) &&
      (r.reply == Failure(500) <==> free && !taken && enough && ExpirySeconds(expiryMinutes) <= 0)
  {
  }

  /** A 400 or 404 leaves the tables untouched and frees the lock; every
      other key keeps its expiry. */
  lemma CreateRejectionKeepsTables(s: State, userId: UserId, showId: ShowId, seatIds: seq<SeatId>,
                                   expiryMinutes: int, now: int, fault: Fault)
    ensures var r := CreateStep(s, userId, showId, seatIds, expiryMinutes, now, fault);
      (r.reply == Failure(400) || r.reply == Failure(404)) ==>
        SameDatabase(r.post, s) && r.post.cache == Del(s.cache, LockKey(showId))
  {
    var r := CreateStep(s, userId, showId, seatIds, expiryMinutes, now, fault);
    if r.reply == Failure(400) || r.reply == Failure(404) {
      var lock := LockKey(showId);
      assert r.post.cache == Del(s.cache[lock := now + LockTtl], lock);
      assert Del(s.cache[lock := now + LockTtl], lock) == Del(s.cache, lock);
    }
  }

  /** A successful booking: a fresh pending booking charging price times the
      number of seats, one booked row per requested seat, exactly that many
      fewer available seats (never below zero), the next id advanced, the lock
      gone and the marker `booking:<id>` live for `expiresIn` seconds, with
      every other Redis key keeping its expiry. */
  lemma CreateSuccessEffects(s: State, userId: UserId, showId: ShowId, seatIds: seq<SeatId>,
                             expiryMinutes: int, now: int, fault: Fault)
    requires Consistent(s)
    ensures var r := CreateStep(s, userId, showId, seatIds, expiryMinutes, now, fault);
      var n := |seatIds|;
      r.reply.Created? ==>
        var id := r.reply.bookingId;
        id == s.nextId && id !in s.bookings && showId in s.shows &&
        !AnyTaken(s.seatRows, showId, seatIds) &&
        r.post.bookings == s.bookings[id := Booking(userId, showId, s.shows[showId].price * n, Pending, None)] &&
        r.post.seatRows == s.seatRows + BookedRows(id, showId, seatIds) &&
        r.post.shows.Keys == s.shows.Keys &&
        (forall sh :: sh in s.shows && sh != showId ==> r.post.shows[sh] == s.shows[sh]) &&
        r.post.shows[showId].price == s.shows[showId].price &&
        r.post.shows[showId].availableSeats == s.shows[showId].availableSeats - n >= 0 &&
        r.reply.expiresIn == ExpirySeconds(expiryMinutes) > 0 &&
        r.post.nextId == id + 1 &&
        LockKey(showId) !in r.post.cache &&
        Live(r.post.cache, MarkerKey(id), now) && r.post.cache[MarkerKey(id)] == now + r.reply.expiresIn &&
        r.post.cache == Del(s.cache, LockKey(showId))[MarkerKey(id) := now + r.reply.expiresIn]
  {
    var r := CreateStep(s, userId, showId, seatIds, expiryMinutes, now, fault);
    if r.reply.Created? {
      LockKeyIsNotMarker(showId, s.nextId);
    }
  }

  /** A failed request changes the tables only when a Redis call after
      COMMIT fails (releasing the lock, or writing the marker). */
  lemma CreateFailureRollsBack(s: State, userId: UserId, showId: ShowId, seatIds: seq<SeatId>,
                               expiryMinutes: int, now: int, fault: Fault)
    ensures var r := CreateStep(s, userId, showId, seatIds, expiryMinutes, now, fault);
      !r.reply.Created? && !SameDatabase(r.post, s) ==>
        r.reply == Failure(500) &&
        (fault == CacheThrows(1) || fault == CacheThrows(2) || ExpirySeconds(expiryMinutes) <= 0)
  {
  }

  /** The exception path after the lock was granted rolls the tables back and
      answers 500 but never deletes the lock: it stays until its 30 s expiry. */
  lemma CreateExceptionKeepsLock(s: State, userId: UserId, showId: ShowId, seatIds: seq<SeatId>,
                                 expiryMinutes: int, now: int, fault: Fault)
    requires fault.StoreThrows? && 1 <= fault.step <= 5 + |seatIds|
    requires !Live(s.cache, LockKey(showId), now)
    ensures var r := CreateStep(s, userId, showId, seatIds, expiryMinutes, now, fault);
      r.reply == Failure(500) ==>
        SameDatabase(r.post, s) && r.post.cache == s.cache[LockKey(showId) := now + LockTtl]
  {
  }

  /** A lock left behind by a failed request blocks later requests for that
      show with 409 exactly until its ttl has run out. */
  lemma StaleLockLapses(s: State, userId: UserId, showId: ShowId, seatIds: seq<SeatId>,
                        expiryMinutes: int, now: int, fault: Fault,
                        later: int, userId2: UserId, seatIds2: seq<SeatId>, expiryMinutes2: int, fault2: Fault)
    requires fault.StoreThrows? && 1 <= fault.step <= 5 + |seatIds|
    requires !Live(s.cache, LockKey(showId), now) && now <= later
    requires CreateStep(s, userId, showId, seatIds, expiryMinutes, now, fault).reply == Failure(500)
    requires fault2 != StoreThrows(0) && fault2 != CacheThrows(0)
    ensures var t := CreateStep(s, userId, showId, seatIds, expiryMinutes, now, fault).post;
      (CreateStep(t, userId2, showId, seatIds2, expiryMinutes2, later, fault2).reply == Failure(409)
       <==> later < now + LockTtl)
  {
    CreateExceptionKeepsLock(s, userId, showId, seatIds, expiryMinutes, now, fault);
    var t := CreateStep(s, userId, showId, seatIds, expiryMinutes, now, fault).post;
    CreateConflictIffLocked(t, userId2, showId, seatIds2, expiryMinutes2, later, fault2);
  }

  /** Locks are per show: holding another show's lock never causes a 409. */
  lemma LocksArePerShow(s: State, userId: UserId, showId: ShowId, seatIds: seq<SeatId>,
                        expiryMinutes: int, now: int, fault: Fault, other: ShowId, expiry: int)
    requires other != showId
    requires fault != StoreThrows(0) && fault != CacheThrows(0)
    ensures var t := s.(cache := s.cache[LockKey(other) := expiry]);
      (CreateStep(t, userId, showId, seatIds, expiryMinutes, now, fault).reply == Failure(409)
       <==> CreateStep(s, userId, showId, seatIds, expiryMinutes, now, fault).reply == Failure(409))
  {
    if LockKey(other) == LockKey(showId) {
      LockKeyInjective(other, showId);
    }
    var t := s.(cache := s.cache[LockKey(other) := expiry]);
    CreateConflictIffLocked(s, userId, showId, seatIds, expiryMinutes, now, fault);
    CreateConflictIffLocked(t, userId, showId, seatIds, expiryMinutes, now, fault);
  }

  // ------------------------------------------ the committed transaction

  lemma CreateCommitConsistent(s: State, userId: UserId, showId: ShowId, seatIds: seq<SeatId>)
    requires Consistent(s) && showId in s.shows && |seatIds| <= s.shows[showId].availableSeats
    ensures Consistent(CreateCommit(s, userId, showId, seatIds))
  {
    var t := CreateCommit(s, userId, showId, seatIds);
    var id := s.nextId;
    var added := BookedRows(id, showId, seatIds);
    forall i | 0 <= i < |t.seatRows|
      ensures RowAgrees(t.bookings, t.seatRows[i])
    {
      if i < |s.seatRows| {
        assert t.seatRows[i] == s.seatRows[i];
        assert RowAgrees(s.bookings, s.seatRows[i]);
      } else {
        assert t.seatRows[i] == added[i - |s.seatRows|];
      }
    }
  }

  /** Available plus booked seats of every show is unchanged by a booking. */
  lemma CreateCommitConservesCapacity(s: State, userId: UserId, showId: ShowId, seatIds: seq<SeatId>, sh: ShowId)
    requires showId in s.shows && sh in s.shows
    ensures var t := CreateCommit(s, userId, showId, seatIds);
      sh in t.shows && Capacity(t, sh) == Capacity(s, sh)
  {
    BookedCountAppend(s.seatRows, BookedRows(s.nextId, showId, seatIds), sh);
    BookedRowsCount(s.nextId, showId, seatIds, sh);
  }

  /** With distinct requested seats none of which is booked yet, a booking
      adds no second booked row for any (show, seat). */
  lemma CreateCommitKeepsSeatsUnique(s: State, userId: UserId, showId: ShowId, seatIds: seq<SeatId>)
    requires showId in s.shows
    requires SeatsUnique(s.seatRows) && Distinct(seatIds) && !AnyTaken(s.seatRows, showId, seatIds)
    ensures SeatsUnique(CreateCommit(s, userId, showId, seatIds).seatRows)
  {
    var old_ := s.seatRows;
    var added := BookedRows(s.nextId, showId, seatIds);
    var rows := old_ + added;
    forall i, j | 0 <= i < j < |rows| && rows[i].status == SeatBooked && rows[j].status == SeatBooked
                  && rows[i].showId == rows[j].showId
      ensures rows[i].seatId != rows[j].seatId
    {
      if j < |old_| {
        assert rows[i] == old_[i] && rows[j] == old_[j];
      } else if i < |old_| {
        var k := j - |old_|;
        assert rows[j] == added[k] && rows[i] == old_[i];
        assert !SeatTaken(old_, showId, seatIds[k]);
      } else {
        assert rows[i] == added[i - |old_|] && rows[j] == added[j - |old_|];
      }
    }
  }

  /** A committed booking never gives a seat a second holder: its rows are
      added only when none of its seats is booked, and they all belong to
      the one new booking, even when a seat id repeats. */
  lemma CreateCommitKeepsOneHolder(s: State, userId: UserId, showId: ShowId, seatIds: seq<SeatId>)
    requires showId in s.shows
    requires SeatsHeldByOneBooking(s.seatRows) && !AnyTaken(s.seatRows, showId, seatIds)
    ensures SeatsHeldByOneBooking(CreateCommit(s, userId, showId, seatIds).seatRows)
  {
    var old_ := s.seatRows;
    var added := BookedRows(s.nextId, showId, seatIds);
    var rows := old_ + added;
    forall i, j | 0 <= i < |rows| && 0 <= j < |rows| && rows[i].status == SeatBooked && rows[j].status == SeatBooked
                  && rows[i].showId == rows[j].showId
      ensures rows[i].seatId == rows[j].seatId ==> rows[i].bookingId == rows[j].bookingId
    {
      if i < |old_| && j < |old_| {
        assert rows[i] == old_[i] && rows[j] == old_[j];
      } else if i < |old_| {
        var k := j - |old_|;
        assert rows[j] == added[k] && rows[i] == old_[i];
        assert !SeatTaken(old_, showId, seatIds[k]);
      } else if j < |old_| {
        var k := i - |old_|;
        assert rows[i] == added[k] && rows[j] == old_[j];
        assert !SeatTaken(old_, showId, seatIds[k]);
      } else {
        assert rows[i] == added[i - |old_|] && rows[j] == added[j - |old_|];
      }
    }
  }

  /** The two shapes a createBooking step can have: tables untouched, or
      tables equal to the committed transaction after every check passed. */
  lemma CreateStepCases(s: State, userId: UserId, showId: ShowId, seatIds: seq<SeatId>,
                        expiryMinutes: int, now: int, fault: Fault)
    ensures var r := CreateStep(s, userId, showId, seatIds, expiryMinutes, now, fault);
      SameDatabase(r.post, s) ||
      (showId in s.shows && |seatIds| <= s.shows[showId].availableSeats &&
       !AnyTaken(s.seatRows, showId, seatIds) &&
       SameDatabase(r.post, CreateCommit(s, userId, showId, seatIds)))
  {
  }

  // ---------------------------------------------------- cancelBooking

  /** Cancellation branches: 404 for no booking of that id owned by that
      user, 400 for an already cancelled one, otherwise success (pending and
      confirmed bookings alike) unless a statement throws. Any failure
      changes nothing; Redis is never touched. */
  lemma CancelOutcome(s: State, bookingId: BookingId, userId: UserId, fault: Fault)
    ensures var r := CancelStep(s, bookingId, userId, fault);
      var early := fault == StoreThrows(0) || fault == StoreThrows(1);
      var owned := bookingId in s.bookings && s.bookings[bookingId].userId == userId;
      (r.reply == Failure(404) <==> !early && !owned) &&
      (r.reply == Failure(400) <==> !early && owned && s.bookings[bookingId].status == Cancelled) &&
      (r.reply == Ok <==> !(fault.StoreThrows? && fault.step <= 6) && owned &&
                          s.bookings[bookingId].status != Cancelled) &&
      (r.reply != Ok ==> r.post == s) &&
      r.post.cache == s.cache
  {
  }

  lemma CancelCommitConsistent(s: State, bookingId: BookingId)
    requires Consistent(s) && bookingId in s.bookings
    ensures Consistent(CancelCommit(s, bookingId))
  {
    var t := CancelCommit(s, bookingId);
    forall i | 0 <= i < |t.seatRows|
      ensures RowAgrees(t.bookings, t.seatRows[i])
    {
      assert RowAgrees(s.bookings, s.seatRows[i]);
    }
  }

  /** What a cancellation does: the booking and every one of its rows are
      cancelled, other bookings and rows stay, its show gets back exactly as
      many seats as were booked under it and keeps its price, and neither the
      id counter nor Redis changes. */
  lemma CancelCommitEffects(s: State, bookingId: BookingId)
    requires Consistent(s) && bookingId in s.bookings && s.bookings[bookingId].status != Cancelled
    ensures var t := CancelCommit(s, bookingId);
      var b := s.bookings[bookingId];
      t.bookings == s.bookings[bookingId := b.(status := Cancelled)] &&
      |t.seatRows| == |s.seatRows| &&
      (forall i :: 0 <= i < |s.seatRows| && s.seatRows[i].bookingId == bookingId ==>
         t.seatRows[i] == s.seatRows[i].(status := SeatCancelled)) &&
      (forall i :: 0 <= i < |s.seatRows| && s.seatRows[i].bookingId != bookingId ==> t.seatRows[i] == s.seatRows[i]) &&
      t.shows.Keys == s.shows.Keys &&
      t.shows[b.showId] == s.shows[b.showId].(availableSeats := s.shows[b.showId].availableSeats + RowCount(s.seatRows, bookingId)) &&
      (forall sh :: sh in s.shows && sh != b.showId ==> t.shows[sh] == s.shows[sh]) &&
      t.nextId == s.nextId && t.cache == s.cache
  {
    RowCountAfterCancel(s.seatRows, bookingId, bookingId);
  }

  /** Available plus booked seats of every show is unchanged by a cancellation. */
  lemma CancelCommitConservesCapacity(s: State, bookingId: BookingId, sh: ShowId)
    requires Consistent(s) && bookingId in s.bookings && s.bookings[bookingId].status != Cancelled
    requires sh in s.shows
    ensures var t := CancelCommit(s, bookingId);
      sh in t.shows && Capacity(t, sh) == Capacity(s, sh)
  {
    var b := s.bookings[bookingId];
    forall i | 0 <= i < |s.seatRows| && s.seatRows[i].bookingId == bookingId
      ensures s.seatRows[i].status == SeatBooked && s.seatRows[i].showId == b.showId
    {
      assert RowAgrees(s.bookings, s.seatRows[i]);
    }
    CancelRowsCount(s.seatRows, bookingId, b.showId, sh);
    RowCountAfterCancel(s.seatRows, bookingId, bookingId);
  }

  /** A cancellation never creates a booked row. */
  lemma CancelCommitKeepsSeatsUnique(s: State, bookingId: BookingId)
    requires bookingId in s.bookings && SeatsUnique(s.seatRows)
    ensures SeatsUnique(CancelCommit(s, bookingId).seatRows)
  {
    var rows := CancelCommit(s, bookingId).seatRows;
    forall i, j | 0 <= i < j < |rows| && rows[i].status == SeatBooked && rows[j].status == SeatBooked
                  && rows[i].showId == rows[j].showId
      ensures rows[i].seatId != rows[j].seatId
    {
      assert rows[i] == CancelRow(s.seatRows[i], bookingId);
      assert rows[j] == CancelRow(s.seatRows[j], bookingId);
    }
  }

  /** A cancellation only turns rows `cancelled`, so it never gives a seat a
      second holder. */
  lemma CancelCommitKeepsOneHolder(s: State, bookingId: BookingId)
    requires bookingId in s.bookings && SeatsHeldByOneBooking(s.seatRows)
    ensures SeatsHeldByOneBooking(CancelCommit(s, bookingId).seatRows)
  {
    var rows := CancelCommit(s, bookingId).seatRows;
    forall i, j | 0 <= i < |rows| && 0 <= j < |rows| && rows[i].status == SeatBooked && rows[j].status == SeatBooked
                  && rows[i].showId == rows[j].showId && rows[i].seatId == rows[j].seatId
      ensures rows[i].bookingId == rows[j].bookingId
    {
      assert rows[i] == CancelRow(s.seatRows[i], bookingId);
      assert rows[j] == CancelRow(s.seatRows[j], bookingId);
    }
  }

  /** After a successful cancellation, a second one by the same user fails
      with 400 and changes nothing: seats are given back once. */
  lemma CancelTwiceFails(s: State, bookingId: BookingId, userId: UserId, fault: Fault, fault2: Fault)
    requires CancelStep(s, bookingId, userId, fault).reply == Ok
    requires fault2 != StoreThrows(0) && fault2 != StoreThrows(1)
    ensures var t := CancelStep(s, bookingId, userId, fault).post;
      CancelStep(t, bookingId, userId, fault2) == Step(t, Failure(400))
  {
  }

  /** Once a booking's seats are released no seat of it is booked any more,
      provided no other booking holds the same seat. A seat the booking itself
      holds twice (a repeated seat id) is freed too. */
  lemma CancelFreesSeats(s: State, bookingId: BookingId, i: nat)
    requires Consistent(s) && SeatsHeldByOneBooking(s.seatRows)
    requires bookingId in s.bookings && s.bookings[bookingId].status != Cancelled
    requires i < |s.seatRows| && s.seatRows[i].bookingId == bookingId
    ensures !SeatTaken(CancelCommit(s, bookingId).seatRows, s.seatRows[i].showId, s.seatRows[i].seatId)
  {
    var rows := CancelCommit(s, bookingId).seatRows;
    var r := s.seatRows[i];
    assert RowAgrees(s.bookings, r);
    forall k | 0 <= k < |rows| && rows[k].showId == r.showId && rows[k].seatId == r.seatId
      ensures rows[k].status != SeatBooked
    {
      assert rows[k] == CancelRow(s.seatRows[k], bookingId);
    }
  }

  // --------------------------------------------------- confirmBooking

  /** Confirmation succeeds only for the owner's pending booking; then the
      booking alone changes (confirmed, payment id recorded), seats and
      availability stay, and the marker is deleted while every other key keeps
      its expiry. Otherwise 404 and no change, or 500 with Redis untouched. */
  lemma ConfirmOutcome(s: State, bookingId: BookingId, userId: UserId, paymentId: Option<string>, fault: Fault)
    ensures var r := ConfirmStep(s, bookingId, userId, paymentId, fault);
      var ok := Confirmable(s, bookingId, userId);
      (r.reply == Ok <==> fault != StoreThrows(0) && fault != CacheThrows(0) && ok) &&
      (r.reply == Failure(404) <==> fault != StoreThrows(0) && !ok) &&
      (r.reply != Ok && r.post != s ==> r.reply == Failure(500) && fault == CacheThrows(0)) &&
      (fault != StoreThrows(0) && ok ==>
         r.post.bookings == s.bookings[bookingId := s.bookings[bookingId].(status := Confirmed, paymentId := paymentId)]) &&
      r.post.shows == s.shows && r.post.seatRows == s.seatRows && r.post.nextId == s.nextId &&
      (r.reply == Ok ==> r.post.cache == Del(s.cache, MarkerKey(bookingId))) &&
      (r.reply != Ok ==> r.post.cache == s.cache)
  {
  }

  /** A second confirmation of the same booking answers 404 and changes nothing. */
  lemma ConfirmTwiceFails(s: State, bookingId: BookingId, userId: UserId, paymentId: Option<string>, fault: Fault,
                          userId2: UserId, paymentId2: Option<string>, fault2: Fault)
    requires ConfirmStep(s, bookingId, userId, paymentId, fault).reply == Ok
    requires fault2 != StoreThrows(0)
    ensures var t := ConfirmStep(s, bookingId, userId, paymentId, fault).post;
      ConfirmStep(t, bookingId, userId2, paymentId2, fault2) == Step(t, Failure(404))
  {
  }

  // ------------------------------------------- every handler, every call

  /** One handler call: the request with its clock reading and fault. */
  datatype Request =
    | CreateRequest(userId: UserId, showId: ShowId, seatIds: seq<SeatId>, expiryMinutes: int)
    | ConfirmRequest(bookingId: BookingId, userId: UserId, paymentId: Option<string>)
    | CancelRequest(bookingId: BookingId, userId: UserId)

  datatype Call = Call(request: Request, now: int, fault: Fault)

  function Apply(s: State, c: Call): Step
  {
    match c.request
    case CreateRequest(u, sh, seats, e) => CreateStep(s, u, sh, seats, e, c.now, c.fault)
    case ConfirmRequest(b, u, p) => ConfirmStep(s, b, u, p, c.fault)
    case CancelRequest(b, u) => CancelStep(s, b, u, c.fault)
  }

  /** Every call keeps the tables consistent (in particular no show's
      availability goes negative), leaves the set of shows alone and keeps
      available plus booked seats of every show constant. */
  lemma ApplyKeepsInvariants(s: State, c: Call)
    requires Consistent(s)
    ensures var t := Apply(s, c).post;
      Consistent(t) && t.shows.Keys == s.shows.Keys &&
      forall sh :: sh in s.shows ==> Capacity(t, sh) == Capacity(s, sh)
  {
    var t := Apply(s, c).post;
    match c.request
    case CreateRequest(u, showId, seats, e) =>
      CreateStepCases(s, u, showId, seats, e, c.now, c.fault);
      if !SameDatabase(t, s) {
        CreateCommitConsistent(s, u, showId, seats);
        forall sh | sh in s.shows ensures Capacity(t, sh) == Capacity(s, sh) {
          CreateCommitConservesCapacity(s, u, showId, seats, sh);
        }
      }
    case ConfirmRequest(b, u, p) =>
      var r := ConfirmStep(s, b, u, p, c.fault);
      if Confirmable(s, b, u) {
        forall i | 0 <= i < |t.seatRows| ensures RowAgrees(t.bookings, t.seatRows[i]) {
          assert RowAgrees(s.bookings, s.seatRows[i]);
        }
      }
    case CancelRequest(b, u) =>
      if CancelStep(s, b, u, c.fault).reply == Ok {
        CancelCommitConsistent(s, b);
        forall sh | sh in s.shows ensures Capacity(t, sh) == Capacity(s, sh) {
          CancelCommitConservesCapacity(s, b, sh);
        }
      }
  }

  /** Requests that name each seat at most once. */
  predicate DistinctSeats(c: Call)
  {
    c.request.CreateRequest? ==> Distinct(c.request.seatIds)
  }

  /** No call sells a seat of a show twice, when a booking request never
      repeats a seat. */
  lemma ApplyKeepsSeatsUnique(s: State, c: Call)
    requires SeatsUnique(s.seatRows) && DistinctSeats(c)
    ensures SeatsUnique(Apply(s, c).post.seatRows)
  {
    var t := Apply(s, c).post;
    match c.request
    case CreateRequest(u, showId, seats, e) =>
      CreateStepCases(s, u, showId, seats, e, c.now, c.fault);
      if !SameDatabase(t, s) {
        CreateCommitKeepsSeatsUnique(s, u, showId, seats);
      }
    case ConfirmRequest(b, u, p) =>
    case CancelRequest(b, u) =>
      if CancelStep(s, b, u, c.fault).reply == Ok {
        CancelCommitKeepsSeatsUnique(s, b);
      }
  }

  /** Every call keeps each booked (show, seat) with a single booking, whatever
      seat ids the requests repeat. */
  lemma ApplyKeepsSeatsHeldByOneBooking(s: State, c: Call)
    requires SeatsHeldByOneBooking(s.seatRows)
    ensures SeatsHeldByOneBooking(Apply(s, c).post.seatRows)
  {
    var t := Apply(s, c).post;
    match c.request
    case CreateRequest(u, showId, seats, e) =>
      CreateStepCases(s, u, showId, seats, e, c.now, c.fault);
      if !SameDatabase(t, s) {
        CreateCommitKeepsOneHolder(s, u, showId, seats);
      }
    case ConfirmRequest(b, u, p) =>
    case CancelRequest(b, u) =>
      if CancelStep(s, b, u, c.fault).reply == Ok {
        CancelCommitKeepsOneHolder(s, b);
      }
  }

  /** A cancelled booking is final: no call changes it again. */
  lemma CancelledIsFinal(s: State, c: Call, bookingId: BookingId)
    requires Consistent(s)
    requires bookingId in s.bookings && s.bookings[bookingId].status == Cancelled
    ensures var t := Apply(s, c).post;
      bookingId in t.bookings && t.bookings[bookingId] == s.bookings[bookingId]
  {
    var t := Apply(s, c).post;
    match c.request
    case CreateRequest(u, showId, seats, e) =>
      CreateStepCases(s, u, showId, seats, e, c.now, c.fault);
    case ConfirmRequest(b, u, p) =>
    case CancelRequest(b, u) =>
  }

  /** The state after a sequence of calls, each seeing the previous one's result. */
  function Run(s: State, calls: seq<Call>): State
    decreases |calls|
  {
    if calls == [] then s else Run(Apply(s, calls[0]).post, calls[1..])
  }

  /** Over any sequence of calls from a consistent state, every show keeps
      its capacity: available seats always equal capacity minus booked seats. */
  lemma {:induction false} RunKeepsInvariants(s: State, calls: seq<Call>)
    requires Consistent(s)
    ensures var t := Run(s, calls);
      Consistent(t) && t.shows.Keys == s.shows.Keys &&
      forall sh :: sh in s.shows ==> Capacity(t, sh) == Capacity(s, sh)
    decreases |calls|
  {
    if calls != [] {
      ApplyKeepsInvariants(s, calls[0]);
      RunKeepsInvariants(Apply(s, calls[0]).post, calls[1..]);
    }
  }

  /** Over any sequence of calls whose booking requests never repeat a seat,
      no seat of a show is ever booked twice. */
  lemma {:induction false} RunKeepsSeatsUnique(s: State, calls: seq<Call>)
    requires SeatsUnique(s.seatRows)
    requires forall i :: 0 <= i < |calls| ==> DistinctSeats(calls[i])
    ensures SeatsUnique(Run(s, calls).seatRows)
    decreases |calls|
  {
    if calls != [] {
      ApplyKeepsSeatsUnique(s, calls[0]);
      RunKeepsSeatsUnique(Apply(s, calls[0]).post, calls[1..]);
    }
  }

  /** Over any sequence of calls, no two bookings ever hold the same booked
      seat of a show, with no assumption on the requests. */
  lemma {:induction false} RunKeepsSeatsHeldByOneBooking(s: State, calls: seq<Call>)
    requires SeatsHeldByOneBooking(s.seatRows)
    ensures SeatsHeldByOneBooking(Run(s, calls).seatRows)
    decreases |calls|
  {
    if calls != [] {
      ApplyKeepsSeatsHeldByOneBooking(s, calls[0]);
      RunKeepsSeatsHeldByOneBooking(Apply(s, calls[0]).post, calls[1..]);
    }
  }

  // ------------------------------------------------------ scenarios

  /** Show 1 has two free seats at price 100. A request for seats 1 and 2
      gets booking 0 with total 200 and leaves no seat; a following request
      for seat 1 is refused with 400. */
  lemma TwoBuyersScenario()
    ensures var s0 := State(map[1 := Show(100, 2)], map[], [], 0, map[]);
      var a := CreateStep(s0, 10, 1, [1, 2], 15, 0, NoFault);
      var b := CreateStep(a.post, 11, 1, [1], 15, 1, NoFault);
      a.reply == Created(0, 900) && a.post.bookings[0].totalAmount == 200 &&
      a.post.shows[1].availableSeats == 0 &&
      b.reply == Failure(400) && SameDatabase(b.post, a.post)
  {
    var s0 := State(map[1 := Show(100, 2)], map[], [], 0, map[]);
    var a := CreateStep(s0, 10, 1, [1, 2], 15, 0, NoFault);
    assert a.post.seatRows[0] == SeatRow(0, 1, 1, SeatBooked);
    assert SeatTaken(a.post.seatRows, 1, [1][0]);
  }

  /** The handler does not deduplicate `seatIds`: one request naming seat 7
      twice books it twice and takes two seats off the counter. Both rows
      belong to the one booking, so `CancelFreesSeats` still applies. */
  lemma RepeatedSeatIsBookedTwice()
    ensures var s0 := State(map[1 := Show(100, 2)], map[], [], 0, map[]);
      var a := CreateStep(s0, 10, 1, [7, 7], 15, 0, NoFault);
      a.reply.Created? && a.post.shows[1].availableSeats == 0 && !SeatsUnique(a.post.seatRows) &&
      SeatsHeldByOneBooking(a.post.seatRows)
  {
    var s0 := State(map[1 := Show(100, 2)], map[], [], 0, map[]);
    var a := CreateStep(s0, 10, 1, [7, 7], 15, 0, NoFault);
    assert !AnyTaken(s0.seatRows, 1, [7, 7]);
    assert a.post.seatRows[0] == SeatRow(0, 7, 1, SeatBooked) && a.post.seatRows[1] == SeatRow(0, 7, 1, SeatBooked);
    assert |a.post.seatRows| == 2;
  }
}
