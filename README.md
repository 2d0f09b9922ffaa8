# Cinema seat booking, modelled in Dafny

This project models the booking core of `dbms-backend-master`, an Express
and PostgreSQL backend for cinema tickets with a Redis cache beside it. The
core is:

- the three booking handlers, `createBooking`, `confirmBooking` and
  `cancelBooking`;
- the query builders of the movie and show listings;
- the grouping of shows by theater;
- the per-seat `is_booked` flag of the show detail page.

The model is written in Dafny, and it proves properties of the model.

## Layout

| file | module | what it holds |
|---|---|---|
| `wrappers.dfy` | `Wrappers` | `Option` |
| `text.dfy` | `Text` | decimal rendering of ids, as a template literal prints them, and its injectivity |
| `cache.dfy` | `Cache` | the Redis key space as a map from key to expiry time: `SET NX EX`, `DEL`, `SETEX`, and the key names `show:<id>:seats` and `booking:<id>` |
| `bookings.dfy` | `Bookings` | the store and the three handlers as step functions (state, request, fault) to (state, reply) |
| `booking_properties.dfy` | `BookingProperties` | what the handlers guarantee: outcomes, rollback, invariants over any sequence of calls, scenarios |
| `booking_service.dfy` | `BookingService` | class `Backend`, the handlers written statement by statement over mutable tables, each proved to end exactly as its step function prescribes |
| `sql.dfy` | `Sql` | optional filter clauses with `$k` placeholders, and their numbering |
| `movie_queries.dfy` | `Movies` | the `getMovies` query builder |
| `show_queries.dfy` | `Shows` | the `getShowsByMovie` query builder, the grouping by theater, and the seat listing of `getShowById` |

### How the handlers are modelled

A handler is modelled at two levels.

- A pure step function (`Bookings.CreateStep`, `ConfirmStep`, `CancelStep`)
  maps a `State`, the request and a `Fault` to the next `State` and a
  `Reply`. The `State` holds the `shows`, `bookings` and `booking_seats`
  tables, the booking-id counter and the Redis key space.
- A method of `BookingService.Backend` performs the same statements on the
  object's fields. It is proved to produce exactly the step function's
  state and reply.

A transaction works on local copies of the tables. COMMIT writes them back,
so an early return is a ROLLBACK. Redis writes take effect at once and
nothing undoes them.

The `Fault` parameter stands for the exceptions the handlers catch.

- `StoreThrows(k)` makes the k-th database statement of the handler throw.
  Statement 0 is BEGIN, or the handler's first query when it has no
  transaction (`confirmBooking`). ROLLBACK statements are not counted.
- `CacheThrows(k)` makes the k-th Redis call throw.

Every path through the `try`/`catch` is therefore a value of the model. A
`SETEX` whose ttl is not positive is a Redis error, so it is treated as a
throw.

### Where the code departs from the intended protocol

The intended booking protocol is this. A request takes the show's Redis lock
before it opens the database transaction. It releases the lock on every exit
path, and only the request holding the lock may release it. A request for
another user's booking gets a "not owner" error. An unconfirmed
booking passes into an `expired` state, and a reclaim worker gives its seats
back. The model follows the code, not this design, at each of these points.

- The protocol asks for the show lock to be released on every exit path.
  The code's `catch` branch does not release it, so after an exception the
  lock stays until its 30 s expiry. This is `CreateExceptionKeepsLock`, and
  `StaleLockLapses` shows that the next request gets 409 until then.
- The protocol takes the lock before opening the transaction. The code runs
  `BEGIN` first and then takes the lock.
- The protocol releases a lock only with its owner's token. The code
  deletes the key unconditionally.
- The protocol names a "not owner" error and an `expired` booking state.
  The code answers 404 for a booking owned by someone else, and it has no
  expiry state and no reclaim worker. The `booking:<id>` key only lapses.
- The code does not deduplicate `seatIds`. A request that repeats a seat
  books that seat twice (`RepeatedSeatIsBookedTwice`), and the seat is then
  listed twice (`DoubleSaleListsSeatTwice`). The "no seat sold twice"
  results therefore assume requests with distinct seat ids. The
  cancellation results (`CancelFreesSeats`, `CancelledSeatsShowFree`) assume
  only that no other booking holds the same seat. Every call keeps that
  property whatever the request (`RunKeepsSeatsHeldByOneBooking`), so they
  cover that state.

## Model

| member | source | states |
|---|---|---|
| Text.NatToString | dbms-backend-master/src/controllers/bookingController.ts:14 | an id renders as a non-empty string of decimal digits, one digit exactly when the id is below 10 |
| Text.NatToStringDenotes | dbms-backend-master/src/controllers/bookingController.ts:14 | the rendering read back as decimal digits is the id, and an id of two or more digits has no leading zero |
| Text.NatToStringInjective | dbms-backend-master/src/controllers/bookingController.ts:14 | distinct ids render differently |
| Cache.SetNx | dbms-backend-master/src/controllers/bookingController.ts:15-18 | `SET NX EX` succeeds exactly when the key is not live; then the key expires after ttl; on failure nothing changes; other keys never change |
| Cache.Del | dbms-backend-master/src/controllers/bookingController.ts:32 | the key is gone and every other key keeps its expiry |
| Cache.SetEx | dbms-backend-master/src/controllers/bookingController.ts:79 | `SETEX` fails exactly for a non-positive ttl; otherwise the key expires after ttl and every other key keeps its expiry |
| Cache.SetNxExcludesUntilExpiry | dbms-backend-master/src/controllers/bookingController.ts:15-23 | once granted, a second `SET NX` on the key fails until the ttl has elapsed and succeeds after |
| Cache.LockKeyInjective | dbms-backend-master/src/controllers/bookingController.ts:14 | different shows have different lock keys |
| Cache.MarkerKeyInjective | dbms-backend-master/src/controllers/bookingController.ts:79 | different bookings have different marker keys |
| Cache.LockKeyIsNotMarker | dbms-backend-master/src/controllers/bookingController.ts:79 | no lock key is a booking marker key |
| Bookings.BookedRows | dbms-backend-master/src/controllers/bookingController.ts:62-68 | one `booked` row per requested seat, in request order, tied to the booking and the show |
| Bookings.CancelRowsOf | dbms-backend-master/src/controllers/bookingController.ts:188-191 | every row of the booking becomes `cancelled`; other rows and the order are unchanged |
| Bookings.BookedCountAppend | dbms-backend-master/src/controllers/bookingController.ts:62-68 | the booked rows of a show in a concatenation are the sum of the booked rows in each part |
| Bookings.BookedRowsCount | dbms-backend-master/src/controllers/bookingController.ts:62-73 | the rows the insert loop adds are as many booked rows of the booked show as there are requested seats, and none of any other show, matching the decrement |
| Bookings.CancelRowsCount | dbms-backend-master/src/controllers/bookingController.ts:188-203 | cancelling a booking's rows removes exactly its booked rows from its show's booked count |
| Bookings.RowCountAfterCancel | dbms-backend-master/src/controllers/bookingController.ts:193-198 | the `COUNT(*)` after the update equals the booking's row count before it |
| BookingProperties.CreateConflictIffLocked | dbms-backend-master/src/controllers/bookingController.ts:14-23 | 409 exactly when the show's lock is live, and then nothing changes |
| BookingProperties.CreateOutcomeWithoutFaults | dbms-backend-master/src/controllers/bookingController.ts:5-85 | with no exception the reply is decided, both ways, by lock, already-booked seats, missing show, capacity and marker ttl, in the handler's order |
| BookingProperties.CreateRejectionKeepsTables | dbms-backend-master/src/controllers/bookingController.ts:30-50 | a 400 or 404 leaves every table as it was and deletes the lock |
| BookingProperties.CreateSuccessEffects | dbms-backend-master/src/controllers/bookingController.ts:5-85 | 201 creates a fresh pending booking charging price times seat count; it adds one booked row per seat and takes exactly that many seats off a counter that stays non-negative; the next id advances by one; the lock is deleted and the marker set for `expiresIn` seconds, and every other Redis key keeps its expiry |
| BookingProperties.CreateFailureRollsBack | dbms-backend-master/src/controllers/bookingController.ts:86-92 | a failed request changes the tables only when a Redis call after COMMIT fails, and then the reply is 500 |
| BookingProperties.CreateExceptionKeepsLock | dbms-backend-master/src/controllers/bookingController.ts:86-92 | an exception after the lock is taken rolls back the tables but leaves the lock held for its 30 s |
| BookingProperties.StaleLockLapses | dbms-backend-master/src/controllers/bookingController.ts:15-23 | after such an exception, later requests for that show get 409 exactly until the lock's ttl has passed |
| BookingProperties.LocksArePerShow | dbms-backend-master/src/controllers/bookingController.ts:14 | the lock of another show never causes a 409 |
| BookingProperties.CreateCommitConsistent | dbms-backend-master/src/controllers/bookingController.ts:52-75 | the committed transaction keeps the tables consistent |
| BookingProperties.CreateCommitConservesCapacity | dbms-backend-master/src/controllers/bookingController.ts:62-73 | available plus booked seats of every show is unchanged by a booking |
| BookingProperties.CreateCommitKeepsSeatsUnique | dbms-backend-master/src/controllers/bookingController.ts:25-34 | with distinct requested seats none of which is booked, no (show, seat) gets a second booked row |
| BookingProperties.CreateCommitKeepsOneHolder | dbms-backend-master/src/controllers/bookingController.ts:25-73 | when none of the requested seats is booked, the committed booking gives no booked (show, seat) a second booking, even for a repeated seat id |
| BookingProperties.CreateStepCases | dbms-backend-master/src/controllers/bookingController.ts:5-93 | a request either leaves the tables alone or commits the whole transaction after every check passed |
| BookingProperties.CancelOutcome | dbms-backend-master/src/controllers/bookingController.ts:157-214 | 404 exactly for a booking the user does not own; 400 exactly for an already cancelled one; success exactly otherwise, pending or confirmed, unless a statement throws; failures change nothing; Redis is untouched |
| BookingProperties.CancelCommitConsistent | dbms-backend-master/src/controllers/bookingController.ts:183-205 | the committed cancellation keeps the tables consistent |
| BookingProperties.CancelCommitEffects | dbms-backend-master/src/controllers/bookingController.ts:183-205 | the booking and all its rows become cancelled, other bookings and rows stay, its show gets back exactly its row count and keeps its price, other shows stay, and the id counter and Redis are unchanged |
| BookingProperties.CancelCommitConservesCapacity | dbms-backend-master/src/controllers/bookingController.ts:183-205 | available plus booked seats of every show is unchanged by a cancellation |
| BookingProperties.CancelCommitKeepsSeatsUnique | dbms-backend-master/src/controllers/bookingController.ts:188-191 | a cancellation never creates a booked row |
| BookingProperties.CancelCommitKeepsOneHolder | dbms-backend-master/src/controllers/bookingController.ts:188-191 | a cancellation gives no booked (show, seat) a second booking |
| BookingProperties.CancelTwiceFails | dbms-backend-master/src/controllers/bookingController.ts:178-181 | a second cancellation answers 400 and changes nothing, so seats are returned once |
| BookingProperties.CancelFreesSeats | dbms-backend-master/src/controllers/bookingController.ts:188-191 | after a cancellation none of the booking's seats is booked for its show, provided no other booking holds the same seat; a seat the booking itself holds twice is freed too |
| BookingProperties.ConfirmOutcome | dbms-backend-master/src/controllers/bookingController.ts:95-122 | confirmation succeeds exactly for the owner's pending booking, records the payment id and deletes the marker `booking:<id>`; every other table and every other Redis key is unchanged; otherwise 404 with no change, or 500 with Redis untouched |
| BookingProperties.ConfirmTwiceFails | dbms-backend-master/src/controllers/bookingController.ts:101-110 | a second confirmation answers 404 and changes nothing |
| BookingProperties.ApplyKeepsInvariants | dbms-backend-master/src/controllers/bookingController.ts:5-214 | every handler call keeps the tables consistent (no counter below zero), keeps the set of shows and every show's capacity |
| BookingProperties.ApplyKeepsSeatsUnique | dbms-backend-master/src/controllers/bookingController.ts:5-214 | no call sells a seat of a show twice when requests do not repeat a seat |
| BookingProperties.ApplyKeepsSeatsHeldByOneBooking | dbms-backend-master/src/controllers/bookingController.ts:5-214 | every call keeps each booked (show, seat) held by one booking, with no assumption on the request |
| BookingProperties.CancelledIsFinal | dbms-backend-master/src/controllers/bookingController.ts:95-214 | no call changes a cancelled booking again |
| BookingProperties.RunKeepsInvariants | dbms-backend-master/src/controllers/bookingController.ts:5-214 | over any sequence of calls every show's available seats equal its capacity minus its booked seats |
| BookingProperties.RunKeepsSeatsUnique | dbms-backend-master/src/controllers/bookingController.ts:5-214 | over any sequence of calls without repeated seats no seat of a show is booked twice |
| BookingProperties.RunKeepsSeatsHeldByOneBooking | dbms-backend-master/src/controllers/bookingController.ts:5-214 | over any sequence of calls, no two bookings hold the same booked seat of a show |
| Bookings.UniqueSeatsHeldByOneBooking | dbms-backend-master/src/controllers/bookingController.ts:25-34 | at most one booked row per (show, seat) implies one holding booking per booked seat |
| BookingProperties.TwoBuyersScenario | dbms-backend-master/src/controllers/bookingController.ts:25-85 | a concrete run: two seats sold at 100 each, total 200, expiry 900 s, then a request for a sold seat gets 400 |
| BookingProperties.RepeatedSeatIsBookedTwice | dbms-backend-master/src/controllers/bookingController.ts:62-73 | a request repeating a seat id books that seat twice; both rows belong to the one booking |
| BookingService.Backend.CreateBooking | dbms-backend-master/src/controllers/bookingController.ts:5-93 | keeps the tables consistent and ends in exactly the state and reply of `CreateStep` |
| BookingService.Backend.Reserve | dbms-backend-master/src/controllers/bookingController.ts:25-85 | the checks and transaction with the lock held end as `LockedStep` prescribes |
| BookingService.Backend.InsertSeatRows | dbms-backend-master/src/controllers/bookingController.ts:62-68 | the loop fails exactly when one of its inserts throws; otherwise it appends one booked row per requested seat, in order |
| BookingService.Backend.ReleaseAndMark | dbms-backend-master/src/controllers/bookingController.ts:75-85 | after COMMIT, deletes the lock and sets the marker, ending as `CommittedStep` prescribes |
| BookingService.Backend.ReleaseAfterRollback | dbms-backend-master/src/controllers/bookingController.ts:30-50 | a validation failure deletes the lock and answers its status, or 500 with the lock kept when `DEL` throws |
| BookingService.Backend.ConfirmBooking | dbms-backend-master/src/controllers/bookingController.ts:95-122 | keeps the tables consistent and ends exactly as `ConfirmStep` prescribes |
| BookingService.Backend.CancelBooking | dbms-backend-master/src/controllers/bookingController.ts:157-214 | keeps the tables consistent and ends exactly as `CancelStep` prescribes |
| BookingService.Backend.ReleaseSeats | dbms-backend-master/src/controllers/bookingController.ts:183-205 | the updates and COMMIT of a cancellation end as `CancelUpdates` prescribes |
| Sql.Values | dbms-backend-master/src/controllers/moviesController.ts:25-35 | one pushed value per appended filter, in order |
| Sql.ClausesAppend | dbms-backend-master/src/controllers/moviesController.ts:25-35 | appending filters continues the numbering where the previous ones stopped |
| Sql.AppendFilter | dbms-backend-master/src/controllers/moviesController.ts:25-29 | one `if` block (append the clause, push the value, bump the counter) extends the query by one numbered clause |
| Sql.ClauseAt | dbms-backend-master/src/controllers/showController.ts:25-35 | filter i is rendered with placeholder `$(first+i)` |
| Sql.PlaceholderBindsItsValue | dbms-backend-master/src/controllers/showController.ts:22-35 | every placeholder `$k` of an appended clause names `params[k-1]`, the value pushed with it |
| Movies.GenrePattern | dbms-backend-master/src/controllers/moviesController.ts:33 | the genre wrapped in `%` on both sides |
| Movies.BuildMoviesQuery | dbms-backend-master/src/controllers/moviesController.ts:19-37 | the query is the active-movies SELECT, the given filters numbered from `$1` and the release-date order; params are the filters' values; the counter is one past the last placeholder |
| Movies.NoFiltersNoParams | dbms-backend-master/src/controllers/moviesController.ts:21-37 | without filters nothing is bound and the query is the bare listing |
| Movies.LanguageBindsFirst | dbms-backend-master/src/controllers/moviesController.ts:25-29 | the language clause is present exactly when a non-empty language is given, as the first clause, on `$1` |
| Movies.GenreBindsLast | dbms-backend-master/src/controllers/moviesController.ts:31-35 | the genre clause is present exactly when a non-empty genre is given, last, on the last placeholder, bound to the `%` pattern |
| Movies.MoviePlaceholdersMatch | dbms-backend-master/src/controllers/moviesController.ts:21-37 | every placeholder of the movie query names its own value |
| Shows.BuildShowsQuery | dbms-backend-master/src/controllers/showController.ts:5-37 | the query is the joined SELECT restricted to the movie on `$1`, the given filters numbered from `$2` and the date/time order; params start with the movie id |
| Shows.AddShowFilters | dbms-backend-master/src/controllers/showController.ts:22-35 | the two `if` blocks append the given filters from `$2` and push their values after the movie id |
| Shows.DateClauseIffGiven | dbms-backend-master/src/controllers/showController.ts:25-29 | the date clause is present exactly when a non-empty date is given, as the first filter, on `$2` |
| Shows.CityClausePlaceholder | dbms-backend-master/src/controllers/showController.ts:31-35 | the city clause is present exactly when a non-empty city is given, last, on `$3` after a date and `$2` without one |
| Shows.ShowPlaceholdersMatch | dbms-backend-master/src/controllers/showController.ts:19-35 | `$1` is the movie id and every filter placeholder names its own value |
| Shows.ShowsAt | dbms-backend-master/src/controllers/showController.ts:50-58 | reference definition of a theater's show list: its rows' entries in row order |
| Shows.PushRowKeepsGrouping | dbms-backend-master/src/controllers/showController.ts:41-60 | one call of the reduce callback extends the grouping of a prefix to the next row |
| Shows.GroupByTheater | dbms-backend-master/src/controllers/showController.ts:41-60 | one group per theater that has a row, keyed by its id, named after that theater's first row, listing exactly its shows in row order |
| Shows.GroupsPartitionRows | dbms-backend-master/src/controllers/showController.ts:41-62 | the per-theater show lists, over any duplicate-free cover of the theaters, add up to all rows |
| Shows.EveryShowListedOnce | dbms-backend-master/src/controllers/showController.ts:41-62 | in whatever order `Object.values` lists the groups, the response lists as many shows as there are rows |
| Shows.RowInItsGroup | dbms-backend-master/src/controllers/showController.ts:50-58 | every row's entry is listed under its own theater |
| Shows.MatchesIffTaken | dbms-backend-master/src/controllers/showController.ts:93-95 | the LEFT JOIN matches a seat exactly when a booked row of the show holds it |
| Shows.MatchesAtMostOne | dbms-backend-master/src/controllers/showController.ts:95 | with no seat sold twice, the join matches a seat at most once |
| Shows.IsBookedIffTaken | dbms-backend-master/src/controllers/showController.ts:90-98 | every listed line is a seat of the screen, flagged booked exactly when a booked row of this show holds it |
| Shows.OneLinePerSeat | dbms-backend-master/src/controllers/showController.ts:90-98 | with no seat sold twice, exactly one line per screen seat, in the screen's order |
| Shows.BookedSeatsShowBooked | dbms-backend-master/src/controllers/showController.ts:93-95 | after a successful booking every requested seat is listed as booked |
| Shows.CancelledSeatsShowFree | dbms-backend-master/src/controllers/showController.ts:93-95 | after a cancellation the booking's seats are listed as free, provided no other booking holds the same seat |
| Shows.DoubleSaleListsSeatTwice | dbms-backend-master/src/controllers/showController.ts:95 | a seat with two booked rows appears twice in the listing |
| Cache.Live | dbms-backend-master/src/controllers/bookingController.ts:14-18 | a key is live while it is present and its expiry lies after the current time; this is what `SET NX` tests |
| Cache.LockKey | dbms-backend-master/src/controllers/bookingController.ts:14 | the lock key `show:<id>:seats` |
| Cache.MarkerKey | dbms-backend-master/src/controllers/bookingController.ts:79 | the pending-booking marker key `booking:<id>` |
| Bookings.SeatTaken | dbms-backend-master/src/controllers/bookingController.ts:25-30 | a `booked` row of this show holds this seat |
| Bookings.AnyTaken | dbms-backend-master/src/controllers/bookingController.ts:25-30 | the already-booked query returns a row: some requested seat is taken for the show |
| Bookings.RowCount | dbms-backend-master/src/controllers/bookingController.ts:193-198 | `COUNT(*)` of the booking's rows, whatever their status |
| Bookings.Reject | dbms-backend-master/src/controllers/bookingController.ts:30-50 | a validation failure after the lock: DEL the lock and answer the status, or 500 with the lock kept when DEL throws (`CreateRejectionKeepsTables`) |
| Bookings.CreateCommit | dbms-backend-master/src/controllers/bookingController.ts:52-75 | the committed booking: a pending booking under the next id charging price times seat count, one booked row per seat, that many fewer available seats (`CreateCommitConsistent`, `CreateCommitConservesCapacity`) |
| Bookings.CreateStep | dbms-backend-master/src/controllers/bookingController.ts:5-93 | `createBooking` as one step: BEGIN, `SET NX EX`, 409 when the lock is held, then `LockedStep`; an exception answers 500 (`CreateOutcomeWithoutFaults`, `CreateConflictIffLocked`) |
| Bookings.LockedStep | dbms-backend-master/src/controllers/bookingController.ts:25-85 | the checks in order: taken seats 400, missing show 404, too few seats 400; then the transaction, which throws or commits (`CreateStepCases`) |
| Bookings.CommittedStep | dbms-backend-master/src/controllers/bookingController.ts:75-85 | after COMMIT: DEL the lock, then SETEX the marker for `expiryMinutes * 60` seconds and answer 201 with that expiry (`CreateSuccessEffects`) |
| Bookings.Confirmable | dbms-backend-master/src/controllers/bookingController.ts:101-106 | the guarded UPDATE matches: the booking exists, the user owns it and it is pending |
| Bookings.ConfirmStep | dbms-backend-master/src/controllers/bookingController.ts:95-122 | `confirmBooking` as one step: the guarded UPDATE, 404 when it matches nothing, then DEL of the marker (`ConfirmOutcome`) |
| Bookings.CancelStep | dbms-backend-master/src/controllers/bookingController.ts:157-181 | `cancelBooking` up to its checks: 404 for a booking the user does not own, 400 for a cancelled one, else `CancelUpdates` (`CancelOutcome`) |
| Bookings.CancelUpdates | dbms-backend-master/src/controllers/bookingController.ts:183-205 | statements 2 to 6 of the cancellation: all rolled back with 500 if one throws, otherwise `CancelCommit` and 200 |
| Bookings.CancelCommit | dbms-backend-master/src/controllers/bookingController.ts:183-205 | the committed cancellation: the booking and its rows cancelled, and its show given back the booking's row count (`CancelCommitEffects`) |
| Sql.Placeholder | dbms-backend-master/src/controllers/moviesController.ts:26 | the placeholder `$k` printed by `$${paramCount}` |
| Sql.Clauses | dbms-backend-master/src/controllers/moviesController.ts:25-35 | the appended clauses, each filter's SQL followed by its placeholder, numbered consecutively (`ClauseAt`, `PlaceholderBindsItsValue`) |
| Sql.Given | dbms-backend-master/src/controllers/moviesController.ts:25-35 | a query-string value is used exactly when it is present and not empty, as JavaScript truthiness of a string |
| Shows.PushRow | dbms-backend-master/src/controllers/showController.ts:41-60 | one call of the reduce callback: open the theater's group, headed by this row, if it has none, then push the row's entry (`PushRowKeepsGrouping`) |
| Shows.Matches | dbms-backend-master/src/controllers/showController.ts:93-95 | the number of `booking_seats` rows the LEFT JOIN matches to a seat: same seat, same show, `booked` (`MatchesIffTaken`) |
| Shows.SeatLines | dbms-backend-master/src/controllers/showController.ts:93-95 | the LEFT JOIN's lines for one seat: a booked line per matching row, or one unbooked line when none matches |
| Shows.SeatListing | dbms-backend-master/src/controllers/showController.ts:90-98 | the seat listing: each screen seat's lines, in screen order (`IsBookedIffTaken`, `OneLinePerSeat`) |

## Left out

- Concurrency is not modelled. Each handler call is one atomic step, and the interleaving of requests is not modelled. The lock's effect between concurrent calls shows only through the lemmas about a live key. The unconditional `DEL` of a lock another request may hold is the code's behaviour, but no race is exhibited.
- Reclaiming expired bookings is left out: the source has no reclaim worker, and the `booking:<id>` key simply lapses.
- `getUserBookings`, `getMovie`, `createMovie` and `deleteMovie` are not part of this model. Neither are signup, login, routes, configuration and logging.
- Executing SQL is left out. The listing handlers are modelled up to the query text and parameters they send. Their result rows are taken as input.
- `getShowById` is modelled only for its seat listing. The show-detail row and its 404 branch are not modelled, and the `ORDER BY row_name, seat_number` is taken as the given order of the screen's seats.
- `process.env.BOOKING_EXPIRY_MINUTES` and its `parseInt` default of 15 are not modelled; the value is the `expiryMinutes` parameter. The clock is the `now` parameter.
- An exception from `pool.connect()` or from a `ROLLBACK` statement is not modelled.
- Bookings.CreateStep: booking ids come from a counter that a rollback restores. A PostgreSQL sequence would not restore it, so ids can have gaps in the source. The model only promises that the new id is fresh.
- Prices and amounts are integers, with no decimal or floating-point arithmetic.
- `req.user?.userId` being undefined is not modelled; the user id is always a number.
- Bookings.ConfirmStep: booking ids are taken in their plain decimal form. The source builds `booking:<id>` from the raw path text of `POST /bookings/:bookingId/confirm`. A different rendering of the same id, such as `007`, reaches the same row in the guarded UPDATE but deletes a different Redis key, so the marker `booking:7` survives the confirmation. The model deletes `booking:7`.
- Bookings.CreateStep: likewise, a `showId` sent as a string such as `"07"` names the lock `show:07:seats`, so a live `show:7:seats` does not block it in the source; the model takes the id as a number and answers 409.
- Request bodies and query strings of the wrong type are not modelled. Examples are non-array `seatIds` and array-valued query parameters.
- Shows.GroupByTheater: returns the map of groups, not the `Object.values` array. The array's order, ascending integer keys, is not stated; `EveryShowListedOnce` holds for every order.
- Shows.BuildShowsQuery: the multi-line SELECT is rendered with its whitespace collapsed to single spaces.
