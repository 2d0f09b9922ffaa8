/** The show listings: the query `getShowsByMovie` builds, the grouping of
    its result rows by theater, and the per-seat `is_booked` flag of
    `getShowById`, derived from the same `booking_seats` rows the booking
    handlers write. */
module Shows {
  import opened Wrappers
  import opened Text
  import opened Sql
  import opened Bookings
  import BookingProperties

  // ---------------------------------------------------------------------
  // The query of getShowsByMovie
  // ---------------------------------------------------------------------

  /** The selected columns, in order. */
  const ShowColumns: seq<string> := [
    "s.id", "s.show_date", "s.show_time", "s.price", "s.available_seats",
    "sc.name as screen_name", "sc.screen_type",
    "t.id as theater_id", "t.name as theater_name", "t.address",
    "m.title as movie_title"]

  /** The joins, in order. */
  const ShowJoins: seq<string> := [
    " FROM shows s",
    " JOIN screens sc ON s.screen_id = sc.id",
    " JOIN theaters t ON sc.theater_id = t.id",
    " JOIN movies m ON s.movie_id = m.id"]

  /** `items` separated by `", "`. */
  function CommaList(items: seq<string>): string
  {
    if items == [] then ""
    else if |items| == 1 then items[0]
    else CommaList(items[..|items| - 1]) + ", " + items[|items| - 1]
  }

  function Concat(parts: seq<string>): string
  {
    if parts == [] then "" else Concat(parts[..|parts| - 1]) + parts[|parts| - 1]
  }

  /** The joined SELECT up to its WHERE clause (whitespace collapsed). */
  function ShowsFrom(): string
  {
    "SELECT " + CommaList(ShowColumns) + Concat(ShowJoins)
  }

  const MovieCondition: string := " WHERE s.movie_id = "
  const DateFilter: string := " AND s.show_date = "
  const CityFilter: string := " AND t.city_id = "
  const ShowsOrder: string := " ORDER BY s.show_date, s.show_time"

  /** The base query, whose only placeholder is `$1`, bound to the movie id. */
  function ShowsSelect(): string
  {
    ShowsFrom() + MovieCondition + Placeholder(1)
  }

  /** The optional filters, in order: date, then city. */
  function ShowFilters(date: Option<string>, cityId: Option<string>): seq<Filter>
  {
    (if Given(date) then [Filter(DateFilter, date.value)] else [])
    + (if Given(cityId) then [Filter(CityFilter, cityId.value)] else [])
  }

  /** The query builder: `$1` is taken by the movie id, so the counter
      starts at 2. */
  method BuildShowsQuery(movieId: string, date: Option<string>, cityId: Option<string>)
    returns (query: string, params: seq<string>, paramCount: nat)
    ensures paramCount == |params| + 1
    ensures params == [movieId] + Values(ShowFilters(date, cityId))
    ensures query == ShowsSelect() + Clauses(ShowFilters(date, cityId), 2) + ShowsOrder
  {
    query, params, paramCount := AddShowFilters(ShowsSelect(), movieId, date, cityId);
    query := query + ShowsOrder;
  }

  /** The two optional filters of the builder, appended to `base`. */
  method AddShowFilters(base: string, movieId: string, date: Option<string>, cityId: Option<string>)
    returns (query: string, params: seq<string>, paramCount: nat)
    ensures paramCount == |params| + 1
    ensures params == [movieId] + Values(ShowFilters(date, cityId))
    ensures query == base + Clauses(ShowFilters(date, cityId), 2)
  {
    query := base;
    params := [movieId];
    paramCount := 2;
    ghost var fs: seq<Filter> := [];
    if Given(date) {
      var f := Filter(DateFilter, date.value);
      AppendFilter(base, fs, f, 2);
      query := query + f.sql + Placeholder(paramCount);
      params := params + [f.value];
      fs := fs + [f];
      paramCount := paramCount + 1;
    }
    assert query == base + Clauses(fs, 2) && params == [movieId] + Values(fs) && paramCount == |fs| + 2;
    if Given(cityId) {
      var f := Filter(CityFilter, cityId.value);
      AppendFilter(base, fs, f, 2);
      query := query + f.sql + Placeholder(paramCount);
      params := params + [f.value];
      fs := fs + [f];
      paramCount := paramCount + 1;
    }
    assert fs == ShowFilters(date, cityId);
  }

  /** The date clause is present exactly when a date is given, and then it
      is the first filter, bound to `$2`. */
  lemma DateClauseIffGiven(movieId: string, date: Option<string>, cityId: Option<string>)
    ensures var fs := ShowFilters(date, cityId);
      Given(date) <==> |fs| > 0 && fs[0].sql == DateFilter
    ensures var fs := ShowFilters(date, cityId);
      var params := [movieId] + Values(fs);
      Given(date) ==> Clauses(fs, 2) == DateFilter + Placeholder(2) + Clauses(fs[1..], 3) && params[1] == date.value
  {
    assert DateFilter[5] != CityFilter[5];
  }

  /** The city clause is present exactly when a city is given; it is the
      last filter and takes `$3` after a date, `$2` without one. */
  lemma CityClausePlaceholder(movieId: string, date: Option<string>, cityId: Option<string>)
    ensures var fs := ShowFilters(date, cityId);
      Given(cityId) <==> |fs| > 0 && fs[|fs| - 1].sql == CityFilter
    ensures var fs := ShowFilters(date, cityId);
      var params := [movieId] + Values(fs);
      var k := if Given(date) then 3 else 2;
      Given(cityId) ==>
        Clauses(fs, 2) == Clauses(fs[..|fs| - 1], 2) + (CityFilter + Placeholder(k)) &&
        |params| == k && params[k - 1] == cityId.value
  {
    assert DateFilter[5] != CityFilter[5];
    var fs := ShowFilters(date, cityId);
    if Given(cityId) {
      PlaceholderBindsItsValue([movieId], fs, |fs| - 1);
      assert fs[|fs|..] == [];
    }
  }

  /** Every placeholder `$k` of the shows query names `params[k-1]`: `$1`
      the movie id, and `$(2+i)` the value of filter `i`. */
  lemma ShowPlaceholdersMatch(movieId: string, date: Option<string>, cityId: Option<string>, i: nat)
    requires i < |ShowFilters(date, cityId)|
    ensures var fs := ShowFilters(date, cityId);
      var params := [movieId] + Values(fs);
      ShowsSelect() == ShowsFrom() + MovieCondition + Placeholder(1) && params[0] == movieId &&
      Clauses(fs, 2) == Clauses(fs[..i], 2) + (fs[i].sql + Placeholder(i + 2) + Clauses(fs[i + 1..], i + 3)) &&
      params[i + 1] == fs[i].value
  {
    PlaceholderBindsItsValue([movieId], ShowFilters(date, cityId), i);
  }

  // ---------------------------------------------------------------------
  // Grouping the result rows by theater
  // ---------------------------------------------------------------------

  /** One result row of the shows query. */
  datatype ShowRow = ShowRow(id: nat, showDate: string, showTime: string, price: int, availableSeats: int,
                             screenName: string, screenType: string,
                             theaterId: nat, theaterName: string, address: string, movieTitle: string)

  /** The per-show object pushed into a theater's `shows`. */
  datatype ShowEntry = ShowEntry(id: nat, showDate: string, showTime: string, price: int, availableSeats: int,
                                 screenName: string, screenType: string)

  datatype TheaterGroup = TheaterGroup(theaterId: nat, theaterName: string, address: string, shows: seq<ShowEntry>)

  function EntryOf(r: ShowRow): ShowEntry
  {
    ShowEntry(r.id, r.showDate, r.showTime, r.price, r.availableSeats, r.screenName, r.screenType)
  }

  /** Reference definition: the entries of the rows at theater `t`, in row order. */
  function ShowsAt(rows: seq<ShowRow>, t: nat): (es: seq<ShowEntry>)
    ensures |es| <= |rows|
  {
    if rows == [] then []
    else ShowsAt(rows[..|rows| - 1], t) + (if rows[|rows| - 1].theaterId == t then [EntryOf(rows[|rows| - 1])] else [])
  }

  /** Some of the first `n` rows is at theater `t`. */
  predicate AppearsIn(rows: seq<ShowRow>, n: nat, t: nat)
    requires n <= |rows|
  {
    exists j :: 0 <= j < n && rows[j].theaterId == t
  }

  /** `g`'s name and address are those of the first of the first `n` rows
      at its theater. */
  predicate HeaderFromFirstRow(rows: seq<ShowRow>, n: nat, g: TheaterGroup)
    requires n <= |rows|
  {
    exists j :: 0 <= j < n && rows[j].theaterId == g.theaterId
      && (forall k :: 0 <= k < j ==> rows[k].theaterId != g.theaterId)
      && g.theaterName == rows[j].theaterName && g.address == rows[j].address
  }

  /** What the reduce produces: one group per theater that has a row, keyed
      by its id, headed by that theater's first row, listing its shows in
      row order. */
  ghost predicate GroupedByTheater(rows: seq<ShowRow>, groups: map<nat, TheaterGroup>)
  {
    (forall t :: t in groups <==> AppearsIn(rows, |rows|, t))
    && (forall t :: t in groups ==>
          groups[t].theaterId == t && groups[t].shows == ShowsAt(rows, t) && HeaderFromFirstRow(rows, |rows|, groups[t]))
  }

  lemma {:induction false} ShowsAtAbsent(rows: seq<ShowRow>, t: nat)
    requires forall j :: 0 <= j < |rows| ==> rows[j].theaterId != t
    ensures ShowsAt(rows, t) == []
    decreases |rows|
  {
    if rows != [] {
      var init := rows[..|rows| - 1];
      forall j | 0 <= j < |init|
        ensures init[j].theaterId != t
      {
        assert init[j] == rows[j];
      }
      ShowsAtAbsent(init, t);
    }
  }

  /** The reduce's accumulator after the first `n` rows. */
  ghost predicate GroupedUpTo(rows: seq<ShowRow>, n: nat, groups: map<nat, TheaterGroup>)
    requires n <= |rows|
  {
    (forall t :: t in groups <==> AppearsIn(rows, n, t))
    && (forall t :: t in groups ==>
          groups[t].theaterId == t && groups[t].shows == ShowsAt(rows[..n], t) && HeaderFromFirstRow(rows, n, groups[t]))
  }

  /** One call of the reduce callback, as a value: open the theater's group
      if it has none, then push the row's entry. */
  function PushRow(groups: map<nat, TheaterGroup>, row: ShowRow): map<nat, TheaterGroup>
  {
    var withGroup := if row.theaterId in groups then groups
                  else groups[row.theaterId := TheaterGroup(row.theaterId, row.theaterName, row.address, [])];
    withGroup[row.theaterId := withGroup[row.theaterId].(shows := withGroup[row.theaterId].shows + [EntryOf(row)])]
  }

  /** The prefix of the first `n` rows does not mention the theater of row `n`. */
  lemma FreshTheater(rows: seq<ShowRow>, n: nat)
    requires n < |rows| && !AppearsIn(rows, n, rows[n].theaterId)
    ensures ShowsAt(rows[..n], rows[n].theaterId) == []
    ensures forall k :: 0 <= k < n ==> rows[k].theaterId != rows[n].theaterId
  {
    forall j | 0 <= j < |rows[..n]|
      ensures rows[..n][j].theaterId != rows[n].theaterId
    {
      assert rows[..n][j] == rows[j];
    }
    ShowsAtAbsent(rows[..n], rows[n].theaterId);
  }

  lemma PushRowKeys(rows: seq<ShowRow>, n: nat, groups: map<nat, TheaterGroup>)
    requires n < |rows|
    requires forall t :: t in groups <==> AppearsIn(rows, n, t)
    ensures forall t :: t in PushRow(groups, rows[n]) <==> AppearsIn(rows, n + 1, t)
  {
    var next := PushRow(groups, rows[n]);
    forall t
      ensures t in next <==> AppearsIn(rows, n + 1, t)
    {
      if AppearsIn(rows, n, t) {
        var j :| 0 <= j < n && rows[j].theaterId == t;
        assert 0 <= j < n + 1 && rows[j].theaterId == t;
      }
      if t != rows[n].theaterId && AppearsIn(rows, n + 1, t) {
        var j :| 0 <= j < n + 1 && rows[j].theaterId == t;
        assert AppearsIn(rows, n, t);
      }
    }
  }

  lemma PushRowGroup(rows: seq<ShowRow>, n: nat, groups: map<nat, TheaterGroup>, t: nat)
    requires n < |rows| && GroupedUpTo(rows, n, groups)
    requires t in PushRow(groups, rows[n])
    ensures var g := PushRow(groups, rows[n])[t];
      g.theaterId == t && g.shows == ShowsAt(rows[..n + 1], t) && HeaderFromFirstRow(rows, n + 1, g)
  {
    var row := rows[n];
    var g := PushRow(groups, row)[t];
    assert rows[..n + 1][..n] == rows[..n];
    assert rows[..n + 1][n] == row;
    if t != row.theaterId {
      var j :| 0 <= j < n && rows[j].theaterId == groups[t].theaterId
        && (forall k :: 0 <= k < j ==> rows[k].theaterId != groups[t].theaterId)
        && groups[t].theaterName == rows[j].theaterName && groups[t].address == rows[j].address;
    } else if row.theaterId !in groups {
      FreshTheater(rows, n);
      assert HeaderFromFirstRow(rows, n + 1, g) by {
        assert rows[n].theaterId == g.theaterId;
      }
    }
  }

  lemma PushRowKeepsGrouping(rows: seq<ShowRow>, n: nat, groups: map<nat, TheaterGroup>)
    requires n < |rows| && GroupedUpTo(rows, n, groups)
    ensures GroupedUpTo(rows, n + 1, PushRow(groups, rows[n]))
  {
    PushRowKeys(rows, n, groups);
    forall t | t in PushRow(groups, rows[n])
      ensures var g := PushRow(groups, rows[n])[t];
        g.theaterId == t && g.shows == ShowsAt(rows[..n + 1], t) && HeaderFromFirstRow(rows, n + 1, g)
    {
      PushRowGroup(rows, n, groups, t);
    }
  }

  /** The reduce of `getShowsByMovie` over the result rows. */
  method GroupByTheater(rows: seq<ShowRow>) returns (groups: map<nat, TheaterGroup>)
    ensures GroupedByTheater(rows, groups)
  {
    groups := map[];
    var i := 0;
    while i < |rows|
      invariant 0 <= i <= |rows|
      invariant GroupedUpTo(rows, i, groups)
    {
      var row := rows[i];
      PushRowKeepsGrouping(rows, i, groups);
      if row.theaterId !in groups {
        groups := groups[row.theaterId := TheaterGroup(row.theaterId, row.theaterName, row.address, [])];
      }
      var g := groups[row.theaterId];
      groups := groups[row.theaterId := g.(shows := g.shows + [EntryOf(row)])];
      i := i + 1;
    }
    assert rows[..|rows|] == rows;
  }

  /** Σ |ShowsAt(rows, t)| over the theaters `ts`. */
  function SumAt(rows: seq<ShowRow>, ts: seq<nat>): nat
  {
    if ts == [] then 0 else SumAt(rows, ts[..|ts| - 1]) + |ShowsAt(rows, ts[|ts| - 1])|
  }

  /** Occurrences of `x` in `ts`. */
  function Occurrences(ts: seq<nat>, x: nat): nat
  {
    if ts == [] then 0 else Occurrences(ts[..|ts| - 1], x) + (if ts[|ts| - 1] == x then 1 else 0)
  }

  lemma {:induction false} SumAtSnoc(init: seq<ShowRow>, r: ShowRow, ts: seq<nat>)
    ensures SumAt(init + [r], ts) == SumAt(init, ts) + Occurrences(ts, r.theaterId)
    decreases |ts|
  {
    if ts != [] {
      SumAtSnoc(init, r, ts[..|ts| - 1]);
      assert (init + [r])[..|init|] == init;
    }
  }

  /** Theater `t` is among `ts`. */
  predicate Listed(ts: seq<nat>, t: nat)
  {
    exists i :: 0 <= i < |ts| && ts[i] == t
  }

  lemma {:induction false} OccursOnce(ts: seq<nat>, x: nat)
    requires Distinct(ts)
    requires Listed(ts, x)
    ensures Occurrences(ts, x) == 1
    decreases |ts|
  {
    var init := ts[..|ts| - 1];
    if ts[|ts| - 1] == x {
      OccursNot(init, x);
    } else {
      var i :| 0 <= i < |ts| && ts[i] == x;
      assert init[i] == x;
      OccursOnce(init, x);
    }
  }

  lemma {:induction false} OccursNot(ts: seq<nat>, x: nat)
    requires forall i :: 0 <= i < |ts| ==> ts[i] != x
    ensures Occurrences(ts, x) == 0
    decreases |ts|
  {
    if ts != [] {
      OccursNot(ts[..|ts| - 1], x);
    }
  }

  /** Every row lands in exactly one group: listing the theaters `ts` once
      each (in any order), the groups' show counts add up to the number of
      rows. */
  lemma {:induction false} GroupsPartitionRows(rows: seq<ShowRow>, ts: seq<nat>)
    requires Distinct(ts)
    requires forall i :: 0 <= i < |rows| ==> Listed(ts, rows[i].theaterId)
    ensures SumAt(rows, ts) == |rows|
    decreases |rows|
  {
    if rows == [] {
      EmptyRowsSumZero(ts);
    } else {
      var init := rows[..|rows| - 1];
      var r := rows[|rows| - 1];
      assert rows == init + [r];
      GroupsPartitionRows(init, ts);
      SumAtSnoc(init, r, ts);
      OccursOnce(ts, r.theaterId);
    }
  }

  lemma {:induction false} EmptyRowsSumZero(ts: seq<nat>)
    ensures SumAt([], ts) == 0
    decreases |ts|
  {
    if ts != [] {
      EmptyRowsSumZero(ts[..|ts| - 1]);
    }
  }

  /** The number of shows listed by `Object.values(groups)` for any
      enumeration `ts` of the keys. */
  function ListedShows(groups: map<nat, TheaterGroup>, ts: seq<nat>): nat
    requires forall i :: 0 <= i < |ts| ==> ts[i] in groups
  {
    if ts == [] then 0 else ListedShows(groups, ts[..|ts| - 1]) + |groups[ts[|ts| - 1]].shows|
  }

  lemma {:induction false} ListedShowsIsSumAt(rows: seq<ShowRow>, groups: map<nat, TheaterGroup>, ts: seq<nat>)
    requires GroupedByTheater(rows, groups)
    requires forall i :: 0 <= i < |ts| ==> ts[i] in groups
    ensures ListedShows(groups, ts) == SumAt(rows, ts)
    decreases |ts|
  {
    if ts != [] {
      ListedShowsIsSumAt(rows, groups, ts[..|ts| - 1]);
    }
  }

  /** The response lists every result row exactly once: whatever order the
      theaters come out in, the shows of all groups number as many as the
      rows. */
  lemma EveryShowListedOnce(rows: seq<ShowRow>, groups: map<nat, TheaterGroup>, ts: seq<nat>)
    requires GroupedByTheater(rows, groups)
    requires Distinct(ts)
    requires forall i :: 0 <= i < |ts| ==> ts[i] in groups
    requires forall t :: t in groups ==> Listed(ts, t)
    ensures ListedShows(groups, ts) == |rows|
  {
    ListedShowsIsSumAt(rows, groups, ts);
    forall i | 0 <= i < |rows|
      ensures Listed(ts, rows[i].theaterId)
    {
      assert AppearsIn(rows, |rows|, rows[i].theaterId);
      assert rows[i].theaterId in groups;
    }
    GroupsPartitionRows(rows, ts);
  }

  /** A row's entry is listed under its own theater. */
  lemma {:induction false} RowInItsGroup(rows: seq<ShowRow>, i: nat)
    requires i < |rows|
    ensures EntryOf(rows[i]) in ShowsAt(rows, rows[i].theaterId)
    decreases |rows|
  {
    if i < |rows| - 1 {
      RowInItsGroup(rows[..|rows| - 1], i);
    }
  }

  // ---------------------------------------------------------------------
  // The seat map of getShowById
  // ---------------------------------------------------------------------

  /** One line of the seat listing: the seat and its `is_booked` flag. */
  datatype SeatLine = SeatLine(seatId: SeatId, isBooked: bool)

  /** Number of `booking_seats` rows the LEFT JOIN matches to a seat:
      same seat, same show, status `booked`. */
  function Matches(rows: seq<SeatRow>, showId: ShowId, seatId: SeatId): nat
  {
    if rows == [] then 0
    else
      var r := rows[|rows| - 1];
      Matches(rows[..|rows| - 1], showId, seatId)
      + (if r.showId == showId && r.seatId == seatId && r.status == SeatBooked then 1 else 0)
  }

  /** The LEFT JOIN's output for one seat: a `true` line per matching row,
      or a single `false` line when none matches. */
  function SeatLines(rows: seq<SeatRow>, showId: ShowId, seatId: SeatId): seq<SeatLine>
  {
    var k := Matches(rows, showId, seatId);
    if k == 0 then [SeatLine(seatId, false)] else seq(k, _ => SeatLine(seatId, true))
  }

  /** The seat listing of a show, given its screen's seats in listing order. */
  function SeatListing(screenSeats: seq<SeatId>, rows: seq<SeatRow>, showId: ShowId): seq<SeatLine>
  {
    if screenSeats == [] then []
    else SeatListing(screenSeats[..|screenSeats| - 1], rows, showId) + SeatLines(rows, showId, screenSeats[|screenSeats| - 1])
  }

  lemma {:induction false} MatchesIffTaken(rows: seq<SeatRow>, showId: ShowId, seatId: SeatId)
    ensures Matches(rows, showId, seatId) > 0 <==> SeatTaken(rows, showId, seatId)
    decreases |rows|
  {
    if rows != [] {
      var init := rows[..|rows| - 1];
      MatchesIffTaken(init, showId, seatId);
      if SeatTaken(init, showId, seatId) {
        var i :| 0 <= i < |init| && init[i].showId == showId && init[i].seatId == seatId && init[i].status == SeatBooked;
        assert rows[i] == init[i];
      }
      if SeatTaken(rows, showId, seatId) {
        var i :| 0 <= i < |rows| && rows[i].showId == showId && rows[i].seatId == seatId && rows[i].status == SeatBooked;
        if i < |init| {
          assert init[i] == rows[i];
        }
      }
    }
  }

  lemma {:induction false} MatchesAtMostOne(rows: seq<SeatRow>, showId: ShowId, seatId: SeatId)
    requires SeatsUnique(rows)
    ensures Matches(rows, showId, seatId) <= 1
    decreases |rows|
  {
    if rows != [] {
      var init := rows[..|rows| - 1];
      var r := rows[|rows| - 1];
      assert SeatsUnique(init) by {
        forall i, j | 0 <= i < j < |init| && init[i].status == SeatBooked && init[j].status == SeatBooked && init[i].showId == init[j].showId
          ensures init[i].seatId != init[j].seatId
        {
          assert init[i] == rows[i] && init[j] == rows[j];
        }
      }
      MatchesAtMostOne(init, showId, seatId);
      if r.showId == showId && r.seatId == seatId && r.status == SeatBooked {
        forall i | 0 <= i < |init|
          ensures !(init[i].showId == showId && init[i].seatId == seatId && init[i].status == SeatBooked)
        {
          assert init[i] == rows[i];
        }
        MatchesIffTaken(init, showId, seatId);
      }
    }
  }

  /** Whatever the rows, every line lists a seat of the screen, flagged
      booked exactly when a `booked` row of this show holds that seat. */
  lemma {:induction false} IsBookedIffTaken(screenSeats: seq<SeatId>, rows: seq<SeatRow>, showId: ShowId, k: nat)
    requires k < |SeatListing(screenSeats, rows, showId)|
    ensures var v := SeatListing(screenSeats, rows, showId)[k];
      (v.isBooked <==> SeatTaken(rows, showId, v.seatId)) &&
      exists i :: 0 <= i < |screenSeats| && screenSeats[i] == v.seatId
    decreases |screenSeats|
  {
    var init := screenSeats[..|screenSeats| - 1];
    var last := screenSeats[|screenSeats| - 1];
    var before := SeatListing(init, rows, showId);
    MatchesIffTaken(rows, showId, last);
    if k < |before| {
      IsBookedIffTaken(init, rows, showId, k);
      var i :| 0 <= i < |init| && init[i] == before[k].seatId;
      assert screenSeats[i] == init[i];
    } else {
      assert SeatListing(screenSeats, rows, showId)[k] == SeatLines(rows, showId, last)[k - |before|];
    }
  }

  /** With no seat sold twice the listing has exactly one line per screen
      seat, in the screen's order, flagged by whether the seat is taken. */
  lemma {:induction false} OneLinePerSeat(screenSeats: seq<SeatId>, rows: seq<SeatRow>, showId: ShowId)
    requires SeatsUnique(rows)
    ensures var lines := SeatListing(screenSeats, rows, showId);
      |lines| == |screenSeats| &&
      forall i :: 0 <= i < |screenSeats| ==> lines[i] == SeatLine(screenSeats[i], SeatTaken(rows, showId, screenSeats[i]))
    decreases |screenSeats|
  {
    if screenSeats != [] {
      var init := screenSeats[..|screenSeats| - 1];
      var last := screenSeats[|screenSeats| - 1];
      OneLinePerSeat(init, rows, showId);
      MatchesAtMostOne(rows, showId, last);
      MatchesIffTaken(rows, showId, last);
      assert SeatLines(rows, showId, last) == [SeatLine(last, SeatTaken(rows, showId, last))];
    }
  }

  /** After a successful booking every requested seat shows as booked. */
  lemma BookedSeatsShowBooked(s: State, userId: UserId, showId: ShowId, seatIds: seq<SeatId>,
                              expiryMinutes: int, now: int, fault: Fault, screenSeats: seq<SeatId>, k: nat)
    requires Consistent(s)
    requires CreateStep(s, userId, showId, seatIds, expiryMinutes, now, fault).reply.Created?
    requires k < |SeatListing(screenSeats, CreateStep(s, userId, showId, seatIds, expiryMinutes, now, fault).post.seatRows, showId)|
    requires exists j :: 0 <= j < |seatIds| && seatIds[j] == SeatListing(screenSeats, CreateStep(s, userId, showId, seatIds, expiryMinutes, now, fault).post.seatRows, showId)[k].seatId
    ensures SeatListing(screenSeats, CreateStep(s, userId, showId, seatIds, expiryMinutes, now, fault).post.seatRows, showId)[k].isBooked
  {
    var r := CreateStep(s, userId, showId, seatIds, expiryMinutes, now, fault);
    BookingProperties.CreateSuccessEffects(s, userId, showId, seatIds, expiryMinutes, now, fault);
    var v := SeatListing(screenSeats, r.post.seatRows, showId)[k];
    IsBookedIffTaken(screenSeats, r.post.seatRows, showId, k);
    var j :| 0 <= j < |seatIds| && seatIds[j] == v.seatId;
    assert r.post.seatRows[|s.seatRows| + j] == SeatRow(r.reply.bookingId, seatIds[j], showId, SeatBooked);
  }

  /** After a cancellation commits, the seats it held show as free again,
      provided no other booking holds the same seat. */
  lemma CancelledSeatsShowFree(s: State, bookingId: BookingId, i: nat, screenSeats: seq<SeatId>, k: nat)
    requires Consistent(s) && SeatsHeldByOneBooking(s.seatRows)
    requires bookingId in s.bookings && s.bookings[bookingId].status != Cancelled
    requires i < |s.seatRows| && s.seatRows[i].bookingId == bookingId
    requires k < |SeatListing(screenSeats, CancelCommit(s, bookingId).seatRows, s.seatRows[i].showId)|
    requires SeatListing(screenSeats, CancelCommit(s, bookingId).seatRows, s.seatRows[i].showId)[k].seatId == s.seatRows[i].seatId
    ensures !SeatListing(screenSeats, CancelCommit(s, bookingId).seatRows, s.seatRows[i].showId)[k].isBooked
  {
    BookingProperties.CancelFreesSeats(s, bookingId, i);
    IsBookedIffTaken(screenSeats, CancelCommit(s, bookingId).seatRows, s.seatRows[i].showId, k);
  }

  /** A seat sold twice (possible when a request repeats a seat id) is
      listed twice. */
  lemma DoubleSaleListsSeatTwice()
    ensures SeatListing([7], [SeatRow(0, 7, 1, SeatBooked), SeatRow(0, 7, 1, SeatBooked)], 1)
      == [SeatLine(7, true), SeatLine(7, true)]
  {
    var rows := [SeatRow(0, 7, 1, SeatBooked), SeatRow(0, 7, 1, SeatBooked)];
    assert rows[..1][..0] == [];
    assert Matches(rows, 1, 7) == 2;
  }
}
