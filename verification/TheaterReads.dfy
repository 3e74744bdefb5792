/**
 The theater bootstrap: the queries it is built from, the loops that assemble it, and
 the payload they amount to for a database read as one snapshot. Display fields of
 theaters, halls, movies and schedules are not part of the model.
 */
module TheaterReads {
  import opened Wrappers
  import opened BookingTables
  import opened Collections
  import opened SeatKeys
  import opened SeatOrder
  import opened Sequences
  import TB = TheaterBooking

  datatype HallRow = HallRow(hallId: int, theaterId: int)
  datatype ScheduleRow = ScheduleRow(scheduleId: int, movieId: int, hallId: int, total: int, remain: int,
                                     status: EventStatus)
  datatype ReservedRow = ReservedRow(scheduleId: int, seat: Seat, status: BookStatus)

  datatype Bootstrap = Bootstrap(theaters: seq<int>, halls: seq<HallRow>, movies: seq<int>,
                                 schedules: seq<ScheduleRow>, reserved: map<int, seq<Seat>>)

  /**
   What bookings never change: theaters and halls in their query order, schedule ids in
   the order of their show dates, and the movies of the public movie list.
   */
  datatype Listing = Listing(theaters: seq<int>, halls: seq<HallRow>, order: seq<int>, movies: set<int>)

  ghost predicate ValidListing(cat: TB.Catalog, l: Listing) {
    && Distinct(l.theaters) && Distinct(l.order)
    && (forall ev :: ev in l.order <==> ev in cat.screenings)
    && (forall h :: h in l.halls ==>
          h.hallId in cat.hallTheater && cat.hallTheater[h.hallId] == h.theaterId && h.theaterId in l.theaters)
    && (forall id :: id in cat.hallTheater ==> HallRow(id, cat.hallTheater[id]) in l.halls)
    && Distinct(l.halls)
  }

  // ----------------------------------------------------------------- queries

  function ShownRemain(t: Tables<nat>, ev: int): int
    requires ev in t.events
  {
    var left := t.events[ev].total - |ActiveSeats(t.seats, ev)|;
    if left < 0 then 0 else left
  }

  function ShownStatus(t: Tables<nat>, ev: int): EventStatus
    requires ev in t.events
  {
    if ShownRemain(t, ev) <= 0 then CLOSED
    else if t.events[ev].status.CLOSED? then CLOSED
    else OPEN
  }

  function RowOf(cat: TB.Catalog, t: Tables<nat>, ev: int): ScheduleRow
    requires ev in cat.screenings && ev in t.events
  {
    ScheduleRow(ev, cat.screenings[ev].movieId, cat.screenings[ev].hallId, t.events[ev].total,
                ShownRemain(t, ev), ShownStatus(t, ev))
  }

  /** The row in full: what the ACTIVE seats leave of the total, never below 0, and CLOSED when that is nothing. */
  lemma RowShows(cat: TB.Catalog, t: Tables<nat>, ev: int)
    requires ev in cat.screenings && ev in t.events
    ensures var row, total, active := RowOf(cat, t, ev), t.events[ev].total, |ActiveSeats(t.seats, ev)|;
            && row.scheduleId == ev && row.total == total && cat.screenings[ev] == TB.Screening(row.hallId, row.movieId)
            && (active <= total ==> row.remain + active == total) && (active >= total ==> row.remain == 0)
            && (row.status == CLOSED <==> active >= total || t.events[ev].status == CLOSED)
            && (row.status == OPEN <==> row.status != CLOSED)
  {
  }

  predicate Scheduled(cat: TB.Catalog, t: Tables<nat>, order: seq<int>) {
    forall i :: 0 <= i < |order| ==> order[i] in cat.screenings && order[i] in t.events
  }

  /** The schedule query: a status other than OPEN or CLOSED hides a schedule. */
  function ScheduleRows(cat: TB.Catalog, t: Tables<nat>, order: seq<int>): seq<ScheduleRow>
    requires Scheduled(cat, t, order)
  {
    if order == [] then []
    else
      var front, ev := ScheduleRows(cat, t, order[..|order| - 1]), order[|order| - 1];
      if t.events[ev].status.OTHER? then front else front + [RowOf(cat, t, ev)]
  }

  /** ACTIVE seat rows joined with hall_seats and booking. */
  function JoinRows(cat: TB.Catalog, bookings: map<nat, Booking>, rows: seq<SeatRow<nat>>): seq<ReservedRow> {
    if rows == [] then []
    else
      var front, last := JoinRows(cat, bookings, rows[..|rows| - 1]), rows[|rows| - 1];
      if last.status.ACTIVE? && last.seat in cat.position && last.bookingId in bookings
      then front + [ReservedRow(last.eventId, SeatAt(cat, last.seat), bookings[last.bookingId].status)]
      else front
  }

  function SeatAt(cat: TB.Catalog, id: nat): Seat {
    if id in cat.position then Seat(cat.position[id].row, cat.position[id].col) else Seat(0, 0)
  }

  function KeyOf(row: ReservedRow): EventSeat {
    EventSeat(row.scheduleId, row.seat)
  }

  /** The result sets of the four queries. */
  datatype Queries = Queries(theaters: seq<int>, halls: seq<HallRow>, schedules: seq<ScheduleRow>,
                             reserved: seq<ReservedRow>)

  function QueriesOf(cat: TB.Catalog, l: Listing, t: Tables<nat>): Queries
    requires Scheduled(cat, t, l.order)
  {
    Queries(l.theaters, l.halls, ScheduleRows(cat, t, l.order), SortRows(KeyOf, JoinRows(cat, t.bookings, t.seats)))
  }

  // ---------------------------------------------------------- the payload

  predicate Listed(cat: TB.Catalog, movies: set<int>, t: Tables<nat>, ev: int)
    requires ev in cat.screenings && ev in t.events
  {
    !t.events[ev].status.OTHER? && cat.screenings[ev].movieId in movies
  }

  function Schedules(cat: TB.Catalog, movies: set<int>, t: Tables<nat>, order: seq<int>): seq<ScheduleRow>
    requires Scheduled(cat, t, order)
  {
    if order == [] then []
    else
      var front, ev := Schedules(cat, movies, t, order[..|order| - 1]), order[|order| - 1];
      if Listed(cat, movies, t, ev) then front + [RowOf(cat, t, ev)] else front
  }

  function HallIds(schedules: seq<ScheduleRow>): set<int> {
    set s | s in schedules :: s.hallId
  }

  function MovieIds(schedules: seq<ScheduleRow>): set<int> {
    set s | s in schedules :: s.movieId
  }

  function ScheduleIds(schedules: seq<ScheduleRow>): set<int> {
    set s | s in schedules :: s.scheduleId
  }

  /** The ids of the movies shown, ascending and without repetition. */
  function MoviesOf(schedules: seq<ScheduleRow>): seq<int> {
    if schedules == [] then []
    else InsertId(schedules[|schedules| - 1].movieId, MoviesOf(schedules[..|schedules| - 1]))
  }

  function Places(cat: TB.Catalog, ids: seq<nat>): seq<Seat> {
    if ids == [] then [] else Places(cat, ids[..|ids| - 1]) + [SeatAt(cat, ids[|ids| - 1])]
  }

  /** The reserved seats of a schedule, straight from its ACTIVE rows. */
  function ReservedOf(cat: TB.Catalog, t: Tables<nat>, ev: int): seq<Seat> {
    SortSeats(Places(cat, ActiveSeats(t.seats, ev)))
  }

  function ReservedMap(cat: TB.Catalog, movies: set<int>, t: Tables<nat>, order: seq<int>): map<int, seq<Seat>>
    requires Scheduled(cat, t, order)
  {
    if order == [] then map[]
    else
      var front, ev := ReservedMap(cat, movies, t, order[..|order| - 1]), order[|order| - 1];
      if Listed(cat, movies, t, ev) && ReservedOf(cat, t, ev) != [] then front[ev := ReservedOf(cat, t, ev)] else front
  }

  /** The payload of a database, schedule by schedule. */
  function Build(cat: TB.Catalog, l: Listing, t: Tables<nat>): Bootstrap
    requires Scheduled(cat, t, l.order)
  {
    var schedules := Schedules(cat, l.movies, t, l.order);
    Bootstrap(l.theaters, Filter((h: HallRow) => h.hallId in HallIds(schedules), l.halls), MoviesOf(schedules),
              schedules, ReservedMap(cat, l.movies, t, l.order))
  }

  // ------------------------------------------------------ the code's assembly

  predicate Shown(row: ReservedRow) {
    !row.status.CANCEL? && row.seat.row > 0 && row.seat.col > 0
  }

  /** The dictionary groups the shown rows of the valid schedules. */
  ghost predicate Groups(m: map<int, seq<Seat>>, rows: seq<ReservedRow>, valid: set<int>) {
    && (forall ev :: ev in m <==> ev in valid && SeatsIn(KeyOf, Shown, rows, ev) != [])
    && (forall ev :: ev in m ==> m[ev] == SeatsIn(KeyOf, Shown, rows, ev))
  }

  /** A seat of a row of ev that is shown: its booking is not cancelled and its place is a real one. */
  ghost predicate ShownSeat(rows: seq<ReservedRow>, ev: int, s: Seat) {
    exists i :: 0 <= i < |rows| && rows[i].scheduleId == ev && rows[i].seat == s
                && rows[i].status != CANCEL && s.row > 0 && s.col > 0
  }

  /** The groups hold, for the valid schedules, exactly the shown seats, and none is empty. */
  lemma {:induction false} GroupsHold(m: map<int, seq<Seat>>, rows: seq<ReservedRow>, valid: set<int>)
    requires Groups(m, rows, valid)
    ensures forall ev :: ev in m ==> ev in valid && m[ev] != []
    ensures forall ev, s :: ev in m ==> (s in m[ev] <==> ShownSeat(rows, ev, s))
    ensures forall ev, s :: ev in valid && ShownSeat(rows, ev, s) ==> ev in m
  {
    forall ev, s
      ensures s in SeatsIn(KeyOf, Shown, rows, ev) <==> ShownSeat(rows, ev, s)
    {
      if ShownSeat(rows, ev, s) {
        var i :| 0 <= i < |rows| && rows[i].scheduleId == ev && rows[i].seat == s
          && rows[i].status != CANCEL && s.row > 0 && s.col > 0;
        SeatsInListsRow(KeyOf, Shown, rows, i);
      }
      if s in SeatsIn(KeyOf, Shown, rows, ev) {
        var i :| 0 <= i < |SeatsIn(KeyOf, Shown, rows, ev)| && SeatsIn(KeyOf, Shown, rows, ev)[i] == s;
        var j := SeatsInHasRow(KeyOf, Shown, rows, ev, i);
        assert rows[j].seat == s;
      }
    }
  }

  /** _fetch_bootstrap_from_db on the result sets of its queries. */
  method FetchBootstrap(q: Queries, movieMap: set<int>) returns (b: Bootstrap)
    ensures b.theaters == q.theaters
    ensures b.schedules == Filter((s: ScheduleRow) => s.movieId in movieMap, q.schedules)
    ensures b.halls == Filter((h: HallRow) => h.hallId in HallIds(b.schedules), q.halls)
    ensures b.movies == MoviesOf(b.schedules)
    ensures Groups(b.reserved, q.reserved, ScheduleIds(b.schedules))
  {
    var schedules, validSchedules, validHalls, validMovies := CollectSchedules(q.schedules, movieMap);
    var halls := CollectHalls(q.halls, validHalls);
    var movies := CollectMovies(schedules, validMovies, movieMap);
    var reserved := CollectReserved(q.reserved, validSchedules);
    b := Bootstrap(q.theaters, halls, movies, schedules, reserved);
    FilterSame((h: HallRow) => h.hallId in validHalls, (h: HallRow) => h.hallId in HallIds(b.schedules), q.halls);
  }

  method CollectSchedules(rows: seq<ScheduleRow>, movieMap: set<int>)
    returns (schedules: seq<ScheduleRow>, scheduleIds: set<int>, hallIds: set<int>, movieIds: set<int>)
    ensures schedules == Filter((s: ScheduleRow) => s.movieId in movieMap, rows)
    ensures scheduleIds == ScheduleIds(schedules) && hallIds == HallIds(schedules) && movieIds == MovieIds(schedules)
    ensures movieIds <= movieMap
  {
    var p := (s: ScheduleRow) => s.movieId in movieMap;
    schedules, scheduleIds, hallIds, movieIds := [], {}, {}, {};
    for i := 0 to |rows|
      invariant schedules == Filter(p, rows[..i])
      invariant scheduleIds == ScheduleIds(schedules)
      invariant hallIds == HallIds(schedules) && movieIds == MovieIds(schedules)
      invariant movieIds <= movieMap
    {
      assert rows[..i + 1][..i] == rows[..i];
      if rows[i].movieId in movieMap {
        schedules := schedules + [rows[i]];
        scheduleIds := scheduleIds + {rows[i].scheduleId};
        hallIds := hallIds + {rows[i].hallId};
        movieIds := movieIds + {rows[i].movieId};
      }
    }
    assert rows[..|rows|] == rows;
  }

  method CollectHalls(rows: seq<HallRow>, validHalls: set<int>) returns (halls: seq<HallRow>)
    ensures halls == Filter((h: HallRow) => h.hallId in validHalls, rows)
  {
    var p := (h: HallRow) => h.hallId in validHalls;
    halls := [];
    for i := 0 to |rows|
      invariant halls == Filter(p, rows[..i])
    {
      assert rows[..i + 1][..i] == rows[..i];
      if rows[i].hallId in validHalls {
        halls := halls + [rows[i]];
      }
    }
    assert rows[..|rows|] == rows;
  }

  lemma {:induction false} MoviesOfAscending(schedules: seq<ScheduleRow>)
    ensures Ascending(MoviesOf(schedules))
    ensures forall m :: m in MoviesOf(schedules) <==> m in MovieIds(schedules)
  {
    if schedules != [] {
      var front, last := schedules[..|schedules| - 1], schedules[|schedules| - 1];
      MoviesOfAscending(front);
      InsertIdAscending(last.movieId, MoviesOf(front));
      InsertIdMembers(last.movieId, MoviesOf(front));
      assert schedules == front + [last];
    }
  }

  method CollectMovies(ghost schedules: seq<ScheduleRow>, validMovies: set<int>, movieMap: set<int>)
    returns (movies: seq<int>)
    requires validMovies == MovieIds(schedules) && validMovies <= movieMap
    ensures movies == MoviesOf(schedules)
  {
    var ids := SortedIds(validMovies);
    movies := [];
    for i := 0 to |ids|
      invariant movies == ids[..i]
    {
      assert ids[i] in ids;
      if ids[i] in movieMap {
        movies := movies + [ids[i]];
      }
    }
    MoviesOfAscending(schedules);
    AscendingUnique(ids, MoviesOf(schedules));
  }

  method CollectReserved(rows: seq<ReservedRow>, valid: set<int>) returns (reserved: map<int, seq<Seat>>)
    ensures Groups(reserved, rows, valid)
  {
    reserved := map[];
    for i := 0 to |rows|
      invariant Groups(reserved, rows[..i], valid)
    {
      assert rows[..i + 1][..i] == rows[..i];
      var row := rows[i];
      if row.scheduleId in valid && !row.status.CANCEL? && row.seat.row > 0 && row.seat.col > 0 {
        var list := if row.scheduleId in reserved then reserved[row.scheduleId] else [];
        reserved := reserved[row.scheduleId := list + [row.seat]];
      }
    }
    assert rows[..|rows|] == rows;
  }

  // --------------------------------------- the assembly computes the payload

  /** Each seat row joins its hall seat, of the schedule's hall, and its booking. */
  ghost predicate RowPlaced(cat: TB.Catalog, row: SeatRow<nat>) {
    && row.seat in cat.position && row.eventId in cat.screenings
    && cat.position[row.seat].hallId == cat.screenings[row.eventId].hallId
  }

  ghost predicate SeatsPlaced(cat: TB.Catalog, t: Tables<nat>) {
    forall i :: 0 <= i < |t.seats| ==> RowPlaced(cat, t.seats[i])
  }

  ghost predicate Joins(cat: TB.Catalog, bookings: map<nat, Booking>, row: SeatRow<nat>) {
    && row.seat in cat.position && Shown(ReservedRow(row.eventId, SeatAt(cat, row.seat), PAID))
    && row.bookingId in bookings && (row.status.ACTIVE? ==> bookings[row.bookingId].status.PAID?)
  }

  lemma {:induction false} JoinGroups(cat: TB.Catalog, bookings: map<nat, Booking>, rows: seq<SeatRow<nat>>, ev: int)
    requires forall i :: 0 <= i < |rows| ==> Joins(cat, bookings, rows[i])
    ensures SeatsIn(KeyOf, Shown, JoinRows(cat, bookings, rows), ev) == Places(cat, ActiveSeats(rows, ev))
  {
    if rows != [] {
      var front, last := rows[..|rows| - 1], rows[|rows| - 1];
      JoinGroups(cat, bookings, front, ev);
      assert Joins(cat, bookings, last);
      if last.status.ACTIVE? {
        var joined := JoinRows(cat, bookings, rows);
        assert joined[..|joined| - 1] == JoinRows(cat, bookings, front);
        if last.eventId == ev {
          var active := ActiveSeats(rows, ev);
          assert active[..|active| - 1] == ActiveSeats(front, ev);
        }
      }
    }
  }

  /** The global sorted query, grouped by schedule, is each schedule's own reserved list. */
  lemma QueryGroups(cat: TB.Catalog, t: Tables<nat>, ev: int)
    requires TB.ValidCatalog(cat) && TableInv(t) && SeatsPlaced(cat, t)
    ensures SeatsIn(KeyOf, Shown, SortRows(KeyOf, JoinRows(cat, t.bookings, t.seats)), ev) == ReservedOf(cat, t, ev)
  {
    SortRowsGroups(KeyOf, Shown, JoinRows(cat, t.bookings, t.seats), ev);
    forall i | 0 <= i < |t.seats|
      ensures Joins(cat, t.bookings, t.seats[i])
    {
      assert RowPlaced(cat, t.seats[i]);
    }
    JoinGroups(cat, t.bookings, t.seats, ev);
  }

  lemma {:induction false} SchedulesAreFiltered(cat: TB.Catalog, movies: set<int>, t: Tables<nat>, order: seq<int>)
    requires Scheduled(cat, t, order)
    ensures Filter((s: ScheduleRow) => s.movieId in movies, ScheduleRows(cat, t, order)) ==
            Schedules(cat, movies, t, order)
  {
    if order != [] {
      var front, ev := order[..|order| - 1], order[|order| - 1];
      SchedulesAreFiltered(cat, movies, t, front);
      var rows := ScheduleRows(cat, t, order);
      if !t.events[ev].status.OTHER? {
        assert rows[..|rows| - 1] == ScheduleRows(cat, t, front);
      }
    }
  }

  lemma {:induction false} SchedulesMembers(cat: TB.Catalog, movies: set<int>, t: Tables<nat>, order: seq<int>)
    requires Scheduled(cat, t, order)
    ensures forall s :: s in Schedules(cat, movies, t, order) ==>
      s.scheduleId in order && s.scheduleId in cat.screenings && s.scheduleId in t.events
      && Listed(cat, movies, t, s.scheduleId) && s == RowOf(cat, t, s.scheduleId)
    ensures forall ev :: ev in order && ev in cat.screenings && ev in t.events && Listed(cat, movies, t, ev) ==>
      RowOf(cat, t, ev) in Schedules(cat, movies, t, order)
  {
    if order != [] {
      SchedulesMembers(cat, movies, t, order[..|order| - 1]);
      assert order == order[..|order| - 1] + [order[|order| - 1]];
    }
  }

  lemma {:induction false} ReservedMembers(cat: TB.Catalog, movies: set<int>, t: Tables<nat>, order: seq<int>)
    requires Scheduled(cat, t, order)
    ensures forall ev :: ev in ReservedMap(cat, movies, t, order) <==>
      && ev in order && ev in cat.screenings && ev in t.events
      && Listed(cat, movies, t, ev) && ReservedOf(cat, t, ev) != []
    ensures forall ev :: ev in ReservedMap(cat, movies, t, order) ==>
      ReservedMap(cat, movies, t, order)[ev] == ReservedOf(cat, t, ev)
  {
    if order != [] {
      ReservedMembers(cat, movies, t, order[..|order| - 1]);
      assert order == order[..|order| - 1] + [order[|order| - 1]];
    }
  }

  lemma ListedIds(cat: TB.Catalog, movies: set<int>, t: Tables<nat>, order: seq<int>, ev: int)
    requires Scheduled(cat, t, order)
    ensures ev in ScheduleIds(Schedules(cat, movies, t, order)) <==>
            ev in order && ev in cat.screenings && ev in t.events && Listed(cat, movies, t, ev)
  {
    SchedulesMembers(cat, movies, t, order);
    if ev in order && ev in cat.screenings && ev in t.events && Listed(cat, movies, t, ev) {
      assert RowOf(cat, t, ev) in Schedules(cat, movies, t, order);
    }
  }

  lemma GroupsAreReserved(cat: TB.Catalog, l: Listing, t: Tables<nat>, m: map<int, seq<Seat>>)
    requires TB.ValidCatalog(cat) && TableInv(t) && SeatsPlaced(cat, t) && Scheduled(cat, t, l.order)
    requires Groups(m, QueriesOf(cat, l, t).reserved, ScheduleIds(Schedules(cat, l.movies, t, l.order)))
    ensures m == ReservedMap(cat, l.movies, t, l.order)
  {
    var r := ReservedMap(cat, l.movies, t, l.order);
    ReservedMembers(cat, l.movies, t, l.order);
    forall ev
      ensures ev in m <==> ev in r
      ensures ev in m ==> m[ev] == ReservedOf(cat, t, ev)
    {
      ListedIds(cat, l.movies, t, l.order, ev);
      QueryGroups(cat, t, ev);
    }
    SameMaps(m, r);
  }

  /** A build from one snapshot of a reachable database gives exactly its payload. */
  method BuildPayload(cat: TB.Catalog, l: Listing, t: Tables<nat>) returns (b: Bootstrap)
    requires TB.ValidCatalog(cat) && TableInv(t) && SeatsPlaced(cat, t) && Scheduled(cat, t, l.order)
    ensures b == Build(cat, l, t)
  {
    b := FetchBootstrap(QueriesOf(cat, l, t), l.movies);
    SchedulesAreFiltered(cat, l.movies, t, l.order);
    GroupsAreReserved(cat, l, t, b.reserved);
    FilterSame((h: HallRow) => h.hallId in HallIds(b.schedules),
               (h: HallRow) => h.hallId in HallIds(Schedules(cat, l.movies, t, l.order)), l.halls);
  }

  // -------------------------------------------------------------- accounting

  lemma {:induction false} PlacesMembers(cat: TB.Catalog, ids: seq<nat>)
    ensures |Places(cat, ids)| == |ids|
    ensures forall i :: 0 <= i < |ids| ==> Places(cat, ids)[i] == SeatAt(cat, ids[i])
  {
    if ids != [] {
      PlacesMembers(cat, ids[..|ids| - 1]);
    }
  }

  lemma ReservedCount(cat: TB.Catalog, t: Tables<nat>, ev: int)
    ensures |ReservedOf(cat, t, ev)| == |ActiveSeats(t.seats, ev)|
  {
    PlacesMembers(cat, ActiveSeats(t.seats, ev));
    SortedList(Places(cat, ActiveSeats(t.seats, ev)));
  }

  lemma ActiveSeatPlaced(cat: TB.Catalog, rows: seq<SeatRow<nat>>, ev: int, id: nat)
    requires forall i :: 0 <= i < |rows| ==> RowPlaced(cat, rows[i])
    requires (ev, id) in Owners(rows)
    ensures id in cat.position && ev in cat.screenings && cat.position[id].hallId == cat.screenings[ev].hallId
  {
    var _ := OwnerHasRow(rows, (ev, id));
  }

  /**
   The reserved list of a schedule is strictly ascending in (row, col) and holds exactly
   the places whose seats are owned.
   */
  lemma ReservedIsExact(cat: TB.Catalog, t: Tables<nat>, ev: int)
    requires TB.ValidCatalog(cat) && TableInv(t) && SeatsPlaced(cat, t)
    ensures SeatsAscending(ReservedOf(cat, t, ev))
    ensures forall s :: s in ReservedOf(cat, t, ev) <==>
                        exists id :: (ev, id) in Owners(t.seats) && SeatAt(cat, id) == s
  {
    var ids := ActiveSeats(t.seats, ev);
    var places := Places(cat, ids);
    ActiveSeatsDistinct(t.seats, ev);
    PlacesMembers(cat, ids);
    SortedList(places);
    forall i, j | 0 <= i < j < |ids|
      ensures places[i] != places[j]
    {
      assert ids[i] in ids && ids[j] in ids;
      ActiveSeatPlaced(cat, t.seats, ev, ids[i]);
      ActiveSeatPlaced(cat, t.seats, ev, ids[j]);
    }
    forall s
      ensures s in places <==> exists id :: id in ids && SeatAt(cat, id) == s
    {
      if id :| id in ids && SeatAt(cat, id) == s {
        var i :| 0 <= i < |ids| && ids[i] == id;
        assert places[i] in places;
      }
    }
  }

  /**
   What a bootstrap lists: the schedules that are OPEN or CLOSED and show a public movie,
   each as one row, with exactly the halls and movies they use and all theaters.
   */
  lemma {:induction false} BootstrapLists(cat: TB.Catalog, l: Listing, t: Tables<nat>)
    requires Scheduled(cat, t, l.order)
    ensures var b := Build(cat, l, t);
            && b.theaters == l.theaters
            && (forall ev :: ev in ScheduleIds(b.schedules) <==>
                  && ev in l.order && ev in cat.screenings && ev in t.events
                  && t.events[ev].status != OTHER && cat.screenings[ev].movieId in l.movies)
            && (forall h :: h in b.halls <==> h in l.halls && exists s :: s in b.schedules && s.hallId == h.hallId)
            && Ascending(b.movies)
            && (forall m :: m in b.movies <==> exists s :: s in b.schedules && s.movieId == m)
    ensures Distinct(l.order) ==> forall r, s ::
              r in Build(cat, l, t).schedules && s in Build(cat, l, t).schedules && r.scheduleId == s.scheduleId ==>
              r == s
  {
    var b := Build(cat, l, t);
    forall ev
      ensures ev in ScheduleIds(b.schedules) <==>
              ev in l.order && ev in cat.screenings && ev in t.events && Listed(cat, l.movies, t, ev)
    {
      ListedIds(cat, l.movies, t, l.order, ev);
    }
    MoviesOfAscending(b.schedules);
    FilterMembers((h: HallRow) => h.hallId in HallIds(b.schedules), l.halls);
    SchedulesMembers(cat, l.movies, t, l.order);
  }

  function ReservedSeats(b: Bootstrap, ev: int): seq<Seat> {
    if ev in b.reserved then b.reserved[ev] else []
  }

  /**
   The accounting of a payload: for every listed schedule the shown remain and the
   reserved seats add up to the total, and its status is the stored one unless none remain.
   */
  lemma BootstrapAccounts(cat: TB.Catalog, l: Listing, t: Tables<nat>, seed: map<int, Event>, row: ScheduleRow)
    requires TB.ValidCatalog(cat) && Scheduled(cat, t, l.order) && TB.TheaterInv(t, seed)
    requires row in Build(cat, l, t).schedules && row.scheduleId in seed && row.scheduleId in t.events
    requires seed[row.scheduleId].remain <= seed[row.scheduleId].total
    ensures row.remain + |ReservedSeats(Build(cat, l, t), row.scheduleId)| == row.total
    ensures row.total == t.events[row.scheduleId].total == seed[row.scheduleId].total
    ensures row.remain == t.events[row.scheduleId].total - |ActiveSeats(t.seats, row.scheduleId)|
    ensures row.scheduleId in cat.screenings
    ensures cat.screenings[row.scheduleId] == TB.Screening(row.hallId, row.movieId)
    ensures row.status == if row.remain == 0 then CLOSED else t.events[row.scheduleId].status
  {
    var ev := row.scheduleId;
    SchedulesMembers(cat, l.movies, t, l.order);
    ReservedMembers(cat, l.movies, t, l.order);
    ReservedCount(cat, t, ev);
    TB.RemainVersusFreeSeats(t, seed, ev);
  }
}
