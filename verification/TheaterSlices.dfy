/**
 The per-theater details cut out of a bootstrap. A slice is what a build restricted to
 the theater's own halls and schedules gives; slices partition the bootstrap and are
 closed under their references; and a booking or refund changes one theater's slice.
 */
module TheaterSlices {
  import opened Wrappers
  import opened BookingTables
  import opened Collections
  import opened SeatKeys
  import opened SeatOrder
  import opened Sequences
  import opened TheaterReads
  import TB = TheaterBooking

  datatype Detail = Detail(theater: int, halls: seq<HallRow>, movies: seq<int>, schedules: seq<ScheduleRow>,
                           reserved: map<int, seq<Seat>>)

  function TheaterHallIds(halls: seq<HallRow>, tid: int): set<int> {
    set h | h in halls && h.theaterId == tid :: h.hallId
  }

  /** _theater_detail_from_bootstrap. */
  function Slice(b: Bootstrap, tid: int): Option<Detail> {
    if tid !in b.theaters then None
    else
      var hallIds := TheaterHallIds(b.halls, tid);
      var schedules := Filter((s: ScheduleRow) => s.hallId in hallIds, b.schedules);
      Some(Detail(tid,
                  Filter((h: HallRow) => h.hallId in hallIds, b.halls),
                  Filter(m => m in MovieIds(schedules), b.movies),
                  schedules,
                  b.reserved - (b.reserved.Keys - ScheduleIds(schedules))))
  }

  // ------------------------------------------------- a slice is a local build

  function TheaterOf(cat: TB.Catalog, ev: int): int {
    if ev in cat.screenings then TheaterOfHall(cat, cat.screenings[ev].hallId) else 0
  }

  function TheaterOfHall(cat: TB.Catalog, hallId: int): int {
    if hallId in cat.hallTheater then cat.hallTheater[hallId] else 0
  }

  /** What concerns one theater alone. */
  function Local(cat: TB.Catalog, l: Listing, tid: int): Listing {
    Listing([tid], Filter((h: HallRow) => h.theaterId == tid, l.halls),
            Filter(ev => TheaterOf(cat, ev) == tid, l.order), l.movies)
  }

  function AsDetail(tid: int, b: Bootstrap): Detail {
    Detail(tid, b.halls, b.movies, b.schedules, b.reserved)
  }

  lemma LocalScheduled(cat: TB.Catalog, l: Listing, t: Tables<nat>, tid: int)
    requires Scheduled(cat, t, l.order)
    ensures Scheduled(cat, t, Local(cat, l, tid).order)
  {
    FilterMembers(ev => TheaterOf(cat, ev) == tid, l.order);
    forall i | 0 <= i < |Local(cat, l, tid).order|
      ensures Local(cat, l, tid).order[i] in l.order
    {
      assert Local(cat, l, tid).order[i] in Local(cat, l, tid).order;
    }
  }

  lemma {:induction false} SchedulesOfTheater(cat: TB.Catalog, movies: set<int>, t: Tables<nat>, order: seq<int>,
                                              tid: int)
    requires Scheduled(cat, t, order) && Scheduled(cat, t, Filter(ev => TheaterOf(cat, ev) == tid, order))
    ensures Filter((s: ScheduleRow) => TheaterOfHall(cat, s.hallId) == tid, Schedules(cat, movies, t, order))
            == Schedules(cat, movies, t, Filter(ev => TheaterOf(cat, ev) == tid, order))
  {
    if order != [] {
      var p := ev => TheaterOf(cat, ev) == tid;
      var front, ev := order[..|order| - 1], order[|order| - 1];
      var local := Filter(p, order);
      assert Filter(p, front) == if p(ev) then local[..|local| - 1] else local;
      SchedulesOfTheater(cat, movies, t, front, tid);
      var rows := Schedules(cat, movies, t, order);
      if Listed(cat, movies, t, ev) {
        assert rows[..|rows| - 1] == Schedules(cat, movies, t, front);
      }
    }
  }

  /** Among the rows of a bootstrap, belonging to a listed hall of tid is belonging to tid. */
  lemma HallOfSchedule(cat: TB.Catalog, l: Listing, t: Tables<nat>, tid: int, s: ScheduleRow)
    requires TB.ValidCatalog(cat) && ValidListing(cat, l)
    requires Scheduled(cat, t, l.order) && s in Build(cat, l, t).schedules
    ensures s.hallId in TheaterHallIds(Build(cat, l, t).halls, tid) <==> TheaterOfHall(cat, s.hallId) == tid
  {
    var b := Build(cat, l, t);
    SchedulesMembers(cat, l.movies, t, l.order);
    FilterMembers((h: HallRow) => h.hallId in HallIds(b.schedules), l.halls);
    var h := HallRow(s.hallId, cat.hallTheater[s.hallId]);
    assert h in l.halls && h in b.halls;
  }

  lemma SliceSchedules(cat: TB.Catalog, l: Listing, t: Tables<nat>, tid: int)
    requires TB.ValidCatalog(cat) && ValidListing(cat, l) && Scheduled(cat, t, l.order)
    requires Scheduled(cat, t, Local(cat, l, tid).order)
    requires tid in l.theaters
    ensures Slice(Build(cat, l, t), tid).value.schedules == Build(cat, Local(cat, l, tid), t).schedules
  {
    var b := Build(cat, l, t);
    var hallIds := TheaterHallIds(b.halls, tid);
    var p := (s: ScheduleRow) => s.hallId in hallIds;
    var q := (s: ScheduleRow) => TheaterOfHall(cat, s.hallId) == tid;
    forall s | s in b.schedules
      ensures p(s) == q(s)
    {
      HallOfSchedule(cat, l, t, tid, s);
    }
    FilterSame(p, q, b.schedules);
    SchedulesOfTheater(cat, l.movies, t, l.order, tid);
  }

  lemma LocalSchedulesMembers(cat: TB.Catalog, l: Listing, t: Tables<nat>, tid: int, s: ScheduleRow)
    requires Scheduled(cat, t, l.order) && Scheduled(cat, t, Local(cat, l, tid).order)
    ensures s in Build(cat, Local(cat, l, tid), t).schedules <==>
            s in Build(cat, l, t).schedules && TheaterOfHall(cat, s.hallId) == tid
  {
    SchedulesOfTheater(cat, l.movies, t, l.order, tid);
    FilterMembers((s: ScheduleRow) => TheaterOfHall(cat, s.hallId) == tid, Schedules(cat, l.movies, t, l.order));
  }

  /** A listed hall is a hall of tid with a schedule iff it is one of the local build. */
  lemma HallIsLocal(cat: TB.Catalog, l: Listing, t: Tables<nat>, tid: int, h: HallRow)
    requires TB.ValidCatalog(cat) && ValidListing(cat, l) && Scheduled(cat, t, l.order)
    requires Scheduled(cat, t, Local(cat, l, tid).order)
    requires h in l.halls
    ensures h.hallId in TheaterHallIds(Build(cat, l, t).halls, tid)
            && h.hallId in HallIds(Build(cat, l, t).schedules) <==>
            h.theaterId == tid && h.hallId in HallIds(Build(cat, Local(cat, l, tid), t).schedules)
  {
    var b, b' := Build(cat, l, t), Build(cat, Local(cat, l, tid), t);
    FilterMembers((h: HallRow) => h.hallId in HallIds(b.schedules), l.halls);
    if s :| s in b.schedules && s.hallId == h.hallId {
      LocalSchedulesMembers(cat, l, t, tid, s);
      HallOfSchedule(cat, l, t, tid, s);
    }
    if s :| s in b'.schedules && s.hallId == h.hallId {
      LocalSchedulesMembers(cat, l, t, tid, s);
    }
  }

  lemma SliceHalls(cat: TB.Catalog, l: Listing, t: Tables<nat>, tid: int)
    requires TB.ValidCatalog(cat) && ValidListing(cat, l) && Scheduled(cat, t, l.order)
    requires Scheduled(cat, t, Local(cat, l, tid).order)
    requires tid in l.theaters
    ensures Slice(Build(cat, l, t), tid).value.halls == Build(cat, Local(cat, l, tid), t).halls
  {
    var b, b' := Build(cat, l, t), Build(cat, Local(cat, l, tid), t);
    var hallIds := TheaterHallIds(b.halls, tid);
    var p, q := (h: HallRow) => h.hallId in hallIds, (h: HallRow) => h.hallId in HallIds(b.schedules);
    var p', q' := (h: HallRow) => h.hallId in HallIds(b'.schedules), (h: HallRow) => h.theaterId == tid;
    FilterTwice(p, q, l.halls);
    FilterTwice(p', q', l.halls);
    forall h | h in l.halls
      ensures (p(h) && q(h)) == (p'(h) && q'(h))
    {
      HallIsLocal(cat, l, t, tid, h);
    }
    FilterSame(Both(p, q), Both(p', q'), l.halls);
    assert b.halls == Filter(q, l.halls) && b'.halls == Filter(p', Filter(q', l.halls));
  }

  lemma SliceMovies(cat: TB.Catalog, l: Listing, t: Tables<nat>, tid: int)
    requires TB.ValidCatalog(cat) && ValidListing(cat, l) && Scheduled(cat, t, l.order)
    requires Scheduled(cat, t, Local(cat, l, tid).order)
    requires tid in l.theaters
    ensures Slice(Build(cat, l, t), tid).value.movies == Build(cat, Local(cat, l, tid), t).movies
  {
    var b, b' := Build(cat, l, t), Build(cat, Local(cat, l, tid), t);
    SliceSchedules(cat, l, t, tid);
    var p := m => m in MovieIds(b'.schedules);
    MoviesOfAscending(b.schedules);
    MoviesOfAscending(b'.schedules);
    FilterAscending(p, b.movies);
    FilterMembers(p, b.movies);
    forall m
      ensures m in MovieIds(b'.schedules) ==> m in MovieIds(b.schedules)
    {
      if s :| s in b'.schedules && s.movieId == m {
        LocalSchedulesMembers(cat, l, t, tid, s);
      }
    }
    AscendingUnique(Filter(p, b.movies), b'.movies);
  }

  lemma SliceReserved(cat: TB.Catalog, l: Listing, t: Tables<nat>, tid: int)
    requires TB.ValidCatalog(cat) && ValidListing(cat, l) && Scheduled(cat, t, l.order)
    requires Scheduled(cat, t, Local(cat, l, tid).order)
    requires tid in l.theaters
    ensures Slice(Build(cat, l, t), tid).value.reserved == Build(cat, Local(cat, l, tid), t).reserved
  {
    var order := Local(cat, l, tid).order;
    var m, n := Slice(Build(cat, l, t), tid).value.reserved, ReservedMap(cat, l.movies, t, order);
    SliceSchedules(cat, l, t, tid);
    ReservedMembers(cat, l.movies, t, l.order);
    ReservedMembers(cat, l.movies, t, order);
    FilterMembers(ev => TheaterOf(cat, ev) == tid, l.order);
    forall ev
      ensures ev in m <==> ev in n
    {
      ListedIds(cat, l.movies, t, order, ev);
    }
    SameMaps(m, n);
  }

  /** A theater's slice is the payload of the theater alone: nothing else enters it. */
  lemma SliceIsLocalBuild(cat: TB.Catalog, l: Listing, t: Tables<nat>, tid: int)
    requires TB.ValidCatalog(cat) && ValidListing(cat, l) && Scheduled(cat, t, l.order) && tid in l.theaters
    ensures Scheduled(cat, t, Local(cat, l, tid).order)
    ensures Slice(Build(cat, l, t), tid) == Some(AsDetail(tid, Build(cat, Local(cat, l, tid), t)))
  {
    LocalScheduled(cat, l, t, tid);
    SliceSchedules(cat, l, t, tid);
    SliceHalls(cat, l, t, tid);
    SliceMovies(cat, l, t, tid);
    SliceReserved(cat, l, t, tid);
  }

  // ---------------------------------------------------- partition and closure

  /**
   The slices partition the bootstrap: each hall and schedule is in exactly one of them,
   the one of its theater, and that theater is listed.
   */
  lemma SlicesPartition(cat: TB.Catalog, l: Listing, t: Tables<nat>, tid: int)
    requires TB.ValidCatalog(cat) && ValidListing(cat, l) && Scheduled(cat, t, l.order) && tid in l.theaters
    ensures var b, d := Build(cat, l, t), Slice(Build(cat, l, t), tid).value;
            && (forall s :: s in d.schedules <==> s in b.schedules && TheaterOfHall(cat, s.hallId) == tid)
            && (forall h :: h in d.halls <==> h in b.halls && h.theaterId == tid)
            && (forall s :: s in b.schedules ==> TheaterOfHall(cat, s.hallId) in l.theaters)
            && (forall h :: h in b.halls ==> h.theaterId in l.theaters)
  {
    var b, d := Build(cat, l, t), Slice(Build(cat, l, t), tid).value;
    LocalScheduled(cat, l, t, tid);
    SliceSchedules(cat, l, t, tid);
    forall s
      ensures s in d.schedules <==> s in b.schedules && TheaterOfHall(cat, s.hallId) == tid
    {
      LocalSchedulesMembers(cat, l, t, tid, s);
    }
    HallsOfSlice(cat, l, t, tid);
    SchedulesMembers(cat, l.movies, t, l.order);
    forall s | s in b.schedules
      ensures TheaterOfHall(cat, s.hallId) in l.theaters
    {
      assert HallRow(s.hallId, cat.hallTheater[s.hallId]) in l.halls;
    }
  }

  lemma HallsOfSlice(cat: TB.Catalog, l: Listing, t: Tables<nat>, tid: int)
    requires ValidListing(cat, l) && Scheduled(cat, t, l.order) && tid in l.theaters
    ensures var b, d := Build(cat, l, t), Slice(Build(cat, l, t), tid).value;
            forall h :: h in d.halls <==> h in b.halls && h.theaterId == tid
    ensures forall h :: h in Build(cat, l, t).halls ==> h.theaterId in l.theaters
  {
    var b := Build(cat, l, t);
    var hallIds := TheaterHallIds(b.halls, tid);
    FilterMembers((h: HallRow) => h.hallId in HallIds(b.schedules), l.halls);
    FilterMembers((h: HallRow) => h.hallId in hallIds, b.halls);
  }

  /** Every reference inside a slice resolves inside the slice, and nothing in it is unused. */
  lemma SliceIsClosed(cat: TB.Catalog, l: Listing, t: Tables<nat>, tid: int)
    requires TB.ValidCatalog(cat) && ValidListing(cat, l) && Scheduled(cat, t, l.order) && tid in l.theaters
    ensures var d := Slice(Build(cat, l, t), tid).value;
            && (forall s :: s in d.schedules ==> HallRow(s.hallId, tid) in d.halls && s.movieId in d.movies)
            && (forall h :: h in d.halls ==> h.hallId in HallIds(d.schedules))
            && (forall m :: m in d.movies ==> m in MovieIds(d.schedules))
            && (forall ev :: ev in d.reserved <==> ev in Build(cat, l, t).reserved && ev in ScheduleIds(d.schedules))
            && (forall ev :: ev in d.reserved ==> d.reserved[ev] == Build(cat, l, t).reserved[ev])
  {
    var local := Local(cat, l, tid);
    var d := Slice(Build(cat, l, t), tid).value;
    SliceIsLocalBuild(cat, l, t, tid);
    MoviesOfAscending(d.schedules);
    FilterMembers((h: HallRow) => h.hallId in HallIds(d.schedules), local.halls);
    FilterMembers((h: HallRow) => h.theaterId == tid, l.halls);
    SlicesPartition(cat, l, t, tid);
    SchedulesMembers(cat, l.movies, t, l.order);
    forall s | s in d.schedules
      ensures HallRow(s.hallId, tid) in d.halls
    {
      assert HallRow(s.hallId, tid) in l.halls;
      assert HallRow(s.hallId, tid) in local.halls;
    }
  }

  // --------------------------------------------- what one change can touch

  /** Everything the payload reads of ev is the same in both databases. */
  ghost predicate SameEvent(t: Tables<nat>, t': Tables<nat>, ev: int) {
    && ev in t.events && ev in t'.events
    && t.events[ev].total == t'.events[ev].total && t.events[ev].status == t'.events[ev].status
    && ActiveSeats(t.seats, ev) == ActiveSeats(t'.seats, ev)
  }

  ghost predicate ChangesOnly(t: Tables<nat>, t': Tables<nat>, ev: int) {
    && t'.events.Keys == t.events.Keys
    && forall e :: e in t.events && e != ev ==> SameEvent(t, t', e)
  }

  /** Either nothing the payload reads of ev differs, or ev is unlisted in both databases. */
  ghost predicate SameView(cat: TB.Catalog, movies: set<int>, t: Tables<nat>, t': Tables<nat>, ev: int) {
    && ev in cat.screenings && ev in t.events && ev in t'.events
    && (SameEvent(t, t', ev) || (!Listed(cat, movies, t, ev) && !Listed(cat, movies, t', ev)))
  }

  lemma {:induction false} OrderFrame(cat: TB.Catalog, movies: set<int>, t: Tables<nat>, t': Tables<nat>,
                                      order: seq<int>)
    requires Scheduled(cat, t, order) && Scheduled(cat, t', order)
    requires forall ev :: ev in order ==> SameView(cat, movies, t, t', ev)
    ensures Schedules(cat, movies, t, order) == Schedules(cat, movies, t', order)
    ensures ReservedMap(cat, movies, t, order) == ReservedMap(cat, movies, t', order)
  {
    if order != [] {
      OrderFrame(cat, movies, t, t', order[..|order| - 1]);
      assert SameView(cat, movies, t, t', order[|order| - 1]);
    }
  }

  lemma BuildFrame(cat: TB.Catalog, l: Listing, t: Tables<nat>, t': Tables<nat>)
    requires Scheduled(cat, t, l.order) && Scheduled(cat, t', l.order)
    requires forall ev :: ev in l.order ==> SameView(cat, l.movies, t, t', ev)
    ensures Build(cat, l, t) == Build(cat, l, t')
  {
    OrderFrame(cat, l.movies, t, t', l.order);
    var s, s' := Schedules(cat, l.movies, t, l.order), Schedules(cat, l.movies, t', l.order);
    FilterSame((h: HallRow) => h.hallId in HallIds(s), (h: HallRow) => h.hallId in HallIds(s'), l.halls);
  }

  /** A change of one schedule leaves the slices of all other theaters as they are. */
  lemma OtherSlicesUnchanged(cat: TB.Catalog, l: Listing, t: Tables<nat>, t': Tables<nat>, ev: int, tid: int)
    requires TB.ValidCatalog(cat) && ValidListing(cat, l) && ChangesOnly(t, t', ev) && TheaterOf(cat, ev) != tid
    requires Scheduled(cat, t, l.order)
    ensures Scheduled(cat, t', l.order)
    ensures Slice(Build(cat, l, t'), tid) == Slice(Build(cat, l, t), tid)
  {
    if tid in l.theaters {
      SliceIsLocalBuild(cat, l, t, tid);
      SliceIsLocalBuild(cat, l, t', tid);
      FilterMembers(ev => TheaterOf(cat, ev) == tid, l.order);
      BuildFrame(cat, Local(cat, l, tid), t, t');
    }
  }

  lemma BookingChangesOnly(t: Tables<nat>, b: nat, userId: int, ev: int, ids: seq<nat>)
    requires ev in t.events
    ensures ChangesOnly(t, TB.TheaterBooked(t, b, userId, ev, ids), ev)
  {
    var t' := TB.TheaterBooked(t, b, userId, ev, ids);
    forall e | e in t.events && e != ev
      ensures SameEvent(t, t', e)
    {
      ActiveSeatsAppend(t.seats, b, ev, ids, e);
    }
  }

  lemma RefundChangesOnly(t: Tables<nat>, b: nat)
    requires TableInv(t) && b in t.bookings
    ensures ChangesOnly(t, Refund(t, b), t.bookings[b].eventId)
  {
    forall e | e in t.events && e != t.bookings[b].eventId
      ensures SameEvent(t, Refund(t, b), e)
    {
      ActiveSeatsCancelElsewhere(t.seats, b, e);
    }
  }
}
