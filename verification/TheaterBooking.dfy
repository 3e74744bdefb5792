/**
 Theater bookings: the worker's transaction with its remain_count column, and the
 conservation law of that column. A refund never gives seats back to the column.
 */
module TheaterBooking {
  import opened Wrappers
  import opened BookingTables
  import opened BookingMessages
  import opened Collections
  import opened Database
  import opened SeatKeys
  import opened Sequences

  datatype Place = Place(hallId: int, row: int, col: int)
  datatype Screening = Screening(hallId: int, movieId: int)

  /** seatAt and position are the hall_seats table read in its two directions. */
  datatype Catalog = Catalog(hallTheater: map<int, int>, screenings: map<int, Screening>,
                             seatAt: map<Place, nat>, position: map<nat, Place>)

  ghost predicate ValidCatalog(cat: Catalog) {
    && (forall p :: p in cat.seatAt ==> cat.seatAt[p] in cat.position && cat.position[cat.seatAt[p]] == p)
    && (forall s :: s in cat.position ==>
          && cat.position[s] in cat.seatAt && cat.seatAt[cat.position[s]] == s
          && cat.position[s].row > 0 && cat.position[s].col > 0)
    && (forall ev :: ev in cat.screenings ==> cat.screenings[ev].hallId in cat.hallTheater)
    && (forall h :: h in cat.hallTheater ==> cat.hallTheater[h] > 0)
  }

  function PlaceOf(hallId: int, seat: Seat): Place {
    Place(hallId, seat.row, seat.col)
  }

  /** Seat ids of the requested places, or None at the first place the hall lacks. */
  function ResolveSeats(cat: Catalog, hallId: int, seats: seq<Seat>): (r: Option<seq<nat>>)
    ensures r.Some? <==> forall i :: 0 <= i < |seats| ==> PlaceOf(hallId, seats[i]) in cat.seatAt
    ensures r.Some? ==> |r.value| == |seats|
    ensures r.Some? ==> forall i :: 0 <= i < |seats| ==>
      PlaceOf(hallId, seats[i]) in cat.seatAt && r.value[i] == cat.seatAt[PlaceOf(hallId, seats[i])]
  {
    if seats == [] then Some([])
    else
      var last := PlaceOf(hallId, seats[|seats| - 1]);
      match ResolveSeats(cat, hallId, seats[..|seats| - 1])
      case None => None
      case Some(front) => if last in cat.seatAt then Some(front + [cat.seatAt[last]]) else None
  }

  /** UPDATE schedules SET remain_count = remain_count - n WHERE remain_count >= n: rows changed. */
  predicate TakesSeats(row: Event, n: int) {
    row.remain >= n && n != 0
  }

  function TakeSeats(row: Event, n: int): Event {
    row.(remain := row.remain - n)
  }

  function CloseIfEmpty(row: Event): Event {
    if row.remain <= 0 then row.(status := CLOSED) else row
  }

  function WithEvent(t: Tables<nat>, ev: int, row: Event): Tables<nat> {
    t.(events := t.events[ev := row])
  }

  predicate Known(cat: Catalog, ev: int) {
    ev in cat.screenings && cat.screenings[ev].hallId in cat.hallTheater
  }

  /** The transaction of process_theater_booking, with booking id b for its insert. */
  function TheaterTx(cat: Catalog, users: set<int>, t: Tables<nat>, userId: int, ev: int, seats: seq<Seat>,
                     b: nat): TxEnd<nat>
    requires cat.screenings.Keys == t.events.Keys
  {
    if !Known(cat, ev) then Refuse(NO_SUCH_EVENT)
    else
      match ResolveSeats(cat, cat.screenings[ev].hallId, seats)
      case None => Refuse(INVALID_SEAT)
      case Some(ids) =>
        if !TakesSeats(t.events[ev], |seats|) then Refuse(SOLD_OUT)
        else
          var row := TakeSeats(t.events[ev], |seats|);
          match InsertAll(WithEvent(t, ev, row), users, b, userId, ev, ids)
          case Err(e) => Raise(e)
          case Ok(t') => Commit(WithEvent(t', ev, CloseIfEmpty(row)), b, row.remain)
  }

  method FindSeats(cat: Catalog, hallId: int, seats: seq<Seat>) returns (r: Option<seq<nat>>)
    ensures r == ResolveSeats(cat, hallId, seats)
  {
    var seatIds: seq<nat> := [];
    for i := 0 to |seats|
      invariant |seatIds| == i
      invariant forall k :: 0 <= k < i ==>
        PlaceOf(hallId, seats[k]) in cat.seatAt && seatIds[k] == cat.seatAt[PlaceOf(hallId, seats[k])]
    {
      if PlaceOf(hallId, seats[i]) !in cat.seatAt {
        return None;
      }
      seatIds := seatIds + [cat.seatAt[PlaceOf(hallId, seats[i])]];
    }
    assert seatIds == ResolveSeats(cat, hallId, seats).value;
    r := Some(seatIds);
  }

  /** The seat inserts, one statement a seat; the first error ends the loop. */
  method InsertEach(conn: Connection<nat>, b: nat, ev: int, ids: seq<nat>) returns (e: Option<DbError>)
    requires conn.Valid()
    modifies conn`work
    ensures conn.Valid()
    ensures match InsertSeats(old(conn.work), b, ev, ids)
            case Ok(t) => e == None && conn.work == t
            case Err(err) => e == Some(err)
  {
    for i := 0 to |ids|
      invariant conn.Valid() && InsertSeats(old(conn.work), b, ev, ids[..i]) == Ok(conn.work)
    {
      assert ids[..i + 1][..i] == ids[..i];
      e := conn.InsertSeat(b, ev, ids[i]);
      if e.Some? {
        InsertSeatsPrefixFails(old(conn.work), b, ev, ids, i + 1);
        return;
      }
    }
    assert ids[..|ids|] == ids;
    e := None;
  }

  /**
   The statements of the transaction. failAt numbers the statement at which the link
   to the database fails; with a negative number it never does.
   */
  method RunTheaterStatements(cat: Catalog, conn: Connection<nat>, userId: int, ev: int, seats: seq<Seat>, failAt: int)
    returns (r: TxEnd<nat>)
    requires conn.Idle() && cat.screenings.Keys == conn.committed.events.Keys
    modifies conn
    ensures conn.Valid() && conn.committed == old(conn.committed)
    ensures r == TheaterTx(cat, conn.users, conn.committed, userId, ev, seats, old(conn.nextId))
            || (failAt >= 0 && r == Raise(Lost))
    ensures r.Commit? ==> r.after == conn.work
  {
    if failAt == 0 { return Raise(Lost); }
    if !Known(cat, ev) {
      return Refuse(NO_SUCH_EVENT);
    }
    if failAt == 1 { return Raise(Lost); }
    var ids := FindSeats(cat, cat.screenings[ev].hallId, seats);
    if ids.None? {
      conn.Rollback();
      return Refuse(INVALID_SEAT);
    }
    if failAt == 2 { return Raise(Lost); }
    if !TakesSeats(conn.work.events[ev], |seats|) {
      conn.Rollback();
      return Refuse(SOLD_OUT);
    }
    var row := TakeSeats(conn.work.events[ev], |seats|);
    conn.UpdateEvent(ev, row);
    r := InsertTheaterRows(conn, userId, ev, ids.value, row, failAt);
  }

  /** The inserts after the counter update, and the close of an emptied schedule. */
  method InsertTheaterRows(conn: Connection<nat>, userId: int, ev: int, ids: seq<nat>, row: Event, failAt: int)
    returns (r: TxEnd<nat>)
    requires conn.Valid() && ev in conn.work.events && conn.work.events[ev] == row
    modifies conn
    ensures conn.Valid() && conn.committed == old(conn.committed)
    ensures (failAt >= 0 && r == Raise(Lost)) ||
            match InsertAll(old(conn.work), conn.users, old(conn.nextId), userId, ev, ids)
            case Err(e) => r == Raise(e)
            case Ok(t) => r == Commit(WithEvent(t, ev, CloseIfEmpty(row)), old(conn.nextId), row.remain)
    ensures r.Commit? ==> r.after == conn.work
  {
    if failAt == 3 { return Raise(Lost); }
    var booking := conn.InsertBooking(userId, ev, |ids|);
    if booking.Err? { return Raise(booking.error); }
    var b := booking.value;
    InsertSeatsFrame(conn.work, b, ev, ids);
    if failAt == 4 { return Raise(Lost); }
    var e := InsertEach(conn, b, ev, ids);
    if e.Some? { return Raise(e.value); }
    if failAt == 5 { return Raise(Lost); }
    e := conn.InsertPayment(b);
    match e {
      case Some(err) => return Raise(err);
      case None =>
    }
    if failAt == 6 { return Raise(Lost); }
    var remainAfter := conn.work.events[ev].remain;
    if remainAfter <= 0 {
      conn.UpdateEvent(ev, row.(status := CLOSED));
    } else {
      assert conn.work.events[ev := row] == conn.work.events;
    }
    r := Commit(conn.work, b, remainAfter);
  }

  // --------------------------------------------------- when a booking commits

  ghost predicate PlacesExist(cat: Catalog, ev: int, seats: seq<Seat>)
    requires Known(cat, ev)
  {
    forall i :: 0 <= i < |seats| ==> PlaceOf(cat.screenings[ev].hallId, seats[i]) in cat.seatAt
  }

  ghost predicate PlacesFree(cat: Catalog, t: Tables<nat>, ev: int, seats: seq<Seat>)
    requires Known(cat, ev) && PlacesExist(cat, ev, seats)
  {
    forall i :: 0 <= i < |seats| ==>
      (ev, cat.seatAt[PlaceOf(cat.screenings[ev].hallId, seats[i])]) !in Owners(t.seats)
  }

  lemma ResolvedDistinct(cat: Catalog, hallId: int, seats: seq<Seat>)
    requires ValidCatalog(cat) && ResolveSeats(cat, hallId, seats).Some?
    ensures Distinct(ResolveSeats(cat, hallId, seats).value) <==> Distinct(seats)
  {
    var ids := ResolveSeats(cat, hallId, seats).value;
    forall i, j | 0 <= i < j < |seats|
      ensures ids[i] == ids[j] <==> seats[i] == seats[j]
    {
      assert cat.position[ids[i]] == PlaceOf(hallId, seats[i]);
      assert cat.position[ids[j]] == PlaceOf(hallId, seats[j]);
    }
  }

  /** With no infrastructure error a booking commits iff the tables and the counter allow it. */
  lemma TheaterCommitsIff(cat: Catalog, users: set<int>, t: Tables<nat>, userId: int, ev: int, seats: seq<Seat>, b: nat)
    requires ValidCatalog(cat) && cat.screenings.Keys == t.events.Keys && b !in t.payments
    ensures TheaterTx(cat, users, t, userId, ev, seats, b).Commit? <==>
            && Known(cat, ev)
            && userId in users
            && seats != []
            && PlacesExist(cat, ev, seats)
            && Distinct(seats)
            && PlacesFree(cat, t, ev, seats)
            && |seats| <= t.events[ev].remain
  {
    if Known(cat, ev) {
      var ids := ResolveSeats(cat, cat.screenings[ev].hallId, seats);
      if ids.Some? {
        ResolvedDistinct(cat, cat.screenings[ev].hallId, seats);
        var t1 := WithEvent(t, ev, TakeSeats(t.events[ev], |seats|));
        InsertAllExact(t1, users, b, userId, ev, ids.value);
        assert AllFree(t1.seats, ev, ids.value) <==> PlacesFree(cat, t, ev, seats);
      }
    }
  }

  /**
   How every attempt ends, read off the tables: which guard refuses it, which constraint
   stops it, and otherwise that it commits.
   */
  lemma {:induction false} TheaterOutcomes(cat: Catalog, users: set<int>, t: Tables<nat>, userId: int, ev: int,
                                           seats: seq<Seat>, b: nat)
    requires ValidCatalog(cat) && cat.screenings.Keys == t.events.Keys && b !in t.payments
    ensures var end := TheaterTx(cat, users, t, userId, ev, seats, b);
            var known := ev in cat.screenings && cat.screenings[ev].hallId in cat.hallTheater;
            var placed := known && PlacesExist(cat, ev, seats);
            var enough := placed && seats != [] && |seats| <= t.events[ev].remain;
            var free := placed && Distinct(seats) && PlacesFree(cat, t, ev, seats);
            && (end == Refuse(NO_SUCH_EVENT) <==> !known)
            && (end == Refuse(INVALID_SEAT) <==> known && !placed)
            && (end == Refuse(SOLD_OUT) <==> placed && !enough)
            && (end == Raise(ForeignKey) <==> enough && userId !in users)
            && (end == Raise(DuplicateKey) <==> enough && userId in users && !free)
            && (end.Commit? <==> enough && userId in users && free)
            && (end.Commit? ==> end.bookingId == b && end.remainAfter == t.events[ev].remain - |seats|)
            && end != Raise(CheckFailed)
  {
    if Known(cat, ev) {
      var ids := ResolveSeats(cat, cat.screenings[ev].hallId, seats);
      if ids.Some? {
        ResolvedDistinct(cat, cat.screenings[ev].hallId, seats);
        var t1 := WithEvent(t, ev, TakeSeats(t.events[ev], |seats|));
        InsertAllExact(t1, users, b, userId, ev, ids.value);
        assert AllFree(t1.seats, ev, ids.value) <==> PlacesFree(cat, t, ev, seats);
      }
    }
  }

  /** The tables after a committed theater booking of the seat ids. */
  function TheaterBooked(t: Tables<nat>, b: nat, userId: int, ev: int, ids: seq<nat>): Tables<nat>
    requires ev in t.events
  {
    WithEvent(Booked(t, b, userId, ev, ids), ev, CloseIfEmpty(TakeSeats(t.events[ev], |ids|)))
  }

  /** Writing a schedule's row before and after the inserts is writing it once, after them. */
  lemma RowWrittenOnce(t: Tables<nat>, b: nat, userId: int, ev: int, ids: seq<nat>, first: Event, last: Event)
    ensures WithEvent(Booked(WithEvent(t, ev, first), b, userId, ev, ids), ev, last) ==
            WithEvent(Booked(t, b, userId, ev, ids), ev, last)
  {
  }

  lemma TheaterCommitShape(cat: Catalog, users: set<int>, t: Tables<nat>, userId: int, ev: int, seats: seq<Seat>,
                           b: nat)
    requires ValidCatalog(cat) && cat.screenings.Keys == t.events.Keys && b !in t.payments
    requires TheaterTx(cat, users, t, userId, ev, seats, b).Commit?
    ensures Known(cat, ev) && ResolveSeats(cat, cat.screenings[ev].hallId, seats).Some?
    ensures var ids := ResolveSeats(cat, cat.screenings[ev].hallId, seats).value;
            && ids != [] && Distinct(ids) && AllFree(t.seats, ev, ids)
            && |ids| <= t.events[ev].remain
            && TheaterTx(cat, users, t, userId, ev, seats, b)
               == Commit(TheaterBooked(t, b, userId, ev, ids), b, t.events[ev].remain - |ids|)
  {
    var ids := ResolveSeats(cat, cat.screenings[ev].hallId, seats).value;
    var row := TakeSeats(t.events[ev], |seats|);
    InsertAllExact(WithEvent(t, ev, row), users, b, userId, ev, ids);
    RowWrittenOnce(t, b, userId, ev, ids, row, CloseIfEmpty(row));
  }

  /** A commit adds exactly one booking and takes its seats out of the counter. */
  lemma TheaterCommitEffect(cat: Catalog, users: set<int>, t: Tables<nat>, userId: int, ev: int, seats: seq<Seat>,
                            b: nat)
    requires ValidCatalog(cat) && cat.screenings.Keys == t.events.Keys && b !in t.bookings && TableInv(t)
    requires TheaterTx(cat, users, t, userId, ev, seats, b).Commit?
    ensures Known(cat, ev) && ResolveSeats(cat, cat.screenings[ev].hallId, seats).Some?
    ensures var ids := ResolveSeats(cat, cat.screenings[ev].hallId, seats).value;
            var t' := TheaterTx(cat, users, t, userId, ev, seats, b).after;
            && t' == TheaterBooked(t, b, userId, ev, ids)
            && |ids| <= t.events[ev].remain
            && TableInv(t')
            && SeatsOf(t'.seats, b) == ids
            && Owners(t'.seats) == Owners(t.seats) + Claims(b, ev, ids)
  {
    TheaterCommitShape(cat, users, t, userId, ev, seats, b);
    var ids := ResolveSeats(cat, cat.screenings[ev].hallId, seats).value;
    BookedKeepsInv(t, b, userId, ev, ids);
    WithEventKeepsInv(Booked(t, b, userId, ev, ids), ev, CloseIfEmpty(TakeSeats(t.events[ev], |ids|)));
    OwnersAppend(t.seats, b, ev, ids);
  }

  lemma WithEventKeepsInv(t: Tables<nat>, ev: int, row: Event)
    requires TableInv(t) && ev in t.events
    ensures TableInv(WithEvent(t, ev, row))
  {
    forall b | b in t.bookings
      ensures BookingComplete(WithEvent(t, ev, row), b)
    {
      assert BookingComplete(t, b);
    }
  }

  // ------------------------------------------------------------ conservation

  /** Sum of reg_count over the bookings of an event whose status is in st. */
  ghost function SumReg(bookings: map<nat, Booking>, ev: int, st: set<BookStatus>): int {
    Sum(bookings, RegIn(ev, st))
  }

  ghost function RegOf(row: Booking, ev: int, st: set<BookStatus>): int {
    if row.eventId == ev && row.status in st then row.regCount else 0
  }

  ghost function RegIn(ev: int, st: set<BookStatus>): Booking -> int {
    row => RegOf(row, ev, st)
  }

  lemma SumRegPut(bookings: map<nat, Booking>, ev: int, st: set<BookStatus>, b: nat, row: Booking)
    ensures SumReg(bookings[b := row], ev, st) == RegOf(row, ev, st) +
            (if b in bookings then SumReg(bookings, ev, st) - RegOf(bookings[b], ev, st) else SumReg(bookings, ev, st))
  {
    SumPut(bookings, RegIn(ev, st), b, row);
  }

  const EVER: set<BookStatus> := {PAID, CANCEL}
  const CANCELLED: set<BookStatus> := {CANCEL}

  /** remain_count plus everything ever booked, refunded or not, is the seeded total. */
  ghost predicate Conserved(t: Tables<nat>, seed: map<int, Event>) {
    && t.events.Keys == seed.Keys
    && forall ev :: ev in seed ==>
         && t.events[ev].total == seed[ev].total
         && t.events[ev].remain + SumReg(t.bookings, ev, EVER) == seed[ev].remain
  }

  /** What the ACTIVE rows and the refunded bookings of an event add up to. */
  ghost predicate Accounted(t: Tables<nat>) {
    forall ev :: ev in t.events ==>
      |ActiveSeats(t.seats, ev)| + SumReg(t.bookings, ev, CANCELLED) == SumReg(t.bookings, ev, EVER)
  }

  ghost predicate RemainNonNegative(t: Tables<nat>) {
    forall ev :: ev in t.events ==> t.events[ev].remain >= 0
  }

  /** A schedule is CLOSED iff it was seeded so or bookings brought its counter to zero; else it keeps its status. */
  ghost predicate StatusExact(t: Tables<nat>, seed: map<int, Event>) {
    forall ev :: ev in seed ==>
      && ev in t.events && t.events[ev].remain <= seed[ev].remain
      && t.events[ev].status == if t.events[ev].remain < seed[ev].remain && t.events[ev].remain <= 0 then CLOSED
                                else seed[ev].status
  }

  ghost predicate TheaterInv(t: Tables<nat>, seed: map<int, Event>) {
    TableInv(t) && Conserved(t, seed) && Accounted(t) && RemainNonNegative(t) && StatusExact(t, seed)
  }

  lemma BookedConserves(t: Tables<nat>, seed: map<int, Event>, b: nat, userId: int, ev: int, ids: seq<nat>)
    requires Conserved(t, seed) && ev in t.events && b !in t.bookings
    ensures Conserved(TheaterBooked(t, b, userId, ev, ids), seed)
  {
    forall e | e in seed
      ensures SumReg(TheaterBooked(t, b, userId, ev, ids).bookings, e, EVER)
              == SumReg(t.bookings, e, EVER) + (if e == ev then |ids| else 0)
    {
      SumRegPut(t.bookings, e, EVER, b, Booking(userId, ev, |ids|, PAID));
    }
  }

  lemma BookedAccounted(t: Tables<nat>, b: nat, userId: int, ev: int, ids: seq<nat>)
    requires Accounted(t) && ev in t.events && b !in t.bookings
    ensures Accounted(TheaterBooked(t, b, userId, ev, ids))
  {
    var row := Booking(userId, ev, |ids|, PAID);
    var t' := TheaterBooked(t, b, userId, ev, ids);
    forall e | e in t'.events
      ensures |ActiveSeats(t'.seats, e)| + SumReg(t'.bookings, e, CANCELLED) == SumReg(t'.bookings, e, EVER)
    {
      SumRegPut(t.bookings, e, EVER, b, row);
      SumRegPut(t.bookings, e, CANCELLED, b, row);
      ActiveSeatsAppend(t.seats, b, ev, ids, e);
    }
  }

  lemma RefundConserves(t: Tables<nat>, seed: map<int, Event>, b: nat)
    requires Conserved(t, seed) && b in t.bookings
    ensures Conserved(Refund(t, b), seed)
  {
    assert t.bookings[b].status.PAID? || t.bookings[b].status.CANCEL?;
    forall ev | ev in seed
      ensures SumReg(Refund(t, b).bookings, ev, EVER) == SumReg(t.bookings, ev, EVER)
    {
      SumRegPut(t.bookings, ev, EVER, b, t.bookings[b].(status := CANCEL));
    }
  }

  lemma RefundAccounted(t: Tables<nat>, b: nat)
    requires TableInv(t) && Accounted(t) && b in t.bookings && t.bookings[b].status.PAID?
    ensures Accounted(Refund(t, b))
  {
    var row := t.bookings[b].(status := CANCEL);
    assert BookingComplete(t, b);
    forall ev | ev in t.events
      ensures |ActiveSeats(CancelRows(t.seats, b), ev)| + SumReg(t.bookings[b := row], ev, CANCELLED)
              == SumReg(t.bookings[b := row], ev, EVER)
    {
      SumRegPut(t.bookings, ev, EVER, b, row);
      SumRegPut(t.bookings, ev, CANCELLED, b, row);
      if ev == row.eventId {
        ActiveSeatsCancel(t.seats, b, ev);
      } else {
        ActiveSeatsCancelElsewhere(t.seats, b, ev);
      }
    }
  }

  // ------------------------------------------------------------ runs of steps

  ghost predicate BooksTo(cat: Catalog, users: set<int>, t: Tables<nat>, userId: int, ev: int, seats: seq<Seat>, b: nat,
                          t': Tables<nat>)
    requires cat.screenings.Keys == t.events.Keys
  {
    var end := TheaterTx(cat, users, t, userId, ev, seats, b);
    end.Commit? && end.after == t'
  }

  /** One committed change of the tables: a booking or a refund. */
  ghost predicate TheaterStep(cat: Catalog, users: set<int>, t: Tables<nat>, t': Tables<nat>)
    requires cat.screenings.Keys == t.events.Keys
  {
    || (exists userId, ev, seats, b :: b !in t.bookings && BooksTo(cat, users, t, userId, ev, seats, b, t'))
    || (exists userId, b :: RefundGuard(t, userId, b) == REFUNDED && t' == Refund(t, b))
  }

  lemma BookingKeepsTheaterInv(cat: Catalog, users: set<int>, t: Tables<nat>, seed: map<int, Event>,
                               userId: int, ev: int, seats: seq<Seat>, b: nat)
    requires ValidCatalog(cat) && cat.screenings.Keys == t.events.Keys && TheaterInv(t, seed) && b !in t.bookings
    requires TheaterTx(cat, users, t, userId, ev, seats, b).Commit?
    ensures TheaterInv(TheaterTx(cat, users, t, userId, ev, seats, b).after, seed)
  {
    TheaterCommitEffect(cat, users, t, userId, ev, seats, b);
    TheaterCommitShape(cat, users, t, userId, ev, seats, b);
    var ids := ResolveSeats(cat, cat.screenings[ev].hallId, seats).value;
    BookedConserves(t, seed, b, userId, ev, ids);
    BookedAccounted(t, b, userId, ev, ids);
    BookedStatusExact(t, seed, b, userId, ev, ids);
  }

  lemma BookedStatusExact(t: Tables<nat>, seed: map<int, Event>, b: nat, userId: int, ev: int, ids: seq<nat>)
    requires StatusExact(t, seed) && ev in t.events && ids != []
    ensures StatusExact(TheaterBooked(t, b, userId, ev, ids), seed)
  {
  }

  lemma RefundKeepsTheaterInv(t: Tables<nat>, seed: map<int, Event>, userId: int, b: nat)
    requires TheaterInv(t, seed) && RefundGuard(t, userId, b) == REFUNDED
    ensures TheaterInv(Refund(t, b), seed)
  {
    RefundKeepsInv(t, b);
    RefundConserves(t, seed, b);
    RefundAccounted(t, b);
  }

  /** The counter never rises, and a schedule the worker closed is never reopened. */
  ghost predicate OnlyFalls(t: Tables<nat>, t': Tables<nat>) {
    forall ev :: ev in t.events ==>
      && ev in t'.events
      && t'.events[ev].remain <= t.events[ev].remain
      && (t.events[ev].status.CLOSED? ==> t'.events[ev].status.CLOSED?)
  }

  lemma BookedOnlyAges(t: Tables<nat>, b: nat, userId: int, ev: int, ids: seq<nat>)
    requires ev in t.events && b !in t.bookings
    ensures OnlyFalls(t, TheaterBooked(t, b, userId, ev, ids)) && CancelledStay(t, TheaterBooked(t, b, userId, ev, ids))
  {
  }

  lemma RefundOnlyAges(t: Tables<nat>, userId: int, b: nat)
    requires RefundGuard(t, userId, b) == REFUNDED
    ensures OnlyFalls(t, Refund(t, b)) && CancelledStay(t, Refund(t, b))
  {
  }

  /**
   A booking or refund keeps every theater invariant; no remain_count ever rises and no
   cancelled booking comes back.
   */
  lemma {:induction false} TheaterStepKeepsInv(cat: Catalog, users: set<int>, t: Tables<nat>, t': Tables<nat>,
                                               seed: map<int, Event>)
    requires ValidCatalog(cat) && cat.screenings.Keys == t.events.Keys
    requires TheaterInv(t, seed) && TheaterStep(cat, users, t, t')
    ensures TheaterInv(t', seed)
    ensures OnlyFalls(t, t') && CancelledStay(t, t')
  {
    if userId, ev, seats, b :| b !in t.bookings && BooksTo(cat, users, t, userId, ev, seats, b, t') {
      BookingStepKeepsInv(cat, users, t, seed, userId, ev, seats, b);
    } else {
      var userId, b :| RefundGuard(t, userId, b) == REFUNDED && t' == Refund(t, b);
      RefundKeepsTheaterInv(t, seed, userId, b);
      RefundOnlyAges(t, userId, b);
    }
  }

  lemma {:induction false} BookingStepKeepsInv(cat: Catalog, users: set<int>, t: Tables<nat>, seed: map<int, Event>,
                                               userId: int, ev: int, seats: seq<Seat>, b: nat)
    requires ValidCatalog(cat) && cat.screenings.Keys == t.events.Keys && TheaterInv(t, seed) && b !in t.bookings
    requires TheaterTx(cat, users, t, userId, ev, seats, b).Commit?
    ensures var t' := TheaterTx(cat, users, t, userId, ev, seats, b).after;
            TheaterInv(t', seed) && OnlyFalls(t, t') && CancelledStay(t, t')
  {
    BookingKeepsTheaterInv(cat, users, t, seed, userId, ev, seats, b);
    TheaterCommitShape(cat, users, t, userId, ev, seats, b);
    BookedOnlyAges(t, b, userId, ev, ResolveSeats(cat, cat.screenings[ev].hallId, seats).value);
  }

  lemma {:induction false} SumRegNonNegative(bookings: map<nat, Booking>, ev: int, st: set<BookStatus>)
    requires forall b :: b in bookings ==> bookings[b].regCount > 0
    ensures SumReg(bookings, ev, st) >= 0
    ensures SumReg(bookings, ev, st) == 0 <==>
            forall b :: b in bookings && bookings[b].eventId == ev ==> bookings[b].status !in st
    decreases bookings.Keys
  {
    if bookings != map[] {
      var b :| b in bookings;
      SumSplit(bookings, RegIn(ev, st), b);
      SumRegNonNegative(bookings - {b}, ev, st);
      assert forall c :: c in bookings ==> c == b || (c in bookings - {b} && (bookings - {b})[c] == bookings[c]);
    }
  }

  /** Seats of refunded bookings of an event: none iff every booking of it is still paid. */
  lemma RefundedSeats(t: Tables<nat>, ev: int)
    requires TableInv(t)
    ensures SumReg(t.bookings, ev, CANCELLED) >= 0
    ensures SumReg(t.bookings, ev, CANCELLED) == 0 <==> AllPaid(t, ev)
  {
    forall b | b in t.bookings
      ensures t.bookings[b].regCount > 0
    {
      assert BookingComplete(t, b);
    }
    SumRegNonNegative(t.bookings, ev, CANCELLED);
  }

  ghost predicate AllPaid(t: Tables<nat>, ev: int) {
    forall b :: b in t.bookings && t.bookings[b].eventId == ev ==> t.bookings[b].status.PAID?
  }

  /**
   The counter is bounded by the free seats and trails them by what the seed already
   lacked and what was ever refunded: a refund frees the seats but does not return them to
   remain_count. It equals them iff the seed lacked nothing and nothing was refunded.
   */
  lemma RemainVersusFreeSeats(t: Tables<nat>, seed: map<int, Event>, ev: int)
    requires TheaterInv(t, seed) && ev in seed && seed[ev].remain <= seed[ev].total
    ensures ev in t.events
    ensures var free := t.events[ev].total - |ActiveSeats(t.seats, ev)|;
            && 0 <= t.events[ev].remain <= free
            && free - t.events[ev].remain == seed[ev].total - seed[ev].remain + SumReg(t.bookings, ev, CANCELLED)
            && (t.events[ev].remain == free <==> seed[ev].remain == seed[ev].total && AllPaid(t, ev))
  {
    assert ev in t.events;
    RefundedSeats(t, ev);
  }

  /** The places are seats of booking b, in any order and not necessarily all of them. */
  ghost predicate AsksForSeatsOf(cat: Catalog, t: Tables<nat>, b: nat, seats: seq<Seat>)
    requires b in t.bookings && Known(cat, t.bookings[b].eventId)
  {
    var r := ResolveSeats(cat, cat.screenings[t.bookings[b].eventId].hallId, seats);
    seats != [] && Distinct(seats) && r.Some? && forall i :: 0 <= i < |seats| ==> r.value[i] in SeatsOf(t.seats, b)
  }

  /**
   The exact price of that: after a refund a request for refunded seats alone, any of them
   in any order, is answered SOLD_OUT iff the column has fewer than that many seats left,
   whatever the number of free seats.
   */
  lemma {:induction false} RefundedSeatsResaleIff(cat: Catalog, users: set<int>, t: Tables<nat>, b: nat, userId: int,
                                                  seats: seq<Seat>, b': nat)
    requires ValidCatalog(cat) && cat.screenings.Keys == t.events.Keys && TableInv(t)
    requires b in t.bookings && t.bookings[b].status.PAID? && b' !in t.bookings && userId in users
    requires Known(cat, t.bookings[b].eventId) && AsksForSeatsOf(cat, t, b, seats)
    ensures var ev := t.bookings[b].eventId;
            var end := TheaterTx(cat, users, Refund(t, b), userId, ev, seats, b');
            && (end.Commit? <==> |seats| <= t.events[ev].remain)
            && (end == Refuse(SOLD_OUT) <==> |seats| > t.events[ev].remain)
  {
    var ev := t.bookings[b].eventId;
    var ids := ResolveSeats(cat, cat.screenings[ev].hallId, seats).value;
    assert BookingComplete(t, b);
    OwnersCancel(t.seats, b);
    forall i | 0 <= i < |seats|
      ensures (ev, ids[i]) !in Owners(CancelRows(t.seats, b))
    {
      var j :| 0 <= j < |SeatsOf(t.seats, b)| && SeatsOf(t.seats, b)[j] == ids[i];
      PaidOwnsItsSeats(t, b, j);
    }
    TheaterCommitsIff(cat, users, Refund(t, b), userId, ev, seats, b');
  }

  /** A paid booking holds no seat twice. */
  lemma SeatsOfBookingDistinct<S>(t: Tables<S>, b: nat)
    requires TableInv(t) && b in t.bookings && t.bookings[b].status.PAID?
    ensures Distinct(SeatsOf(t.seats, b))
  {
    SeatsOfActiveDistinct(t.seats, b, t.bookings[b].eventId);
  }

  lemma {:induction false} SeatsOfActiveDistinct<S>(rows: seq<SeatRow<S>>, b: nat, ev: int)
    requires UniqueActive(rows)
    requires forall i :: 0 <= i < |rows| && rows[i].bookingId == b ==> rows[i].status.ACTIVE? && rows[i].eventId == ev
    ensures Distinct(SeatsOf(rows, b))
  {
    if rows != [] {
      var n := |rows| - 1;
      SeatsOfActiveDistinct(rows[..n], b, ev);
      if rows[n].bookingId == b {
        forall i | 0 <= i < |SeatsOf(rows[..n], b)|
          ensures SeatsOf(rows[..n], b)[i] != rows[n].seat
        {
          var j := SeatHasRow(rows[..n], b, i);
          assert rows[..n][j] == rows[j];
        }
      }
    }
  }
}
