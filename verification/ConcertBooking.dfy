/**
 Concert bookings: the worker's transaction, the refund, and what they do to the
 ownership of seats. The ACTIVE unique index is the only exclusion mechanism.
 */
module ConcertBooking {
  import opened Wrappers
  import opened BookingTables
  import opened BookingMessages
  import opened Database
  import opened SeatKeys
  import opened Sequences

  datatype Show = Show(concertId: int, rows: int, cols: int)
  type Catalog = map<int, Show>

  predicate InGrid(show: Show, seat: Seat) {
    seat.row <= show.rows && seat.col <= show.cols
  }

  predicate AllInGrid(show: Show, seats: seq<Seat>) {
    forall i :: 0 <= i < |seats| ==> InGrid(show, seats[i])
  }

  /** The transaction of process_concert_booking, with booking id b for its insert. */
  function ConcertTx(cat: Catalog, users: set<int>, t: Tables<Seat>, userId: int, showId: int, seats: seq<Seat>, b: nat)
    : TxEnd<Seat>
    requires cat.Keys == t.events.Keys
  {
    if showId !in cat then Refuse(NO_SUCH_EVENT)
    else if !AllInGrid(cat[showId], seats) then Refuse(INVALID_SEAT)
    else
      match InsertAll(t, users, b, userId, showId, seats)
      case Err(e) => Raise(e)
      case Ok(t') => Commit(t', b, t.events[showId].remain)
  }

  /**
   The statements of the transaction. failAt numbers the statement at which the link
   to the database fails; with a negative number it never does.
   */
  method RunConcertStatements(cat: Catalog, conn: Connection<Seat>, userId: int, showId: int, seats: seq<Seat>,
                              failAt: int)
    returns (r: TxEnd<Seat>)
    requires conn.Idle() && cat.Keys == conn.committed.events.Keys
    modifies conn
    ensures conn.Valid() && conn.committed == old(conn.committed)
    ensures r == ConcertTx(cat, conn.users, conn.committed, userId, showId, seats, old(conn.nextId))
            || (failAt >= 0 && r == Raise(Lost))
    ensures r.Commit? ==> r.after == conn.work
  {
    if failAt == 0 { return Raise(Lost); }
    if showId !in cat {
      conn.Rollback();
      return Refuse(NO_SUCH_EVENT);
    }
    var show := cat[showId];
    for i := 0 to |seats|
      invariant conn.Idle() && conn.committed == old(conn.committed) && conn.nextId == old(conn.nextId)
      invariant forall k :: 0 <= k < i ==> InGrid(show, seats[k])
    {
      if seats[i].row > show.rows || seats[i].col > show.cols {
        conn.Rollback();
        assert !InGrid(show, seats[i]);
        return Refuse(INVALID_SEAT);
      }
    }
    if failAt == 1 { return Raise(Lost); }
    var booking := conn.InsertBooking(userId, showId, |seats|);
    if booking.Err? { return Raise(booking.error); }
    var b := booking.value;
    InsertSeatsFrame(conn.work, b, showId, seats);
    if failAt == 2 { return Raise(Lost); }
    var e := conn.InsertSeatRows(b, showId, seats);
    if e.Some? { return Raise(e.value); }
    if failAt == 3 { return Raise(Lost); }
    e := conn.InsertPayment(b);
    match e {
      case Some(err) => return Raise(err);
      case None =>
    }
    if failAt == 4 { return Raise(Lost); }
    r := Commit(conn.work, b, conn.work.events[showId].remain);
  }

  /** With no infrastructure error a booking commits iff the table state allows it. */
  lemma ConcertCommitsIff(cat: Catalog, users: set<int>, t: Tables<Seat>, userId: int, showId: int, seats: seq<Seat>,
                          b: nat)
    requires cat.Keys == t.events.Keys && b !in t.payments
    ensures ConcertTx(cat, users, t, userId, showId, seats, b).Commit? <==>
            && showId in cat
            && userId in users
            && seats != []
            && AllInGrid(cat[showId], seats)
            && Distinct(seats)
            && AllFree(t.seats, showId, seats)
  {
    if showId in cat {
      InsertAllExact(t, users, b, userId, showId, seats);
    }
  }

  /**
   How every attempt ends, read off the tables: which guard refuses it, which constraint
   stops it, and otherwise that it commits.
   */
  lemma {:induction false} ConcertOutcomes(cat: Catalog, users: set<int>, t: Tables<Seat>, userId: int, showId: int,
                                           seats: seq<Seat>, b: nat)
    requires cat.Keys == t.events.Keys && b !in t.payments
    ensures var end := ConcertTx(cat, users, t, userId, showId, seats, b);
            var fits := showId in cat && forall i :: 0 <= i < |seats| ==>
                          seats[i].row <= cat[showId].rows && seats[i].col <= cat[showId].cols;
            var free := Distinct(seats) && forall i :: 0 <= i < |seats| ==> (showId, seats[i]) !in Owners(t.seats);
            && (end == Refuse(NO_SUCH_EVENT) <==> showId !in cat)
            && (end == Refuse(INVALID_SEAT) <==> showId in cat && !fits)
            && (end == Raise(CheckFailed) <==> showId in cat && seats == [])
            && (end == Raise(ForeignKey) <==> fits && seats != [] && userId !in users)
            && (end == Raise(DuplicateKey) <==> fits && seats != [] && userId in users && !free)
            && (end.Commit? <==> fits && seats != [] && userId in users && free)
            && (end.Commit? ==> end.bookingId == b && end.remainAfter == t.events[showId].remain)
  {
    if showId in cat {
      InsertAllExact(t, users, b, userId, showId, seats);
      assert AllFree(t.seats, showId, seats) <==>
             forall i :: 0 <= i < |seats| ==> (showId, seats[i]) !in Owners(t.seats);
    }
  }

  /** A commit changes the tables by exactly one booking; the remain column is not touched. */
  lemma ConcertCommitEffect(cat: Catalog, users: set<int>, t: Tables<Seat>, userId: int, showId: int, seats: seq<Seat>,
                            b: nat)
    requires cat.Keys == t.events.Keys && b !in t.bookings && TableInv(t)
    requires ConcertTx(cat, users, t, userId, showId, seats, b).Commit?
    ensures var t' := ConcertTx(cat, users, t, userId, showId, seats, b).after;
            && t' == Booked(t, b, userId, showId, seats)
            && TableInv(t')
            && SeatsOf(t'.seats, b) == seats
            && Owners(t'.seats) == Owners(t.seats) + Claims(b, showId, seats)
  {
    ConcertCommitsIff(cat, users, t, userId, showId, seats, b);
    InsertAllExact(t, users, b, userId, showId, seats);
    BookedKeepsInv(t, b, userId, showId, seats);
    OwnersAppend(t.seats, b, showId, seats);
  }

  // ------------------------------------------- refinement of a plain seat map

  /** One committed change of the tables: a booking or a refund. */
  ghost predicate ConcertStep(cat: Catalog, users: set<int>, t: Tables<Seat>, t': Tables<Seat>)
    requires cat.Keys == t.events.Keys
  {
    || (exists userId, showId, seats, b ::
          b !in t.bookings && Positive(seats) && BooksTo(cat, users, t, userId, showId, seats, b, t'))
    || (exists userId, b :: RefundGuard(t, userId, b) == REFUNDED && t' == Refund(t, b))
  }

  ghost predicate BooksTo(cat: Catalog, users: set<int>, t: Tables<Seat>, userId: int, showId: int, seats: seq<Seat>,
                          b: nat, t': Tables<Seat>)
    requires cat.Keys == t.events.Keys
  {
    var end := ConcertTx(cat, users, t, userId, showId, seats, b);
    end.Commit? && end.after == t'
  }

  /** The abstract machine: a map from (show, seat) to its owner. */
  ghost predicate MapClaim(m: map<(int, Seat), nat>, m': map<(int, Seat), nat>, b: nat, showId: int, seats: seq<Seat>) {
    && seats != [] && Distinct(seats)
    && b !in m.Values
    && (forall i :: 0 <= i < |seats| ==> (showId, seats[i]) !in m)
    && m' == m + Claims(b, showId, seats)
  }

  ghost predicate MapRelease(m: map<(int, Seat), nat>, m': map<(int, Seat), nat>, b: nat) {
    b in m.Values && m' == Release(m, b)
  }

  ghost predicate MapStep(m: map<(int, Seat), nat>, m': map<(int, Seat), nat>) {
    || (exists b, showId, seats :: MapClaim(m, m', b, showId, seats))
    || (exists b :: MapRelease(m, m', b))
  }

  lemma UnknownOwnsNothing(t: Tables<Seat>, b: nat)
    requires TableInv(t) && b !in t.bookings
    ensures b !in Owners(t.seats).Values
  {
    if b in Owners(t.seats).Values {
      var k :| k in Owners(t.seats) && Owners(t.seats)[k] == b;
      var _ := OwnerHasRow(t.seats, k);
    }
  }

  lemma ConcertBookingRefines(cat: Catalog, users: set<int>, t: Tables<Seat>, userId: int, showId: int,
                              seats: seq<Seat>, b: nat)
    requires cat.Keys == t.events.Keys && b !in t.bookings && TableInv(t)
    requires ConcertTx(cat, users, t, userId, showId, seats, b).Commit?
    ensures MapClaim(Owners(t.seats), Owners(ConcertTx(cat, users, t, userId, showId, seats, b).after.seats),
                     b, showId, seats)
  {
    ConcertCommitsIff(cat, users, t, userId, showId, seats, b);
    ConcertCommitEffect(cat, users, t, userId, showId, seats, b);
    UnknownOwnsNothing(t, b);
  }

  lemma ConcertRefundRefines(t: Tables<Seat>, userId: int, b: nat)
    requires TableInv(t) && RefundGuard(t, userId, b) == REFUNDED
    ensures MapRelease(Owners(t.seats), Owners(Refund(t, b).seats), b)
  {
    OwnersCancel(t.seats, b);
    assert BookingComplete(t, b);
    PaidOwnsItsSeats(t, b, 0);
  }

  /** Every change of the tables is a step of the plain map from seats to owners. */
  lemma ConcertTablesRefineSeatMap(cat: Catalog, users: set<int>, t: Tables<Seat>, t': Tables<Seat>)
    requires cat.Keys == t.events.Keys && TableInv(t) && ConcertStep(cat, users, t, t')
    ensures TableInv(t') && t'.events == t.events
    ensures MapStep(Owners(t.seats), Owners(t'.seats))
  {
    if userId, showId, seats, b :|
      b !in t.bookings && Positive(seats) && BooksTo(cat, users, t, userId, showId, seats, b, t') {
      ConcertCommitEffect(cat, users, t, userId, showId, seats, b);
      ConcertBookingRefines(cat, users, t, userId, showId, seats, b);
    } else {
      var userId, b :| RefundGuard(t, userId, b) == REFUNDED && t' == Refund(t, b);
      RefundKeepsInv(t, b);
      ConcertRefundRefines(t, userId, b);
    }
  }

  lemma ConcertStepKeepsCancelled(cat: Catalog, users: set<int>, t: Tables<Seat>, t': Tables<Seat>)
    requires cat.Keys == t.events.Keys && TableInv(t) && ConcertStep(cat, users, t, t')
    ensures CancelledStay(t, t')
  {
    if userId, showId, seats, b :|
      b !in t.bookings && Positive(seats) && BooksTo(cat, users, t, userId, showId, seats, b, t') {
      ConcertCommitEffect(cat, users, t, userId, showId, seats, b);
    }
  }

  // ---------------------------------------------------------------- capacity

  /** Every ACTIVE seat of a known show lies in the show's grid. */
  ghost predicate SeatsInGrid(cat: Catalog, t: Tables<Seat>) {
    forall i :: 0 <= i < |t.seats| ==>
      && t.seats[i].eventId in cat
      && t.seats[i].seat.row > 0 && t.seats[i].seat.col > 0
      && InGrid(cat[t.seats[i].eventId], t.seats[i].seat)
  }

  lemma BookedInGrid(cat: Catalog, t: Tables<Seat>, b: nat, userId: int, showId: int, seats: seq<Seat>)
    requires SeatsInGrid(cat, t) && showId in cat && AllInGrid(cat[showId], seats) && Positive(seats)
    ensures SeatsInGrid(cat, Booked(t, b, userId, showId, seats))
  {
  }

  lemma BookingKeepsGrid(cat: Catalog, users: set<int>, t: Tables<Seat>, userId: int, showId: int, seats: seq<Seat>,
                         b: nat)
    requires cat.Keys == t.events.Keys && b !in t.bookings && TableInv(t) && SeatsInGrid(cat, t)
    requires ConcertTx(cat, users, t, userId, showId, seats, b).Commit? && Positive(seats)
    ensures SeatsInGrid(cat, ConcertTx(cat, users, t, userId, showId, seats, b).after)
  {
    ConcertCommitsIff(cat, users, t, userId, showId, seats, b);
    ConcertCommitEffect(cat, users, t, userId, showId, seats, b);
    BookedInGrid(cat, t, b, userId, showId, seats);
  }

  lemma ConcertStepKeepsGrid(cat: Catalog, users: set<int>, t: Tables<Seat>, t': Tables<Seat>)
    requires cat.Keys == t.events.Keys && TableInv(t) && SeatsInGrid(cat, t) && ConcertStep(cat, users, t, t')
    ensures SeatsInGrid(cat, t')
  {
    if userId, showId, seats, b :|
      b !in t.bookings && Positive(seats) && BooksTo(cat, users, t, userId, showId, seats, b, t') {
      BookingKeepsGrid(cat, users, t, userId, showId, seats, b);
    }
  }

  ghost function GridRow(r: int, cols: nat): set<Seat> {
    set c | 1 <= c <= cols :: Seat(r, c)
  }

  lemma {:induction false} GridRowSize(r: int, cols: nat)
    ensures |GridRow(r, cols)| == cols
  {
    if cols == 0 {
      assert GridRow(r, 0) == {};
    } else {
      GridRowSize(r, cols - 1);
      assert GridRow(r, cols) == GridRow(r, cols - 1) + {Seat(r, cols)};
    }
  }

  ghost function Grid(rows: nat, cols: nat): set<Seat> {
    if rows == 0 then {} else Grid(rows - 1, cols) + GridRow(rows, cols)
  }

  lemma {:induction false} GridMembers(rows: nat, cols: nat, s: Seat)
    ensures s in Grid(rows, cols) <==> 1 <= s.row <= rows && 1 <= s.col <= cols
  {
    if rows > 0 {
      GridMembers(rows - 1, cols, s);
    }
  }

  lemma {:induction false} GridSize(rows: nat, cols: nat)
    ensures |Grid(rows, cols)| == rows * cols
  {
    if rows == 0 {
      assert Grid(rows, cols) == {};
    } else {
      GridSize(rows - 1, cols);
      GridRowSize(rows, cols);
      assert (rows - 1) * cols + cols == rows * cols;
      forall s | s in Grid(rows - 1, cols)
        ensures s !in GridRow(rows, cols)
      {
        GridMembers(rows - 1, cols, s);
      }
    }
  }

  lemma {:induction false} ActiveSeatsInGrid(cat: Catalog, rows: seq<SeatRow<Seat>>, showId: int)
    requires showId in cat
    requires forall i :: 0 <= i < |rows| && rows[i].eventId == showId ==>
      rows[i].seat.row > 0 && rows[i].seat.col > 0 && InGrid(cat[showId], rows[i].seat)
    ensures forall s :: s in ActiveSeats(rows, showId) ==>
      1 <= s.row <= cat[showId].rows && 1 <= s.col <= cat[showId].cols
  {
    if rows != [] {
      ActiveSeatsInGrid(cat, rows[..|rows| - 1], showId);
    }
  }

  /**
   Capacity without a counter: the ACTIVE seats of a show never exceed
   seat_rows * seat_cols, so a remain derived from them is never negative.
   */
  lemma CapacityHolds(cat: Catalog, t: Tables<Seat>, showId: int)
    requires TableInv(t) && SeatsInGrid(cat, t) && showId in cat
    requires cat[showId].rows > 0 && cat[showId].cols > 0
    ensures |ActiveSeats(t.seats, showId)| <= cat[showId].rows * cat[showId].cols
  {
    ActiveSeatsDistinct(t.seats, showId);
    ActiveSeatsInGrid(cat, t.seats, showId);
    GridSize(cat[showId].rows, cat[showId].cols);
    forall s | s in ActiveSeats(t.seats, showId)
      ensures s in Grid(cat[showId].rows, cat[showId].cols)
    {
      GridMembers(cat[showId].rows, cat[showId].cols, s);
    }
    DistinctFits(ActiveSeats(t.seats, showId), Grid(cat[showId].rows, cat[showId].cols));
  }
}
