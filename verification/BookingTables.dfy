/**
 The tables that theater and concert bookings share in shape: events (schedules or
 concert shows), bookings, seat rows and payments, with the constraints of the
 schema. Seats have type S: a (row, column) pair for concerts, a seat id for
 theaters. Rows of seats are never deleted; a refund flips their status.
 */
module BookingTables {
  import opened Wrappers
  import opened Sequences

  datatype BookStatus = PAID | CANCEL
  datatype RowStatus = ACTIVE | CANCELED
  datatype PayYn = Y | N
  datatype EventStatus = OPEN | CLOSED | OTHER

  datatype Event = Event(total: int, remain: int, status: EventStatus)
  datatype Booking = Booking(userId: int, eventId: int, regCount: int, status: BookStatus)
  datatype SeatRow<S> = SeatRow(bookingId: nat, eventId: int, seat: S, status: RowStatus)

  /** payments is keyed by booking id: UNIQUE (booking_id). */
  datatype Tables<S> = Tables(events: map<int, Event>, bookings: map<nat, Booking>,
                              seats: seq<SeatRow<S>>, payments: map<nat, PayYn>)

  /** Lost stands for every failure that is not a constraint of the schema. */
  datatype DbError = DuplicateKey | ForeignKey | CheckFailed | Lost

  /** What pymysql raises as IntegrityError. */
  predicate IsIntegrity(e: DbError) {
    e.DuplicateKey? || e.ForeignKey?
  }

  // ----------------------------------------------------------------- queries

  /** Seats of one booking, in insertion order, whatever their status. */
  function SeatsOf<S>(rows: seq<SeatRow<S>>, b: nat): seq<S> {
    if rows == [] then []
    else
      var front, last := SeatsOf(rows[..|rows| - 1], b), rows[|rows| - 1];
      if last.bookingId == b then front + [last.seat] else front
  }

  /** Seats of the ACTIVE rows of one event, in insertion order. */
  function ActiveSeats<S>(rows: seq<SeatRow<S>>, ev: int): seq<S> {
    if rows == [] then []
    else
      var front, last := ActiveSeats(rows[..|rows| - 1], ev), rows[|rows| - 1];
      if last.eventId == ev && last.status.ACTIVE? then front + [last.seat] else front
  }

  /** The abstract state of the tables: which booking owns which (event, seat). */
  ghost function Owners<S>(rows: seq<SeatRow<S>>): map<(int, S), nat> {
    if rows == [] then map[]
    else
      var front, last := Owners(rows[..|rows| - 1]), rows[|rows| - 1];
      if last.status.ACTIVE? then front[(last.eventId, last.seat) := last.bookingId] else front
  }

  predicate Taken<S(==)>(rows: seq<SeatRow<S>>, ev: int, seat: S) {
    exists i :: 0 <= i < |rows| && rows[i].status.ACTIVE? && rows[i].eventId == ev && rows[i].seat == seat
  }

  // ------------------------------------------------------- schema invariants

  /** The unique index over the generated ACTIVE columns. */
  ghost predicate UniqueActive<S>(rows: seq<SeatRow<S>>) {
    forall i, j :: 0 <= i < j < |rows| && rows[i].status.ACTIVE? && rows[j].status.ACTIVE?
      ==> rows[i].eventId != rows[j].eventId || rows[i].seat != rows[j].seat
  }

  ghost predicate RowsMatchBookings<S>(t: Tables<S>) {
    forall i :: 0 <= i < |t.seats| ==>
      && t.seats[i].bookingId in t.bookings
      && t.seats[i].eventId == t.bookings[t.seats[i].bookingId].eventId
      && (t.seats[i].status.ACTIVE? <==> t.bookings[t.seats[i].bookingId].status.PAID?)
  }

  ghost predicate BookingComplete<S>(t: Tables<S>, b: nat)
    requires b in t.bookings
  {
    && t.bookings[b].eventId in t.events
    && t.bookings[b].regCount > 0
    && |SeatsOf(t.seats, b)| == t.bookings[b].regCount
    && b in t.payments
    && (t.payments[b].Y? <==> t.bookings[b].status.PAID?)
  }

  /**
   Every booking has exactly reg_count > 0 seat rows and one payment; its rows are all
   ACTIVE and paid 'Y' iff it is PAID, all cancelled and 'N' iff it is CANCEL.
   */
  ghost predicate TableInv<S>(t: Tables<S>) {
    && UniqueActive(t.seats)
    && RowsMatchBookings(t)
    && (forall b :: b in t.bookings ==> BookingComplete(t, b))
    && t.payments.Keys == t.bookings.Keys
  }

  // -------------------------------------------------------------- statements

  /** INSERT INTO booking: the CHECK on reg_count, then the foreign key to users. */
  function InsertBooking<S>(t: Tables<S>, users: set<int>, b: nat, userId: int, ev: int, n: int)
    : Result<Tables<S>, DbError>
  {
    if n <= 0 then Err(CheckFailed)
    else if userId !in users || ev !in t.events then Err(ForeignKey)
    else Ok(t.(bookings := t.bookings[b := Booking(userId, ev, n, PAID)]))
  }

  function InsertSeat<S(==)>(t: Tables<S>, b: nat, ev: int, seat: S): Result<Tables<S>, DbError> {
    if b !in t.bookings || ev !in t.events then Err(ForeignKey)
    else if Taken(t.seats, ev, seat) then Err(DuplicateKey)
    else Ok(t.(seats := t.seats + [SeatRow(b, ev, seat, ACTIVE)]))
  }

  /** One INSERT per seat, or one multi-row INSERT: the first failing row fails it all. */
  function InsertSeats<S(==)>(t: Tables<S>, b: nat, ev: int, seats: seq<S>): Result<Tables<S>, DbError> {
    if seats == [] then Ok(t)
    else
      match InsertSeats(t, b, ev, seats[..|seats| - 1])
      case Err(e) => Err(e)
      case Ok(t1) => InsertSeat(t1, b, ev, seats[|seats| - 1])
  }

  function InsertPayment<S>(t: Tables<S>, b: nat): Result<Tables<S>, DbError> {
    if b !in t.bookings then Err(ForeignKey)
    else if b in t.payments then Err(DuplicateKey)
    else Ok(t.(payments := t.payments[b := Y]))
  }

  /** The insert part of a booking transaction, in the worker's order. */
  function InsertAll<S(==)>(t: Tables<S>, users: set<int>, b: nat, userId: int, ev: int, seats: seq<S>)
    : Result<Tables<S>, DbError>
  {
    match InsertBooking(t, users, b, userId, ev, |seats|)
    case Err(e) => Err(e)
    case Ok(t1) =>
      match InsertSeats(t1, b, ev, seats)
      case Err(e) => Err(e)
      case Ok(t2) => InsertPayment(t2, b)
  }

  /** UPDATE ... SET status = 'CANCEL' WHERE booking_id = b AND status = 'ACTIVE' */
  function CancelRows<S>(rows: seq<SeatRow<S>>, b: nat): (r: seq<SeatRow<S>>) {
    seq(|rows|, i requires 0 <= i < |rows| =>
      if rows[i].bookingId == b then rows[i].(status := CANCELED) else rows[i])
  }

  /** The three updates of a refund. */
  function Refund<S>(t: Tables<S>, b: nat): Tables<S>
    requires b in t.bookings
  {
    t.(bookings := t.bookings[b := t.bookings[b].(status := CANCEL)],
       payments := if b in t.payments then t.payments[b := N] else t.payments,
       seats := CancelRows(t.seats, b))
  }

  datatype RefundReply = NOT_FOUND | ALREADY_CANCELED | REFUNDED

  /** The guards of a refund: the booking must exist for this user and not be cancelled. */
  function RefundGuard<S>(t: Tables<S>, userId: int, b: nat): RefundReply {
    if b !in t.bookings || t.bookings[b].userId != userId then NOT_FOUND
    else if t.bookings[b].status.CANCEL? then ALREADY_CANCELED
    else REFUNDED
  }

  // ------------------------------------------------ what a whole booking does

  function NewRows<S>(b: nat, ev: int, seats: seq<S>): seq<SeatRow<S>> {
    seq(|seats|, i requires 0 <= i < |seats| => SeatRow(b, ev, seats[i], ACTIVE))
  }

  function Booked<S>(t: Tables<S>, b: nat, userId: int, ev: int, seats: seq<S>): Tables<S> {
    t.(bookings := t.bookings[b := Booking(userId, ev, |seats|, PAID)],
       seats := t.seats + NewRows(b, ev, seats),
       payments := t.payments[b := Y])
  }

  ghost predicate AllFree<S>(rows: seq<SeatRow<S>>, ev: int, seats: seq<S>) {
    forall i :: 0 <= i < |seats| ==> (ev, seats[i]) !in Owners(rows)
  }

  lemma {:induction false} TakenIsOwned<S>(rows: seq<SeatRow<S>>, ev: int, seat: S)
    ensures Taken(rows, ev, seat) <==> (ev, seat) in Owners(rows)
  {
    if rows != [] {
      var n := |rows| - 1;
      TakenIsOwned(rows[..n], ev, seat);
      if Taken(rows, ev, seat) && !(rows[n].status.ACTIVE? && rows[n].eventId == ev && rows[n].seat == seat) {
        var i :| 0 <= i < |rows| && rows[i].status.ACTIVE? && rows[i].eventId == ev && rows[i].seat == seat;
        assert rows[..n][i] == rows[i];
      }
    }
  }

  lemma TakenAfter<S>(rows: seq<SeatRow<S>>, b: nat, ev: int, seats: seq<S>, seat: S)
    ensures Taken(rows + NewRows(b, ev, seats), ev, seat) <==> Taken(rows, ev, seat) || seat in seats
  {
    var all := rows + NewRows(b, ev, seats);
    if Taken(rows, ev, seat) {
      var i :| 0 <= i < |rows| && rows[i].status.ACTIVE? && rows[i].eventId == ev && rows[i].seat == seat;
      assert all[i] == rows[i];
    }
    if seat in seats {
      var k :| 0 <= k < |seats| && seats[k] == seat;
      assert all[|rows| + k] == SeatRow(b, ev, seats[k], ACTIVE);
    }
  }

  ghost predicate NoneTaken<S>(rows: seq<SeatRow<S>>, ev: int, seats: seq<S>) {
    forall i :: 0 <= i < |seats| ==> !Taken(rows, ev, seats[i])
  }

  /** The unique index alone decides: the rows go in iff the seats are distinct and free. */
  lemma {:induction false} InsertSeatsExact<S>(t: Tables<S>, b: nat, ev: int, seats: seq<S>)
    requires b in t.bookings && ev in t.events
    ensures InsertSeats(t, b, ev, seats) ==
            if Distinct(seats) && NoneTaken(t.seats, ev, seats)
            then Ok(t.(seats := t.seats + NewRows(b, ev, seats)))
            else Err(DuplicateKey)
  {
    if seats == [] {
      assert t.seats + NewRows(b, ev, seats) == t.seats;
    } else {
      var n := |seats| - 1;
      var front, last := seats[..n], seats[n];
      InsertSeatsExact(t, b, ev, front);
      TakenAfter(t.seats, b, ev, front, last);
      assert t.seats + NewRows(b, ev, seats) == (t.seats + NewRows(b, ev, front)) + [SeatRow(b, ev, last, ACTIVE)];
      assert Distinct(seats) <==> Distinct(front) && last !in front;
      assert NoneTaken(t.seats, ev, seats) <==> NoneTaken(t.seats, ev, front) && !Taken(t.seats, ev, last);
    }
  }

  /**
   Exactly when the inserts go through, which error stops them otherwise, and what
   they leave behind.
   */
  lemma InsertAllExact<S>(t: Tables<S>, users: set<int>, b: nat, userId: int, ev: int, seats: seq<S>)
    requires ev in t.events && b !in t.payments
    ensures InsertAll(t, users, b, userId, ev, seats) ==
            if seats == [] then Err(CheckFailed)
            else if userId !in users then Err(ForeignKey)
            else if !Distinct(seats) || !AllFree(t.seats, ev, seats) then Err(DuplicateKey)
            else Ok(Booked(t, b, userId, ev, seats))
  {
    if seats != [] && userId in users {
      InsertSeatsExact(t.(bookings := t.bookings[b := Booking(userId, ev, |seats|, PAID)]), b, ev, seats);
      forall i | 0 <= i < |seats|
        ensures Taken(t.seats, ev, seats[i]) <==> (ev, seats[i]) in Owners(t.seats)
      {
        TakenIsOwned(t.seats, ev, seats[i]);
      }
    }
  }

  /** Which constraint stops a single statement, and otherwise that it adds its row and nothing else. */
  lemma StatementErrors<S>(t: Tables<S>, users: set<int>, b: nat, userId: int, ev: int, n: int, seat: S)
    ensures InsertBooking(t, users, b, userId, ev, n) ==
            if n <= 0 then Err(CheckFailed)
            else if userId !in users || ev !in t.events then Err(ForeignKey)
            else Ok(t.(bookings := t.bookings[b := Booking(userId, ev, n, PAID)]))
    ensures InsertSeat(t, b, ev, seat) ==
            if b !in t.bookings || ev !in t.events then Err(ForeignKey)
            else if (ev, seat) in Owners(t.seats) then Err(DuplicateKey)
            else Ok(t.(seats := t.seats + [SeatRow(b, ev, seat, ACTIVE)]))
    ensures InsertPayment(t, b) ==
            if b !in t.bookings then Err(ForeignKey)
            else if b in t.payments then Err(DuplicateKey)
            else Ok(t.(payments := t.payments[b := Y]))
  {
    TakenIsOwned(t.seats, ev, seat);
  }

  // ------------------------------------------------------------ frame lemmas

  lemma {:induction false} SeatsOfAppend<S>(rows: seq<SeatRow<S>>, b: nat, ev: int, seats: seq<S>, c: nat)
    ensures SeatsOf(rows + NewRows(b, ev, seats), c) == SeatsOf(rows, c) + (if c == b then seats else [])
  {
    var all := rows + NewRows(b, ev, seats);
    if seats == [] {
      assert all == rows;
    } else {
      var n := |seats| - 1;
      SeatsOfAppend(rows, b, ev, seats[..n], c);
      assert all[..|all| - 1] == rows + NewRows(b, ev, seats[..n]);
      assert all[|all| - 1] == SeatRow(b, ev, seats[n], ACTIVE);
      assert seats[..n] + [seats[n]] == seats;
    }
  }

  lemma {:induction false} ActiveSeatsAppend<S>(rows: seq<SeatRow<S>>, b: nat, ev: int, seats: seq<S>, e: int)
    ensures ActiveSeats(rows + NewRows(b, ev, seats), e) == ActiveSeats(rows, e) + (if e == ev then seats else [])
  {
    var all := rows + NewRows(b, ev, seats);
    if seats == [] {
      assert all == rows;
    } else {
      var n := |seats| - 1;
      ActiveSeatsAppend(rows, b, ev, seats[..n], e);
      assert all[..|all| - 1] == rows + NewRows(b, ev, seats[..n]);
      assert all[|all| - 1] == SeatRow(b, ev, seats[n], ACTIVE);
      assert seats[..n] + [seats[n]] == seats;
    }
  }

  lemma {:induction false} NoRowsNoSeats<S>(rows: seq<SeatRow<S>>, b: nat)
    requires forall i :: 0 <= i < |rows| ==> rows[i].bookingId != b
    ensures SeatsOf(rows, b) == []
  {
    if rows != [] {
      NoRowsNoSeats(rows[..|rows| - 1], b);
    }
  }

  lemma {:induction false} SeatsOfCancel<S>(rows: seq<SeatRow<S>>, b: nat, c: nat)
    ensures SeatsOf(CancelRows(rows, b), c) == SeatsOf(rows, c)
  {
    if rows != [] {
      SeatsOfCancel(rows[..|rows| - 1], b, c);
      assert CancelRows(rows, b)[..|rows| - 1] == CancelRows(rows[..|rows| - 1], b);
    }
  }

  /** Cancelling a booking whose rows are all ACTIVE takes exactly its seats out of its event. */
  lemma {:induction false} ActiveSeatsCancel<S>(rows: seq<SeatRow<S>>, b: nat, ev: int)
    requires forall i :: 0 <= i < |rows| && rows[i].bookingId == b ==> rows[i].status.ACTIVE? && rows[i].eventId == ev
    ensures |ActiveSeats(CancelRows(rows, b), ev)| == |ActiveSeats(rows, ev)| - |SeatsOf(rows, b)|
  {
    if rows != [] {
      var n := |rows| - 1;
      ActiveSeatsCancel(rows[..n], b, ev);
      assert CancelRows(rows, b)[..n] == CancelRows(rows[..n], b);
    }
  }

  lemma {:induction false} ActiveSeatsCancelElsewhere<S>(rows: seq<SeatRow<S>>, b: nat, e: int)
    requires forall i :: 0 <= i < |rows| && rows[i].bookingId == b ==> rows[i].eventId != e
    ensures ActiveSeats(CancelRows(rows, b), e) == ActiveSeats(rows, e)
  {
    if rows != [] {
      var n := |rows| - 1;
      ActiveSeatsCancelElsewhere(rows[..n], b, e);
      assert CancelRows(rows, b)[..n] == CancelRows(rows[..n], b);
    }
  }

  // --------------------------------------------------- refinement to owners

  ghost function Claims<S>(b: nat, ev: int, seats: seq<S>): map<(int, S), nat> {
    if seats == [] then map[] else Claims(b, ev, seats[..|seats| - 1])[(ev, seats[|seats| - 1]) := b]
  }

  lemma {:induction false} ClaimsMembers<S>(b: nat, ev: int, seats: seq<S>, k: (int, S))
    ensures k in Claims(b, ev, seats) <==> k.0 == ev && k.1 in seats
    ensures k in Claims(b, ev, seats) ==> Claims(b, ev, seats)[k] == b
  {
    if seats != [] {
      ClaimsMembers(b, ev, seats[..|seats| - 1], k);
    }
  }

  /** A committed booking adds exactly its claims. */
  lemma {:induction false} OwnersAppend<S>(rows: seq<SeatRow<S>>, b: nat, ev: int, seats: seq<S>)
    ensures Owners(rows + NewRows(b, ev, seats)) == Owners(rows) + Claims(b, ev, seats)
  {
    var all := rows + NewRows(b, ev, seats);
    if seats == [] {
      assert all == rows;
    } else {
      var n := |seats| - 1;
      OwnersAppend(rows, b, ev, seats[..n]);
      assert all[..|all| - 1] == rows + NewRows(b, ev, seats[..n]);
      assert all[|all| - 1] == SeatRow(b, ev, seats[n], ACTIVE);
      assert Claims(b, ev, seats) == Claims(b, ev, seats[..n])[(ev, seats[n]) := b];
    }
  }

  ghost function Release<S>(m: map<(int, S), nat>, b: nat): map<(int, S), nat> {
    m - (set k | k in m && m[k] == b)
  }

  /** Every ownership comes from an ACTIVE row of that booking. */
  lemma {:induction false} OwnerHasRow<S>(rows: seq<SeatRow<S>>, k: (int, S)) returns (i: nat)
    requires k in Owners(rows)
    ensures i < |rows| && rows[i] == SeatRow(Owners(rows)[k], k.0, k.1, ACTIVE)
  {
    var n := |rows| - 1;
    if rows[n].status.ACTIVE? && (rows[n].eventId, rows[n].seat) == k {
      i := n;
    } else {
      i := OwnerHasRow(rows[..n], k);
    }
  }

  lemma {:induction false} RowIsOwner<S>(rows: seq<SeatRow<S>>, i: nat)
    requires UniqueActive(rows) && i < |rows| && rows[i].status.ACTIVE?
    ensures (rows[i].eventId, rows[i].seat) in Owners(rows)
    ensures Owners(rows)[(rows[i].eventId, rows[i].seat)] == rows[i].bookingId
  {
    var n := |rows| - 1;
    if i < n {
      RowIsOwner(rows[..n], i);
    }
  }

  /** A refund frees exactly the refunded booking's seats. */
  lemma {:induction false} OwnersCancel<S>(rows: seq<SeatRow<S>>, b: nat)
    requires UniqueActive(rows)
    ensures Owners(CancelRows(rows, b)) == Release(Owners(rows), b)
  {
    if rows != [] {
      var n := |rows| - 1;
      OwnersCancel(rows[..n], b);
      assert CancelRows(rows, b)[..n] == CancelRows(rows[..n], b);
      var last := rows[n];
      if last.status.ACTIVE? {
        var k := (last.eventId, last.seat);
        if k in Owners(rows[..n]) {
          var _ := OwnerHasRow(rows[..n], k);
        }
      }
    }
  }

  // ------------------------------------------------------ invariant is kept

  lemma UniqueAppend<S>(rows: seq<SeatRow<S>>, b: nat, ev: int, seats: seq<S>)
    requires UniqueActive(rows) && Distinct(seats) && AllFree(rows, ev, seats)
    ensures UniqueActive(rows + NewRows(b, ev, seats))
  {
    var all := rows + NewRows(b, ev, seats);
    forall i, j | 0 <= i < j < |all| && all[i].status.ACTIVE? && all[j].status.ACTIVE?
      ensures all[i].eventId != all[j].eventId || all[i].seat != all[j].seat
    {
      if i < |rows| <= j {
        RowIsOwner(rows, i);
        assert (ev, seats[j - |rows|]) !in Owners(rows);
      }
    }
  }

  lemma BookedKeepsInv<S>(t: Tables<S>, b: nat, userId: int, ev: int, seats: seq<S>)
    requires TableInv(t) && b !in t.bookings && ev in t.events
    requires seats != [] && Distinct(seats) && AllFree(t.seats, ev, seats)
    ensures TableInv(Booked(t, b, userId, ev, seats))
    ensures SeatsOf(Booked(t, b, userId, ev, seats).seats, b) == seats
  {
    var t' := Booked(t, b, userId, ev, seats);
    UniqueAppend(t.seats, b, ev, seats);
    NoRowsNoSeats(t.seats, b);
    forall c | c in t'.bookings
      ensures BookingComplete(t', c)
    {
      SeatsOfAppend(t.seats, b, ev, seats, c);
      assert c != b ==> BookingComplete(t, c);
    }
    SeatsOfAppend(t.seats, b, ev, seats, b);
  }

  /** Exactly what a refund changes: its booking's status, its payment, and the status of its seat rows. */
  ghost predicate RefundedFrom<S>(t: Tables<S>, t': Tables<S>, b: nat)
    requires b in t.bookings
  {
    && t'.events == t.events && t'.bookings == t.bookings[b := t.bookings[b].(status := CANCEL)]
    && t'.payments.Keys == t.payments.Keys
    && (forall c :: c in t.payments ==> t'.payments[c] == if c == b then N else t.payments[c])
    && |t'.seats| == |t.seats|
    && forall i :: 0 <= i < |t.seats| ==>
         t'.seats[i] == if t.seats[i].bookingId == b then t.seats[i].(status := CANCELED) else t.seats[i]
  }

  lemma RefundExact<S>(t: Tables<S>, b: nat)
    requires b in t.bookings
    ensures RefundedFrom(t, Refund(t, b), b)
  {
  }

  lemma RefundKeepsInv<S>(t: Tables<S>, b: nat)
    requires TableInv(t) && b in t.bookings
    ensures TableInv(Refund(t, b))
  {
    var t' := Refund(t, b);
    forall c | c in t'.bookings
      ensures BookingComplete(t', c)
    {
      SeatsOfCancel(t.seats, b, c);
      assert BookingComplete(t, c);
    }
  }

  /** A cancelled booking is refused to any user: its own is told so, others do not find it. */
  lemma SecondRefundRefused<S>(t: Tables<S>, b: nat, userId: int)
    requires b in t.bookings && t.bookings[b].status.CANCEL?
    ensures RefundGuard(t, userId, b) == if userId == t.bookings[b].userId then ALREADY_CANCELED else NOT_FOUND
  {
  }

  /** No cancelled booking is changed or revived. */
  ghost predicate CancelledStay<S>(t: Tables<S>, t': Tables<S>) {
    forall b :: b in t.bookings && t.bookings[b].status.CANCEL? ==> b in t'.bookings && t'.bookings[b] == t.bookings[b]
  }

  /** A paid booking owns each of its seats. */
  lemma PaidOwnsItsSeats<S>(t: Tables<S>, b: nat, i: nat)
    requires TableInv(t) && b in t.bookings && t.bookings[b].status.PAID?
    requires i < |SeatsOf(t.seats, b)|
    ensures var k := (t.bookings[b].eventId, SeatsOf(t.seats, b)[i]);
            k in Owners(t.seats) && Owners(t.seats)[k] == b
  {
    var j := SeatHasRow(t.seats, b, i);
    RowIsOwner(t.seats, j);
  }

  lemma {:induction false} SeatHasRow<S>(rows: seq<SeatRow<S>>, b: nat, i: nat) returns (j: nat)
    requires i < |SeatsOf(rows, b)|
    ensures j < |rows| && rows[j].bookingId == b && rows[j].seat == SeatsOf(rows, b)[i]
  {
    var n := |rows| - 1;
    if i < |SeatsOf(rows[..n], b)| {
      j := SeatHasRow(rows[..n], b, i);
    } else {
      j := n;
    }
  }

  /** No double sale: two paid bookings of one event never hold a seat in common. */
  lemma NoDoubleSale<S>(t: Tables<S>, b: nat, c: nat, i: nat, j: nat)
    requires TableInv(t) && b in t.bookings && c in t.bookings
    requires t.bookings[b].status.PAID? && t.bookings[c].status.PAID?
    requires t.bookings[b].eventId == t.bookings[c].eventId
    requires i < |SeatsOf(t.seats, b)| && j < |SeatsOf(t.seats, c)|
    requires SeatsOf(t.seats, b)[i] == SeatsOf(t.seats, c)[j]
    ensures b == c
  {
    PaidOwnsItsSeats(t, b, i);
    PaidOwnsItsSeats(t, c, j);
  }

  /** The ACTIVE seats of an event are pairwise distinct. */
  lemma {:induction false} ActiveSeatsDistinct<S>(rows: seq<SeatRow<S>>, ev: int)
    requires UniqueActive(rows)
    ensures Distinct(ActiveSeats(rows, ev))
    ensures forall s :: s in ActiveSeats(rows, ev) <==> (ev, s) in Owners(rows)
  {
    if rows != [] {
      var n := |rows| - 1;
      var last := rows[n];
      ActiveSeatsDistinct(rows[..n], ev);
      if last.status.ACTIVE? && (last.eventId, last.seat) in Owners(rows[..n]) {
        var _ := OwnerHasRow(rows[..n], (last.eventId, last.seat));
      }
    }
  }
}
