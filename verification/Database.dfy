/** One connection of the worker or of write-api: committed tables and an open transaction. */
module Database {
  import opened Wrappers
  import opened BookingTables

  class Connection<S(==)> {
    const users: set<int>
    var committed: Tables<S>
    var work: Tables<S>
    var nextId: nat  // AUTO_INCREMENT of the booking table; not rolled back

    ghost predicate IdsBelow(t: Tables<S>)
      reads this
    {
      forall b :: b in t.bookings || b in t.payments ==> b < nextId
    }

    ghost predicate Valid()
      reads this
    {
      IdsBelow(committed) && IdsBelow(work)
    }

    /** No transaction is open. */
    ghost predicate Idle()
      reads this
    {
      Valid() && work == committed
    }

    constructor (users: set<int>, t: Tables<S>, nextId: nat)
      requires forall b :: b in t.bookings || b in t.payments ==> b < nextId
      ensures Idle() && committed == t && this.users == users && this.nextId == nextId
    {
      this.users := users;
      committed, work, this.nextId := t, t, nextId;
    }

    method InsertBooking(userId: int, ev: int, n: int) returns (r: Result<nat, DbError>)
      requires Valid()
      modifies this
      ensures Valid() && committed == old(committed) && nextId == old(nextId) + 1
      ensures match BookingTables.InsertBooking(old(work), users, old(nextId), userId, ev, n)
              case Ok(t) => r == Ok(old(nextId)) && work == t
              case Err(e) => r == Err(e) && work == old(work)
    {
      var b := nextId;
      nextId := nextId + 1;
      match BookingTables.InsertBooking(work, users, b, userId, ev, n)
      case Ok(t) =>
        work := t;
        r := Ok(b);
      case Err(e) =>
        r := Err(e);
    }

    method InsertSeat(b: nat, ev: int, seat: S) returns (e: Option<DbError>)
      requires Valid()
      modifies this`work
      ensures Valid()
      ensures match BookingTables.InsertSeat(old(work), b, ev, seat)
              case Ok(t) => e == None && work == t
              case Err(err) => e == Some(err) && work == old(work)
    {
      match BookingTables.InsertSeat(work, b, ev, seat)
      case Ok(t) =>
        work := t;
        e := None;
      case Err(err) =>
        e := Some(err);
    }

    /** One multi-row INSERT. */
    method InsertSeatRows(b: nat, ev: int, seats: seq<S>) returns (e: Option<DbError>)
      requires Valid()
      modifies this`work
      ensures Valid()
      ensures match BookingTables.InsertSeats(old(work), b, ev, seats)
              case Ok(t) => e == None && work == t
              case Err(err) => e == Some(err) && work == old(work)
    {
      InsertSeatsFrame(work, b, ev, seats);
      match BookingTables.InsertSeats(work, b, ev, seats)
      case Ok(t) =>
        work := t;
        e := None;
      case Err(err) =>
        e := Some(err);
    }

    method InsertPayment(b: nat) returns (e: Option<DbError>)
      requires Valid()
      modifies this`work
      ensures Valid()
      ensures match BookingTables.InsertPayment(old(work), b)
              case Ok(t) => e == None && work == t
              case Err(err) => e == Some(err) && work == old(work)
    {
      match BookingTables.InsertPayment(work, b)
      case Ok(t) =>
        work := t;
        e := None;
      case Err(err) =>
        e := Some(err);
    }

    /** UPDATE of an event row; the caller has read the row before. */
    method UpdateEvent(ev: int, row: Event)
      requires Valid()
      modifies this`work
      ensures Valid() && work == old(work).(events := old(work).events[ev := row])
    {
      work := work.(events := work.events[ev := row]);
    }

    method UpdateBooking(b: nat, row: Booking)
      requires Valid() && b in work.bookings
      modifies this`work
      ensures Valid() && work == old(work).(bookings := old(work).bookings[b := row])
    {
      work := work.(bookings := work.bookings[b := row]);
    }

    /** UPDATE payment SET pay_yn = 'N' WHERE booking_id = b */
    method UnpayBooking(b: nat)
      requires Valid()
      modifies this`work
      ensures Valid()
      ensures work == if b in old(work).payments then old(work).(payments := old(work).payments[b := N]) else old(work)
    {
      if b in work.payments {
        work := work.(payments := work.payments[b := N]);
      }
    }

    method CancelSeatRows(b: nat)
      requires Valid()
      modifies this`work
      ensures Valid() && work == old(work).(seats := CancelRows(old(work).seats, b))
    {
      work := work.(seats := CancelRows(work.seats, b));
    }

    method Commit()
      requires Valid()
      modifies this`committed
      ensures Idle() && committed == work
    {
      committed := work;
    }

    method Rollback()
      requires Valid()
      modifies this`work
      ensures Idle()
    {
      work := committed;
    }
  }

  /** Inserting seats touches nothing but the seat rows. */
  lemma {:induction false} InsertSeatsFrame<S>(t: Tables<S>, b: nat, ev: int, seats: seq<S>)
    ensures var r := InsertSeats(t, b, ev, seats); r.Ok? ==>
            r.value.bookings == t.bookings && r.value.payments == t.payments && r.value.events == t.events
  {
    if seats != [] {
      InsertSeatsFrame(t, b, ev, seats[..|seats| - 1]);
    }
  }

  /** A statement of a series that fails is the failure of the whole series. */
  lemma {:induction false} InsertSeatsPrefixFails<S>(t: Tables<S>, b: nat, ev: int, seats: seq<S>, i: nat)
    requires i <= |seats| && InsertSeats(t, b, ev, seats[..i]).Err?
    ensures InsertSeats(t, b, ev, seats) == InsertSeats(t, b, ev, seats[..i])
  {
    if i == |seats| {
      assert seats[..i] == seats;
    } else {
      var n := |seats| - 1;
      assert seats[..n][..i] == seats[..i];
      InsertSeatsPrefixFails(t, b, ev, seats[..n], i);
    }
  }
}
