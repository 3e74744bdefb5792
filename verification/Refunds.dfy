/** Refunds of theater and concert bookings. */
module Refunds {
  import opened Wrappers
  import opened BookingTables
  import opened Database

  /**
   A refund; the theater and the concert endpoint run the same statements on tables of the
   same shape. failAt numbers the statement at which the link to the database fails; with a
   negative number it never does; commit tells how the commit ends. Lost is the 500 reply:
   the refund is done nevertheless iff it reached a commit that raised after it was applied.
   */
  method RunRefund<S(==)>(conn: Connection<S>, userId: int, b: nat, failAt: int, commit: CallOutcome)
    returns (r: Result<RefundReply, DbError>)
    requires conn.Idle()
    modifies conn
    ensures conn.Idle()
    ensures var guard := RefundGuard(old(conn.committed), userId, b);
            && r == (if failAt == 0 then Err(Lost)
                     else if guard != REFUNDED then Ok(guard)
                     else if 1 <= failAt <= 4 || commit != Returned then Err(Lost)
                     else Ok(REFUNDED))
            && conn.committed == (if guard == REFUNDED && !(0 <= failAt <= 4) && commit != RaisedUnapplied
                                  then Refund(old(conn.committed), b) else old(conn.committed))
    ensures r == Ok(NOT_FOUND) <==>
            failAt != 0 && (b !in old(conn.committed).bookings || old(conn.committed).bookings[b].userId != userId)
    ensures r == Ok(ALREADY_CANCELED) <==>
            && failAt != 0 && b in old(conn.committed).bookings
            && old(conn.committed).bookings[b].userId == userId && old(conn.committed).bookings[b].status == CANCEL
    ensures r == Ok(REFUNDED) <==>
            && !(0 <= failAt <= 4) && commit == Returned && b in old(conn.committed).bookings
            && old(conn.committed).bookings[b].userId == userId && old(conn.committed).bookings[b].status == PAID
    ensures if && !(0 <= failAt <= 4) && commit != RaisedUnapplied && b in old(conn.committed).bookings
               && old(conn.committed).bookings[b].userId == userId && old(conn.committed).bookings[b].status == PAID
            then RefundedFrom(old(conn.committed), conn.committed, b)
            else conn.committed == old(conn.committed)
  {
    if b in conn.committed.bookings {
      RefundExact(conn.committed, b);
    }
    if failAt == 0 { conn.Rollback(); return Err(Lost); }
    if b !in conn.work.bookings || conn.work.bookings[b].userId != userId {
      conn.Rollback();
      return Ok(NOT_FOUND);
    }
    if conn.work.bookings[b].status == CANCEL {
      conn.Rollback();
      return Ok(ALREADY_CANCELED);
    }
    if failAt == 1 { conn.Rollback(); return Err(Lost); }
    conn.UpdateBooking(b, conn.work.bookings[b].(status := CANCEL));
    if failAt == 2 { conn.Rollback(); return Err(Lost); }
    conn.UnpayBooking(b);
    if failAt == 3 { conn.Rollback(); return Err(Lost); }
    conn.CancelSeatRows(b);
    if failAt == 4 { conn.Rollback(); return Err(Lost); }
    if commit != RaisedUnapplied {
      conn.Commit();
    }
    if commit != Returned {
      conn.Rollback();
      return Err(Lost);
    }
    r := Ok(REFUNDED);
  }
}
