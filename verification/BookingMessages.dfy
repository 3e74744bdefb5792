/** Messages on the booking queue and the result documents the worker stores for them. */
module BookingMessages {
  import opened Wrappers
  import opened BookingTables
  import opened SeatKeys

  type Ref = string

  /** Body of a queue message as it is sent: seats as "row-col" keys. */
  datatype Body = Body(bookingType: string, userId: int, eventId: int, seats: seq<string>)

  /** The message as the worker reads it: seats parsed, unreadable keys dropped. */
  datatype Message =
    | ConcertMsg(userId: int, showId: int, seats: SeatList)
    | TheaterMsg(userId: int, scheduleId: int, seats: SeatList)

  /** A type other than "concert" is handled as theater. */
  function ReadBody(body: Body): Message {
    if body.bookingType == "concert" then ConcertMsg(body.userId, body.eventId, ParseAll(body.seats))
    else TheaterMsg(body.userId, body.eventId, ParseAll(body.seats))
  }

  datatype Code = NO_SUCH_EVENT | INVALID_SEAT | SOLD_OUT | DUPLICATE_SEAT | ERROR

  datatype ResultDoc = Success(bookingId: nat, remainAfter: int) | Failed(code: Code)

  /**
   How a booking transaction ends: ready to commit with the given tables, rolled back
   by a guard of the worker, or stopped by a raised database error.
   */
  datatype TxEnd<S> =
    | Commit(after: Tables<S>, bookingId: nat, remainAfter: int)
    | Refuse(code: Code)
    | Raise(error: DbError)

  /** The worker's except clauses. */
  function ErrorCode(e: DbError): Code {
    if IsIntegrity(e) then DUPLICATE_SEAT else ERROR
  }
}
