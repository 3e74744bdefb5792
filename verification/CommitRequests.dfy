/**
 write-api: the commit endpoints of concerts and theaters, the message they send, and
 the status poll. The queue, the status keys and the seat holds are shared stores; how
 each remote call ends is a parameter.
 */
module CommitRequests {
  import opened Wrappers
  import opened Sequences
  import opened SeatKeys
  import opened BookingMessages
  import opened BookingProtocol
  import opened BookingStatus
  import opened WorkerDelivery
  import opened SeatHold
  import BT = BookingTables
  import CB = ConcertBooking

  datatype SentMessage = SentMessage(ref: Ref, body: Body)

  /** ServerError stands for the exception that leaves the endpoint. */
  datatype CommitReply =
    | BadRequest | NoSeats | BadSeatKey | SalesClosed | DuplicateSeat | ServerError
    | Queued(ref: Ref)

  /** The seats a commit request asks for: each once, in order of first mention. */
  function Wanted(items: seq<string>): (seats: SeatList)
    ensures Distinct(seats)
    ensures Readable(items) && items != [] ==> seats != []
  {
    FirstOccurrencesDistinct(ParseAll(items));
    WantedNotEmpty(items);
    FirstOccurrences(ParseAll(items))
  }

  lemma WantedNotEmpty(items: seq<string>)
    ensures Readable(items) && items != [] ==> FirstOccurrences(ParseAll(items)) != []
  {
    if Readable(items) {
      SeatListIsLossless(items);
    }
  }

  /** The worker reads back from a message exactly the wanted list. */
  lemma {:induction false} MessageReadsBack(items: seq<string>, userId: int, ev: int)
    ensures ReadBody(Body("concert", userId, ev, FormatAll(Wanted(items)))) == ConcertMsg(userId, ev, Wanted(items))
    ensures ReadBody(Body("theater", userId, ev, FormatAll(Wanted(items)))) == TheaterMsg(userId, ev, Wanted(items))
    ensures Readable(items) && items != [] ==> Wanted(items) != []
  {
    ParseAllFormatAll(Wanted(items));
    if Readable(items) && items != [] {
      SeatListIsLossless(items);
    }
  }

  /** The loop of both endpoints over the submitted seat keys. */
  method Collect(items: seq<string>) returns (r: Option<SeatList>)
    ensures r == if Readable(items) then Some(Wanted(items)) else None
  {
    var collected := CollectSeats(items);
    assert Positive(FirstOccurrences(ParseAll(items))) by {
      FirstOccurrencesDistinct(ParseAll(items));
    }
    r := if collected.Some? then Some(collected.value) else None;
  }

  /** The booking_ref of a message: a usable supplied one, otherwise a fresh one. */
  function ChosenRef(isUuid: Ref -> bool, supplied: Option<Ref>, newRef: Ref): Ref {
    match supplied
    case None => newRef
    case Some(text) => if text != "" && isUuid(Strip(text)) then Strip(text) else newRef
  }

  class BookingClient {
    const sqsReady: bool
    const stateEnabled: bool
    const isUuid: Ref -> bool
    const store: BookingStore
    var queue: seq<SentMessage>

    constructor (sqsReady: bool, stateEnabled: bool, isUuid: Ref -> bool, store: BookingStore)
      ensures this.sqsReady == sqsReady && this.stateEnabled == stateEnabled && this.isUuid == isUuid
      ensures this.store == store && queue == []
    {
      this.sqsReady, this.stateEnabled, this.isUuid, this.store, queue := sqsReady, stateEnabled, isUuid, store, [];
    }

    /** _mark_booking_queued: an exception is swallowed, applied or not. */
    method MarkQueued(ref: Ref, outcome: CallOutcome)
      modifies store`queued
      ensures store.queued == old(store.queued) + if stateEnabled && !outcome.RaisedUnapplied? then {ref} else {}
    {
      if !stateEnabled {
        return;
      }
      if outcome != RaisedUnapplied {
        store.queued := store.queued + {ref};
      }
    }

    /**
     send_booking_message. A ref is returned iff the send was acknowledged; the message is
     on the queue iff it was accepted, and only a returned ref is marked.
     */
    method Send(supplied: Option<Ref>, newRef: Ref, body: Body, send: CallOutcome, mark: CallOutcome)
      returns (r: Result<Ref, ()>)
      requires isUuid(newRef)
      modifies this`queue, store`queued
      ensures r == if sqsReady && send.Returned? then Ok(ChosenRef(isUuid, supplied, newRef)) else Err(())
      ensures queue == if sqsReady && !send.RaisedUnapplied?
                       then old(queue) + [SentMessage(ChosenRef(isUuid, supplied, newRef), body)] else old(queue)
      ensures store.queued == if r.Ok? && stateEnabled && !mark.RaisedUnapplied?
                              then old(store.queued) + {r.value} else old(store.queued)
      ensures r.Ok? ==> isUuid(r.value)
      ensures r.Ok? ==> r.value == if supplied.Some? && supplied.value != "" && isUuid(Strip(supplied.value))
                                   then Strip(supplied.value) else newRef
    {
      var ref := newRef;
      if supplied.Some? && supplied.value != "" {
        ref := Strip(supplied.value);
      }
      if !isUuid(ref) {
        ref := newRef;
      }
      if !sqsReady {
        return Err(());
      }
      if send != RaisedUnapplied {
        queue := queue + [SentMessage(ref, body)];
      }
      if send != Returned {
        return Err(());
      }
      MarkQueued(ref, mark);
      r := Ok(ref);
    }

    /**
     get_booking_status_dict when nothing else moves between its two reads. An exception of
     the result read leaves the endpoint; one of the queued read counts as an absent key.
     */
    method GetStatus(given: Ref, resultRaises: bool, queuedRaises: bool) returns (r: Result<PollReply, ()>)
      ensures r == if !isUuid(Strip(given)) then Ok(InvalidRef)
                   else if !stateEnabled then Ok(UnknownOrExpired)
                   else if resultRaises then Err(())
                   else Ok(PollReplyOf(if Strip(given) in store.results then Some(store.results[Strip(given)])
                                       else None,
                                       Strip(given) in store.queued && !queuedRaises))
      ensures r == Err(()) <==> isUuid(Strip(given)) && stateEnabled && resultRaises
      ensures r == Ok(InvalidRef) <==> !isUuid(Strip(given))
      ensures forall doc :: r == Ok(Final(doc)) <==>
                && isUuid(Strip(given)) && stateEnabled && !resultRaises
                && Strip(given) in store.results && store.results[Strip(given)] == doc
      ensures r == Ok(InProgress) <==>
              && isUuid(Strip(given)) && stateEnabled && !resultRaises
              && Strip(given) !in store.results && Strip(given) in store.queued && !queuedRaises
      ensures r == Ok(UnknownOrExpired) <==>
              && isUuid(Strip(given))
              && (stateEnabled ==>
                    && !resultRaises && Strip(given) !in store.results
                    && (Strip(given) !in store.queued || queuedRaises))
    {
      var ref := Strip(given);
      if !isUuid(ref) {
        return Ok(InvalidRef);
      }
      if stateEnabled {
        if resultRaises {
          return Err(());
        }
        if ref in store.results {
          return Ok(Final(store.results[ref]));
        }
        if !queuedRaises && ref in store.queued {
          return Ok(InProgress);
        }
      }
      r := Ok(UnknownOrExpired);
    }

    /** The last part of commit_concert_booking: hold the seats, then send. */
    method HoldAndSend(userId: int, showId: int, seats: SeatList, newRef: Ref, holds: HoldStore, ttlSec: int,
                       secondAt: int, deleteAt: int, calls: HoldCalls, send: CallOutcome, mark: CallOutcome)
      returns (reply: CommitReply)
      requires isUuid(newRef) && Strip(newRef) == newRef != "" && holds.redis.now <= secondAt <= deleteAt
      requires seats != [] && Distinct(seats)
      modifies this`queue, store`queued, holds
      ensures reply ==
        if calls.acquire != Returned then ServerError
        else if forall s :: s in seats ==> Key(showId, s) !in old(holds.redis).holds then
          if calls.add == Returned && sqsReady && send == Returned then Queued(newRef) else ServerError
        else if Key(showId, seats[0]) in old(holds.redis).holds || (calls.read == Returned && calls.delete == Returned)
        then DuplicateSeat else ServerError
      ensures holds.redis == TryHold(old(holds.redis), showId, seats, newRef, ttlSec, secondAt, deleteAt, calls)
      ensures reply.Queued? ==> HeldIn(old(holds.redis), holds.redis, showId, seats, newRef, ttlSec, secondAt)
      ensures queue ==
        if && (forall s :: s in seats ==> Key(showId, s) !in old(holds.redis).holds)
           && calls.acquire == Returned && calls.add == Returned && sqsReady && send != RaisedUnapplied
        then old(queue) + [SentMessage(newRef, Body("concert", userId, showId, FormatAll(seats)))] else old(queue)
      ensures store.queued == if reply.Queued? && stateEnabled && !mark.RaisedUnapplied?
                              then old(store.queued) + {newRef} else old(store.queued)
    {
      var hold := holds.TryHoldSeats(showId, seats, newRef, ttlSec, secondAt, deleteAt, calls);
      if hold == RAISED {
        return ServerError;
      }
      if hold != HELD {
        return DuplicateSeat;
      }
      var sent := Send(Some(newRef), newRef, Body("concert", userId, showId, FormatAll(seats)), send, mark);
      reply := if sent.Ok? then Queued(sent.value) else ServerError;
    }

    /**
     commit_concert_booking. The seats held are the seats of the message, and the message
     reads back at the worker as exactly the wanted list. A free request is queued, one for
     a seat somebody holds is DUPLICATE_SEAT. An exception of a hold pipeline or of the send
     leaves the endpoint as it is: keys may stay held until their TTL, and the message may be
     queued under a ref nobody was told.
     */
    method CommitConcert(userId: int, showId: int, items: seq<string>, open: bool, newRef: Ref, holds: HoldStore,
                         ttlSec: int, secondAt: int, deleteAt: int, calls: HoldCalls, send: CallOutcome,
                         mark: CallOutcome)
      returns (reply: CommitReply)
      requires isUuid(newRef) && Strip(newRef) == newRef != "" && holds.redis.now <= secondAt <= deleteAt
      modifies this`queue, store`queued, holds
      ensures reply ==
        if userId <= 0 || showId <= 0 then BadRequest
        else if items == [] then NoSeats
        else if !Readable(items) then BadSeatKey
        else if !open then SalesClosed
        else if calls.acquire != Returned then ServerError
        else if forall s :: s in Wanted(items) ==> Key(showId, s) !in old(holds.redis).holds then
          if calls.add == Returned && sqsReady && send == Returned then Queued(newRef) else ServerError
        else if Key(showId, Wanted(items)[0]) in old(holds.redis).holds
                || (calls.read == Returned && calls.delete == Returned)
        then DuplicateSeat else ServerError
      ensures holds.redis ==
        if reply.DuplicateSeat? || reply.ServerError? || reply.Queued?
        then TryHold(old(holds.redis), showId, Wanted(items), newRef, ttlSec, secondAt, deleteAt, calls)
        else old(holds.redis)
      ensures reply.Queued? ==> HeldIn(old(holds.redis), holds.redis, showId, Wanted(items), newRef, ttlSec, secondAt)
      ensures if && (reply.Queued? || reply.ServerError?) && sqsReady && send != RaisedUnapplied
                 && calls.acquire == Returned && calls.add == Returned
                 && (forall s :: s in Wanted(items) ==> Key(showId, s) !in old(holds.redis).holds)
        then |queue| == |old(queue)| + 1 && queue[..|old(queue)|] == old(queue) && queue[|old(queue)|].ref == newRef
             && ReadBody(queue[|old(queue)|].body) == ConcertMsg(userId, showId, Wanted(items))
        else queue == old(queue)
      ensures store.queued == if reply.Queued? && stateEnabled && !mark.RaisedUnapplied?
                              then old(store.queued) + {newRef} else old(store.queued)
    {
      if userId <= 0 || showId <= 0 {
        return BadRequest;
      }
      if items == [] {
        return NoSeats;
      }
      var collected := Collect(items);
      if collected.None? {
        return BadSeatKey;
      }
      MessageReadsBack(items, userId, showId);
      if !open {
        return SalesClosed;
      }
      reply := HoldAndSend(userId, showId, collected.value, newRef, holds, ttlSec, secondAt, deleteAt, calls, send,
                           mark);
    }

    /** commit_booking of theaters: the same without sale state and hold. */
    method CommitTheater(userId: int, scheduleId: int, items: seq<string>, newRef: Ref, send: CallOutcome,
                         mark: CallOutcome)
      returns (reply: CommitReply)
      requires isUuid(newRef)
      modifies this`queue, store`queued
      ensures reply ==
        if userId <= 0 || scheduleId <= 0 then BadRequest
        else if items == [] then NoSeats
        else if !Readable(items) then BadSeatKey
        else if !sqsReady || !send.Returned? then ServerError
        else Queued(newRef)
      ensures if reply.Queued? || (reply.ServerError? && sqsReady && send.RaisedApplied?)
        then |queue| == |old(queue)| + 1 && queue[..|old(queue)|] == old(queue) && queue[|old(queue)|].ref == newRef
             && ReadBody(queue[|old(queue)|].body) == TheaterMsg(userId, scheduleId, Wanted(items))
        else queue == old(queue)
      ensures store.queued == if reply.Queued? && stateEnabled && !mark.RaisedUnapplied?
                              then old(store.queued) + {newRef} else old(store.queued)
    {
      if userId <= 0 || scheduleId <= 0 {
        return BadRequest;
      }
      if items == [] {
        return NoSeats;
      }
      var collected := Collect(items);
      if collected.None? {
        return BadSeatKey;
      }
      MessageReadsBack(items, userId, scheduleId);
      var body := Body("theater", userId, scheduleId, FormatAll(collected.value));
      var sent := Send(None, newRef, body, send, mark);
      reply := if sent.Ok? then Queued(sent.value) else ServerError;
    }
  }

  /** The grid and ownership checks look only at which seats a list names. */
  lemma ChecksIgnoreRepetition(show: CB.Show, rows: seq<BT.SeatRow<Seat>>, ev: int, a: seq<Seat>, b: seq<Seat>)
    requires forall s :: s in a ==> s in b
    ensures CB.AllInGrid(show, b) ==> CB.AllInGrid(show, a)
    ensures BT.AllFree(rows, ev, b) ==> BT.AllFree(rows, ev, a)
  {
    forall i | 0 <= i < |a|
      ensures exists j :: 0 <= j < |b| && b[j] == a[i]
    {
      assert a[i] in b;
    }
  }

  /**
   The commit endpoint and the worker together: a concert request the endpoint accepted is
   never turned down for an empty, unreadable or repeated seat. With a known user it books
   iff its show exists, its seats are in the grid and none of them is owned.
   */
  lemma {:induction false} CommittedRequestBooksIff(cat: CB.Catalog, users: set<int>, t: BT.Tables<Seat>, userId: int,
                                                    showId: int, items: seq<string>, b: nat)
    requires Readable(items) && items != []
    requires cat.Keys == t.events.Keys && b !in t.payments && userId in users
    ensures CB.ConcertTx(cat, users, t, userId, showId, Wanted(items), b).Commit? <==>
            && showId in cat
            && CB.AllInGrid(cat[showId], ParseAll(items))
            && BT.AllFree(t.seats, showId, ParseAll(items))
  {
    SeatListIsLossless(items);
    CB.ConcertCommitsIff(cat, users, t, userId, showId, Wanted(items), b);
    if showId in cat {
      ChecksIgnoreRepetition(cat[showId], t.seats, showId, Wanted(items), ParseAll(items));
      ChecksIgnoreRepetition(cat[showId], t.seats, showId, ParseAll(items), Wanted(items));
    }
  }
}
