/**
 One delivery of a queue message to the worker: the handler as it runs, statement by
 statement, and exactly when the result it stores tells the truth.
 */
module WorkerDelivery {
  import opened Wrappers
  import opened BookingTables
  import opened BookingMessages
  import opened BookingProtocol
  import opened BookingStatus
  import opened Database
  import opened SeatKeys
  import opened Sequences
  import CB = ConcertBooking
  import TB = TheaterBooking

  /** The part of the system a handler works on. */
  datatype View = View(db: Db, results: map<Ref, ResultDoc>, queued: set<Ref>)

  /** What the environment does to one delivery after its duplicate check. */
  datatype Weather = Weather(fault: Fault, write1: CallOutcome, write2: CallOutcome, unmarked: bool)

  datatype Handled = Handled(view: View, ack: bool)

  /** setex of the result, then, unless it raised, the delete of the queued key. */
  function Store(v: View, ref: Ref, doc: ResultDoc, outcome: CallOutcome, unmarked: bool): View {
    var results := if outcome.RaisedUnapplied? then v.results else v.results[ref := doc];
    View(v.db, results, if outcome.Returned? && unmarked then v.queued - {ref} else v.queued)
  }

  /** From the ended transaction, whose fault is already in a, to the acknowledgement decision. */
  function Finish(v: View, ref: Ref, a: Attempt, wx: Weather): Handled {
    var v1 := Store(v.(db := a.db), ref, a.doc, wx.write1, wx.unmarked);
    if wx.write1.Returned? then Handled(v1, true)
    else if a.inHandler then Handled(v1, false)
    else Handled(Store(v1, ref, Failed(ERROR), wx.write2, wx.unmarked), wx.write2.Returned?)
  }

  /** _handle_one_sqs_message. */
  function Handle(cat: Catalog, v: View, ref: Ref, msg: Message, b: nat, readFails: bool, wx: Weather): Handled
    requires Shaped(cat, v.db)
  {
    if ref in v.results && !readFails then Handled(v, true)
    else Finish(v, ref, Transact(cat, v.db, msg, b, wx.fault), wx)
  }

  // ---------------------------------------------------------- the code itself

  class BookingStore {
    var results: map<Ref, ResultDoc>
    var queued: set<Ref>

    constructor ()
      ensures results == map[] && queued == {}
    {
      results, queued := map[], {};
    }

    /** Redis setex of booking:result:{ref}; raised tells whether the client saw an exception. */
    method Setex(ref: Ref, doc: ResultDoc, outcome: CallOutcome) returns (raised: bool)
      modifies this`results
      ensures results == if outcome.RaisedUnapplied? then old(results) else old(results)[ref := doc]
      ensures raised == !outcome.Returned?
    {
      if outcome != RaisedUnapplied {
        results := results[ref := doc];
      }
      raised := outcome != Returned;
    }

    /** store_result: an exception of the delete is swallowed, one of the write is not. */
    method StoreResult(ref: Ref, doc: ResultDoc, outcome: CallOutcome, unmarked: bool, ghost db: Db)
      returns (raised: bool)
      modifies this
      ensures View(db, results, queued) == Store(View(db, old(results), old(queued)), ref, doc, outcome, unmarked)
      ensures raised == !outcome.Returned?
      ensures results == if outcome == RaisedUnapplied then old(results) else old(results)[ref := doc]
      ensures queued == if outcome == Returned && unmarked then old(queued) - {ref} else old(queued)
    {
      raised := Setex(ref, doc, outcome);
      if !raised && unmarked {
        queued := queued - {ref};
      }
    }
  }

  ghost function FaultOf<S>(end: TxEnd<S>, lost: bool, commit: CallOutcome): Fault {
    if lost then Aborted
    else if end.Commit? && commit.RaisedUnapplied? then Aborted
    else if end.Commit? && commit.RaisedApplied? then CommitUnacknowledged
    else NoFault
  }

  /** Commit or roll back what the statements left, and name the document to store. */
  method EndTransaction<S(==)>(conn: Connection<S>, end: TxEnd<S>, commit: CallOutcome, ghost db: Db,
                          ghost committedDb: Db)
    returns (doc: ResultDoc, inHandler: bool, committed: bool)
    requires conn.Valid() && (end.Commit? ==> end.after == conn.work)
    modifies conn
    ensures conn.Idle()
    ensures committed ==> end.Commit?
    ensures conn.committed == if committed then end.after else old(conn.committed)
    ensures Settle(db, end, committedDb, FaultOf(end, end == Raise(Lost), commit))
            == Attempt(if committed then committedDb else db, doc, inHandler, committed)
    ensures committed <==> end.Commit? && commit != RaisedUnapplied
    ensures doc ==
      match end
      case Refuse(code) => Failed(code)
      case Raise(e) => Failed(if e == DuplicateKey || e == ForeignKey then DUPLICATE_SEAT else ERROR)
      case Commit(_, b, remain) => if commit == Returned then Success(b, remain) else Failed(ERROR)
    ensures inHandler <==> end.Raise? || (end.Commit? && commit != Returned)
  {
    match end
    case Refuse(code) =>
      conn.Rollback();
      return Failed(code), false, false;
    case Raise(e) =>
      conn.Rollback();
      return Failed(ErrorCode(e)), true, false;
    case Commit(_, b, remain) =>
      match commit {
        case Returned =>
          conn.Commit();
          return Success(b, remain), false, true;
        case RaisedUnapplied =>
          conn.Rollback();
          return Failed(ERROR), true, false;
        case RaisedApplied =>
          conn.Commit();
          conn.Rollback();
          return Failed(ERROR), true, true;
      }
  }

  /** The result writes around a transaction, with the second one in the except clause. */
  method StoreOutcome(store: BookingStore, ref: Ref, doc: ResultDoc, inHandler: bool, wx: Weather, ghost db: Db,
                      ghost a: Attempt)
    returns (returned: bool)
    requires a.doc == doc && a.inHandler == inHandler
    modifies store
    ensures Finish(View(db, old(store.results), old(store.queued)), ref, a, wx)
            == Handled(View(a.db, store.results, store.queued), returned)
  {
    var raised := store.StoreResult(ref, doc, wx.write1, wx.unmarked, a.db);
    if raised && !inHandler {
      raised := store.StoreResult(ref, Failed(ERROR), wx.write2, wx.unmarked, a.db);
    }
    returned := !raised;
  }

  lemma ConcertEndNotLost(cat: Catalog, db: Db, msg: Message, b: nat)
    requires Shaped(cat, db) && msg.ConcertMsg? && b !in db.concert.payments
    ensures ConcertEnd(cat, db, msg, b) != Raise(Lost)
  {
    if msg.showId in cat.shows {
      InsertAllExact(db.concert, cat.users, b, msg.userId, msg.showId, msg.seats);
    }
  }

  lemma TheaterEndNotLost(cat: Catalog, db: Db, msg: Message, b: nat)
    requires Shaped(cat, db) && msg.TheaterMsg? && b !in db.theater.payments
    ensures TheaterEnd(cat, db, msg, b) != Raise(Lost)
  {
    var t, ev := db.theater, msg.scheduleId;
    if TB.Known(cat.theater, ev) {
      var ids := TB.ResolveSeats(cat.theater, cat.theater.screenings[ev].hallId, msg.seats);
      if ids.Some? {
        var charged := TB.WithEvent(t, ev, TB.TakeSeats(t.events[ev], |msg.seats|));
        InsertAllExact(charged, cat.users, b, msg.userId, ev, ids.value);
      }
    }
  }

  /**
   process_concert_booking. failAt numbers the statement at which the link to the
   database fails, negative: never; fault names what that and the commit amounted to.
   */
  method ProcessConcert(cat: Catalog, conn: Connection<Seat>, store: BookingStore, ref: Ref, msg: Message,
                        failAt: int, commit: CallOutcome, wx: Weather, ghost db: Db)
    returns (returned: bool, ghost fault: Fault)
    requires conn.Idle() && conn.users == cat.users
    requires db.concert == conn.committed && Shaped(cat, db) && msg.ConcertMsg?
    modifies conn, store
    ensures conn.Idle()
    ensures failAt < 0 && commit.Returned? ==> fault == NoFault
    ensures Finish(View(db, old(store.results), old(store.queued)), ref,
                   Transact(cat, db, msg, old(conn.nextId), fault), wx)
            == Handled(View(db.(concert := conn.committed), store.results, store.queued), returned)
  {
    ghost var b := conn.nextId;
    ConcertEndNotLost(cat, db, msg, b);
    var end := CB.RunConcertStatements(cat.shows, conn, msg.userId, msg.showId, msg.seats, failAt);
    fault := FaultOf(end, end == Raise(Lost), commit);
    ghost var after := if end.Commit? then db.(concert := end.after) else db;
    var doc, inHandler, committed := EndTransaction(conn, end, commit, db, after);
    returned := StoreOutcome(store, ref, doc, inHandler, wx, db, Transact(cat, db, msg, b, fault));
  }

  /** process_theater_booking, likewise. */
  method ProcessTheater(cat: Catalog, conn: Connection<nat>, store: BookingStore, ref: Ref, msg: Message,
                        failAt: int, commit: CallOutcome, wx: Weather, ghost db: Db)
    returns (returned: bool, ghost fault: Fault)
    requires conn.Idle() && conn.users == cat.users
    requires db.theater == conn.committed && Shaped(cat, db) && msg.TheaterMsg?
    modifies conn, store
    ensures conn.Idle()
    ensures failAt < 0 && commit.Returned? ==> fault == NoFault
    ensures Finish(View(db, old(store.results), old(store.queued)), ref,
                   Transact(cat, db, msg, old(conn.nextId), fault), wx)
            == Handled(View(db.(theater := conn.committed), store.results, store.queued), returned)
  {
    ghost var b := conn.nextId;
    TheaterEndNotLost(cat, db, msg, b);
    var end := TB.RunTheaterStatements(cat.theater, conn, msg.userId, msg.scheduleId, msg.seats, failAt);
    fault := FaultOf(end, end == Raise(Lost), commit);
    ghost var after := if end.Commit? then db.(theater := end.after) else db;
    var doc, inHandler, committed := EndTransaction(conn, end, commit, db, after);
    returned := StoreOutcome(store, ref, doc, inHandler, wx, db, Transact(cat, db, msg, b, fault));
  }

  /** The handler over the worker's two databases and the status store. */
  method HandleMessage(cat: Catalog, concert: Connection<Seat>, theater: Connection<nat>, store: BookingStore,
                       ref: Ref, body: Body, readFails: bool, failAt: int, commit: CallOutcome, wx: Weather)
    returns (ack: bool, ghost fault: Fault)
    requires concert.Idle() && theater.Idle() && concert.users == cat.users && theater.users == cat.users
    requires Shaped(cat, Db(concert.committed, theater.committed))
    modifies concert, theater, store
    ensures concert.Idle() && theater.Idle()
    ensures failAt < 0 && commit.Returned? ==> fault == NoFault
    ensures var v := View(Db(old(concert.committed), old(theater.committed)), old(store.results), old(store.queued));
            var b := if ReadBody(body).ConcertMsg? then old(concert.nextId) else old(theater.nextId);
            Handle(cat, v, ref, ReadBody(body), b, readFails, wx.(fault := fault))
            == Handled(View(Db(concert.committed, theater.committed), store.results, store.queued), ack)
    ensures ref in old(store.results) && !readFails ==>
      && ack && concert.committed == old(concert.committed) && theater.committed == old(theater.committed)
      && store.results == old(store.results) && store.queued == old(store.queued)
    ensures (ref !in old(store.results) || readFails) && wx.write1 == Returned ==>
      && ack && ref in store.results && store.results == old(store.results)[ref := store.results[ref]]
      && store.queued == if wx.unmarked then old(store.queued) - {ref} else old(store.queued)
    ensures (ref !in old(store.results) || readFails) && wx.write1 != Returned && ack ==>
      && wx.write2 == Returned && ref in store.results && store.results[ref] == Failed(ERROR)
      && store.queued == if wx.unmarked then old(store.queued) - {ref} else old(store.queued)
    ensures !ack ==> wx.write1 != Returned && store.queued == old(store.queued)
    ensures body.bookingType != "concert" ==> concert.committed == old(concert.committed)
    ensures body.bookingType == "concert" ==> theater.committed == old(theater.committed)
  {
    fault := NoFault;
    if ref in store.results && !readFails {
      return true, NoFault;
    }
    var msg := ReadBody(body);
    ghost var db := Db(concert.committed, theater.committed);
    match msg
    case ConcertMsg(_, _, _) =>
      ack, fault := ProcessConcert(cat, concert, store, ref, msg, failAt, commit, wx, db);
    case TheaterMsg(_, _, _) =>
      ack, fault := ProcessTheater(cat, theater, store, ref, msg, failAt, commit, wx, db);
  }

  // ---------------------------------------------------- repeated attempts

  /**
   A message whose concert booking is still paid cannot book again: whatever the id, the
   repeated transaction ends in the duplicate key error. So a redelivery that gets past
   the duplicate check stores DUPLICATE_SEAT over a committed booking.
   */
  lemma RepeatedConcertAttempt(cat: Catalog, db: Db, msg: Message, c: nat, b: nat)
    requires Shaped(cat, db) && msg.ConcertMsg? && TableInv(db.concert) && CB.SeatsInGrid(cat.shows, db.concert)
    requires c in db.concert.bookings && db.concert.bookings[c].status.PAID? && msg.userId in cat.users
    requires db.concert.bookings[c].eventId == msg.showId && SeatsOf(db.concert.seats, c) == msg.seats
    requires b !in db.concert.payments
    ensures Transact(cat, db, msg, b, NoFault) == Attempt(db, Failed(DUPLICATE_SEAT), true, false)
  {
    var t := db.concert;
    assert BookingComplete(t, c);
    forall i | 0 <= i < |msg.seats|
      ensures CB.InGrid(cat.shows[msg.showId], msg.seats[i])
    {
      var j := SeatHasRow(t.seats, c, i);
    }
    PaidOwnsItsSeats(t, c, 0);
    InsertAllExact(t, cat.users, b, msg.userId, msg.showId, msg.seats);
  }

  /** The theater counterpart; an exhausted counter answers before the index does. */
  lemma RepeatedTheaterAttempt(cat: Catalog, db: Db, msg: Message, c: nat, b: nat)
    requires Shaped(cat, db) && msg.TheaterMsg? && TableInv(db.theater) && TB.ValidCatalog(cat.theater)
    requires c in db.theater.bookings && db.theater.bookings[c].status.PAID? && msg.userId in cat.users
    requires db.theater.bookings[c].eventId == msg.scheduleId && TB.Known(cat.theater, msg.scheduleId)
    requires TB.ResolveSeats(cat.theater, cat.theater.screenings[msg.scheduleId].hallId, msg.seats)
             == Some(SeatsOf(db.theater.seats, c))
    requires b !in db.theater.payments
    ensures Transact(cat, db, msg, b, NoFault)
            == if |msg.seats| <= db.theater.events[msg.scheduleId].remain
               then Attempt(db, Failed(DUPLICATE_SEAT), true, false)
               else Attempt(db, Failed(SOLD_OUT), false, false)
  {
    var t := db.theater;
    assert BookingComplete(t, c);
    PaidOwnsItsSeats(t, c, 0);
    var ev := msg.scheduleId;
    var row := TB.TakeSeats(t.events[ev], |msg.seats|);
    InsertAllExact(TB.WithEvent(t, ev, row), cat.users, b, msg.userId, ev, SeatsOf(t.seats, c));
  }

  // ------------------------------------------ a delivery is a run of the system

  /** States and actions of the protocol without the demand to start from scratch. */
  ghost predicate IsPath(cat: Catalog, states: seq<Sys>, actions: seq<Action>) {
    |states| == |actions| + 1 && forall k :: 0 <= k < |actions| ==> StepsTo(cat, states[k], actions[k], states[k + 1])
  }

  ghost function ViewOf(s: Sys): View {
    View(s.db, s.results, s.queued)
  }

  /** Nothing was sent and no booking was committed in between. */
  ghost predicate SameHistory(s: Sys, s': Sys) {
    s'.sent == s.sent && s'.concertOrigin == s.concertOrigin && s'.theaterOrigin == s.theaterOrigin
  }

  lemma SameCommitted(s: Sys, s': Sys, ref: Ref)
    requires SameHistory(s, s')
    ensures Committed(s', ref) <==> Committed(s, ref)
  {
    if Committed(s, ref) {
      var b :| Named(s, ref, b);
      assert Named(s', ref, b);
    }
    if Committed(s', ref) {
      var b :| Named(s', ref, b);
      assert Named(s, ref, b);
    }
  }

  ghost function Last(states: seq<Sys>): Sys
    requires states != []
  {
    states[|states| - 1]
  }

  lemma Extend(cat: Catalog, states: seq<Sys>, actions: seq<Action>, e: Action)
    requires IsPath(cat, states, actions) && Shaped(cat, Last(states).db) && Enabled(Last(states), e)
    ensures IsPath(cat, states + [Apply(cat, Last(states), e)], actions + [e])
  {
  }

  /** One result write of a worker, followed by its unmarking unless it raised. */
  lemma WriteIsPath(cat: Catalog, states: seq<Sys>, actions: seq<Action>, w: nat, outcome: CallOutcome, unmarked: bool)
    returns (states': seq<Sys>, actions': seq<Action>)
    requires IsPath(cat, states, actions) && Shaped(cat, Last(states).db)
    requires w in Last(states).workers && Last(states).workers[w].Storing?
    ensures IsPath(cat, states', actions') && states'[0] == states[0] && SameHistory(Last(states), Last(states'))
    ensures var pc := Last(states).workers[w];
            && ViewOf(Last(states')) == Store(ViewOf(Last(states)), pc.ref, pc.doc, outcome, unmarked)
            && (outcome.Returned? ==> w in Last(states').workers && Last(states').workers[w] == Acking(pc.ref))
            && (!outcome.Returned? && pc.inHandler ==> w !in Last(states').workers)
            && (!outcome.Returned? && !pc.inHandler ==>
                  w in Last(states').workers && Last(states').workers[w] == Storing(pc.ref, Failed(ERROR), true))
  {
    var e := StoreResult(w, outcome);
    Extend(cat, states, actions, e);
    states', actions' := states + [ApplyPlain(Last(states), e)], actions + [e];
    if outcome.Returned? {
      var f := Unmark(w, unmarked);
      Extend(cat, states', actions', f);
      states', actions' := states' + [ApplyPlain(Last(states'), f)], actions' + [f];
    }
  }

  /** The transaction step of a worker that passed its duplicate check. */
  lemma TxIsPath(cat: Catalog, states: seq<Sys>, actions: seq<Action>, w: nat, b: nat, fault: Fault)
    returns (states': seq<Sys>, actions': seq<Action>)
    requires IsPath(cat, states, actions) && Shaped(cat, Last(states).db) && Enabled(Last(states), RunTx(w, b, fault))
    ensures IsPath(cat, states', actions') && states'[0] == states[0]
    ensures var s, s' := Last(states), Last(states');
            var a := Transact(cat, s.db, s.sent[s.workers[w].ref], b, fault);
            && s' == ApplyAttempt(s, w, b, a)
            && ViewOf(s') == ViewOf(s).(db := a.db)
            && w in s'.workers && s'.workers[w] == Storing(s.workers[w].ref, a.doc, a.inHandler)
  {
    var e := RunTx(w, b, fault);
    Extend(cat, states, actions, e);
    states', actions' := states + [ApplyAttempt(Last(states), w, b, AttemptOf(cat, Last(states), e))], actions + [e];
  }

  lemma TransactKeepsShape(cat: Catalog, db: Db, msg: Message, b: nat, fault: Fault)
    requires ValidCatalog(cat) && Shaped(cat, db) && TableInv(db.concert) && TableInv(db.theater) && FreshId(db, msg, b)
    ensures Shaped(cat, Transact(cat, db, msg, b, fault).db)
  {
    var a := Transact(cat, db, msg, b, fault);
    if !a.committed {
      FailedAttemptChangesNothing(cat, db, msg, b, fault);
    } else if msg.ConcertMsg? {
      ConcertAttemptEffect(cat, db, msg, b, fault);
    } else {
      var _ := TheaterAttemptEffect(cat, db, msg, b, fault);
    }
  }

  lemma FinishIsPath(cat: Catalog, states: seq<Sys>, actions: seq<Action>, w: nat, v: View, a: Attempt, wx: Weather)
    returns (states': seq<Sys>, actions': seq<Action>)
    requires IsPath(cat, states, actions) && Shaped(cat, Last(states).db)
    requires w in Last(states).workers && Last(states).workers[w].Storing?
    requires var pc := Last(states).workers[w]; a.doc == pc.doc && a.inHandler == pc.inHandler
    requires ViewOf(Last(states)) == v.(db := a.db)
    ensures IsPath(cat, states', actions') && states'[0] == states[0] && SameHistory(Last(states), Last(states'))
    ensures var ref := Last(states).workers[w].ref;
            && ViewOf(Last(states')) == Finish(v, ref, a, wx).view
            && (Finish(v, ref, a, wx).ack <==> w in Last(states').workers && Last(states').workers[w] == Acking(ref))
  {
    states', actions' := WriteIsPath(cat, states, actions, w, wx.write1, wx.unmarked);
    if !wx.write1.Returned? && !a.inHandler {
      states', actions' := WriteIsPath(cat, states', actions', w, wx.write2, wx.unmarked);
    }
  }

  /** The delivery gets past the duplicate check. */
  predicate Processed(s: Sys, ref: Ref, readFails: bool) {
    ref !in s.results || readFails
  }

  lemma FreshIdIsFreshOrigin(cat: Catalog, s: Sys, ref: Ref, b: nat)
    requires OriginInv(cat, s) && ref in s.sent && FreshId(s.db, s.sent[ref], b)
    ensures FreshOrigin(s, ref, b)
  {
    forall c | c in s.concertOrigin
      ensures c in s.db.concert.bookings
    {
      assert ConcertFrom(s.sent, s.db.concert, c, s.concertOrigin[c]);
    }
    forall c | c in s.theaterOrigin
      ensures c in s.db.theater.bookings
    {
      assert TheaterFrom(cat.theater, s.sent, s.db.theater, c, s.theaterOrigin[c]);
    }
  }

  /** From the passed duplicate check to the end of the handler. */
  lemma ProcessIsPath(cat: Catalog, states: seq<Sys>, actions: seq<Action>, w: nat, b: nat, wx: Weather)
    returns (states': seq<Sys>, actions': seq<Action>)
    requires IsPath(cat, states, actions) && Shaped(cat, Last(states).db)
    requires Enabled(Last(states), RunTx(w, b, wx.fault))
    requires Shaped(cat, AttemptOf(cat, Last(states), RunTx(w, b, wx.fault)).db)
    requires FreshOrigin(Last(states), Last(states).workers[w].ref, b)
    ensures IsPath(cat, states', actions') && states'[0] == states[0]
    ensures var s, s', ref := Last(states), Last(states'), Last(states).workers[w].ref;
            var a := AttemptOf(cat, s, RunTx(w, b, wx.fault));
            && ViewOf(s') == Finish(ViewOf(s), ref, a, wx).view
            && (Finish(ViewOf(s), ref, a, wx).ack <==> w in s'.workers && s'.workers[w] == Acking(ref))
            && (Committed(s', ref) <==> Committed(s, ref) || a.committed)
  {
    var s, ref := Last(states), Last(states).workers[w].ref;
    var a := AttemptOf(cat, s, RunTx(w, b, wx.fault));
    states', actions' := TxIsPath(cat, states, actions, w, b, wx.fault);
    CommittedTx(s, w, b, a, ref);
    var mid := Last(states');
    states', actions' := FinishIsPath(cat, states', actions', w, ViewOf(s), a, wx);
    SameCommitted(mid, Last(states'), ref);
  }

  /** The delivery and its duplicate check. */
  lemma CheckIsPath(cat: Catalog, s: Sys, w: nat, ref: Ref, readFails: bool) returns (s1: Sys, s2: Sys)
    requires Shaped(cat, s.db) && Enabled(s, Receive(w, ref))
    ensures StepsTo(cat, s, Receive(w, ref), s1) && StepsTo(cat, s1, CheckResult(w, readFails), s2)
    ensures SameHistory(s, s2) && ViewOf(s2) == ViewOf(s)
    ensures w in s2.workers && s2.workers[w] == if Processed(s, ref, readFails) then Processing(ref) else Acking(ref)
  {
    s1 := ApplyPlain(s, Receive(w, ref));
    s2 := ApplyPlain(s1, CheckResult(w, readFails));
  }

  /**
   Running the handler alone is a path of the step system: it starts with the delivery
   and ends with the same tables and keys, the worker about to acknowledge iff the handler
   returned True, and the ref committed iff it was before or this delivery committed it.
   What holds of all runs holds of the handler.
   */
  lemma DeliveryIsPath(cat: Catalog, s: Sys, w: nat, ref: Ref, b: nat, readFails: bool, wx: Weather)
    returns (states: seq<Sys>, actions: seq<Action>)
    requires ValidCatalog(cat) && Shaped(cat, s.db) && TableInv(s.db.concert)
    requires TableInv(s.db.theater) && OriginInv(cat, s)
    requires Enabled(s, Receive(w, ref)) && ref in s.sent && FreshId(s.db, s.sent[ref], b)
    ensures IsPath(cat, states, actions) && states[0] == s
    ensures var h := Handle(cat, ViewOf(s), ref, s.sent[ref], b, readFails, wx);
            && ViewOf(Last(states)) == h.view
            && (h.ack <==> w in Last(states).workers && Last(states).workers[w] == Acking(ref))
    ensures Committed(Last(states), ref) <==>
            || Committed(s, ref)
            || (Processed(s, ref, readFails) && Transact(cat, s.db, s.sent[ref], b, wx.fault).committed)
  {
    var s1, s2 := CheckIsPath(cat, s, w, ref, readFails);
    states, actions := [s, s1, s2], [Receive(w, ref), CheckResult(w, readFails)];
    SameCommitted(s, s2, ref);
    if Processed(s, ref, readFails) {
      FreshIdIsFreshOrigin(cat, s, ref, b);
      TransactKeepsShape(cat, s.db, s.sent[ref], b, wx.fault);
      states, actions := ProcessIsPath(cat, states, actions, w, b, wx);
    }
  }

  // ------------------------------------------------- truth of one delivery

  /** A stored result is OK iff a booking was committed for its ref. */
  ghost predicate Truthful(s: Sys, ref: Ref)
    requires ref in s.results
  {
    s.results[ref].Success? <==> Committed(s, ref)
  }

  /**
   An acknowledged handler leaves the attempt's document, or ERROR when the first write
   raised outside a handler clause.
   */
  lemma AckedResult(v: View, ref: Ref, a: Attempt, wx: Weather)
    requires Finish(v, ref, a, wx).ack
    ensures var results := Finish(v, ref, a, wx).view.results;
            ref in results && results[ref] == if wx.write1.Returned? then a.doc else Failed(ERROR)
  {
  }

  /**
   In any reachable state, a delivery that runs alone from there and is acknowledged leaves
   a truthful result exactly when: if it skipped, the stored result was truthful; if its
   transaction committed, the commit and the first result write were both acknowledged;
   otherwise, no earlier delivery of the ref had committed.
   */
  lemma {:induction false} DeliveryTruthfulIff(cat: Catalog, run: seq<Sys>, acts: seq<Action>, w: nat, ref: Ref, b: nat,
                                               readFails: bool, wx: Weather)
    returns (states: seq<Sys>, actions: seq<Action>)
    requires ValidCatalog(cat) && IsRun(cat, run, acts) && Enabled(Last(run), Receive(w, ref)) && ref in Last(run).sent
    requires Shaped(cat, Last(run).db) && FreshId(Last(run).db, Last(run).sent[ref], b)
    ensures IsPath(cat, states, actions) && states[0] == Last(run)
    ensures var s, s' := Last(run), Last(states);
            var a := Transact(cat, s.db, s.sent[ref], b, wx.fault);
            w in s'.workers && s'.workers[w] == Acking(ref) ==>
              && ref in s'.results
              && (Truthful(s', ref) <==>
                    if !Processed(s, ref, readFails) then Truthful(s, ref)
                    else if a.committed then wx.fault.NoFault? && wx.write1.Returned?
                    else !Committed(s, ref))
  {
    var s := Last(run);
    RunKeepsTables(cat, run, acts, |run| - 1);
    RunKeepsOrigins(cat, run, acts, |run| - 1);
    states, actions := DeliveryIsPath(cat, s, w, ref, b, readFails, wx);
    if Processed(s, ref, readFails) && Handle(cat, ViewOf(s), ref, s.sent[ref], b, readFails, wx).ack {
      var a := Transact(cat, s.db, s.sent[ref], b, wx.fault);
      AckedResult(ViewOf(s), ref, a, wx);
      AttemptDocument(cat, s.db, s.sent[ref], b, wx.fault);
    }
  }

  /** A transaction stores OK iff it committed and saw its commit acknowledged. */
  lemma AttemptDocument(cat: Catalog, db: Db, msg: Message, b: nat, fault: Fault)
    requires Shaped(cat, db)
    ensures var a := Transact(cat, db, msg, b, fault); a.doc.Success? <==> a.committed && fault.NoFault?
  {
  }

  /**
   The departing case in full: from any reachable state, when a delivery's transaction
   commits and its first result write raises while the second goes through, ERROR is stored
   for a committed booking and the message is about to be deleted.
   */
  lemma {:induction false} FirstWriteFailureMisreports(cat: Catalog, run: seq<Sys>, acts: seq<Action>, w: nat,
                                                       ref: Ref, b: nat, readFails: bool, wx: Weather)
    returns (states: seq<Sys>, actions: seq<Action>)
    requires ValidCatalog(cat) && IsRun(cat, run, acts) && Enabled(Last(run), Receive(w, ref)) && ref in Last(run).sent
    requires Shaped(cat, Last(run).db) && FreshId(Last(run).db, Last(run).sent[ref], b)
    requires Processed(Last(run), ref, readFails)
    requires Transact(cat, Last(run).db, Last(run).sent[ref], b, NoFault).committed
    requires wx.fault.NoFault? && !wx.write1.Returned? && wx.write2.Returned?
    ensures IsPath(cat, states, actions) && states[0] == Last(run)
    ensures var s' := Last(states);
            && w in s'.workers && s'.workers[w] == Acking(ref) && Committed(s', ref)
            && ref in s'.results && s'.results[ref] == Failed(ERROR)
  {
    var s := Last(run);
    RunKeepsTables(cat, run, acts, |run| - 1);
    RunKeepsOrigins(cat, run, acts, |run| - 1);
    states, actions := DeliveryIsPath(cat, s, w, ref, b, readFails, wx);
    AttemptDocument(cat, s.db, s.sent[ref], b, NoFault);
    CommittedOutsideHandler(cat, s.db, s.sent[ref], b);
  }

  lemma CommittedOutsideHandler(cat: Catalog, db: Db, msg: Message, b: nat)
    requires Shaped(cat, db)
    ensures var a := Transact(cat, db, msg, b, NoFault); a.committed ==> !a.inHandler
  {
  }
}
