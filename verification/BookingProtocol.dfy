/**
 The booking protocol as a system of atomic steps: write-api sends and marks, workers
 receive, check, run the transaction, store, unmark and acknowledge, refunds happen at
 any time. The queue delivers any undeleted message again, to several workers at once;
 a worker may die between any two steps; a Redis key may disappear at any time, which
 also stands for the end of its TTL.
 */
module BookingProtocol {
  import opened Wrappers
  import opened BookingTables
  import opened BookingMessages
  import opened SeatKeys
  import opened Sequences
  import CB = ConcertBooking
  import TB = TheaterBooking

  datatype Catalog = Catalog(users: set<int>, shows: CB.Catalog, theater: TB.Catalog)

  datatype Db = Db(concert: Tables<Seat>, theater: Tables<nat>)

  /** Aborted: a statement or the commit fails and nothing is applied. */
  datatype Fault = NoFault | Aborted | CommitUnacknowledged

  /** Where a worker is in _handle_one_sqs_message; inHandler: in an except clause. */
  datatype Pc =
    | Received(ref: Ref)
    | Processing(ref: Ref)
    | Storing(ref: Ref, doc: ResultDoc, inHandler: bool)
    | Unmarking(ref: Ref)
    | Acking(ref: Ref)

  /**
   The last five fields are history: the booking_ref each booking came from, the refs a
   result was ever stored for, the refs one of whose status keys was lost, and the refs
   whose queued key was never written.
   */
  datatype Sys = Sys(db: Db, results: map<Ref, ResultDoc>, queued: set<Ref>, queue: set<Ref>,
                     sent: map<Ref, Message>, marking: set<Ref>, workers: map<nat, Pc>,
                     concertOrigin: map<nat, Ref>, theaterOrigin: map<nat, Ref>,
                     stored: set<Ref>, lost: set<Ref>, unmarked: set<Ref>)

  datatype Action =
    | Send(ref: Ref, msg: Message)
    | MarkQueued(ref: Ref, ok: bool)
    | Receive(w: nat, ref: Ref)
    | CheckResult(w: nat, readFails: bool)
    | RunTx(w: nat, b: nat, fault: Fault)
    | StoreResult(w: nat, outcome: CallOutcome)
    | Unmark(w: nat, applied: bool)
    | Ack(w: nat, ok: bool)
    | Crash(w: nat)
    | RefundConcert(userId: int, b: nat)
    | RefundTheater(userId: int, b: nat)
    | LoseResult(ref: Ref)
    | LoseQueued(ref: Ref)

  // ------------------------------------------------------------- transaction

  predicate Shaped(cat: Catalog, db: Db) {
    cat.shows.Keys == db.concert.events.Keys && cat.theater.screenings.Keys == db.theater.events.Keys
  }

  /** What a transaction attempt leaves: tables, document to store, and from which clause. */
  datatype Attempt = Attempt(db: Db, doc: ResultDoc, inHandler: bool, committed: bool)

  predicate FreshId(db: Db, msg: Message, b: nat) {
    if msg.ConcertMsg? then b !in db.concert.bookings else b !in db.theater.bookings
  }

  function ConcertEnd(cat: Catalog, db: Db, msg: Message, b: nat): TxEnd<Seat>
    requires Shaped(cat, db) && msg.ConcertMsg?
  {
    CB.ConcertTx(cat.shows, cat.users, db.concert, msg.userId, msg.showId, msg.seats, b)
  }

  function TheaterEnd(cat: Catalog, db: Db, msg: Message, b: nat): TxEnd<nat>
    requires Shaped(cat, db) && msg.TheaterMsg?
  {
    TB.TheaterTx(cat.theater, cat.users, db.theater, msg.userId, msg.scheduleId, msg.seats, b)
  }

  /** The try and except clauses around a transaction that ended with end. */
  function Settle<S>(db: Db, end: TxEnd<S>, committedDb: Db, fault: Fault): Attempt {
    if fault.Aborted? then Attempt(db, Failed(ERROR), true, false)
    else
      match end
      case Refuse(code) => Attempt(db, Failed(code), false, false)
      case Raise(e) => Attempt(db, Failed(ErrorCode(e)), true, false)
      case Commit(_, b, remain) =>
        if fault.NoFault? then Attempt(committedDb, Success(b, remain), false, true)
        else Attempt(committedDb, Failed(ERROR), true, true)
  }

  function Transact(cat: Catalog, db: Db, msg: Message, b: nat, fault: Fault): Attempt
    requires Shaped(cat, db)
  {
    match msg
    case ConcertMsg(_, _, _) =>
      var end := ConcertEnd(cat, db, msg, b);
      Settle(db, end, if end.Commit? then db.(concert := end.after) else db, fault)
    case TheaterMsg(_, _, _) =>
      var end := TheaterEnd(cat, db, msg, b);
      Settle(db, end, if end.Commit? then db.(theater := end.after) else db, fault)
  }

  // ------------------------------------------------------------------- steps

  predicate Enabled(s: Sys, e: Action) {
    match e
    case Send(ref, _) => ref !in s.sent
    case MarkQueued(ref, _) => ref in s.marking
    case Receive(w, ref) => w !in s.workers && ref in s.queue
    case CheckResult(w, _) => w in s.workers && s.workers[w].Received?
    case RunTx(w, b, _) =>
      && w in s.workers && s.workers[w].Processing?
      && s.workers[w].ref in s.sent && FreshId(s.db, s.sent[s.workers[w].ref], b)
    case StoreResult(w, _) => w in s.workers && s.workers[w].Storing?
    case Unmark(w, _) => w in s.workers && s.workers[w].Unmarking?
    case Ack(w, _) => w in s.workers && s.workers[w].Acking?
    case Crash(w) => w in s.workers
    case RefundConcert(userId, b) => RefundGuard(s.db.concert, userId, b) == REFUNDED
    case RefundTheater(userId, b) => RefundGuard(s.db.theater, userId, b) == REFUNDED
    case LoseResult(ref) => ref in s.results
    case LoseQueued(ref) => ref in s.queued
  }

  function Goto(s: Sys, w: nat, pc: Pc): Sys {
    s.(workers := s.workers[w := pc])
  }

  function Stop(s: Sys, w: nat): Sys {
    s.(workers := s.workers - {w})
  }

  /** The transaction step: one committed attempt adds one booking and its origin. */
  function ApplyAttempt(s: Sys, w: nat, b: nat, a: Attempt): Sys
    requires w in s.workers && s.workers[w].ref in s.sent
  {
    var ref := s.workers[w].ref;
    var s1 := Goto(s.(db := a.db), w, Storing(ref, a.doc, a.inHandler));
    if !a.committed then s1
    else if s.sent[ref].ConcertMsg? then s1.(concertOrigin := s.concertOrigin[b := ref])
    else s1.(theaterOrigin := s.theaterOrigin[b := ref])
  }

  /** The steps of a worker other than its transaction. */
  predicate ByWorker(e: Action) {
    e.Receive? || e.CheckResult? || e.StoreResult? || e.Unmark? || e.Ack? || e.Crash?
  }

  function AttemptOf(cat: Catalog, s: Sys, e: Action): Attempt
    requires Shaped(cat, s.db) && e.RunTx? && Enabled(s, e)
  {
    Transact(cat, s.db, s.sent[s.workers[e.w].ref], e.b, e.fault)
  }

  /** store_result's setex: an exception leads to the except clause, or out of the handler. */
  function ApplyStore(s: Sys, w: nat, outcome: CallOutcome): Sys
    requires Enabled(s, StoreResult(w, outcome))
  {
    var pc := s.workers[w];
    var s1 := if outcome.RaisedUnapplied? then s
              else s.(results := s.results[pc.ref := pc.doc], stored := s.stored + {pc.ref});
    if outcome.Returned? then Goto(s1, w, Unmarking(pc.ref))
    else if !pc.inHandler then Goto(s1, w, Storing(pc.ref, Failed(ERROR), true))
    else Stop(s1, w)
  }

  function Apply(cat: Catalog, s: Sys, e: Action): Sys
    requires Shaped(cat, s.db) && Enabled(s, e)
  {
    if e.RunTx? then ApplyAttempt(s, e.w, e.b, AttemptOf(cat, s, e)) else ApplyPlain(s, e)
  }

  /** Every step but the transaction. */
  function ApplyPlain(s: Sys, e: Action): Sys
    requires !e.RunTx? && Enabled(s, e)
  {
    match e
    case Send(ref, msg) => s.(sent := s.sent[ref := msg], queue := s.queue + {ref}, marking := s.marking + {ref})
    case MarkQueued(ref, ok) =>
      var s1 := s.(marking := s.marking - {ref});
      if ok then s1.(queued := s.queued + {ref}) else s1.(unmarked := s.unmarked + {ref})
    case Receive(w, ref) => Goto(s, w, Received(ref))
    case CheckResult(w, readFails) =>
      var ref := s.workers[w].ref;
      if ref in s.results && !readFails then Goto(s, w, Acking(ref)) else Goto(s, w, Processing(ref))
    case StoreResult(w, outcome) => ApplyStore(s, w, outcome)
    case Unmark(w, applied) =>
      var ref := s.workers[w].ref;
      var s1 := if applied then s.(queued := s.queued - {ref}) else s;
      Goto(s1, w, Acking(ref))
    case Ack(w, ok) =>
      var s1 := if ok then s.(queue := s.queue - {s.workers[w].ref}) else s;
      Stop(s1, w)
    case Crash(w) => Stop(s, w)
    case RefundConcert(_, b) => s.(db := s.db.(concert := Refund(s.db.concert, b)))
    case RefundTheater(_, b) => s.(db := s.db.(theater := Refund(s.db.theater, b)))
    case LoseResult(ref) => s.(results := s.results - {ref}, lost := s.lost + {ref})
    case LoseQueued(ref) => s.(queued := s.queued - {ref}, lost := s.lost + {ref})
  }

  ghost predicate ValidCatalog(cat: Catalog) {
    && TB.ValidCatalog(cat.theater)
    && forall ev :: ev in cat.shows ==> cat.shows[ev].rows > 0 && cat.shows[ev].cols > 0
  }

  ghost predicate EmptyTables<S>(t: Tables<S>) {
    t.bookings == map[] && t.seats == [] && t.payments == map[]
  }

  /** A freshly seeded database, nothing sent yet. */
  ghost predicate Init(cat: Catalog, s: Sys) {
    && Shaped(cat, s.db) && EmptyTables(s.db.concert) && EmptyTables(s.db.theater)
    && TB.RemainNonNegative(s.db.theater)
    && s.results == map[] && s.queued == {} && s.queue == {} && s.sent == map[] && s.marking == {}
    && s.workers == map[] && s.concertOrigin == map[] && s.theaterOrigin == map[]
    && s.stored == {} && s.lost == {} && s.unmarked == {}
  }

  /** A run: states and the actions between them. */
  ghost predicate IsRun(cat: Catalog, states: seq<Sys>, actions: seq<Action>) {
    && |states| == |actions| + 1
    && Init(cat, states[0])
    && forall k :: 0 <= k < |actions| ==> StepsTo(cat, states[k], actions[k], states[k + 1])
  }

  ghost predicate StepsTo(cat: Catalog, s: Sys, e: Action, s': Sys) {
    Shaped(cat, s.db) && Enabled(s, e) && s' == Apply(cat, s, e)
  }

  // ----------------------------------------------------- the tables over runs

  /** seed is the database the run started from. */
  ghost predicate DbInv(cat: Catalog, seed: Db, db: Db) {
    && Shaped(cat, db)
    && TableInv(db.concert) && CB.SeatsInGrid(cat.shows, db.concert) && db.concert.events == seed.concert.events
    && TB.TheaterInv(db.theater, seed.theater.events)
  }

  /** Either half of the database makes a step of its own system, or stays. */
  ghost predicate DbStep(cat: Catalog, db: Db, db': Db)
    requires Shaped(cat, db)
  {
    || db' == db
    || (db'.theater == db.theater && CB.ConcertStep(cat.shows, cat.users, db.concert, db'.concert))
    || (db'.concert == db.concert && TB.TheaterStep(cat.theater, cat.users, db.theater, db'.theater))
  }

  /** A transaction that does not commit changes nothing. */
  lemma FailedAttemptChangesNothing(cat: Catalog, db: Db, msg: Message, b: nat, fault: Fault)
    requires Shaped(cat, db) && !Transact(cat, db, msg, b, fault).committed
    ensures Transact(cat, db, msg, b, fault).db == db
    ensures Transact(cat, db, msg, b, fault).doc.Failed?
  {
  }

  /**
   Which document a concert attempt stores, read off the tables. A violated foreign key,
   that of a missing user, is told as DUPLICATE_SEAT, a violated CHECK, that of an empty
   list, as ERROR, and whatever the link does as ERROR.
   */
  lemma {:induction false} ConcertDocuments(cat: Catalog, db: Db, msg: Message, b: nat, fault: Fault)
    requires Shaped(cat, db) && msg.ConcertMsg? && b !in db.concert.payments
    ensures var a := Transact(cat, db, msg, b, fault);
            var fits := msg.showId in cat.shows && forall i :: 0 <= i < |msg.seats| ==>
                          && msg.seats[i].row <= cat.shows[msg.showId].rows
                          && msg.seats[i].col <= cat.shows[msg.showId].cols;
            var free := Distinct(msg.seats) && forall i :: 0 <= i < |msg.seats| ==>
                          (msg.showId, msg.seats[i]) !in Owners(db.concert.seats);
            var books := fits && msg.seats != [] && msg.userId in cat.users && free;
            && (a.committed <==> books && fault != Aborted)
            && a.doc == (if fault == Aborted then Failed(ERROR)
                         else if msg.showId !in cat.shows then Failed(NO_SUCH_EVENT)
                         else if !fits then Failed(INVALID_SEAT)
                         else if msg.seats == [] then Failed(ERROR)
                         else if !books then Failed(DUPLICATE_SEAT)
                         else if fault == NoFault then Success(b, db.concert.events[msg.showId].remain)
                         else Failed(ERROR))
  {
    CB.ConcertOutcomes(cat.shows, cat.users, db.concert, msg.userId, msg.showId, msg.seats, b);
  }

  /** The theater counterpart, where an empty list already fails to change the counter. */
  lemma {:induction false} TheaterDocuments(cat: Catalog, db: Db, msg: Message, b: nat, fault: Fault)
    requires ValidCatalog(cat) && Shaped(cat, db) && msg.TheaterMsg? && b !in db.theater.payments
    ensures var a, t, ev := Transact(cat, db, msg, b, fault), db.theater, msg.scheduleId;
            var known := TB.Known(cat.theater, ev);
            var placed := known && TB.PlacesExist(cat.theater, ev, msg.seats);
            var enough := placed && msg.seats != [] && |msg.seats| <= t.events[ev].remain;
            var books := enough && msg.userId in cat.users && Distinct(msg.seats)
                         && TB.PlacesFree(cat.theater, t, ev, msg.seats);
            && (a.committed <==> books && fault != Aborted)
            && a.doc == (if fault == Aborted then Failed(ERROR)
                         else if !known then Failed(NO_SUCH_EVENT)
                         else if !placed then Failed(INVALID_SEAT)
                         else if !enough then Failed(SOLD_OUT)
                         else if !books then Failed(DUPLICATE_SEAT)
                         else if fault == NoFault then Success(b, t.events[ev].remain - |msg.seats|)
                         else Failed(ERROR))
  {
    TB.TheaterOutcomes(cat.theater, cat.users, db.theater, msg.userId, msg.scheduleId, msg.seats, b);
  }

  lemma TxIsDbStep(cat: Catalog, db: Db, msg: Message, b: nat, fault: Fault)
    requires Shaped(cat, db) && FreshId(db, msg, b)
    ensures DbStep(cat, db, Transact(cat, db, msg, b, fault).db)
  {
    var db' := Transact(cat, db, msg, b, fault).db;
    if Transact(cat, db, msg, b, fault).committed {
      if msg.ConcertMsg? {
        assert CB.BooksTo(cat.shows, cat.users, db.concert, msg.userId, msg.showId, msg.seats, b, db'.concert);
      } else {
        assert TB.BooksTo(cat.theater, cat.users, db.theater, msg.userId, msg.scheduleId, msg.seats, b, db'.theater);
      }
    }
  }

  lemma ActionIsDbStep(cat: Catalog, s: Sys, e: Action)
    requires Shaped(cat, s.db) && Enabled(s, e)
    ensures DbStep(cat, s.db, Apply(cat, s, e).db)
  {
    if e.RunTx? {
      TxIsDbStep(cat, s.db, s.sent[s.workers[e.w].ref], e.b, e.fault);
    }
  }

  /** What never goes back: theater counters only fall, closed schedules and cancelled bookings stay so. */
  ghost predicate Ages(db: Db, db': Db) {
    && TB.OnlyFalls(db.theater, db'.theater)
    && CancelledStay(db.theater, db'.theater) && CancelledStay(db.concert, db'.concert)
  }

  lemma DbStepKeepsInv(cat: Catalog, seed: Db, db: Db, db': Db)
    requires ValidCatalog(cat) && DbInv(cat, seed, db) && DbStep(cat, db, db')
    ensures DbInv(cat, seed, db')
    ensures Ages(db, db')
  {
    if db'.concert != db.concert {
      CB.ConcertStepKeepsCancelled(cat.shows, cat.users, db.concert, db'.concert);
      CB.ConcertTablesRefineSeatMap(cat.shows, cat.users, db.concert, db'.concert);
      CB.ConcertStepKeepsGrid(cat.shows, cat.users, db.concert, db'.concert);
    } else if db'.theater != db.theater {
      TB.TheaterStepKeepsInv(cat.theater, cat.users, db.theater, db'.theater, seed.theater.events);
    }
  }

  lemma InitDbInv(cat: Catalog, s: Sys)
    requires ValidCatalog(cat) && Init(cat, s)
    ensures DbInv(cat, s.db, s.db)
  {
  }

  /** Every reachable database satisfies the table invariants of both halves. */
  lemma {:induction false} RunKeepsTables(cat: Catalog, states: seq<Sys>, actions: seq<Action>, k: nat)
    requires ValidCatalog(cat) && IsRun(cat, states, actions) && k < |states|
    ensures DbInv(cat, states[0].db, states[k].db)
  {
    if k == 0 {
      InitDbInv(cat, states[0]);
    } else {
      RunKeepsTables(cat, states, actions, k - 1);
      RunStep(cat, states, actions, k - 1);
    }
  }

  /** One step of a run, seen by the database. */
  lemma RunStep(cat: Catalog, states: seq<Sys>, actions: seq<Action>, k: nat)
    requires ValidCatalog(cat) && IsRun(cat, states, actions) && k < |actions|
    requires DbInv(cat, states[0].db, states[k].db)
    ensures DbInv(cat, states[0].db, states[k + 1].db)
    ensures Ages(states[k].db, states[k + 1].db)
  {
    RunIsDbStep(cat, states, actions, k);
    DbStepKeepsInv(cat, states[0].db, states[k].db, states[k + 1].db);
  }

  lemma RunIsDbStep(cat: Catalog, states: seq<Sys>, actions: seq<Action>, k: nat)
    requires IsRun(cat, states, actions) && k < |actions|
    ensures Shaped(cat, states[k].db) && DbStep(cat, states[k].db, states[k + 1].db)
  {
    assert StepsTo(cat, states[k], actions[k], states[k + 1]);
    ActionIsDbStep(cat, states[k], actions[k]);
  }

  /**
   The refinement, action by action: a concert refund releases exactly its booking, a
   committing concert attempt claims exactly its message's seats for its booking, and
   every other action leaves the map from (show, seat) to owner as it is.
   */
  ghost predicate RefinesSeatMap(cat: Catalog, s: Sys, e: Action, s': Sys)
    requires Shaped(cat, s.db) && Enabled(s, e)
  {
    var m, m' := Owners(s.db.concert.seats), Owners(s'.db.concert.seats);
    match e
    case RefundConcert(_, b) => CB.MapRelease(m, m', b)
    case RunTx(w, b, _) =>
      var msg := s.sent[s.workers[w].ref];
      if msg.ConcertMsg? && AttemptOf(cat, s, e).committed then CB.MapClaim(m, m', b, msg.showId, msg.seats)
      else m' == m
    case _ => m' == m
  }

  lemma {:induction false} AttemptRefines(cat: Catalog, db: Db, msg: Message, b: nat, fault: Fault)
    requires Shaped(cat, db) && TableInv(db.concert) && FreshId(db, msg, b)
    ensures var a := Transact(cat, db, msg, b, fault);
            var m, m' := Owners(db.concert.seats), Owners(a.db.concert.seats);
            if msg.ConcertMsg? && a.committed then CB.MapClaim(m, m', b, msg.showId, msg.seats) else m' == m
  {
    var a := Transact(cat, db, msg, b, fault);
    if !a.committed {
      FailedAttemptChangesNothing(cat, db, msg, b, fault);
    } else if msg.ConcertMsg? {
      CB.ConcertBookingRefines(cat.shows, cat.users, db.concert, msg.userId, msg.showId, msg.seats, b);
    }
  }

  lemma PlainRefines(s: Sys, e: Action)
    requires !e.RunTx? && Enabled(s, e) && TableInv(s.db.concert)
    ensures var m, m' := Owners(s.db.concert.seats), Owners(ApplyPlain(s, e).db.concert.seats);
            if e.RefundConcert? then CB.MapRelease(m, m', e.b) else m' == m
  {
    if e.RefundConcert? {
      CB.ConcertRefundRefines(s.db.concert, e.userId, e.b);
    } else if ByWorker(e) {
      WorkerFrame(s, e);
    }
  }

  /**
   Whatever Redis loses and however deliveries interleave, every run of the protocol is a run
   of the plain seat map.
   */
  lemma {:induction false} RunRefinesSeatMap(cat: Catalog, states: seq<Sys>, actions: seq<Action>, k: nat)
    requires ValidCatalog(cat) && IsRun(cat, states, actions) && k < |actions|
    ensures Shaped(cat, states[k].db) && Enabled(states[k], actions[k])
    ensures RefinesSeatMap(cat, states[k], actions[k], states[k + 1])
  {
    RunKeepsTables(cat, states, actions, k);
    assert StepsTo(cat, states[k], actions[k], states[k + 1]);
    var s, e := states[k], actions[k];
    if e.RunTx? {
      AttemptRefines(cat, s.db, s.sent[s.workers[e.w].ref], e.b, e.fault);
    } else {
      PlainRefines(s, e);
    }
  }

  /** In every reachable state a show has at most seat_rows * seat_cols ACTIVE seats. */
  lemma RunNeverOversellsShow(cat: Catalog, states: seq<Sys>, actions: seq<Action>, k: nat, showId: int)
    requires ValidCatalog(cat) && IsRun(cat, states, actions) && k < |states| && showId in cat.shows
    ensures |ActiveSeats(states[k].db.concert.seats, showId)| <= cat.shows[showId].rows * cat.shows[showId].cols
  {
    RunKeepsTables(cat, states, actions, k);
    CB.CapacityHolds(cat.shows, states[k].db.concert, showId);
  }

  lemma AgesTransitive(a: Db, b: Db, c: Db)
    requires Ages(a, b) && Ages(b, c)
    ensures Ages(a, c)
  {
  }

  lemma {:induction false} AgesAlong(dbs: seq<Db>, i: nat, k: nat)
    requires i <= k < |dbs| && forall j :: 0 <= j < |dbs| - 1 ==> Ages(dbs[j], dbs[j + 1])
    ensures Ages(dbs[i], dbs[k])
  {
    if i < k {
      AgesAlong(dbs, i, k - 1);
      assert Ages(dbs[k - 1], dbs[k - 1 + 1]);
      AgesTransitive(dbs[i], dbs[k - 1], dbs[k]);
    }
  }

  lemma RunAges(cat: Catalog, states: seq<Sys>, actions: seq<Action>, i: nat, k: nat)
    requires ValidCatalog(cat) && IsRun(cat, states, actions) && i <= k < |states|
    ensures Ages(states[i].db, states[k].db)
  {
    var dbs := seq(|states|, j requires 0 <= j < |states| => states[j].db);
    forall j | 0 <= j < |dbs| - 1
      ensures Ages(dbs[j], dbs[j + 1])
    {
      RunKeepsTables(cat, states, actions, j);
      RunStep(cat, states, actions, j);
    }
    AgesAlong(dbs, i, k);
  }

  /**
   A refund is final: at every later state of the run the booking is the same cancelled
   row, its user is told so, nobody else finds it, and no refund of it can happen again.
   */
  lemma {:induction false} ConcertRefundIsFinal(cat: Catalog, states: seq<Sys>, actions: seq<Action>, i: nat, k: nat,
                                                userId: int, b: nat, other: int)
    requires ValidCatalog(cat) && IsRun(cat, states, actions)
    requires i < k < |states| && actions[i] == RefundConcert(userId, b)
    ensures b in states[i].db.concert.bookings && b in states[k].db.concert.bookings
    ensures states[k].db.concert.bookings[b] == states[i].db.concert.bookings[b].(status := CANCEL)
    ensures RefundGuard(states[k].db.concert, other, b) == if other == userId then ALREADY_CANCELED else NOT_FOUND
    ensures !Enabled(states[k], RefundConcert(other, b))
  {
    assert StepsTo(cat, states[i], actions[i], states[i + 1]);
    RunAges(cat, states, actions, i + 1, k);
    SecondRefundRefused(states[k].db.concert, b, other);
  }

  lemma {:induction false} TheaterRefundIsFinal(cat: Catalog, states: seq<Sys>, actions: seq<Action>, i: nat, k: nat,
                                                userId: int, b: nat, other: int)
    requires ValidCatalog(cat) && IsRun(cat, states, actions)
    requires i < k < |states| && actions[i] == RefundTheater(userId, b)
    ensures b in states[i].db.theater.bookings && b in states[k].db.theater.bookings
    ensures states[k].db.theater.bookings[b] == states[i].db.theater.bookings[b].(status := CANCEL)
    ensures RefundGuard(states[k].db.theater, other, b) == if other == userId then ALREADY_CANCELED else NOT_FOUND
    ensures !Enabled(states[k], RefundTheater(other, b))
  {
    assert StepsTo(cat, states[i], actions[i], states[i + 1]);
    RunAges(cat, states, actions, i + 1, k);
    SecondRefundRefused(states[k].db.theater, b, other);
  }

  /** What a refund of b leaves: b cancelled, its seats free, everybody else's seats as they were. */
  ghost predicate Returns<S>(t: Tables<S>, t': Tables<S>, b: nat)
    requires b in t.bookings
  {
    && RefundedFrom(t, t', b)
    && (forall k :: k in Owners(t'.seats) ==>
          k in Owners(t.seats) && Owners(t.seats)[k] == Owners(t'.seats)[k] != b)
    && (forall k :: k in Owners(t.seats) && Owners(t.seats)[k] != b ==> k in Owners(t'.seats))
    && (forall i :: 0 <= i < |SeatsOf(t.seats, b)| ==>
          (t.bookings[b].eventId, SeatsOf(t.seats, b)[i]) !in Owners(t'.seats))
  }

  lemma {:induction false} RefundReturns<S>(t: Tables<S>, b: nat)
    requires TableInv(t) && b in t.bookings && t.bookings[b].status.PAID?
    ensures Returns(t, Refund(t, b), b)
  {
    RefundExact(t, b);
    OwnersCancel(t.seats, b);
    forall i | 0 <= i < |SeatsOf(t.seats, b)|
      ensures (t.bookings[b].eventId, SeatsOf(t.seats, b)[i]) !in Owners(Refund(t, b).seats)
    {
      PaidOwnsItsSeats(t, b, i);
    }
  }

  /** A booking can be refunded iff it is PAID, and by its owner alone. */
  ghost predicate Refundable<S>(t: Tables<S>, userId: int, b: nat) {
    b in t.bookings && t.bookings[b].userId == userId && t.bookings[b].status.PAID?
  }

  lemma RefundableIff<S>(t: Tables<S>, userId: int, b: nat)
    requires TableInv(t)
    ensures RefundGuard(t, userId, b) == REFUNDED <==> Refundable(t, userId, b)
    ensures Refundable(t, userId, b) ==> Returns(t, Refund(t, b), b)
  {
    if Refundable(t, userId, b) {
      RefundReturns(t, b);
    }
  }

  /**
   In every reachable state a booking can be refunded iff it is PAID, and by its owner
   alone; the refund cancels it and frees its seats and nobody else's.
   */
  lemma {:induction false} PaidIsRefundable(cat: Catalog, states: seq<Sys>, actions: seq<Action>, k: nat, userId: int,
                                            b: nat)
    requires ValidCatalog(cat) && IsRun(cat, states, actions) && k < |states|
    ensures var s := states[k];
            && (Enabled(s, RefundConcert(userId, b)) <==> Refundable(s.db.concert, userId, b))
            && (Refundable(s.db.concert, userId, b) ==>
                  Returns(s.db.concert, ApplyPlain(s, RefundConcert(userId, b)).db.concert, b))
            && (Enabled(s, RefundTheater(userId, b)) <==> Refundable(s.db.theater, userId, b))
            && (Refundable(s.db.theater, userId, b) ==>
                  Returns(s.db.theater, ApplyPlain(s, RefundTheater(userId, b)).db.theater, b))
  {
    RunKeepsTables(cat, states, actions, k);
    RefundableIff(states[k].db.concert, userId, b);
    RefundableIff(states[k].db.theater, userId, b);
  }

  /** Over a run the theater counters only fall, by exactly what was ever booked. */
  lemma RunConservesRemain(cat: Catalog, states: seq<Sys>, actions: seq<Action>, i: nat, k: nat)
    requires ValidCatalog(cat) && IsRun(cat, states, actions) && i <= k < |states|
    ensures TB.Conserved(states[k].db.theater, states[0].db.theater.events)
    ensures TB.RemainNonNegative(states[k].db.theater)
    ensures TB.OnlyFalls(states[i].db.theater, states[k].db.theater)
  {
    RunKeepsTables(cat, states, actions, k);
    RunAges(cat, states, actions, i, k);
  }

  /** In every reachable state a schedule's status is what its seed and its counter say. */
  lemma RunStatusExact(cat: Catalog, states: seq<Sys>, actions: seq<Action>, k: nat)
    requires ValidCatalog(cat) && IsRun(cat, states, actions) && k < |states|
    ensures TB.StatusExact(states[k].db.theater, states[0].db.theater.events)
  {
    RunKeepsTables(cat, states, actions, k);
  }

  // ------------------------------------------------------ origin of bookings

  /** Concert booking b was committed for ref and holds exactly the message's seats. */
  ghost predicate ConcertFrom(sent: map<Ref, Message>, t: Tables<Seat>, b: nat, ref: Ref) {
    && ref in sent && sent[ref].ConcertMsg?
    && b in t.bookings
    && t.bookings[b].userId == sent[ref].userId
    && t.bookings[b].eventId == sent[ref].showId
    && SeatsOf(t.seats, b) == sent[ref].seats
  }

  /** The same for a theater booking, whose rows hold the seat ids of the message's places. */
  ghost predicate TheaterFrom(cat: TB.Catalog, sent: map<Ref, Message>, t: Tables<nat>, b: nat, ref: Ref) {
    && ref in sent && sent[ref].TheaterMsg?
    && b in t.bookings
    && t.bookings[b].userId == sent[ref].userId
    && t.bookings[b].eventId == sent[ref].scheduleId
    && TB.Known(cat, sent[ref].scheduleId)
    && TB.ResolveSeats(cat, cat.screenings[sent[ref].scheduleId].hallId, sent[ref].seats)
       == Some(SeatsOf(t.seats, b))
  }

  ghost predicate ConcertOrigins(sent: map<Ref, Message>, t: Tables<Seat>, origin: map<nat, Ref>) {
    origin.Keys == t.bookings.Keys && forall b :: b in origin ==> ConcertFrom(sent, t, b, origin[b])
  }

  ghost predicate TheaterOrigins(cat: TB.Catalog, sent: map<Ref, Message>, t: Tables<nat>, origin: map<nat, Ref>) {
    origin.Keys == t.bookings.Keys && forall b :: b in origin ==> TheaterFrom(cat, sent, t, b, origin[b])
  }

  ghost predicate OriginInv(cat: Catalog, s: Sys) {
    && ConcertOrigins(s.sent, s.db.concert, s.concertOrigin)
    && TheaterOrigins(cat.theater, s.sent, s.db.theater, s.theaterOrigin)
  }

  lemma ConcertOriginBooked(sent: map<Ref, Message>, t: Tables<Seat>, origin: map<nat, Ref>, b: nat, ref: Ref)
    requires RowsMatchBookings(t) && ConcertOrigins(sent, t, origin)
    requires b !in t.bookings && ref in sent && sent[ref].ConcertMsg?
    ensures ConcertOrigins(sent, Booked(t, b, sent[ref].userId, sent[ref].showId, sent[ref].seats), origin[b := ref])
  {
    var m := sent[ref];
    var t' := Booked(t, b, m.userId, m.showId, m.seats);
    NoRowsNoSeats(t.seats, b);
    var origin' := origin[b := ref];
    forall c | c in origin'
      ensures ConcertFrom(sent, t', c, origin'[c])
    {
      SeatsOfAppend(t.seats, b, m.showId, m.seats, c);
      assert c != b ==> ConcertFrom(sent, t, c, origin[c]);
    }
  }

  lemma TheaterOriginBooked(cat: TB.Catalog, sent: map<Ref, Message>, t: Tables<nat>, origin: map<nat, Ref>, b: nat,
                            ref: Ref, ids: seq<nat>)
    requires RowsMatchBookings(t) && TheaterOrigins(cat, sent, t, origin)
    requires b !in t.bookings && ref in sent && sent[ref].TheaterMsg?
    requires var m := sent[ref];
             && m.scheduleId in t.events && TB.Known(cat, m.scheduleId)
             && TB.ResolveSeats(cat, cat.screenings[m.scheduleId].hallId, m.seats) == Some(ids)
    ensures TheaterOrigins(cat, sent, TB.TheaterBooked(t, b, sent[ref].userId, sent[ref].scheduleId, ids),
                           origin[b := ref])
  {
    var m := sent[ref];
    var t' := TB.TheaterBooked(t, b, m.userId, m.scheduleId, ids);
    NoRowsNoSeats(t.seats, b);
    var origin' := origin[b := ref];
    forall c | c in origin'
      ensures TheaterFrom(cat, sent, t', c, origin'[c])
    {
      SeatsOfAppend(t.seats, b, m.scheduleId, ids, c);
      assert SeatsOf(t'.seats, c) == if c == b then ids else SeatsOf(t.seats, c);
      assert c != b ==> TheaterFrom(cat, sent, t, c, origin[c]);
    }
  }

  lemma ConcertOriginRefunded(sent: map<Ref, Message>, t: Tables<Seat>, origin: map<nat, Ref>, b: nat)
    requires ConcertOrigins(sent, t, origin) && b in t.bookings
    ensures ConcertOrigins(sent, Refund(t, b), origin)
  {
    forall c | c in origin
      ensures ConcertFrom(sent, Refund(t, b), c, origin[c])
    {
      SeatsOfCancel(t.seats, b, c);
    }
  }

  lemma TheaterOriginRefunded(cat: TB.Catalog, sent: map<Ref, Message>, t: Tables<nat>, origin: map<nat, Ref>, b: nat)
    requires TheaterOrigins(cat, sent, t, origin) && b in t.bookings
    ensures TheaterOrigins(cat, sent, Refund(t, b), origin)
  {
    forall c | c in origin
      ensures TheaterFrom(cat, sent, Refund(t, b), c, origin[c])
    {
      SeatsOfCancel(t.seats, b, c);
    }
  }

  lemma ConcertAttemptEffect(cat: Catalog, db: Db, m: Message, b: nat, fault: Fault)
    requires Shaped(cat, db) && TableInv(db.concert)
    requires m.ConcertMsg? && b !in db.concert.bookings && Transact(cat, db, m, b, fault).committed
    ensures Transact(cat, db, m, b, fault).db == db.(concert := Booked(db.concert, b, m.userId, m.showId, m.seats))
  {
    CB.ConcertCommitEffect(cat.shows, cat.users, db.concert, m.userId, m.showId, m.seats, b);
  }

  lemma CommittedConcertOrigins(cat: Catalog, s: Sys, w: nat, b: nat, a: Attempt)
    requires w in s.workers && s.workers[w].ref in s.sent && s.sent[s.workers[w].ref].ConcertMsg?
    requires RowsMatchBookings(s.db.concert) && b !in s.db.concert.bookings && OriginInv(cat, s) && a.committed
    requires var m := s.sent[s.workers[w].ref];
             a.db == s.db.(concert := Booked(s.db.concert, b, m.userId, m.showId, m.seats))
    ensures OriginInv(cat, ApplyAttempt(s, w, b, a))
  {
    ConcertOriginBooked(s.sent, s.db.concert, s.concertOrigin, b, s.workers[w].ref);
  }

  lemma ConcertTxKeepsOrigins(cat: Catalog, s: Sys, e: Action)
    requires ValidCatalog(cat) && Shaped(cat, s.db) && TableInv(s.db.concert)
    requires OriginInv(cat, s) && e.RunTx? && Enabled(s, e) && s.sent[s.workers[e.w].ref].ConcertMsg?
    ensures OriginInv(cat, ApplyAttempt(s, e.w, e.b, AttemptOf(cat, s, e)))
  {
    var m := s.sent[s.workers[e.w].ref];
    var a := Transact(cat, s.db, m, e.b, e.fault);
    if a.committed {
      ConcertAttemptEffect(cat, s.db, m, e.b, e.fault);
      CommittedConcertOrigins(cat, s, e.w, e.b, a);
    } else {
      FailedAttemptChangesNothing(cat, s.db, m, e.b, e.fault);
    }
  }

  lemma TheaterAttemptEffect(cat: Catalog, db: Db, m: Message, b: nat, fault: Fault) returns (ids: seq<nat>)
    requires TB.ValidCatalog(cat.theater) && Shaped(cat, db) && TableInv(db.theater)
    requires m.TheaterMsg? && b !in db.theater.bookings && Transact(cat, db, m, b, fault).committed
    ensures TB.Known(cat.theater, m.scheduleId)
    ensures TB.ResolveSeats(cat.theater, cat.theater.screenings[m.scheduleId].hallId, m.seats) == Some(ids)
    ensures Transact(cat, db, m, b, fault).db ==
            db.(theater := TB.TheaterBooked(db.theater, b, m.userId, m.scheduleId, ids))
  {
    TB.TheaterCommitEffect(cat.theater, cat.users, db.theater, m.userId, m.scheduleId, m.seats, b);
    ids := TB.ResolveSeats(cat.theater, cat.theater.screenings[m.scheduleId].hallId, m.seats).value;
  }

  lemma CommittedTheaterOrigins(cat: Catalog, s: Sys, w: nat, b: nat, a: Attempt, ids: seq<nat>)
    requires w in s.workers && s.workers[w].ref in s.sent && s.sent[s.workers[w].ref].TheaterMsg?
    requires RowsMatchBookings(s.db.theater) && b !in s.db.theater.bookings && OriginInv(cat, s) && a.committed
    requires var m := s.sent[s.workers[w].ref];
             && m.scheduleId in s.db.theater.events && TB.Known(cat.theater, m.scheduleId)
             && TB.ResolveSeats(cat.theater, cat.theater.screenings[m.scheduleId].hallId, m.seats) == Some(ids)
             && a.db == s.db.(theater := TB.TheaterBooked(s.db.theater, b, m.userId, m.scheduleId, ids))
    ensures OriginInv(cat, ApplyAttempt(s, w, b, a))
  {
    TheaterOriginBooked(cat.theater, s.sent, s.db.theater, s.theaterOrigin, b, s.workers[w].ref, ids);
  }

  lemma TheaterTxKeepsOrigins(cat: Catalog, s: Sys, e: Action)
    requires ValidCatalog(cat) && Shaped(cat, s.db) && TableInv(s.db.theater)
    requires OriginInv(cat, s) && e.RunTx? && Enabled(s, e) && s.sent[s.workers[e.w].ref].TheaterMsg?
    ensures OriginInv(cat, ApplyAttempt(s, e.w, e.b, AttemptOf(cat, s, e)))
  {
    var m := s.sent[s.workers[e.w].ref];
    var a := Transact(cat, s.db, m, e.b, e.fault);
    if a.committed {
      var ids := TheaterAttemptEffect(cat, s.db, m, e.b, e.fault);
      CommittedTheaterOrigins(cat, s, e.w, e.b, a, ids);
    } else {
      FailedAttemptChangesNothing(cat, s.db, m, e.b, e.fault);
    }
  }

  lemma SendKeepsOrigins(cat: Catalog, s: Sys, ref: Ref, msg: Message)
    requires OriginInv(cat, s) && ref !in s.sent
    ensures ConcertOrigins(s.sent[ref := msg], s.db.concert, s.concertOrigin)
    ensures TheaterOrigins(cat.theater, s.sent[ref := msg], s.db.theater, s.theaterOrigin)
  {
    forall b | b in s.concertOrigin
      ensures ConcertFrom(s.sent[ref := msg], s.db.concert, b, s.concertOrigin[b])
    {
      assert ConcertFrom(s.sent, s.db.concert, b, s.concertOrigin[b]);
    }
    forall b | b in s.theaterOrigin
      ensures TheaterFrom(cat.theater, s.sent[ref := msg], s.db.theater, b, s.theaterOrigin[b])
    {
      assert TheaterFrom(cat.theater, s.sent, s.db.theater, b, s.theaterOrigin[b]);
    }
  }

  /** A worker's plain step touches neither the database nor what was sent or recorded of it. */
  lemma WorkerFrame(s: Sys, e: Action)
    requires ByWorker(e) && Enabled(s, e)
    ensures ApplyPlain(s, e).db == s.db && ApplyPlain(s, e).sent == s.sent
    ensures ApplyPlain(s, e).concertOrigin == s.concertOrigin && ApplyPlain(s, e).theaterOrigin == s.theaterOrigin
  {
    if e.StoreResult? {
    } else if e.CheckResult? {
    } else if e.Unmark? {
    } else if e.Ack? {
    }
  }

  lemma SameOrigins(cat: Catalog, s: Sys, s': Sys)
    requires OriginInv(cat, s) && s'.db == s.db && s'.sent == s.sent
    requires s'.concertOrigin == s.concertOrigin && s'.theaterOrigin == s.theaterOrigin
    ensures OriginInv(cat, s')
  {
  }

  lemma OutsideKeepsOrigins(cat: Catalog, s: Sys, e: Action)
    requires OriginInv(cat, s) && !e.RunTx? && !ByWorker(e) && Enabled(s, e)
    ensures OriginInv(cat, ApplyPlain(s, e))
  {
    match e
    case RefundConcert(_, b) => ConcertOriginRefunded(s.sent, s.db.concert, s.concertOrigin, b);
    case RefundTheater(_, b) => TheaterOriginRefunded(cat.theater, s.sent, s.db.theater, s.theaterOrigin, b);
    case Send(ref, msg) => SendKeepsOrigins(cat, s, ref, msg);
    case _ =>
  }

  lemma OriginStep(cat: Catalog, s: Sys, e: Action)
    requires ValidCatalog(cat) && Shaped(cat, s.db) && TableInv(s.db.concert) && TableInv(s.db.theater)
    requires OriginInv(cat, s) && Enabled(s, e)
    ensures OriginInv(cat, Apply(cat, s, e))
  {
    if e.RunTx? {
      if s.sent[s.workers[e.w].ref].ConcertMsg? {
        ConcertTxKeepsOrigins(cat, s, e);
      } else {
        TheaterTxKeepsOrigins(cat, s, e);
      }
    } else {
      if ByWorker(e) {
        WorkerFrame(s, e);
        SameOrigins(cat, s, ApplyPlain(s, e));
      } else {
        OutsideKeepsOrigins(cat, s, e);
      }
    }
  }

  lemma {:induction false} RunKeepsOrigins(cat: Catalog, states: seq<Sys>, actions: seq<Action>, k: nat)
    requires ValidCatalog(cat) && IsRun(cat, states, actions) && k < |states|
    ensures OriginInv(cat, states[k])
  {
    if k > 0 {
      RunKeepsOrigins(cat, states, actions, k - 1);
      RunKeepsTables(cat, states, actions, k - 1);
      assert StepsTo(cat, states[k - 1], actions[k - 1], states[k]);
      OriginStep(cat, states[k - 1], actions[k - 1]);
    }
  }

  /**
   Idempotence under at-least-once delivery: in every reachable state at most one concert
   booking that is not cancelled stems from one booking_ref, although the tables do not
   record the ref.
   */
  lemma OneLiveConcertBookingPerRef(cat: Catalog, states: seq<Sys>, actions: seq<Action>, k: nat, b: nat, c: nat)
    requires ValidCatalog(cat) && IsRun(cat, states, actions) && k < |states|
    requires b in states[k].concertOrigin && c in states[k].concertOrigin
    requires states[k].concertOrigin[b] == states[k].concertOrigin[c]
    requires b in states[k].db.concert.bookings && states[k].db.concert.bookings[b].status.PAID?
    requires c in states[k].db.concert.bookings && states[k].db.concert.bookings[c].status.PAID?
    ensures b == c
  {
    var s := states[k];
    RunKeepsTables(cat, states, actions, k);
    RunKeepsOrigins(cat, states, actions, k);
    assert BookingComplete(s.db.concert, b);
    assert ConcertFrom(s.sent, s.db.concert, b, s.concertOrigin[b])
           && ConcertFrom(s.sent, s.db.concert, c, s.concertOrigin[c]);
    NoDoubleSale(s.db.concert, b, c, 0, 0);
  }

  lemma OneLiveTheaterBookingPerRef(cat: Catalog, states: seq<Sys>, actions: seq<Action>, k: nat, b: nat, c: nat)
    requires ValidCatalog(cat) && IsRun(cat, states, actions) && k < |states|
    requires b in states[k].theaterOrigin && c in states[k].theaterOrigin
    requires states[k].theaterOrigin[b] == states[k].theaterOrigin[c]
    requires b in states[k].db.theater.bookings && states[k].db.theater.bookings[b].status.PAID?
    requires c in states[k].db.theater.bookings && states[k].db.theater.bookings[c].status.PAID?
    ensures b == c
  {
    var s := states[k];
    RunKeepsTables(cat, states, actions, k);
    RunKeepsOrigins(cat, states, actions, k);
    assert BookingComplete(s.db.theater, b);
    assert TheaterFrom(cat.theater, s.sent, s.db.theater, b, s.theaterOrigin[b]);
    assert TheaterFrom(cat.theater, s.sent, s.db.theater, c, s.theaterOrigin[c]);
    NoDoubleSale(s.db.theater, b, c, 0, 0);
  }
}
