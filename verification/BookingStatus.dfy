/**
 What a client polling a booking_ref can see: the stored results and the two status
 keys, over runs of the booking protocol.
 */
module BookingStatus {
  import opened Wrappers
  import opened BookingTables
  import opened BookingMessages
  import opened BookingProtocol

  // ------------------------------------------------------- results are named

  /** Booking b was committed for the message of ref. */
  ghost predicate Named(s: Sys, ref: Ref, b: nat) {
    && ref in s.sent
    && if s.sent[ref].ConcertMsg? then b in s.concertOrigin && s.concertOrigin[b] == ref
       else b in s.theaterOrigin && s.theaterOrigin[b] == ref
  }

  ghost predicate Committed(s: Sys, ref: Ref) {
    exists b :: Named(s, ref, b)
  }

  ghost predicate ResultInv(s: Sys) {
    && (forall ref :: ref in s.results && s.results[ref].Success? ==> Named(s, ref, s.results[ref].bookingId))
    && (forall w :: w in s.workers && s.workers[w].Storing? && s.workers[w].doc.Success?
          ==> Named(s, s.workers[w].ref, s.workers[w].doc.bookingId))
  }

  /** What the rest of the protocol may rely on about a transaction attempt. */
  ghost predicate HonestAttempt(db: Db, b: nat, fault: Fault, a: Attempt) {
    && (a.doc.Success? ==> a.committed && a.doc.bookingId == b)
    && (a.committed && !a.doc.Success? ==> fault.CommitUnacknowledged?)
    && (!a.committed ==> a.db == db)
  }

  lemma TransactIsHonest(cat: Catalog, db: Db, msg: Message, b: nat, fault: Fault)
    requires Shaped(cat, db)
    ensures HonestAttempt(db, b, fault, Transact(cat, db, msg, b, fault))
  {
  }

  /** Booking ids of committed bookings are never reused. */
  ghost predicate FreshOrigin(s: Sys, ref: Ref, b: nat) {
    ref in s.sent && if s.sent[ref].ConcertMsg? then b !in s.concertOrigin else b !in s.theaterOrigin
  }

  lemma NamedStaysTx(s: Sys, w: nat, b: nat, a: Attempt, ref: Ref, c: nat)
    requires w in s.workers && FreshOrigin(s, s.workers[w].ref, b) && Named(s, ref, c)
    ensures Named(ApplyAttempt(s, w, b, a), ref, c)
  {
  }

  lemma NamedStaysWorker(s: Sys, e: Action, ref: Ref, b: nat)
    requires ByWorker(e) && Enabled(s, e)
    ensures Named(s, ref, b) ==> Named(ApplyPlain(s, e), ref, b)
    ensures ref in s.sent && Named(ApplyPlain(s, e), ref, b) ==> Named(s, ref, b)
  {
  }

  lemma NamedStaysPlain(s: Sys, e: Action, ref: Ref, b: nat)
    requires !e.RunTx? && Enabled(s, e)
    ensures Named(s, ref, b) ==> Named(ApplyPlain(s, e), ref, b)
    ensures ref in s.sent && Named(ApplyPlain(s, e), ref, b) ==> Named(s, ref, b)
  {
    if ByWorker(e) {
      NamedStaysWorker(s, e, ref, b);
    }
  }

  lemma ResultStepTx(s: Sys, w: nat, b: nat, fault: Fault, a: Attempt)
    requires Enabled(s, RunTx(w, b, fault)) && FreshOrigin(s, s.workers[w].ref, b)
    requires ResultInv(s) && HonestAttempt(s.db, b, fault, a)
    ensures ResultInv(ApplyAttempt(s, w, b, a))
  {
    var s' := ApplyAttempt(s, w, b, a);
    forall ref | ref in s'.results && s'.results[ref].Success?
      ensures Named(s', ref, s'.results[ref].bookingId)
    {
      NamedStaysTx(s, w, b, a, ref, s'.results[ref].bookingId);
    }
    forall v | v in s'.workers && s'.workers[v].Storing? && s'.workers[v].doc.Success?
      ensures Named(s', s'.workers[v].ref, s'.workers[v].doc.bookingId)
    {
      if v != w {
        NamedStaysTx(s, w, b, a, s'.workers[v].ref, s'.workers[v].doc.bookingId);
      }
    }
  }

  lemma ResultSourceMove(s: Sys, e: Action, ref: Ref)
    requires ByWorker(e) && Enabled(s, e) && ref in ApplyPlain(s, e).results
    ensures || (ref in s.results && ApplyPlain(s, e).results[ref] == s.results[ref])
            || (e.StoreResult? && s.workers[e.w].ref == ref && ApplyPlain(s, e).results[ref] == s.workers[e.w].doc)
  {
  }

  /** A result that is stored anew was a worker's document. */
  lemma ResultSource(s: Sys, e: Action, ref: Ref)
    requires !e.RunTx? && Enabled(s, e) && ref in ApplyPlain(s, e).results
    ensures || (ref in s.results && ApplyPlain(s, e).results[ref] == s.results[ref])
            || (e.StoreResult? && s.workers[e.w].ref == ref && ApplyPlain(s, e).results[ref] == s.workers[e.w].doc)
  {
    if ByWorker(e) {
      ResultSourceMove(s, e, ref);
    }
  }

  lemma DocumentsStayStore(s: Sys, e: Action, w: nat)
    requires e.StoreResult? && Enabled(s, e)
    requires w in ApplyPlain(s, e).workers && ApplyPlain(s, e).workers[w].Storing?
    requires ApplyPlain(s, e).workers[w].doc.Success?
    ensures w in s.workers && ApplyPlain(s, e).workers[w] == s.workers[w]
  {
  }

  lemma DocumentsStayMove(s: Sys, e: Action, w: nat)
    requires ByWorker(e) && !e.StoreResult? && Enabled(s, e)
    requires w in ApplyPlain(s, e).workers && ApplyPlain(s, e).workers[w].Storing?
    requires ApplyPlain(s, e).workers[w].doc.Success?
    ensures w in s.workers && ApplyPlain(s, e).workers[w] == s.workers[w]
  {
  }

  /** Only the transaction gives a worker an OK document. */
  lemma DocumentsStay(s: Sys, e: Action, w: nat)
    requires !e.RunTx? && Enabled(s, e)
    requires w in ApplyPlain(s, e).workers && ApplyPlain(s, e).workers[w].Storing?
    requires ApplyPlain(s, e).workers[w].doc.Success?
    ensures w in s.workers && ApplyPlain(s, e).workers[w] == s.workers[w]
  {
    if e.StoreResult? {
      DocumentsStayStore(s, e, w);
    } else if ByWorker(e) {
      DocumentsStayMove(s, e, w);
    }
  }

  lemma ResultStepPlain(s: Sys, e: Action)
    requires !e.RunTx? && Enabled(s, e) && ResultInv(s)
    ensures ResultInv(ApplyPlain(s, e))
  {
    var s' := ApplyPlain(s, e);
    forall ref | ref in s'.results && s'.results[ref].Success?
      ensures Named(s', ref, s'.results[ref].bookingId)
    {
      ResultSource(s, e, ref);
      NamedStaysPlain(s, e, ref, s'.results[ref].bookingId);
    }
    forall w | w in s'.workers && s'.workers[w].Storing? && s'.workers[w].doc.Success?
      ensures Named(s', s'.workers[w].ref, s'.workers[w].doc.bookingId)
    {
      DocumentsStay(s, e, w);
      NamedStaysPlain(s, e, s'.workers[w].ref, s'.workers[w].doc.bookingId);
    }
  }

  lemma ResultStep(cat: Catalog, s: Sys, e: Action)
    requires Shaped(cat, s.db) && OriginInv(cat, s) && Enabled(s, e) && ResultInv(s)
    ensures ResultInv(Apply(cat, s, e))
  {
    if e.RunTx? {
      TransactIsHonest(cat, s.db, s.sent[s.workers[e.w].ref], e.b, e.fault);
      ResultStepTx(s, e.w, e.b, e.fault, AttemptOf(cat, s, e));
    } else {
      ResultStepPlain(s, e);
    }
  }

  lemma {:induction false} RunKeepsResults(cat: Catalog, states: seq<Sys>, actions: seq<Action>, k: nat)
    requires ValidCatalog(cat) && IsRun(cat, states, actions) && k < |states|
    ensures ResultInv(states[k])
  {
    if k > 0 {
      RunKeepsResults(cat, states, actions, k - 1);
      RunKeepsOrigins(cat, states, actions, k - 1);
      assert StepsTo(cat, states[k - 1], actions[k - 1], states[k]);
      ResultStep(cat, states[k - 1], actions[k - 1]);
    }
  }

  /**
   An OK result always names a booking that was committed for its ref and that owns, or
   before a refund owned, exactly the seats of the message.
   */
  lemma OkResultNamesBooking(cat: Catalog, states: seq<Sys>, actions: seq<Action>, k: nat, ref: Ref)
    requires ValidCatalog(cat) && IsRun(cat, states, actions) && k < |states|
    requires ref in states[k].results && states[k].results[ref].Success?
    ensures var b := states[k].results[ref].bookingId;
            || ConcertFrom(states[k].sent, states[k].db.concert, b, ref)
            || TheaterFrom(cat.theater, states[k].sent, states[k].db.theater, b, ref)
  {
    RunKeepsResults(cat, states, actions, k);
    RunKeepsOrigins(cat, states, actions, k);
    assert Named(states[k], ref, states[k].results[ref].bookingId);
  }

  // ------------------------------------------- acknowledgement and the keys

  ghost predicate WorkerInv(s: Sys) {
    && (forall w :: w in s.workers ==> s.workers[w].ref in s.sent)
    && (forall w :: w in s.workers && (s.workers[w].Unmarking? || s.workers[w].Acking?) ==>
          s.workers[w].ref in s.stored)
  }

  /** Messages leave the queue only with a result. */
  ghost predicate QueueInv(s: Sys) {
    && s.queue <= s.sent.Keys && s.marking <= s.sent.Keys
    && (forall ref :: ref in s.sent && ref !in s.queue ==> ref in s.stored)
    && s.results.Keys <= s.stored
  }

  ghost predicate AckInv(s: Sys) {
    WorkerInv(s) && QueueInv(s)
  }

  /** Keys vanish only by loss; a ref whose marking failed never has a queued key. */
  ghost predicate KeyInv(s: Sys) {
    && (forall ref :: ref in s.stored && ref !in s.lost ==> ref in s.results)
    && (forall ref :: Held(s, ref) && ref !in s.lost && ref !in s.unmarked ==> ref in s.queued || ref in s.results)
    && (forall ref :: ref in s.unmarked ==> Held(s, ref) && ref !in s.queued)
    && (forall ref :: ref in s.queued ==> Held(s, ref))
  }

  /** The client holds ref: it was sent and the marking attempt is over. */
  ghost predicate Held(s: Sys, ref: Ref) {
    ref in s.sent && ref !in s.marking
  }

  lemma KeyStepTx(s: Sys, w: nat, b: nat, fault: Fault, a: Attempt)
    requires Enabled(s, RunTx(w, b, fault)) && AckInv(s) && KeyInv(s)
    ensures AckInv(ApplyAttempt(s, w, b, a)) && KeyInv(ApplyAttempt(s, w, b, a))
  {
  }

  lemma WorkerStepWrites(s: Sys, e: Action)
    requires (e.StoreResult? || e.CheckResult?) && Enabled(s, e) && AckInv(s)
    ensures WorkerInv(ApplyPlain(s, e))
  {
  }

  lemma WorkerStepMoves(s: Sys, e: Action)
    requires (e.Receive? || e.Unmark? || e.Ack? || e.Crash?) && Enabled(s, e) && AckInv(s)
    ensures WorkerInv(ApplyPlain(s, e))
  {
  }

  lemma WorkerStepPlain(s: Sys, e: Action)
    requires !e.RunTx? && Enabled(s, e) && AckInv(s)
    ensures WorkerInv(ApplyPlain(s, e))
  {
    if e.StoreResult? || e.CheckResult? {
      WorkerStepWrites(s, e);
    } else if ByWorker(e) {
      WorkerStepMoves(s, e);
    }
  }

  lemma QueueStepWorker(s: Sys, e: Action)
    requires ByWorker(e) && Enabled(s, e) && AckInv(s)
    ensures QueueInv(ApplyPlain(s, e))
  {
  }

  lemma QueueStepPlain(s: Sys, e: Action)
    requires !e.RunTx? && Enabled(s, e) && AckInv(s)
    ensures QueueInv(ApplyPlain(s, e))
  {
    if ByWorker(e) {
      QueueStepWorker(s, e);
    }
  }

  /** The keys after a worker's write: nothing but its ref's result is touched. */
  ghost predicate KeysWritten(s: Sys, s': Sys, ref: Ref, doc: ResultDoc, written: bool) {
    && s'.sent == s.sent && s'.marking == s.marking && s'.queued == s.queued && s'.lost == s.lost
    && s'.unmarked == s.unmarked
    && s'.results == (if written then s.results[ref := doc] else s.results)
    && s'.stored == (if written then s.stored + {ref} else s.stored)
  }

  lemma StoreWritesKeys(s: Sys, e: Action)
    requires e.StoreResult? && Enabled(s, e)
    ensures KeysWritten(s, ApplyPlain(s, e), s.workers[e.w].ref, s.workers[e.w].doc, !e.outcome.RaisedUnapplied?)
  {
  }

  lemma WrittenKeysKeep(s: Sys, s': Sys, ref: Ref, doc: ResultDoc, written: bool)
    requires KeyInv(s) && KeysWritten(s, s', ref, doc, written)
    ensures KeyInv(s')
  {
  }

  lemma KeyStepUnmark(s: Sys, e: Action)
    requires (e.Unmark? || e.Ack?) && Enabled(s, e) && AckInv(s) && KeyInv(s)
    ensures KeyInv(ApplyPlain(s, e))
  {
  }

  lemma KeyStepPlain(s: Sys, e: Action)
    requires !e.RunTx? && Enabled(s, e) && AckInv(s) && KeyInv(s)
    ensures KeyInv(ApplyPlain(s, e))
  {
    if e.StoreResult? {
      StoreWritesKeys(s, e);
      WrittenKeysKeep(s, ApplyPlain(s, e), s.workers[e.w].ref, s.workers[e.w].doc, !e.outcome.RaisedUnapplied?);
    } else if e.Unmark? || e.Ack? {
      KeyStepUnmark(s, e);
    }
  }

  lemma KeyStep(cat: Catalog, s: Sys, e: Action)
    requires Shaped(cat, s.db) && Enabled(s, e) && AckInv(s) && KeyInv(s)
    ensures AckInv(Apply(cat, s, e)) && KeyInv(Apply(cat, s, e))
  {
    if e.RunTx? {
      KeyStepTx(s, e.w, e.b, e.fault, AttemptOf(cat, s, e));
    } else {
      WorkerStepPlain(s, e);
      QueueStepPlain(s, e);
      KeyStepPlain(s, e);
    }
  }

  lemma {:induction false} RunKeepsKeys(cat: Catalog, states: seq<Sys>, actions: seq<Action>, k: nat)
    requires IsRun(cat, states, actions) && k < |states|
    ensures AckInv(states[k]) && KeyInv(states[k])
  {
    if k > 0 {
      RunKeepsKeys(cat, states, actions, k - 1);
      assert StepsTo(cat, states[k - 1], actions[k - 1], states[k]);
      KeyStep(cat, states[k - 1], actions[k - 1]);
    }
  }

  /** The step at which a worker's result write for ref takes effect. */
  ghost predicate WritesResult(s: Sys, e: Action, ref: Ref) {
    e.StoreResult? && Enabled(s, e) && s.workers[e.w].ref == ref && !e.outcome.RaisedUnapplied?
  }

  /** The step at which a worker removes a live queued key of ref. */
  ghost predicate DeletesQueued(s: Sys, e: Action, ref: Ref) {
    e.Unmark? && Enabled(s, e) && s.workers[e.w].ref == ref && e.applied && ref in s.queued
  }

  /** The transaction step leaves the status keys alone. */
  lemma AttemptFrame(s: Sys, w: nat, b: nat, a: Attempt)
    requires w in s.workers && s.workers[w].ref in s.sent
    ensures var s' := ApplyAttempt(s, w, b, a);
            && s'.results == s.results && s'.queued == s.queued && s'.stored == s.stored && s'.lost == s.lost
            && s'.sent == s.sent && s'.marking == s.marking && s'.unmarked == s.unmarked
  {
  }

  lemma StoreWriteExplains(s: Sys, e: Action, ref: Ref)
    requires e.StoreResult? && Enabled(s, e)
    ensures ref !in s.stored && ref in ApplyPlain(s, e).stored ==> WritesResult(s, e, ref)
    ensures ref !in s.results && ref in ApplyPlain(s, e).results ==> WritesResult(s, e, ref)
  {
  }

  lemma PlainWriteExplains(s: Sys, e: Action, ref: Ref)
    requires !e.RunTx? && Enabled(s, e)
    ensures ref !in s.stored && ref in ApplyPlain(s, e).stored ==> WritesResult(s, e, ref)
    ensures ref !in s.results && ref in ApplyPlain(s, e).results ==> WritesResult(s, e, ref)
  {
    if e.StoreResult? {
      StoreWriteExplains(s, e, ref);
    } else if ByWorker(e) {
    }
  }

  lemma PlainDeleteExplains(s: Sys, e: Action, ref: Ref)
    requires !e.RunTx? && Enabled(s, e) && ref in s.queued && ref !in ApplyPlain(s, e).queued
    ensures DeletesQueued(s, e, ref) || ref in ApplyPlain(s, e).lost
  {
    if e.Unmark? {
    } else if ByWorker(e) {
    }
  }

  /** Results, and the record that one was stored, come only from a worker's write. */
  lemma WriteExplains(cat: Catalog, s: Sys, e: Action, s': Sys, ref: Ref)
    requires StepsTo(cat, s, e, s')
    ensures ref !in s.stored && ref in s'.stored ==> WritesResult(s, e, ref)
    ensures ref !in s.results && ref in s'.results ==> WritesResult(s, e, ref)
  {
    if e.RunTx? {
      AttemptFrame(s, e.w, e.b, AttemptOf(cat, s, e));
    } else {
      PlainWriteExplains(s, e, ref);
    }
  }

  /** A live queued key goes by a worker's delete or is lost. */
  lemma DeleteExplains(cat: Catalog, s: Sys, e: Action, s': Sys, ref: Ref)
    requires StepsTo(cat, s, e, s') && ref in s.queued && ref !in s'.queued
    ensures DeletesQueued(s, e, ref) || ref in s'.lost
  {
    if e.RunTx? {
      AttemptFrame(s, e.w, e.b, AttemptOf(cat, s, e));
    } else {
      PlainDeleteExplains(s, e, ref);
    }
  }

  lemma {:induction false} StoredWasWritten(cat: Catalog, states: seq<Sys>, actions: seq<Action>, k: nat, ref: Ref)
    returns (j: nat)
    requires IsRun(cat, states, actions) && k < |states| && ref in states[k].stored
    ensures j < k && WritesResult(states[j], actions[j], ref)
  {
    if ref in states[k - 1].stored {
      j := StoredWasWritten(cat, states, actions, k - 1, ref);
    } else {
      WriteExplains(cat, states[k - 1], actions[k - 1], states[k], ref);
      j := k - 1;
    }
  }

  /** A message is deleted from the queue only after a result for its ref was written. */
  lemma DeletedOnlyAfterResult(cat: Catalog, states: seq<Sys>, actions: seq<Action>, k: nat, ref: Ref)
    requires IsRun(cat, states, actions) && k < |states|
    requires ref in states[k].sent && ref !in states[k].queue
    ensures exists j :: 0 <= j < k && WritesResult(states[j], actions[j], ref)
  {
    RunKeepsKeys(cat, states, actions, k);
    var j := StoredWasWritten(cat, states, actions, k, ref);
  }

  /**
   No gap: from the moment a client holds the ref until one of its keys is lost, the
   queued or the result key is live at every instant. If the marking itself failed there
   is no queued key, and instead the message is still on the queue or its result is live.
   */
  lemma NoStatusGap(cat: Catalog, states: seq<Sys>, actions: seq<Action>, k: nat, ref: Ref)
    requires IsRun(cat, states, actions) && k < |states| && Held(states[k], ref) && ref !in states[k].lost
    ensures ref !in states[k].unmarked ==> ref in states[k].queued || ref in states[k].results
    ensures ref in states[k].unmarked ==>
            ref !in states[k].queued && (ref in states[k].queue || ref in states[k].results)
  {
    RunKeepsKeys(cat, states, actions, k);
  }

  /** What a loss is: the key is gone, and until it is written again polls do not see it. */
  lemma LossTakesKey(cat: Catalog, s: Sys, e: Action, s': Sys)
    requires StepsTo(cat, s, e, s') && (e.LoseResult? || e.LoseQueued?)
    ensures e.ref in s'.lost && s'.db == s.db && s'.queue == s.queue && s'.workers == s.workers
    ensures e.LoseResult? ==> e.ref in s.results && s'.results == s.results - {e.ref} && s'.queued == s.queued
    ensures e.LoseQueued? ==> e.ref in s.queued && s'.queued == s.queued - {e.ref} && s'.results == s.results
  {
  }

  // ----------------------------------------------------------------- polling

  datatype PollReply = InvalidRef | Final(doc: ResultDoc) | InProgress | UnknownOrExpired

  /** get_booking_status_dict, given what its two reads returned. */
  function PollReplyOf(first: Option<ResultDoc>, queuedLive: bool): PollReply {
    match first
    case Some(doc) => Final(doc)
    case None => if queuedLive then InProgress else UnknownOrExpired
  }

  function ReadResult(s: Sys, ref: Ref): Option<ResultDoc> {
    if ref in s.results then Some(s.results[ref]) else None
  }

  /** What stays so once it is: losses, the record of a result, holding a ref, and the end of its queued key. */
  ghost predicate Later(s: Sys, s': Sys, ref: Ref) {
    && (ref in s.lost ==> ref in s'.lost)
    && (ref in s.stored ==> ref in s'.stored)
    && (Held(s, ref) ==> Held(s', ref))
    && (Held(s, ref) && ref !in s.queued ==> ref !in s'.queued)
    && (Held(s, ref) ==> (ref in s.unmarked <==> ref in s'.unmarked))
  }

  lemma LaterByWorker(s: Sys, e: Action, ref: Ref)
    requires ByWorker(e) && Enabled(s, e)
    ensures Later(s, ApplyPlain(s, e), ref)
  {
  }

  lemma LaterPlain(s: Sys, e: Action, ref: Ref)
    requires !e.RunTx? && Enabled(s, e)
    ensures Later(s, ApplyPlain(s, e), ref)
  {
    if ByWorker(e) {
      LaterByWorker(s, e, ref);
    }
  }

  lemma LaterStep(cat: Catalog, s: Sys, e: Action, s': Sys, ref: Ref)
    requires StepsTo(cat, s, e, s')
    ensures Later(s, s', ref)
  {
    if e.RunTx? {
      AttemptFrame(s, e.w, e.b, AttemptOf(cat, s, e));
    } else {
      LaterPlain(s, e, ref);
    }
  }

  lemma {:induction false} LaterAlong(states: seq<Sys>, i: nat, k: nat, ref: Ref)
    requires i <= k < |states| && forall j :: 0 <= j < |states| - 1 ==> Later(states[j], states[j + 1], ref)
    ensures Later(states[i], states[k], ref)
  {
    if i < k {
      LaterAlong(states, i, k - 1, ref);
      assert Later(states[k - 1], states[k - 1 + 1], ref);
    }
  }

  lemma HistoryGrows(cat: Catalog, states: seq<Sys>, actions: seq<Action>, i: nat, k: nat, ref: Ref)
    requires IsRun(cat, states, actions) && i <= k < |states|
    ensures Later(states[i], states[k], ref)
  {
    forall j | 0 <= j < |states| - 1
      ensures Later(states[j], states[j + 1], ref)
    {
      LaterStep(cat, states[j], actions[j], states[j + 1], ref);
    }
    LaterAlong(states, i, k, ref);
  }

  /** The write of the first result and the later delete of the queued key, both in [i, j). */
  ghost predicate WriteThenDelete(states: seq<Sys>, actions: seq<Action>, i: nat, j: nat, ref: Ref)
    requires i <= j < |states| == |actions| + 1
  {
    exists k, l :: i <= k < l < j
      && WritesResult(states[k], actions[k], ref) && ref !in states[k].results
      && DeletesQueued(states[l], actions[l], ref)
  }

  lemma {:induction false} FindDelete(cat: Catalog, states: seq<Sys>, actions: seq<Action>, i: nat, j: nat, ref: Ref)
    returns (l: nat)
    requires IsRun(cat, states, actions) && i <= j < |states|
    requires ref in states[i].queued && ref !in states[j].queued && ref !in states[j].lost
    ensures i <= l < j && DeletesQueued(states[l], actions[l], ref)
  {
    if ref !in states[j - 1].queued {
      HistoryGrows(cat, states, actions, j - 1, j, ref);
      l := FindDelete(cat, states, actions, i, j - 1, ref);
    } else {
      DeleteExplains(cat, states[j - 1], actions[j - 1], states[j], ref);
      l := j - 1;
    }
  }

  lemma {:induction false} FindWrite(cat: Catalog, states: seq<Sys>, actions: seq<Action>, i: nat, j: nat, ref: Ref)
    returns (k: nat)
    requires IsRun(cat, states, actions) && i <= j < |states|
    requires ref !in states[i].results && ref in states[j].results
    ensures i <= k < j && WritesResult(states[k], actions[k], ref) && ref !in states[k].results
  {
    if ref in states[j - 1].results {
      k := FindWrite(cat, states, actions, i, j - 1, ref);
    } else {
      WriteExplains(cat, states[j - 1], actions[j - 1], states[j], ref);
      k := j - 1;
    }
  }

  /**
   A poll reads the result key at states[i] and the queued key at states[j]. While the
   client holds the ref and no key of it is lost, the poll answers UNKNOWN_OR_EXPIRED
   iff the worker's first result write and its delete of the queued key both fall between
   the two reads, in that order; or, if the marking failed, iff there was no result yet.
   */
  lemma PollAnswersUnknownIff(cat: Catalog, states: seq<Sys>, actions: seq<Action>, i: nat, j: nat, ref: Ref)
    requires IsRun(cat, states, actions) && i <= j < |states|
    requires Held(states[i], ref) && ref !in states[j].lost
    ensures PollReplyOf(ReadResult(states[i], ref), ref in states[j].queued) == UnknownOrExpired <==>
            if ref in states[i].unmarked then ref !in states[i].results else WriteThenDelete(states, actions, i, j, ref)
  {
    HistoryGrows(cat, states, actions, i, j, ref);
    RunKeepsKeys(cat, states, actions, j);
    if ref !in states[i].unmarked {
      if ref !in states[i].results && ref !in states[j].queued {
        UnknownHasCause(cat, states, actions, i, j, ref);
      }
      if WriteThenDelete(states, actions, i, j, ref) {
        CauseGivesUnknown(cat, states, actions, i, j, ref);
      }
    }
  }

  /**
   What the other answers of a poll are worth, its result key read at states[i] and its
   queued key at states[j]. It answers with a document iff one was stored at the first read,
   with that document, and a stored OK names a booking committed for the ref with exactly
   the seats of the message. It answers in progress iff there was none and the queued key
   is live; and unless a key was lost, its message is then still on the queue or its result
   has arrived since.
   */
  lemma {:induction false} PollDelivers(cat: Catalog, states: seq<Sys>, actions: seq<Action>, i: nat, j: nat, ref: Ref)
    requires ValidCatalog(cat) && IsRun(cat, states, actions) && i <= j < |states|
    ensures var reply := PollReplyOf(ReadResult(states[i], ref), ref in states[j].queued);
            && (reply.Final? <==> ref in states[i].results)
            && (reply.Final? ==> reply.doc == states[i].results[ref])
            && (reply.Final? && reply.doc.Success? ==>
                  || ConcertFrom(states[i].sent, states[i].db.concert, reply.doc.bookingId, ref)
                  || TheaterFrom(cat.theater, states[i].sent, states[i].db.theater, reply.doc.bookingId, ref))
            && (reply.InProgress? <==> ref !in states[i].results && ref in states[j].queued)
            && (reply.InProgress? && ref !in states[j].lost ==> ref in states[j].queue || ref in states[j].results)
  {
    if ref in states[i].results && states[i].results[ref].Success? {
      OkResultNamesBooking(cat, states, actions, i, ref);
    }
    RunKeepsKeys(cat, states, actions, j);
  }

  lemma UnknownHasCause(cat: Catalog, states: seq<Sys>, actions: seq<Action>, i: nat, j: nat, ref: Ref)
    requires IsRun(cat, states, actions) && i <= j < |states|
    requires Held(states[i], ref) && ref !in states[j].lost && ref !in states[i].unmarked
    requires ref !in states[i].results && ref !in states[j].queued
    ensures WriteThenDelete(states, actions, i, j, ref)
  {
    RunKeepsKeys(cat, states, actions, i);
    HistoryGrows(cat, states, actions, i, j, ref);
    var l := FindDelete(cat, states, actions, i, j, ref);
    RunKeepsKeys(cat, states, actions, l + 1);
    HistoryGrows(cat, states, actions, i, l + 1, ref);
    HistoryGrows(cat, states, actions, l + 1, j, ref);
    DeletedKeyIsGone(cat, states[l], actions[l], states[l + 1], ref);
    var k := FindWrite(cat, states, actions, i, l, ref);
  }

  /** A worker's delete ends the queued key and leaves the results alone. */
  lemma DeletedKeyIsGone(cat: Catalog, s: Sys, e: Action, s': Sys, ref: Ref)
    requires StepsTo(cat, s, e, s') && DeletesQueued(s, e, ref)
    ensures ref !in s'.queued && s'.results == s.results
  {
  }

  lemma CauseGivesUnknown(cat: Catalog, states: seq<Sys>, actions: seq<Action>, i: nat, j: nat, ref: Ref)
    requires IsRun(cat, states, actions) && i <= j < |states|
    requires Held(states[i], ref) && ref !in states[j].lost && WriteThenDelete(states, actions, i, j, ref)
    ensures ref !in states[i].results && ref !in states[j].queued
  {
    var k, l :| i <= k < l < j && WritesResult(states[k], actions[k], ref) && ref !in states[k].results
      && DeletesQueued(states[l], actions[l], ref);
    RunKeepsKeys(cat, states, actions, i);
    RunKeepsKeys(cat, states, actions, k);
    HistoryGrows(cat, states, actions, i, k, ref);
    HistoryGrows(cat, states, actions, k, j, ref);
    DeletedKeyIsGone(cat, states[l], actions[l], states[l + 1], ref);
    HistoryGrows(cat, states, actions, i, l + 1, ref);
    HistoryGrows(cat, states, actions, l + 1, j, ref);
  }

  // --------------------------------------------------------------- truthfulness

  /**
   The events after which a result of ref may contradict the tables: overlapping
   deliveries, a duplicate check that fails while a result is stored, a commit or a first
   OK write whose acknowledgement is lost, a crash before the OK is stored, the loss of an
   OK result.
   */
  ghost predicate Disturbs(s: Sys, e: Action, ref: Ref) {
    match e
    case Receive(_, r) => r == ref && exists w :: w in s.workers && s.workers[w].ref == ref
    case CheckResult(w, readFails) => w in s.workers && s.workers[w].ref == ref && readFails && ref in s.results
    case RunTx(w, _, fault) => w in s.workers && s.workers[w].ref == ref && fault.CommitUnacknowledged?
    case StoreResult(w, outcome) => w in s.workers && PendingOk(s.workers[w], ref) && !outcome.Returned?
    case Crash(w) => w in s.workers && PendingOk(s.workers[w], ref)
    case LoseResult(r) => r == ref && OkStored(s, ref)
    case _ => false
  }

  ghost predicate PendingOk(pc: Pc, ref: Ref) {
    pc.Storing? && pc.ref == ref && pc.doc.Success?
  }

  ghost predicate OkStored(s: Sys, ref: Ref) {
    ref in s.results && s.results[ref].Success?
  }

  /** What an undisturbed ref looks like to a worker holding it. */
  ghost predicate CalmWorker(s: Sys, ref: Ref, pc: Pc) {
    match pc
    case Received(_) => Committed(s, ref) ==> OkStored(s, ref)
    case Processing(_) => !Committed(s, ref)
    case Storing(_, doc, _) => if doc.Success? then ref !in s.results else !Committed(s, ref)
    case _ => Committed(s, ref) ==> OkStored(s, ref)
  }

  ghost predicate Calm(s: Sys, ref: Ref) {
    && (forall w, w' :: w in s.workers && w' in s.workers && s.workers[w].ref == ref && s.workers[w'].ref == ref ==>
          w == w')
    && (forall w :: w in s.workers && s.workers[w].ref == ref ==> CalmWorker(s, ref, s.workers[w]))
    && (Committed(s, ref) ==> OkStored(s, ref) || exists w :: w in s.workers && PendingOk(s.workers[w], ref))
    && (forall w :: w in s.workers && s.workers[w].ref == ref && s.workers[w].Processing? ==> ref !in s.results)
  }


  /** Only a committed transaction makes a ref committed. */
  lemma CommittedTx(s: Sys, w: nat, b: nat, a: Attempt, ref: Ref)
    requires w in s.workers && FreshOrigin(s, s.workers[w].ref, b)
    ensures Committed(ApplyAttempt(s, w, b, a), ref) <==> Committed(s, ref) || (a.committed && s.workers[w].ref == ref)
  {
    var s' := ApplyAttempt(s, w, b, a);
    if Committed(s, ref) {
      var c :| Named(s, ref, c);
      NamedStaysTx(s, w, b, a, ref, c);
    }
    if a.committed {
      assert Named(s', s.workers[w].ref, b);
    }
    if Committed(s', ref) && !(a.committed && s.workers[w].ref == ref) {
      var c :| Named(s', ref, c);
      assert Named(s, ref, c);
    }
  }

  lemma CommittedPlain(s: Sys, e: Action, ref: Ref)
    requires !e.RunTx? && Enabled(s, e) && ref in s.sent
    ensures Committed(ApplyPlain(s, e), ref) <==> Committed(s, ref)
  {
    if Committed(s, ref) {
      var b :| Named(s, ref, b);
      NamedStaysPlain(s, e, ref, b);
    }
    if Committed(ApplyPlain(s, e), ref) {
      var b :| Named(ApplyPlain(s, e), ref, b);
      NamedStaysPlain(s, e, ref, b);
    }
  }

  lemma CalmOwnTx(s: Sys, w: nat, b: nat, fault: Fault, a: Attempt)
    requires Enabled(s, RunTx(w, b, fault)) && FreshOrigin(s, s.workers[w].ref, b) && HonestAttempt(s.db, b, fault, a)
    requires var ref := s.workers[w].ref; !Disturbs(s, RunTx(w, b, fault), ref) && Calm(s, ref)
    ensures Calm(ApplyAttempt(s, w, b, a), s.workers[w].ref)
  {
    var ref := s.workers[w].ref;
    var s' := ApplyAttempt(s, w, b, a);
    CommittedTx(s, w, b, a, ref);
    assert CalmWorker(s, ref, s.workers[w]);
    assert s'.workers[w] == Storing(ref, a.doc, a.inHandler);
  }

  /** A worker that goes on from one place in the handler to another. */
  lemma CalmMove(s: Sys, s': Sys, w: nat, ref: Ref)
    requires Calm(s, ref) && w in s.workers
    requires (Committed(s', ref) <==> Committed(s, ref)) && (OkStored(s, ref) ==> OkStored(s', ref))
    requires s'.workers.Keys <= s.workers.Keys
    requires forall v :: v in s'.workers && v != w ==> s'.workers[v] == s.workers[v]
    requires forall v :: v in s.workers && v != w ==> v in s'.workers
    requires forall r :: r in s'.results && r !in s.results ==> r == s.workers[w].ref
    requires w in s'.workers ==> s'.workers[w].ref == s.workers[w].ref
    requires w in s'.workers && s.workers[w].ref == ref ==> CalmWorker(s', ref, s'.workers[w])
    requires w in s'.workers && s.workers[w].ref == ref && s'.workers[w].Processing? ==> ref !in s'.results
    requires PendingOk(s.workers[w], ref) ==> OkStored(s', ref)
    ensures Calm(s', ref)
  {
    forall v | v in s'.workers && s'.workers[v].ref == ref
      ensures CalmWorker(s', ref, s'.workers[v])
    {
      assert CalmWorker(s, ref, s.workers[v]);
    }
    if v :| v in s.workers && PendingOk(s.workers[v], ref) && v != w {
      assert PendingOk(s'.workers[v], ref);
    }
  }

  lemma CalmOtherTx(s: Sys, w: nat, b: nat, fault: Fault, a: Attempt, ref: Ref)
    requires Enabled(s, RunTx(w, b, fault)) && FreshOrigin(s, s.workers[w].ref, b)
    requires Calm(s, ref) && s.workers[w].ref != ref
    ensures Calm(ApplyAttempt(s, w, b, a), ref)
  {
    CommittedTx(s, w, b, a, ref);
    AttemptFrame(s, w, b, a);
    CalmMove(s, ApplyAttempt(s, w, b, a), w, ref);
  }

  lemma CalmStepTx(s: Sys, w: nat, b: nat, fault: Fault, a: Attempt, ref: Ref)
    requires Enabled(s, RunTx(w, b, fault)) && FreshOrigin(s, s.workers[w].ref, b) && HonestAttempt(s.db, b, fault, a)
    requires !Disturbs(s, RunTx(w, b, fault), ref) && Calm(s, ref)
    ensures Calm(ApplyAttempt(s, w, b, a), ref)
  {
    if s.workers[w].ref == ref {
      CalmOwnTx(s, w, b, fault, a);
    } else {
      CalmOtherTx(s, w, b, fault, a, ref);
    }
  }

  lemma CalmCheck(s: Sys, w: nat, readFails: bool, ref: Ref)
    requires Enabled(s, CheckResult(w, readFails)) && ref in s.sent
    requires !Disturbs(s, CheckResult(w, readFails), ref) && Calm(s, ref)
    ensures Calm(ApplyPlain(s, CheckResult(w, readFails)), ref)
  {
    var e := CheckResult(w, readFails);
    CommittedPlain(s, e, ref);
    assert s.workers[w].ref == ref ==> CalmWorker(s, ref, s.workers[w]);
    CalmMove(s, ApplyPlain(s, e), w, ref);
  }

  lemma OkIsCommitted(s: Sys, ref: Ref)
    requires ResultInv(s)
    ensures OkStored(s, ref) ==> Committed(s, ref)
  {
  }

  lemma CalmStore(s: Sys, w: nat, outcome: CallOutcome, ref: Ref)
    requires Enabled(s, StoreResult(w, outcome)) && ref in s.sent && ResultInv(s)
    requires !Disturbs(s, StoreResult(w, outcome), ref) && Calm(s, ref)
    ensures Calm(ApplyPlain(s, StoreResult(w, outcome)), ref)
  {
    var e := StoreResult(w, outcome);
    var s' := ApplyPlain(s, e);
    CommittedPlain(s, e, ref);
    OkIsCommitted(s, ref);
    assert s.workers[w].ref == ref ==> CalmWorker(s, ref, s.workers[w]);
    CalmMove(s, s', w, ref);
  }

  lemma CalmUnmarkAckCrash(s: Sys, e: Action, ref: Ref)
    requires (e.Unmark? || e.Ack? || e.Crash?) && Enabled(s, e) && ref in s.sent
    requires !Disturbs(s, e, ref) && Calm(s, ref)
    ensures Calm(ApplyPlain(s, e), ref)
  {
    CommittedPlain(s, e, ref);
    assert s.workers[e.w].ref == ref ==> CalmWorker(s, ref, s.workers[e.w]);
    CalmMove(s, ApplyPlain(s, e), e.w, ref);
  }

  lemma CalmReceive(s: Sys, w: nat, r: Ref, ref: Ref)
    requires Enabled(s, Receive(w, r)) && ref in s.sent
    requires !Disturbs(s, Receive(w, r), ref) && Calm(s, ref)
    ensures Calm(ApplyPlain(s, Receive(w, r)), ref)
  {
    var s' := ApplyPlain(s, Receive(w, r));
    CommittedPlain(s, Receive(w, r), ref);
    if r == ref && Committed(s, ref) {
      assert OkStored(s, ref);
    }
    forall v | v in s'.workers && s'.workers[v].ref == ref
      ensures CalmWorker(s', ref, s'.workers[v])
    {
      assert v != w ==> CalmWorker(s, ref, s.workers[v]);
    }
    if v :| v in s.workers && PendingOk(s.workers[v], ref) {
      assert PendingOk(s'.workers[v], ref);
    }
  }

  /** A step that touches no worker, no OK result of ref and nothing that makes ref committed. */
  lemma CalmFrame(s: Sys, s': Sys, ref: Ref)
    requires Calm(s, ref) && s'.workers == s.workers && (Committed(s', ref) <==> Committed(s, ref))
    requires (ref in s'.results ==> ref in s.results) && (OkStored(s', ref) <==> OkStored(s, ref))
    ensures Calm(s', ref)
  {
    forall v | v in s'.workers && s'.workers[v].ref == ref
      ensures CalmWorker(s', ref, s'.workers[v])
    {
      assert CalmWorker(s, ref, s.workers[v]);
    }
  }

  /** Steps of write-api, refunds and losses. */
  lemma CalmElsewhere(s: Sys, e: Action, ref: Ref)
    requires !ByWorker(e) && !e.RunTx? && Enabled(s, e) && ref in s.sent && !Disturbs(s, e, ref) && Calm(s, ref)
    ensures Calm(ApplyPlain(s, e), ref)
  {
    CommittedPlain(s, e, ref);
    CalmFrame(s, ApplyPlain(s, e), ref);
  }

  lemma CalmStep(cat: Catalog, s: Sys, e: Action, ref: Ref)
    requires Shaped(cat, s.db) && Enabled(s, e) && OriginInv(cat, s) && ResultInv(s) && ref in s.sent
    requires !Disturbs(s, e, ref) && Calm(s, ref)
    ensures Calm(Apply(cat, s, e), ref)
  {
    match e
    case RunTx(w, b, fault) =>
      TransactIsHonest(cat, s.db, s.sent[s.workers[w].ref], b, fault);
      CalmStepTx(s, w, b, fault, AttemptOf(cat, s, e), ref);
    case CheckResult(w, readFails) => CalmCheck(s, w, readFails, ref);
    case StoreResult(w, outcome) => CalmStore(s, w, outcome, ref);
    case Receive(w, r) => CalmReceive(s, w, r, ref);
    case Unmark(_, _) => CalmUnmarkAckCrash(s, e, ref);
    case Ack(_, _) => CalmUnmarkAckCrash(s, e, ref);
    case Crash(_) => CalmUnmarkAckCrash(s, e, ref);
    case _ => CalmElsewhere(s, e, ref);
  }

  /** A newly sent ref has no worker and no booking. */
  lemma CalmAtSend(cat: Catalog, s: Sys, ref: Ref, msg: Message)
    requires Enabled(s, Send(ref, msg)) && OriginInv(cat, s) && WorkerInv(s)
    ensures Calm(ApplyPlain(s, Send(ref, msg)), ref)
  {
    var s' := ApplyPlain(s, Send(ref, msg));
    forall b
      ensures !Named(s', ref, b)
    {
      if b in s.concertOrigin {
        assert ConcertFrom(s.sent, s.db.concert, b, s.concertOrigin[b]);
      }
      if b in s.theaterOrigin {
        assert TheaterFrom(cat.theater, s.sent, s.db.theater, b, s.theaterOrigin[b]);
      }
    }
  }

  /** A ref becomes sent only by its Send. */
  lemma SentBefore(cat: Catalog, s: Sys, e: Action, s': Sys, ref: Ref)
    requires StepsTo(cat, s, e, s') && ref in s'.sent && ref !in s.sent
    ensures e.Send? && e.ref == ref
  {
    if e.RunTx? {
      AttemptFrame(s, e.w, e.b, AttemptOf(cat, s, e));
    } else if ByWorker(e) {
      WorkerFrame(s, e);
    }
  }

  lemma CalmNext(cat: Catalog, s: Sys, e: Action, s': Sys, ref: Ref)
    requires StepsTo(cat, s, e, s') && OriginInv(cat, s) && ResultInv(s) && WorkerInv(s) && !Disturbs(s, e, ref)
    requires ref in s.sent ==> Calm(s, ref)
    ensures ref in s'.sent ==> Calm(s', ref)
  {
    if ref in s.sent {
      CalmStep(cat, s, e, ref);
    } else if ref in s'.sent {
      SentBefore(cat, s, e, s', ref);
      CalmAtSend(cat, s, ref, e.msg);
    }
  }

  ghost predicate Undisturbed(states: seq<Sys>, actions: seq<Action>, k: nat, ref: Ref)
    requires k < |states| == |actions| + 1
  {
    forall j :: 0 <= j < k ==> !Disturbs(states[j], actions[j], ref)
  }

  lemma {:induction false} RunStaysCalm(cat: Catalog, states: seq<Sys>, actions: seq<Action>, k: nat, ref: Ref)
    requires ValidCatalog(cat) && IsRun(cat, states, actions) && k < |states| && Undisturbed(states, actions, k, ref)
    ensures ref in states[k].sent ==> Calm(states[k], ref)
  {
    if k > 0 {
      RunStaysCalm(cat, states, actions, k - 1, ref);
      RunKeepsOrigins(cat, states, actions, k - 1);
      RunKeepsKeys(cat, states, actions, k - 1);
      RunKeepsResults(cat, states, actions, k - 1);
      CalmNext(cat, states[k - 1], actions[k - 1], states[k], ref);
    }
  }

  lemma CalmIsTruthful(s: Sys, ref: Ref)
    requires Calm(s, ref) && ResultInv(s)
    ensures ref in s.results ==> (s.results[ref].Success? <==> Committed(s, ref))
  {
    if w :| w in s.workers && PendingOk(s.workers[w], ref) {
      assert CalmWorker(s, ref, s.workers[w]);
    }
  }

  /**
   Truthful results: in an undisturbed run a stored result is OK iff a booking was
   committed for its ref.
   */
  lemma ResultsAreTruthful(cat: Catalog, states: seq<Sys>, actions: seq<Action>, k: nat, ref: Ref)
    requires ValidCatalog(cat) && IsRun(cat, states, actions) && k < |states| && Undisturbed(states, actions, k, ref)
    requires ref in states[k].sent && ref in states[k].results
    ensures states[k].results[ref].Success? <==> Committed(states[k], ref)
  {
    RunStaysCalm(cat, states, actions, k, ref);
    RunKeepsResults(cat, states, actions, k);
    CalmIsTruthful(states[k], ref);
  }
}
