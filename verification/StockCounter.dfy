/**
 The stock counter of the older reservation service: lock the seat list, decrement a
 shared counter, check, send, and compensate on failure, with requests interleaving
 between any two calls, each of which may fail with or without effect.
 */
module StockCounter {
  import opened Collections
  import opened Wrappers

  /** A lock key: an event's sorted seat ids in one string. */
  type Key = string

  /** debited: the request's own decrement is in the counter and not yet accounted for. */
  datatype Phase =
    | Arrived
    | Locked
    | Short
    | ShortCredited
    | Passed
    | Failing(debited: bool)
    | Crediting(debited: bool)
    | Refused
    | SoldOut
    | Pending
    | Errored
    | Gone

  datatype Request = Request(key: Key, n: nat, phase: Phase)

  /**
   locks maps each live lock to the request that set it. The last two fields are history:
   credits without a debit, and debits whose request ended without credit.
   */
  datatype Sys = Sys(counter: int, locks: map<Key, nat>, requests: map<nat, Request>, enqueued: int, phantom: int,
                     leaked: int)

  datatype Action =
    | Arrive(q: nat, key: Key, n: nat)
    | SetLock(q: nat, outcome: CallOutcome)
    | Decrement(q: nat, outcome: CallOutcome)
    | CreditBack(q: nat, outcome: CallOutcome)
    | Unlock(q: nat, outcome: CallOutcome)
    | Send(q: nat, outcome: CallOutcome)
    | ExceptUnlock(q: nat, outcome: CallOutcome)
    | ExceptCredit(q: nat, outcome: CallOutcome)
    | Crash(q: nat)
    | ExpireLock(key: Key)

  predicate In(s: Sys, q: nat, p: Phase) {
    q in s.requests && s.requests[q].phase == p
  }

  predicate Ended(p: Phase) {
    p.Refused? || p.SoldOut? || p.Pending? || p.Errored? || p.Gone?
  }

  predicate Enabled(s: Sys, e: Action) {
    match e
    case Arrive(q, _, n) => q !in s.requests && n > 0
    case SetLock(q, _) => In(s, q, Arrived)
    case Decrement(q, _) => In(s, q, Locked)
    case CreditBack(q, _) => In(s, q, Short)
    case Unlock(q, _) => In(s, q, ShortCredited)
    case Send(q, _) => In(s, q, Passed)
    case ExceptUnlock(q, _) => q in s.requests && s.requests[q].phase.Failing?
    case ExceptCredit(q, _) => q in s.requests && s.requests[q].phase.Crediting?
    case Crash(q) => q in s.requests && !Ended(s.requests[q].phase)
    case ExpireLock(key) => key in s.locks
  }

  function Goto(s: Sys, q: nat, p: Phase): Sys
    requires q in s.requests
  {
    s.(requests := s.requests[q := s.requests[q].(phase := p)])
  }

  function HasDebit(p: Phase): bool {
    p.Short? || p.Passed? || (p.Failing? && p.debited) || (p.Crediting? && p.debited)
  }

  /** The request ends without a credit; a debit it still had is lost. */
  function Leave(s: Sys, q: nat): Sys
    requires q in s.requests
  {
    var r := s.requests[q];
    Goto(s, q, Gone).(leaked := s.leaked + if HasDebit(r.phase) then r.n else 0)
  }

  function Apply(s: Sys, e: Action): Sys
    requires Enabled(s, e)
  {
    match e
    case Arrive(q, key, n) => s.(requests := s.requests[q := Request(key, n, Arrived)])
    case SetLock(q, outcome) =>
      var key := s.requests[q].key;
      if outcome.Returned? && key in s.locks then Goto(s, q, Refused)
      else
        var s1 := if key in s.locks || outcome.RaisedUnapplied? then s else s.(locks := s.locks[key := q]);
        Goto(s1, q, if outcome.Returned? then Locked else Failing(false))
    case Decrement(q, outcome) =>
      if outcome.RaisedUnapplied? then Goto(s, q, Failing(false))
      else
        var left := s.counter - s.requests[q].n;
        Goto(s.(counter := left), q,
             if outcome.RaisedApplied? then Failing(true) else if left < 0 then Short else Passed)
    case CreditBack(q, outcome) =>
      if outcome.RaisedUnapplied? then Goto(s, q, Failing(true))
      else Goto(s.(counter := s.counter + s.requests[q].n), q,
                if outcome.Returned? then ShortCredited else Failing(false))
    case Unlock(q, outcome) =>
      var s1 := if outcome.RaisedUnapplied? then s else s.(locks := s.locks - {s.requests[q].key});
      Goto(s1, q, if outcome.Returned? then SoldOut else Failing(false))
    case Send(q, outcome) =>
      if outcome.RaisedUnapplied? then Goto(s, q, Failing(true))
      else Goto(s.(enqueued := s.enqueued + s.requests[q].n), q, if outcome.Returned? then Pending else Failing(false))
    case ExceptUnlock(q, outcome) =>
      var s1 := if outcome.RaisedUnapplied? then s else s.(locks := s.locks - {s.requests[q].key});
      if outcome.Returned? then Goto(s1, q, Crediting(s.requests[q].phase.debited)) else Leave(s1, q)
    case ExceptCredit(q, outcome) =>
      var r := s.requests[q];
      if outcome.RaisedUnapplied? then Leave(s, q)
      else Goto(s, q, if outcome.Returned? then Errored else Gone)
             .(counter := s.counter + r.n, phantom := s.phantom + if r.phase.debited then 0 else r.n)
    case Crash(q) => Leave(s, q)
    case ExpireLock(key) => s.(locks := s.locks - {key})
  }

  ghost predicate Init(s: Sys) {
    s.counter >= 0 && s.locks == map[] && s.requests == map[] && s.enqueued == 0 && s.phantom == 0 && s.leaked == 0
  }

  ghost predicate StepsTo(s: Sys, e: Action, s': Sys) {
    Enabled(s, e) && s' == Apply(s, e)
  }

  ghost predicate IsRun(states: seq<Sys>, actions: seq<Action>) {
    && |states| == |actions| + 1
    && Init(states[0])
    && forall k :: 0 <= k < |actions| ==> StepsTo(states[k], actions[k], states[k + 1])
  }

  // ------------------------------------------------------------ conservation

  function DebitOf(r: Request): int {
    if HasDebit(r.phase) then r.n else 0
  }

  function EntitledOf(r: Request): int {
    if r.phase.Passed? then r.n else 0
  }

  /** Seats taken out of the counter by requests that are still under way. */
  ghost function InFlight(s: Sys): int {
    Sum(s.requests, DebitOf)
  }

  /** Seats of requests that passed the check and have not sent yet. */
  ghost function Entitled(s: Sys): int {
    Sum(s.requests, EntitledOf)
  }

  /** Nothing appears or disappears: the counter and where its seats went add up to the initial stock. */
  ghost predicate Conserved(s: Sys, initial: int) {
    s.counter + InFlight(s) + s.enqueued + s.leaked == initial + s.phantom
  }

  ghost predicate Bounded(s: Sys, initial: int) {
    && s.enqueued + Entitled(s) <= initial + s.phantom
    && s.leaked >= 0 && s.phantom >= 0 && s.enqueued >= 0
  }

  lemma EntitledAtMostInFlight(s: Sys)
    ensures Entitled(s) <= InFlight(s)
  {
    SumAtMost(s.requests, EntitledOf, DebitOf);
  }

  /** A step changes one request, and the sums by that request's share. */
  lemma SumsAfter(s: Sys, q: nat, r: Request)
    ensures Sum(s.requests[q := r], DebitOf) ==
            InFlight(s) + DebitOf(r) - (if q in s.requests then DebitOf(s.requests[q]) else 0)
    ensures Sum(s.requests[q := r], EntitledOf)
            == Entitled(s) + EntitledOf(r) - (if q in s.requests then EntitledOf(s.requests[q]) else 0)
  {
    SumPut(s.requests, DebitOf, q, r);
    SumPut(s.requests, EntitledOf, q, r);
  }

  lemma StepConserves(s: Sys, e: Action, initial: int)
    requires Enabled(s, e) && Conserved(s, initial) && Bounded(s, initial)
    ensures Conserved(Apply(s, e), initial) && Bounded(Apply(s, e), initial)
  {
    var s' := Apply(s, e);
    if e.ExpireLock? {
    } else {
      SumsAfter(s, e.q, s'.requests[e.q]);
      EntitledAtMostInFlight(s');
      if e.ExceptCredit? {
      } else if e.Decrement? {
      }
    }
  }

  /**
   Conservation over every interleaving and every failure: counter, in-flight decrements,
   enqueued seats and leaks add up to the initial stock plus the phantom credits, and the
   enqueued seats never exceed initial stock plus phantoms, even while the counter is negative.
   */
  lemma {:induction false} RunConserves(states: seq<Sys>, actions: seq<Action>, k: nat)
    requires IsRun(states, actions) && k < |states|
    ensures Conserved(states[k], states[0].counter) && Bounded(states[k], states[0].counter)
  {
    if k > 0 {
      RunConserves(states, actions, k - 1);
      assert StepsTo(states[k - 1], actions[k - 1], states[k]);
      StepConserves(states[k - 1], actions[k - 1], states[0].counter);
    }
  }

  // ---------------------------------------------------------------- oversale

  /**
   The failures after which the except clause credits seats the request no longer has
   taken: at the lock, at a decrement that did not happen, at the sold-out compensation
   once it happened, at a send that went through.
   */
  ghost predicate FailsUndebited(e: Action) {
    match e
    case SetLock(_, outcome) => !outcome.Returned?
    case Decrement(_, outcome) => outcome.RaisedUnapplied?
    case CreditBack(_, outcome) => outcome.RaisedApplied?
    case Unlock(_, outcome) => !outcome.Returned?
    case Send(_, outcome) => outcome.RaisedApplied?
    case _ => false
  }

  ghost predicate AllDebited(s: Sys) {
    && s.phantom == 0
    && forall q :: q in s.requests ==>
         && (s.requests[q].phase.Failing? ==> s.requests[q].phase.debited)
         && (s.requests[q].phase.Crediting? ==> s.requests[q].phase.debited)
  }

  lemma DebitedStep(s: Sys, e: Action)
    requires Enabled(s, e) && AllDebited(s) && !FailsUndebited(e)
    ensures AllDebited(Apply(s, e))
  {
  }

  lemma {:induction false} RunStaysDebited(states: seq<Sys>, actions: seq<Action>, k: nat)
    requires IsRun(states, actions) && k < |states| && forall j :: 0 <= j < k ==> !FailsUndebited(actions[j])
    ensures AllDebited(states[k])
  {
    if k > 0 {
      RunStaysDebited(states, actions, k - 1);
      assert StepsTo(states[k - 1], actions[k - 1], states[k]);
      DebitedStep(states[k - 1], actions[k - 1]);
    }
  }

  /**
   The stock is never oversold in a run whose failures all leave the decrement in place
   and the message unsent, such as failing only at a send that does not go through;
   crashes and lost locks are allowed.
   */
  lemma NeverOversells(states: seq<Sys>, actions: seq<Action>, k: nat)
    requires IsRun(states, actions) && k < |states| && forall j :: 0 <= j < k ==> !FailsUndebited(actions[j])
    ensures states[k].enqueued <= states[0].counter
    ensures states[k].counter + InFlight(states[k]) + states[k].enqueued + states[k].leaked == states[0].counter
  {
    RunConserves(states, actions, k);
    RunStaysDebited(states, actions, k);
    SumNonNegative(states[k]);
  }

  lemma SumNonNegative(s: Sys)
    ensures Entitled(s) >= 0
  {
    var none := (r: Request) => 0;
    SumAtMost(s.requests, none, EntitledOf);
    SumOfNone(s.requests, none);
  }

  lemma {:induction false} SumOfNone(m: map<nat, Request>, f: Request -> int)
    requires forall r :: f(r) == 0
    ensures Sum(m, f) == 0
    decreases m.Keys
  {
    if m != map[] {
      var k :| k in m;
      SumSplit(m, f, k);
      SumOfNone(m - {k}, f);
    }
  }

  /** One more request, served alone and without failure. */
  ghost function Served(s: Sys, q: nat, key: Key, n: nat): (s': Sys)
    requires q !in s.requests && n > 0 && key !in s.locks && n <= s.counter
  {
    var s1 := Apply(s, Arrive(q, key, n));
    var s2 := Apply(s1, SetLock(q, Returned));
    var s3 := Apply(s2, Decrement(q, Returned));
    Apply(s3, Send(q, Returned))
  }

  /**
   What the phantoms amount to: with no request under way, buying out the counter enqueues
   more than the initial stock iff the phantom credits exceed the leaks.
   */
  lemma BuyOutOversellsIff(states: seq<Sys>, actions: seq<Action>, k: nat, q: nat, key: Key)
    requires IsRun(states, actions) && k < |states| && q !in states[k].requests && key !in states[k].locks
    requires InFlight(states[k]) == 0 && states[k].counter > 0
    ensures var s' := Served(states[k], q, key, states[k].counter);
            && In(s', q, Pending)
            && (s'.enqueued > states[0].counter <==> states[k].phantom > states[k].leaked)
  {
    RunConserves(states, actions, k);
  }

  lemma ServedSteps(s: Sys, q: nat, key: Key, n: nat) returns (s1: Sys, s2: Sys, s3: Sys, s4: Sys)
    requires q !in s.requests && n > 0 && key !in s.locks && n <= s.counter
    ensures StepsTo(s, Arrive(q, key, n), s1) && StepsTo(s1, SetLock(q, Returned), s2)
    ensures StepsTo(s2, Decrement(q, Returned), s3) && StepsTo(s3, Send(q, Returned), s4)
    ensures s4 == Served(s, q, key, n) && s4.enqueued == s.enqueued + n
  {
    s1 := Apply(s, Arrive(q, key, n));
    s2 := Apply(s1, SetLock(q, Returned));
    s3 := Apply(s2, Decrement(q, Returned));
    s4 := Apply(s3, Send(q, Returned));
  }

  lemma FailsAtLock(s: Sys, q: nat, key: Key, n: nat) returns (s1: Sys, s2: Sys, s3: Sys, s4: Sys)
    requires q !in s.requests && n > 0
    ensures StepsTo(s, Arrive(q, key, n), s1) && StepsTo(s1, SetLock(q, RaisedUnapplied), s2)
    ensures StepsTo(s2, ExceptUnlock(q, Returned), s3) && StepsTo(s3, ExceptCredit(q, Returned), s4)
    ensures s4.counter == s.counter + n && s4.locks == s.locks - {key} && s4.enqueued == s.enqueued
    ensures s4.requests == s.requests[q := Request(key, n, Errored)]
  {
    s1 := Apply(s, Arrive(q, key, n));
    s2 := Apply(s1, SetLock(q, RaisedUnapplied));
    s3 := Apply(s2, ExceptUnlock(q, Returned));
    s4 := Apply(s3, ExceptCredit(q, Returned));
  }

  lemma ExtendRun(states: seq<Sys>, actions: seq<Action>, e: Action, s': Sys)
    returns (states': seq<Sys>, actions': seq<Action>)
    requires IsRun(states, actions) && StepsTo(states[|states| - 1], e, s')
    ensures IsRun(states', actions') && states'[0] == states[0] && states'[|states'| - 1] == s'
  {
    states', actions' := states + [s'], actions + [e];
  }

  /** The smallest case: one lock call that raises, and the stock sells one seat more than it had. */
  lemma LockFailureOversells(start: Sys, k1: Key, k2: Key) returns (states: seq<Sys>, actions: seq<Action>)
    requires Init(start)
    ensures IsRun(states, actions) && states[0] == start
    ensures states[|states| - 1].enqueued == start.counter + 1
  {
    var n := start.counter + 1;
    var s1, s2, s3, s4 := FailsAtLock(start, 0, k1, 1);
    var s5, s6, s7, s8 := ServedSteps(s4, 1, k2, n);
    states, actions := ExtendRun([start], [], Arrive(0, k1, 1), s1);
    states, actions := ExtendRun(states, actions, SetLock(0, RaisedUnapplied), s2);
    states, actions := ExtendRun(states, actions, ExceptUnlock(0, Returned), s3);
    states, actions := ExtendRun(states, actions, ExceptCredit(0, Returned), s4);
    states, actions := ExtendRun(states, actions, Arrive(1, k2, n), s5);
    states, actions := ExtendRun(states, actions, SetLock(1, Returned), s6);
    states, actions := ExtendRun(states, actions, Decrement(1, Returned), s7);
    states, actions := ExtendRun(states, actions, Send(1, Returned), s8);
  }

  /** A lock that ran out is free: the next request for the same seat list gets it. */
  lemma ExpiredLockIsGranted(s: Sys, e: Action, q: nat, key: Key)
    requires e == ExpireLock(key) && Enabled(s, e) && In(s, q, Arrived) && s.requests[q].key == key
    ensures key in s.locks && Apply(s, e).requests == s.requests
    ensures Enabled(Apply(s, e), SetLock(q, Returned)) && In(Apply(Apply(s, e), SetLock(q, Returned)), q, Locked)
  {
  }

  // --------------------------------------------------------------- seat locks

  predicate Holding(p: Phase) {
    p.Locked? || p.Short? || p.ShortCredited? || p.Passed? || p.Failing? || p.Pending?
  }

  /** A request between its lock and its unlock, or enqueued, is the one its lock names. */
  ghost predicate LockInv(s: Sys) {
    forall q :: q in s.requests && Holding(s.requests[q].phase) ==>
      s.requests[q].key in s.locks && s.locks[s.requests[q].key] == q
  }

  lemma LockStep(s: Sys, e: Action)
    requires Enabled(s, e) && LockInv(s) && !FailsUndebited(e) && !e.ExpireLock?
    ensures LockInv(Apply(s, e))
  {
  }

  lemma {:induction false} RunKeepsLocks(states: seq<Sys>, actions: seq<Action>, k: nat)
    requires IsRun(states, actions) && k < |states|
    requires forall j :: 0 <= j < k ==> !FailsUndebited(actions[j]) && !actions[j].ExpireLock?
    ensures LockInv(states[k])
  {
    if k > 0 {
      RunKeepsLocks(states, actions, k - 1);
      assert StepsTo(states[k - 1], actions[k - 1], states[k]);
      LockStep(states[k - 1], actions[k - 1]);
    }
  }

  /** While no lock runs out and no failure is undebited, one seat list is under way or enqueued at most once. */
  lemma SameSeatListExcluded(states: seq<Sys>, actions: seq<Action>, k: nat, q: nat, r: nat)
    requires IsRun(states, actions) && k < |states|
    requires forall j :: 0 <= j < k ==> !FailsUndebited(actions[j]) && !actions[j].ExpireLock?
    requires q in states[k].requests && Holding(states[k].requests[q].phase)
    requires r in states[k].requests && Holding(states[k].requests[r].phase)
    requires states[k].requests[q].key == states[k].requests[r].key
    ensures q == r
  {
    RunKeepsLocks(states, actions, k);
  }

  // ------------------------------------------------------ the code, one request

  /** How each call of one request ends. */
  datatype Calls = Calls(lock: CallOutcome, decrement: CallOutcome, credit: CallOutcome, unlock: CallOutcome,
                         send: CallOutcome, exceptUnlock: CallOutcome, exceptCredit: CallOutcome)

  function NextAction(p: Phase, q: nat, f: Calls): Action
    requires !Ended(p)
  {
    match p
    case Arrived => SetLock(q, f.lock)
    case Locked => Decrement(q, f.decrement)
    case Short => CreditBack(q, f.credit)
    case ShortCredited => Unlock(q, f.unlock)
    case Passed => Send(q, f.send)
    case Failing(_) => ExceptUnlock(q, f.exceptUnlock)
    case Crediting(_) => ExceptCredit(q, f.exceptCredit)
  }

  function Rank(p: Phase): nat {
    match p
    case Arrived => 6
    case Locked => 5
    case Short => 4
    case ShortCredited => 3
    case Passed => 3
    case Failing(_) => 2
    case Crediting(_) => 1
    case _ => 0
  }

  /** The rest of request q when nobody else comes between its steps. */
  function RunAlone(s: Sys, q: nat, f: Calls): (s': Sys)
    requires q in s.requests
    ensures q in s'.requests && Ended(s'.requests[q].phase)
    decreases Rank(s.requests[q].phase)
  {
    if Ended(s.requests[q].phase) then s
    else RunAlone(Apply(s, NextAction(s.requests[q].phase, q, f)), q, f)
  }

  /** So whatever holds of runs holds of it: a request served alone conserves the stock. */
  lemma {:induction false} RunAloneConserves(s: Sys, q: nat, f: Calls, initial: int)
    requires q in s.requests && Conserved(s, initial) && Bounded(s, initial)
    ensures Conserved(RunAlone(s, q, f), initial) && Bounded(RunAlone(s, q, f), initial)
    decreases Rank(s.requests[q].phase)
  {
    if !Ended(s.requests[q].phase) {
      var e := NextAction(s.requests[q].phase, q, f);
      StepConserves(s, e, initial);
      RunAloneConserves(Apply(s, e), q, f, initial);
    }
  }

  /** Propagated: an exception of the except clause itself. */
  datatype Reply = SeatLocked | NoSeatsLeft | Accepted | ServerError | Propagated

  function ReplyOf(p: Phase): Reply
    requires Ended(p)
  {
    match p
    case Refused => SeatLocked
    case SoldOut => NoSeatsLeft
    case Pending => Accepted
    case Errored => ServerError
    case Gone => Propagated
  }

  /** What the except clause credits, whatever was debited before. */
  function ExceptCredits(n: nat, f: Calls): nat {
    if f.exceptUnlock == Returned && f.exceptCredit != RaisedUnapplied then n else 0
  }

  class ReservationStore {
    var counter: int
    var locks: set<Key>
    var enqueued: int

    constructor (stock: int)
      ensures counter == stock && locks == {} && enqueued == 0
    {
      counter, locks, enqueued := stock, {}, 0;
    }

    ghost predicate Shows(s: Sys)
      reads this
    {
      counter == s.counter && locks == s.locks.Keys && enqueued == s.enqueued
    }

    method SetNx(key: Key, outcome: CallOutcome) returns (locked: bool)
      modifies this`locks
      ensures locked == (outcome.Returned? && key !in old(locks))
      ensures locks == if outcome.RaisedUnapplied? then old(locks) else old(locks) + {key}
    {
      locked := outcome == Returned && key !in locks;
      if outcome != RaisedUnapplied {
        locks := locks + {key};
      }
    }

    method Delete(key: Key, outcome: CallOutcome)
      modifies this`locks
      ensures locks == if outcome.RaisedUnapplied? then old(locks) else old(locks) - {key}
    {
      if outcome != RaisedUnapplied {
        locks := locks - {key};
      }
    }

    method DecrBy(n: nat, outcome: CallOutcome)
      modifies this`counter
      ensures counter == old(counter) - if outcome.RaisedUnapplied? then 0 else n
    {
      if outcome != RaisedUnapplied {
        counter := counter - n;
      }
    }

    method IncrBy(n: nat, outcome: CallOutcome)
      modifies this`counter
      ensures counter == old(counter) + if outcome.RaisedUnapplied? then 0 else n
    {
      if outcome != RaisedUnapplied {
        counter := counter + n;
      }
    }

    /** The except clause. */
    method Compensate(key: Key, n: nat, f: Calls, ghost s: Sys, ghost q: nat) returns (reply: Reply)
      requires q in s.requests && s.requests[q].phase.Failing? && s.requests[q].key == key && s.requests[q].n == n
      requires Shows(s)
      modifies this
      ensures Shows(RunAlone(s, q, f)) && reply == ReplyOf(RunAlone(s, q, f).requests[q].phase)
      ensures reply == if f.exceptUnlock == Returned && f.exceptCredit == Returned then ServerError else Propagated
      ensures locks == if f.exceptUnlock == RaisedUnapplied then old(locks) else old(locks) - {key}
      ensures counter == old(counter) + ExceptCredits(n, f) && enqueued == old(enqueued)
    {
      ghost var s1 := Apply(s, ExceptUnlock(q, f.exceptUnlock));
      Delete(key, f.exceptUnlock);
      if f.exceptUnlock != Returned {
        return Propagated;
      }
      ghost var s2 := Apply(s1, ExceptCredit(q, f.exceptCredit));
      IncrBy(n, f.exceptCredit);
      assert RunAlone(s, q, f) == RunAlone(s1, q, f) == s2;
      reply := if f.exceptCredit == Returned then ServerError else Propagated;
    }

    /** The sold-out branch. */
    method GiveBack(key: Key, n: nat, f: Calls, ghost s: Sys, ghost q: nat) returns (reply: Reply)
      requires In(s, q, Short) && s.requests[q].key == key && s.requests[q].n == n && Shows(s)
      modifies this
      ensures Shows(RunAlone(s, q, f)) && reply == ReplyOf(RunAlone(s, q, f).requests[q].phase)
      ensures reply ==
        if f.credit == Returned && f.unlock == Returned then NoSeatsLeft
        else if f.exceptUnlock == Returned && f.exceptCredit == Returned then ServerError
        else Propagated
      ensures reply == NoSeatsLeft ==> locks == old(locks) - {key}
      ensures counter == old(counter) + (if f.credit != RaisedUnapplied then n else 0)
                         + (if reply != NoSeatsLeft then ExceptCredits(n, f) else 0)
      ensures enqueued == old(enqueued)
    {
      ghost var s1 := Apply(s, CreditBack(q, f.credit));
      IncrBy(n, f.credit);
      if f.credit != Returned {
        reply := Compensate(key, n, f, s1, q);
        return;
      }
      ghost var s2 := Apply(s1, Unlock(q, f.unlock));
      Delete(key, f.unlock);
      assert RunAlone(s, q, f) == RunAlone(s1, q, f) == RunAlone(s2, q, f);
      if f.unlock != Returned {
        reply := Compensate(key, n, f, s2, q);
        return;
      }
      reply := NoSeatsLeft;
    }

    /** From the passed stock check on. */
    method SendMessage(key: Key, n: nat, f: Calls, ghost s: Sys, ghost q: nat) returns (reply: Reply)
      requires In(s, q, Passed) && s.requests[q].key == key && s.requests[q].n == n && Shows(s)
      modifies this
      ensures Shows(RunAlone(s, q, f)) && reply == ReplyOf(RunAlone(s, q, f).requests[q].phase)
      ensures reply ==
        if f.send == Returned then Accepted
        else if f.exceptUnlock == Returned && f.exceptCredit == Returned then ServerError
        else Propagated
      ensures reply == Accepted ==> locks == old(locks)
      ensures counter == old(counter) + if reply != Accepted then ExceptCredits(n, f) else 0
      ensures enqueued == old(enqueued) + if f.send != RaisedUnapplied then n else 0
    {
      ghost var s1 := Apply(s, Send(q, f.send));
      if f.send != RaisedUnapplied {
        enqueued := enqueued + n;
      }
      assert RunAlone(s, q, f) == RunAlone(s1, q, f);
      if f.send != Returned {
        reply := Compensate(key, n, f, s1, q);
        return;
      }
      reply := Accepted;
    }

    /** From the granted lock on. */
    method TakeStock(key: Key, n: nat, f: Calls, ghost s: Sys, ghost q: nat) returns (reply: Reply)
      requires In(s, q, Locked) && s.requests[q].key == key && s.requests[q].n == n && Shows(s)
      modifies this
      ensures Shows(RunAlone(s, q, f)) && reply == ReplyOf(RunAlone(s, q, f).requests[q].phase)
      ensures reply ==
        if f.decrement == Returned && n <= old(counter) && f.send == Returned then Accepted
        else if f.decrement == Returned && n > old(counter) && f.credit == Returned && f.unlock == Returned
        then NoSeatsLeft
        else if f.exceptUnlock == Returned && f.exceptCredit == Returned then ServerError
        else Propagated
      ensures reply == Accepted ==> locks == old(locks)
      ensures reply == NoSeatsLeft ==> locks == old(locks) - {key}
      ensures counter == old(counter) - (if f.decrement != RaisedUnapplied then n else 0)
                         + (if f.decrement == Returned && n > old(counter) && f.credit != RaisedUnapplied then n else 0)
                         + (if reply != Accepted && reply != NoSeatsLeft then ExceptCredits(n, f) else 0)
      ensures enqueued == old(enqueued) +
              if f.decrement == Returned && n <= old(counter) && f.send != RaisedUnapplied then n else 0
    {
      ghost var s1 := Apply(s, Decrement(q, f.decrement));
      DecrBy(n, f.decrement);
      assert RunAlone(s, q, f) == RunAlone(s1, q, f);
      if f.decrement != Returned {
        reply := Compensate(key, n, f, s1, q);
        return;
      }
      if counter < 0 {
        reply := GiveBack(key, n, f, s1, q);
        return;
      }
      reply := SendMessage(key, n, f, s1, q);
    }

    /** create_reservation after its parameter check, alone in the system. */
    method CreateReservation(key: Key, n: nat, f: Calls, ghost s: Sys, ghost q: nat) returns (reply: Reply)
      requires In(s, q, Arrived) && s.requests[q].key == key && s.requests[q].n == n && Shows(s)
      modifies this
      ensures Shows(RunAlone(s, q, f)) && reply == ReplyOf(RunAlone(s, q, f).requests[q].phase)
      ensures reply ==
        if f.lock == Returned && key in old(locks) then SeatLocked
        else if f.lock == Returned && f.decrement == Returned && n <= old(counter) && f.send == Returned then Accepted
        else if f.lock == Returned && f.decrement == Returned && n > old(counter)
                && f.credit == Returned && f.unlock == Returned
        then NoSeatsLeft
        else if f.exceptUnlock == Returned && f.exceptCredit == Returned then ServerError
        else Propagated
      ensures reply == Accepted ==> locks == old(locks) + {key}
      ensures reply == NoSeatsLeft || reply == SeatLocked ==> locks == old(locks) && counter == old(counter)
      ensures var locked := f.lock == Returned && key !in old(locks);
              && enqueued == old(enqueued) +
                 (if locked && f.decrement == Returned && n <= old(counter) && f.send != RaisedUnapplied then n else 0)
              && counter == old(counter) - (if locked && f.decrement != RaisedUnapplied then n else 0)
                 + (if locked && f.decrement == Returned && n > old(counter) && f.credit != RaisedUnapplied
                    then n else 0)
                 + (if reply == ServerError || reply == Propagated then ExceptCredits(n, f) else 0)
    {
      ghost var s1 := Apply(s, SetLock(q, f.lock));
      var locked := SetNx(key, f.lock);
      assert RunAlone(s, q, f) == RunAlone(s1, q, f);
      if f.lock != Returned {
        reply := Compensate(key, n, f, s1, q);
        return;
      }
      if !locked {
        return SeatLocked;
      }
      reply := TakeStock(key, n, f, s1, q);
    }
  }
}
