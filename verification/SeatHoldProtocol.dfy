/**
 Hold requests interleaved pipeline by pipeline: acquire, then either add to the
 reserved set, or read the owners and delete. Any number of requests are under way;
 each may stop for good after any pipeline.
 */
module SeatHoldProtocol {
  import opened Sequences
  import opened SeatKeys
  import opened BookingMessages
  import opened SeatHold

  /** Adding: all granted. Releasing: the owner read is next. Deleting: the delete is next. */
  datatype Phase = Adding | Releasing(held: seq<Seat>) | Deleting(mine: set<Seat>) | Held | Refused

  /** got and left are history: the seats granted, and those of them after the first refusal. */
  datatype Request = Request(showId: int, seats: seq<Seat>, acquiredAt: int, ttl: int, got: set<Seat>, left: set<Seat>,
                             phase: Phase)

  datatype Sys = Sys(redis: Redis, requests: map<Ref, Request>)

  datatype Action =
    | AcquireStep(ref: Ref, showId: int, seats: seq<Seat>, ttlSec: int)
    | AddStep(ref: Ref)
    | ReadStep(ref: Ref)
    | DeleteStep(ref: Ref)
    | TickStep(now: int)

  predicate Enabled(s: Sys, e: Action) {
    match e
    case AcquireStep(ref, _, seats, _) => ref !in s.requests && seats != []
    case AddStep(ref) => ref in s.requests && s.requests[ref].phase.Adding?
    case ReadStep(ref) => ref in s.requests && s.requests[ref].phase.Releasing?
    case DeleteStep(ref) => ref in s.requests && s.requests[ref].phase.Deleting?
    case TickStep(now) => s.redis.now <= now
  }

  function Move(s: Sys, ref: Ref, phase: Phase): Sys
    requires ref in s.requests
  {
    s.(requests := s.requests[ref := s.requests[ref].(phase := phase)])
  }

  /** A release of no seats returns at once. */
  function FirstPhase(r: Redis, showId: int, seats: seq<Seat>): Phase {
    var n := Prefix(Granted(r, showId, seats));
    if n == |seats| then Adding else if n == 0 then Refused else Releasing(seats[..n])
  }

  function NewRequest(r: Redis, showId: int, seats: seq<Seat>, ttlSec: int): Request {
    Request(showId, seats, r.now, Ttl(ttlSec), FreeOf(r, showId, seats), LeftBehind(r, showId, seats),
            FirstPhase(r, showId, seats))
  }

  function Apply(s: Sys, e: Action): Sys
    requires Enabled(s, e)
  {
    match e
    case AcquireStep(ref, showId, seats, ttlSec) =>
      Sys(Acquire(s.redis, showId, seats, ref, Ttl(ttlSec)),
          s.requests[ref := NewRequest(s.redis, showId, seats, ttlSec)])
    case AddStep(ref) =>
      var q := s.requests[ref];
      Move(s.(redis := Add(s.redis, q.showId, q.seats, q.ttl)), ref, Held)
    case ReadStep(ref) =>
      var q := s.requests[ref];
      Move(s, ref, Deleting(Mine(s.redis, q.showId, q.phase.held, ref)))
    case DeleteStep(ref) =>
      var q := s.requests[ref];
      Move(s.(redis := Delete(s.redis, q.showId, q.phase.mine)), ref, Refused)
    case TickStep(now) => s.(redis := Tick(s.redis, now))
  }

  ghost predicate Init(s: Sys) {
    s.requests == map[] && s.redis.holds == map[] && s.redis.reserved == map[]
  }

  ghost predicate StepsTo(s: Sys, e: Action, s': Sys) {
    Enabled(s, e) && s' == Apply(s, e)
  }

  ghost predicate IsRun(states: seq<Sys>, actions: seq<Action>) {
    && |states| == |actions| + 1 && Init(states[0])
    && forall k :: 0 <= k < |actions| ==> StepsTo(states[k], actions[k], states[k + 1])
  }

  // --------------------------------------------------- keys and their requests

  function End(q: Request): int {
    q.acquiredAt + q.ttl
  }

  ghost predicate Alive(s: Sys, q: Request) {
    s.redis.now < End(q)
  }

  /** The seats whose keys the request has as long as it lives and nobody takes them away. */
  function Keys(q: Request): set<Seat> {
    if q.phase.Refused? then q.left else q.got
  }

  ghost predicate Owns(r: Redis, showId: int, seat: Seat, ref: Ref) {
    Key(showId, seat) in r.holds && r.holds[Key(showId, seat)].owner == ref
  }

  /** Every stored key was granted to a request and expires with it. */
  ghost predicate HoldsInv(s: Sys) {
    forall k :: k in s.redis.holds ==>
      && s.redis.holds[k].owner in s.requests
      && k.showId == s.requests[s.redis.holds[k].owner].showId
      && k.seat in s.requests[s.redis.holds[k].owner].got
      && s.redis.holds[k].expiry == End(s.requests[s.redis.holds[k].owner])
      && s.redis.now < s.redis.holds[k].expiry
  }

  ghost predicate PhaseInv(r: Redis, ref: Ref, q: Request) {
    match q.phase
    case Releasing(held) => (set x | x in held) == q.got - q.left
    case Deleting(mine) =>
      && mine <= q.got - q.left
      && forall seat :: seat in q.got - q.left && Owns(r, q.showId, seat, ref) ==> seat in mine
    case Refused => forall seat :: Owns(r, q.showId, seat, ref) ==> seat in q.left
    case _ => q.left == {} && q.got == set x | x in q.seats
  }

  ghost predicate RequestInv(s: Sys, ref: Ref)
    requires ref in s.requests
  {
    var q := s.requests[ref];
    q.acquiredAt <= s.redis.now && q.ttl >= 10 && q.left <= q.got && PhaseInv(s.redis, ref, q)
  }

  /** What holds in every run, releases late or not. */
  ghost predicate BaseInv(s: Sys) {
    HoldsInv(s) && forall ref :: ref in s.requests ==> RequestInv(s, ref)
  }

  lemma NewRequestInv(r: Redis, showId: int, seats: seq<Seat>, ttlSec: int, r': Redis, ref: Ref)
    requires forall seat :: Owns(r', showId, seat, ref) ==> seat in FreeOf(r, showId, seats)
    ensures var q := NewRequest(r, showId, seats, ttlSec);
            q.left <= q.got && PhaseInv(r', ref, q) && q.ttl >= 10
  {
    var n := Prefix(Granted(r, showId, seats));
    GrantedWereFree(r, showId, seats, n);
    assert seats[..|seats|] == seats;
    forall x | x in seats[..n]
      ensures x in FreeOf(r, showId, seats)
    {
      assert x in seats;
    }
  }

  lemma AcquireKeepsBase(s: Sys, e: Action)
    requires BaseInv(s) && e.AcquireStep? && Enabled(s, e)
    ensures BaseInv(Apply(s, e))
  {
    var s' := Apply(s, e);
    AcquireHolds(s.redis, e.showId, e.seats, e.ref, Ttl(e.ttlSec));
    NewRequestInv(s.redis, e.showId, e.seats, e.ttlSec, s'.redis, e.ref);
    forall ref | ref in s'.requests
      ensures RequestInv(s', ref)
    {
      if ref != e.ref {
        assert RequestInv(s, ref);
        OthersUnmoved(s, e, ref);
      }
    }
  }

  /** An acquire gives nothing to a request that was there before. */
  lemma OthersUnmoved(s: Sys, e: Action, ref: Ref)
    requires e.AcquireStep? && Enabled(s, e) && ref != e.ref
    ensures forall showId, seat :: Owns(Apply(s, e).redis, showId, seat, ref) <==> Owns(s.redis, showId, seat, ref)
  {
    AcquireHolds(s.redis, e.showId, e.seats, e.ref, Ttl(e.ttlSec));
  }

  lemma AddKeepsBase(s: Sys, e: Action)
    requires BaseInv(s) && e.AddStep? && Enabled(s, e)
    ensures BaseInv(Apply(s, e))
  {
    var s' := Apply(s, e);
    forall ref | ref in s'.requests
      ensures RequestInv(s', ref)
    {
      assert RequestInv(s, ref);
    }
  }

  lemma ReadKeepsBase(s: Sys, e: Action)
    requires BaseInv(s) && e.ReadStep? && Enabled(s, e)
    ensures BaseInv(Apply(s, e))
  {
    var s' := Apply(s, e);
    forall ref | ref in s'.requests
      ensures RequestInv(s', ref)
    {
      assert RequestInv(s, ref);
    }
  }

  lemma DeleteKeepsBase(s: Sys, e: Action)
    requires BaseInv(s) && e.DeleteStep? && Enabled(s, e)
    ensures BaseInv(Apply(s, e))
  {
    var s' := Apply(s, e);
    forall ref | ref in s'.requests
      ensures RequestInv(s', ref)
    {
      assert RequestInv(s, ref);
      assert forall showId, seat :: Owns(s'.redis, showId, seat, ref) ==> Owns(s.redis, showId, seat, ref);
    }
  }

  lemma TickKeepsBase(s: Sys, e: Action)
    requires BaseInv(s) && e.TickStep? && Enabled(s, e)
    ensures BaseInv(Apply(s, e))
  {
    var s' := Apply(s, e);
    forall ref | ref in s'.requests
      ensures RequestInv(s', ref)
    {
      assert RequestInv(s, ref);
      assert forall showId, seat :: Owns(s'.redis, showId, seat, ref) ==> Owns(s.redis, showId, seat, ref);
    }
  }

  lemma BaseStep(s: Sys, e: Action)
    requires BaseInv(s) && Enabled(s, e)
    ensures BaseInv(Apply(s, e))
  {
    match e
    case AcquireStep(_, _, _, _) => AcquireKeepsBase(s, e);
    case AddStep(_) => AddKeepsBase(s, e);
    case ReadStep(_) => ReadKeepsBase(s, e);
    case DeleteStep(_) => DeleteKeepsBase(s, e);
    case TickStep(_) => TickKeepsBase(s, e);
  }

  lemma {:induction false} RunKeepsBase(states: seq<Sys>, actions: seq<Action>, k: nat)
    requires IsRun(states, actions) && k < |states|
    ensures BaseInv(states[k])
  {
    if k > 0 {
      RunKeepsBase(states, actions, k - 1);
      assert StepsTo(states[k - 1], actions[k - 1], states[k]);
      BaseStep(states[k - 1], actions[k - 1]);
    }
  }

  // ------------------------------------------------ which deletes do harm

  /** While it lives, the request owns every key it has. */
  ghost predicate OwnsKeys(s: Sys, ref: Ref)
    requires ref in s.requests
  {
    var q := s.requests[ref];
    Alive(s, q) ==> forall seat :: seat in Keys(q) ==> Owns(s.redis, q.showId, seat, ref)
  }

  ghost predicate AllOwn(s: Sys) {
    forall ref :: ref in s.requests ==> OwnsKeys(s, ref)
  }

  /** Their lives [acquiredAt, End) do not meet. */
  ghost predicate Apart(q: Request, q': Request) {
    End(q) <= q'.acquiredAt || End(q') <= q.acquiredAt
  }

  ghost predicate ShareKey(q: Request, q': Request) {
    q.showId == q'.showId && exists seat :: seat in Keys(q) && seat in Keys(q')
  }

  /** Requests that have a key in common live at different times. */
  ghost predicate KeysApart(s: Sys) {
    forall a, b :: a in s.requests && b in s.requests && a != b && ShareKey(s.requests[a], s.requests[b])
      ==> Apart(s.requests[a], s.requests[b])
  }

  /**
   The delete of a release comes at or after the end of its request's own life, and one of
   the seats whose owner it read was granted again, at or after that end, to a request
   that is alive and still has the key.
   */
  ghost predicate LateRegrant(s: Sys, e: Action) {
    && e.DeleteStep? && Enabled(s, e)
    && End(s.requests[e.ref]) <= s.redis.now
    && exists ref, seat ::
         && ref in s.requests && Alive(s, s.requests[ref]) && s.requests[ref].showId == s.requests[e.ref].showId
         && End(s.requests[e.ref]) <= s.requests[ref].acquiredAt
         && seat in Keys(s.requests[ref]) && seat in s.requests[e.ref].phase.mine
  }

  lemma AcquireKeepsOwned(s: Sys, e: Action)
    requires BaseInv(s) && AllOwn(s) && e.AcquireStep? && Enabled(s, e)
    ensures AllOwn(Apply(s, e))
  {
    var s' := Apply(s, e);
    AcquireHolds(s.redis, e.showId, e.seats, e.ref, Ttl(e.ttlSec));
    forall ref | ref in s'.requests
      ensures OwnsKeys(s', ref)
    {
      if ref != e.ref {
        assert OwnsKeys(s, ref);
        OthersUnmoved(s, e, ref);
      }
    }
  }

  lemma AddOrReadKeepsOwned(s: Sys, e: Action)
    requires AllOwn(s) && (e.AddStep? || e.ReadStep?) && Enabled(s, e)
    ensures AllOwn(Apply(s, e))
  {
    var s' := Apply(s, e);
    forall ref | ref in s'.requests
      ensures OwnsKeys(s', ref)
    {
      assert OwnsKeys(s, ref);
      assert Keys(s'.requests[ref]) == Keys(s.requests[ref]) && s'.redis.holds == s.redis.holds;
    }
  }

  lemma TickKeepsOwned(s: Sys, e: Action)
    requires BaseInv(s) && AllOwn(s) && e.TickStep? && Enabled(s, e)
    ensures AllOwn(Apply(s, e))
  {
    var s' := Apply(s, e);
    forall ref | ref in s'.requests
      ensures OwnsKeys(s', ref)
    {
      assert OwnsKeys(s, ref) && RequestInv(s, ref);
    }
  }

  /** A delete takes a live request's key only as a late regrant. */
  lemma {:induction false} TakenKeyIsRegrant(s: Sys, e: Action, ref: Ref, seat: Seat)
    requires BaseInv(s) && KeysApart(s) && e.DeleteStep? && Enabled(s, e) && ref in s.requests && ref != e.ref
    requires Alive(s, s.requests[ref]) && s.requests[ref].showId == s.requests[e.ref].showId
    requires seat in Keys(s.requests[ref]) && seat in s.requests[e.ref].phase.mine
    ensures LateRegrant(s, e)
  {
    assert RequestInv(s, e.ref) && RequestInv(s, ref);
    assert ShareKey(s.requests[e.ref], s.requests[ref]);
    assert Apart(s.requests[e.ref], s.requests[ref]);
  }

  lemma {:induction false} DeleteKeepsOwned(s: Sys, e: Action)
    requires BaseInv(s) && AllOwn(s) && KeysApart(s) && e.DeleteStep? && Enabled(s, e) && !LateRegrant(s, e)
    ensures AllOwn(Apply(s, e))
  {
    var s' := Apply(s, e);
    forall ref | ref in s'.requests
      ensures OwnsKeys(s', ref)
    {
      assert OwnsKeys(s, ref) && RequestInv(s, e.ref);
      var p := s.requests[ref];
      if ref == e.ref {
        assert forall seat :: seat in p.left ==> seat in Keys(p) && seat !in p.phase.mine;
      } else if Alive(s, p) && p.showId == s.requests[e.ref].showId {
        forall seat | seat in Keys(p)
          ensures seat !in s.requests[e.ref].phase.mine
        {
          if seat in s.requests[e.ref].phase.mine {
            TakenKeyIsRegrant(s, e, ref, seat);
          }
        }
      }
    }
  }

  /** A late regrant does take a key away. */
  lemma LateRegrantTakes(s: Sys, e: Action) returns (ref: Ref)
    requires AllOwn(s) && LateRegrant(s, e)
    ensures ref in s.requests && ref in Apply(s, e).requests && ref != e.ref && !OwnsKeys(Apply(s, e), ref)
  {
    var seat;
    ref, seat :| ref in s.requests && Alive(s, s.requests[ref]) && s.requests[ref].showId == s.requests[e.ref].showId
      && End(s.requests[e.ref]) <= s.requests[ref].acquiredAt
      && seat in Keys(s.requests[ref]) && seat in s.requests[e.ref].phase.mine;
    assert !Owns(Apply(s, e).redis, s.requests[ref].showId, seat, ref);
  }

  lemma OwnedStep(s: Sys, e: Action)
    requires BaseInv(s) && AllOwn(s) && KeysApart(s) && Enabled(s, e) && !LateRegrant(s, e)
    ensures AllOwn(Apply(s, e))
  {
    match e
    case AcquireStep(_, _, _, _) => AcquireKeepsOwned(s, e);
    case DeleteStep(_) => DeleteKeepsOwned(s, e);
    case TickStep(_) => TickKeepsOwned(s, e);
    case _ => AddOrReadKeepsOwned(s, e);
  }

  /** What a new request is granted was free, so whoever had that key has reached its end. */
  lemma NewRequestApart(s: Sys, e: Action, b: Ref)
    requires BaseInv(s) && AllOwn(s) && e.AcquireStep? && Enabled(s, e) && b in s.requests
    requires ShareKey(Apply(s, e).requests[e.ref], s.requests[b])
    ensures Apart(Apply(s, e).requests[e.ref], s.requests[b])
  {
    var q := Apply(s, e).requests[e.ref];
    var seat :| seat in Keys(q) && seat in Keys(s.requests[b]);
    assert seat in FreeOf(s.redis, e.showId, e.seats);
    assert OwnsKeys(s, b);
  }

  lemma ApartStep(s: Sys, e: Action)
    requires BaseInv(s) && AllOwn(s) && KeysApart(s) && Enabled(s, e)
    ensures KeysApart(Apply(s, e))
  {
    var s' := Apply(s, e);
    forall a, b | a in s'.requests && b in s'.requests && a != b && ShareKey(s'.requests[a], s'.requests[b])
      ensures Apart(s'.requests[a], s'.requests[b])
    {
      if e.AcquireStep? && a == e.ref {
        NewRequestApart(s, e, b);
      } else if e.AcquireStep? && b == e.ref {
        assert ShareKey(s'.requests[b], s'.requests[a]);
        NewRequestApart(s, e, a);
      } else {
        KeysOnlyShrink(s, e, a);
        KeysOnlyShrink(s, e, b);
        assert ShareKey(s.requests[a], s.requests[b]);
      }
    }
  }

  lemma KeysOnlyShrink(s: Sys, e: Action, ref: Ref)
    requires BaseInv(s) && Enabled(s, e) && ref in s.requests
    ensures var q, q' := s.requests[ref], Apply(s, e).requests[ref];
            Keys(q') <= Keys(q) && q' == q.(phase := q'.phase)
  {
    assert RequestInv(s, ref);
  }

  /** No release of the run up to state k was a late regrant. */
  ghost predicate Clean(states: seq<Sys>, actions: seq<Action>, k: nat)
    requires k < |states| == |actions| + 1
  {
    forall j :: 0 <= j < k ==> !LateRegrant(states[j], actions[j])
  }

  lemma {:induction false} CleanRunKeepsKeys(states: seq<Sys>, actions: seq<Action>, k: nat)
    requires IsRun(states, actions) && k < |states| && Clean(states, actions, k)
    ensures BaseInv(states[k]) && AllOwn(states[k]) && KeysApart(states[k])
  {
    RunKeepsBase(states, actions, k);
    if k > 0 {
      CleanRunKeepsKeys(states, actions, k - 1);
      assert StepsTo(states[k - 1], actions[k - 1], states[k]);
      OwnedStep(states[k - 1], actions[k - 1]);
      ApartStep(states[k - 1], actions[k - 1]);
    }
  }

  /**
   Exactly what a release may get wrong, in any run: the first delete that takes a key
   away from another live request is the first one that is late with one of the seats it
   read granted again in the meantime.
   */
  lemma {:induction false} DeleteHarmlessIff(states: seq<Sys>, actions: seq<Action>, k: nat)
    requires IsRun(states, actions) && k < |actions| && Clean(states, actions, k) && actions[k].DeleteStep?
    ensures (forall ref :: ref in states[k].requests && ref != actions[k].ref ==>
               ref in states[k + 1].requests && OwnsKeys(states[k + 1], ref)) <==>
            !LateRegrant(states[k], actions[k])
  {
    CleanRunKeepsKeys(states, actions, k);
    assert StepsTo(states[k], actions[k], states[k + 1]);
    if LateRegrant(states[k], actions[k]) {
      var _ := LateRegrantTakes(states[k], actions[k]);
    } else {
      DeleteKeepsOwned(states[k], actions[k]);
    }
  }

  /** A run keeps every live request's keys throughout iff none of its releases is a late regrant. */
  lemma {:induction false} RunKeepsKeysIff(states: seq<Sys>, actions: seq<Action>, k: nat)
    requires IsRun(states, actions) && k < |states|
    ensures (forall j :: 0 <= j <= k ==> AllOwn(states[j])) <==> Clean(states, actions, k)
  {
    if Clean(states, actions, k) {
      forall j | 0 <= j <= k
        ensures AllOwn(states[j])
      {
        CleanRunKeepsKeys(states, actions, j);
      }
    }
    if forall j :: 0 <= j <= k ==> AllOwn(states[j]) {
      forall j | 0 <= j < k
        ensures !LateRegrant(states[j], actions[j])
      {
        AllOwnMeansNoRegrant(states[j], actions[j], states[j + 1]);
      }
    }
  }

  lemma AllOwnMeansNoRegrant(s: Sys, e: Action, s': Sys)
    requires StepsTo(s, e, s') && AllOwn(s) && AllOwn(s')
    ensures !LateRegrant(s, e)
  {
    if LateRegrant(s, e) {
      var ref := LateRegrantTakes(s, e);
      assert false;
    }
  }

  // ---------------------------------------------------------------- exclusion

  /** A refused request finishes its release before its own keys expire. */
  ghost predicate Timely(s: Sys, e: Action) {
    e.DeleteStep? && Enabled(s, e) ==> s.redis.now < End(s.requests[e.ref])
  }

  ghost predicate ShareSeat(q: Request, q': Request) {
    q.showId == q'.showId && exists seat :: seat in q.seats && seat in q'.seats
  }

  ghost predicate Winner(s: Sys, ref: Ref) {
    ref in s.requests && s.requests[ref].phase.Held?
  }

  ghost predicate Exclusive(s: Sys) {
    forall a, b :: Winner(s, a) && Winner(s, b) && a != b && ShareSeat(s.requests[a], s.requests[b])
      ==> Apart(s.requests[a], s.requests[b])
  }

  lemma ApartIsExclusive(s: Sys)
    requires BaseInv(s) && KeysApart(s)
    ensures Exclusive(s)
  {
    forall a, b | Winner(s, a) && Winner(s, b) && a != b && ShareSeat(s.requests[a], s.requests[b])
      ensures Apart(s.requests[a], s.requests[b])
    {
      assert RequestInv(s, a) && RequestInv(s, b);
      var seat :| seat in s.requests[a].seats && seat in s.requests[b].seats;
      assert seat in Keys(s.requests[a]) && seat in Keys(s.requests[b]);
      assert ShareKey(s.requests[a], s.requests[b]);
    }
  }

  /**
   Hold exclusion under every interleaving of acquires, owner reads and deletes: as long
   as no release is a late regrant, two requests that returned HELD and share a seat own
   it at times that do not overlap.
   */
  lemma HeldRequestsExclude(states: seq<Sys>, actions: seq<Action>, k: nat, a: Ref, b: Ref)
    requires IsRun(states, actions) && k < |states| && Clean(states, actions, k)
    requires Winner(states[k], a) && Winner(states[k], b) && a != b
    requires ShareSeat(states[k].requests[a], states[k].requests[b])
    ensures Apart(states[k].requests[a], states[k].requests[b])
  {
    CleanRunKeepsKeys(states, actions, k);
    ApartIsExclusive(states[k]);
  }

  /** Releases that finish within the TTL are never late regrants, so they keep exclusion. */
  lemma TimelyRunIsClean(states: seq<Sys>, actions: seq<Action>, k: nat)
    requires IsRun(states, actions) && k < |states|
    requires forall j :: 0 <= j < k ==> Timely(states[j], actions[j])
    ensures Clean(states, actions, k) && Exclusive(states[k])
  {
    CleanRunKeepsKeys(states, actions, k);
    ApartIsExclusive(states[k]);
  }

  /**
   The only way to lose exclusion: whenever two live requests that returned HELD share a
   seat, some earlier delete was a late regrant.
   */
  lemma {:induction false} SharedSeatHasCulprit(states: seq<Sys>, actions: seq<Action>, k: nat, a: Ref, b: Ref)
    returns (j: nat)
    requires IsRun(states, actions) && k < |states|
    requires Winner(states[k], a) && Winner(states[k], b) && a != b
    requires ShareSeat(states[k].requests[a], states[k].requests[b])
    requires Alive(states[k], states[k].requests[a]) && Alive(states[k], states[k].requests[b])
    ensures j < k && LateRegrant(states[j], actions[j])
  {
    RunKeepsBase(states, actions, k);
    assert RequestInv(states[k], a) && RequestInv(states[k], b);
    assert !Apart(states[k].requests[a], states[k].requests[b]);
    if Clean(states, actions, k) {
      HeldRequestsExclude(states, actions, k, a, b);
    }
    j :| 0 <= j < k && LateRegrant(states[j], actions[j]);
  }

  // ---------------------------------------------- what a refused request leaves

  /** The acquire of ref is action i. */
  ghost predicate AcquiredAt(states: seq<Sys>, actions: seq<Action>, i: nat, ref: Ref)
    requires IsRun(states, actions)
  {
    i < |actions| && actions[i].AcquireStep? && actions[i].ref == ref
  }

  lemma {:induction false} RequestStays(states: seq<Sys>, actions: seq<Action>, i: nat, k: nat, ref: Ref)
    requires IsRun(states, actions) && AcquiredAt(states, actions, i, ref) && i < k < |states|
    ensures ref in states[k].requests
    ensures var e, q := actions[i], states[k].requests[ref];
            q == NewRequest(states[i].redis, e.showId, e.seats, e.ttlSec).(phase := q.phase)
  {
    assert StepsTo(states[k - 1], actions[k - 1], states[k]);
    if i < k - 1 {
      RequestStays(states, actions, i, k - 1, ref);
      RunKeepsBase(states, actions, k - 1);
      KeysOnlyShrink(states[k - 1], actions[k - 1], ref);
    }
  }

  /**
   What a refused request leaves, with any other requests in between: in a run without
   late regrants it owns, until its end, exactly the free seats after the first refused
   one. So the refusal is all-or-nothing iff there is no such seat.
   */
  lemma {:induction false} RefusedRequestKeeps(states: seq<Sys>, actions: seq<Action>, i: nat, k: nat, ref: Ref)
    requires IsRun(states, actions) && AcquiredAt(states, actions, i, ref)
    requires i < k < |states| && Clean(states, actions, k)
    requires ref in states[k].requests && states[k].requests[ref].phase.Refused?
    requires Alive(states[k], states[k].requests[ref])
    ensures var e, r := actions[i], states[i].redis;
            && (forall showId, seat :: Owns(states[k].redis, showId, seat, ref) <==>
                  showId == e.showId && seat in LeftBehind(r, e.showId, e.seats))
            && ((forall key :: key in states[k].redis.holds ==> states[k].redis.holds[key].owner != ref) <==>
                  forall j :: Prefix(Granted(r, e.showId, e.seats)) < j < |e.seats| ==>
                    || Key(e.showId, e.seats[j]) in r.holds
                    || e.seats[j] in e.seats[..Prefix(Granted(r, e.showId, e.seats))])
  {
    var e, r := actions[i], states[i].redis;
    CleanRunKeepsKeys(states, actions, k);
    RequestStays(states, actions, i, k, ref);
    assert RequestInv(states[k], ref) && OwnsKeys(states[k], ref);
    RefusedWasRefused(states, actions, i, k, ref);
    NothingLeftIff(r, e.showId, e.seats);
    if LeftBehind(r, e.showId, e.seats) != {} {
      var seat :| seat in LeftBehind(r, e.showId, e.seats);
      assert Owns(states[k].redis, e.showId, seat, ref);
    } else {
      forall key | key in states[k].redis.holds
        ensures states[k].redis.holds[key].owner != ref
      {
        assert !Owns(states[k].redis, key.showId, key.seat, ref);
      }
    }
  }

  /** A request that ends refused was refused some seat. */
  lemma {:induction false} RefusedWasRefused(states: seq<Sys>, actions: seq<Action>, i: nat, k: nat, ref: Ref)
    requires IsRun(states, actions) && AcquiredAt(states, actions, i, ref) && i < k < |states|
    requires ref in states[k].requests && !states[k].requests[ref].phase.Held? && !states[k].requests[ref].phase.Adding?
    ensures Prefix(Granted(states[i].redis, actions[i].showId, actions[i].seats)) < |actions[i].seats|
  {
    assert StepsTo(states[k - 1], actions[k - 1], states[k]);
    if i < k - 1 {
      RequestStays(states, actions, i, k - 1, ref);
      RefusedWasRefused(states, actions, i, k - 1, ref);
    }
  }

  // ----------------------------------------------------- the code as a run

  ghost predicate IsPath(states: seq<Sys>, actions: seq<Action>) {
    |states| == |actions| + 1 && forall k :: 0 <= k < |actions| ==> StepsTo(states[k], actions[k], states[k + 1])
  }

  lemma ExtendPath(states: seq<Sys>, actions: seq<Action>, e: Action) returns (states': seq<Sys>, actions': seq<Action>)
    requires IsPath(states, actions) && Enabled(states[|states| - 1], e)
    ensures IsPath(states', actions') && states'[0] == states[0]
    ensures states'[|states'| - 1] == Apply(states[|states| - 1], e)
  {
    states', actions' := states + [Apply(states[|states| - 1], e)], actions + [e];
  }

  /**
   try_hold_seats run alone, with any of its pipelines raising, is a path of the system
   that ends in the Redis state the code leaves; so what holds over runs holds of it.
   */
  lemma {:induction false} TryHoldIsPath(s: Sys, ref: Ref, showId: int, seats: seq<Seat>, ttlSec: int, secondAt: int,
                                         deleteAt: int, calls: HoldCalls)
    returns (states: seq<Sys>, actions: seq<Action>)
    requires ref !in s.requests && s.redis.now <= secondAt <= deleteAt
    ensures IsPath(states, actions) && states[0] == s
    ensures states[|states| - 1].redis == TryHold(s.redis, showId, seats, ref, ttlSec, secondAt, deleteAt, calls)
    ensures var s', reply := states[|states| - 1], HoldReplyOf(s.redis, showId, seats, calls);
            && (reply == HELD ==> Winner(s', ref))
            && (Winner(s', ref) ==> reply == HELD || reply == RAISED)
            && (reply == REFUSED ==> ref in s'.requests && s'.requests[ref].phase.Refused?)
            && (ref in s'.requests && s'.requests[ref].phase.Refused? ==> reply == REFUSED || reply == RAISED)
  {
    states, actions := [s], [];
    if seats != [] && !calls.acquire.RaisedUnapplied? {
      AcquireKeepsClock(s.redis, showId, seats, ref, Ttl(ttlSec));
      states, actions := ExtendPath(states, actions, AcquireStep(ref, showId, seats, ttlSec));
      if calls.acquire.Returned? {
        states, actions := ExtendPath(states, actions, TickStep(secondAt));
        states, actions := FinishIsPath(states, actions, ref, seats, deleteAt, calls);
      }
    }
  }

  lemma {:induction false} FinishIsPath(states: seq<Sys>, actions: seq<Action>, ref: Ref, seats: seq<Seat>,
                                        deleteAt: int, calls: HoldCalls)
    returns (states': seq<Sys>, actions': seq<Action>)
    requires IsPath(states, actions) && ref in states[|states| - 1].requests
    requires states[|states| - 1].redis.now <= deleteAt
    requires var q := states[|states| - 1].requests[ref];
             q.seats == seats && (q.phase.Adding? || q.phase.Releasing? || q.phase.Refused?)
    requires var p := states[|states| - 1].requests[ref].phase; p.Releasing? ==> p.held != []
    ensures IsPath(states', actions') && states'[0] == states[0]
    ensures var r, q := states[|states| - 1].redis, states[|states| - 1].requests[ref];
            states'[|states'| - 1].redis ==
              match q.phase
              case Adding => if calls.add.RaisedUnapplied? then r else Add(r, q.showId, seats, q.ttl)
              case Releasing(held) => Release(r, q.showId, held, ref, deleteAt, calls)
              case _ => r
    ensures ref in states'[|states'| - 1].requests
    ensures var q, q' := states[|states| - 1].requests[ref], states'[|states'| - 1].requests[ref];
            match q.phase
            case Adding => if calls.add.RaisedUnapplied? then q'.phase == Adding else q'.phase == Held
            case Releasing(_) =>
              if calls.read.Returned? && !calls.delete.RaisedUnapplied? then q'.phase == Refused
              else q'.phase.Releasing? || q'.phase.Deleting?
            case _ => q' == q
  {
    states', actions' := states, actions;
    var q := states[|states| - 1].requests[ref];
    if q.phase.Adding? && !calls.add.RaisedUnapplied? {
      states', actions' := ExtendPath(states, actions, AddStep(ref));
    } else if q.phase.Releasing? && calls.read.Returned? {
      states', actions' := ExtendPath(states, actions, ReadStep(ref));
      states', actions' := ExtendPath(states', actions', TickStep(deleteAt));
      if !calls.delete.RaisedUnapplied? {
        states', actions' := ExtendPath(states', actions', DeleteStep(ref));
      }
    }
  }

  // ----------------------------------------------------- the reserved set

  /** Every request uses the one configured TTL and asks for some seat. */
  ghost predicate ConstantTtl(s: Sys, ttl: int) {
    forall ref :: ref in s.requests ==> s.requests[ref].ttl == ttl && s.requests[ref].seats != []
  }

  /** A live HELD request has its seats in the reserved set, which outlives its hold. */
  ghost predicate Covered(s: Sys, ref: Ref)
    requires ref in s.requests
  {
    var q := s.requests[ref];
    q.phase.Held? && Alive(s, q) ==>
      && q.showId in s.redis.reserved
      && End(q) <= s.redis.reserved[q.showId].expiry
      && forall seat :: seat in q.seats ==> seat in s.redis.reserved[q.showId].seats
  }

  ghost predicate CoverInv(s: Sys, ttl: int) {
    && ConstantTtl(s, ttl)
    && (forall ref :: ref in s.requests ==> Covered(s, ref))
    && (forall h :: h in s.redis.reserved ==> s.redis.reserved[h].expiry <= s.redis.now + ttl)
  }

  /** EXPIRE never shortens the set's life when the TTL is constant. */
  lemma AddCovers(s: Sys, e: Action, ttl: int)
    requires BaseInv(s) && CoverInv(s, ttl) && e.AddStep? && Enabled(s, e)
    ensures CoverInv(Apply(s, e), ttl)
  {
    var s' := Apply(s, e);
    forall ref | ref in s'.requests
      ensures Covered(s', ref)
    {
      assert Covered(s, ref);
    }
  }

  /** The seats a clean delete removes from the set belong to no live HELD request. */
  lemma DeleteCovers(s: Sys, e: Action, ttl: int)
    requires BaseInv(s) && KeysApart(s) && CoverInv(s, ttl) && e.DeleteStep? && Enabled(s, e) && !LateRegrant(s, e)
    ensures CoverInv(Apply(s, e), ttl)
  {
    var s' := Apply(s, e);
    var q := s.requests[e.ref];
    forall ref | ref in s'.requests
      ensures Covered(s', ref)
    {
      assert Covered(s, ref) && RequestInv(s, ref);
      var p := s.requests[ref];
      if p.phase.Held? && Alive(s, p) && p.showId == q.showId {
        forall seat | seat in p.seats
          ensures seat !in q.phase.mine
        {
          if seat in q.phase.mine {
            TakenKeyIsRegrant(s, e, ref, seat);
          }
        }
        assert p.seats[0] in s.redis.reserved[q.showId].seats - q.phase.mine;
      }
    }
  }

  lemma OtherCovers(s: Sys, e: Action, ttl: int)
    requires BaseInv(s) && CoverInv(s, ttl) && (e.AcquireStep? || e.ReadStep? || e.TickStep?) && Enabled(s, e)
    requires e.AcquireStep? ==> Ttl(e.ttlSec) == ttl
    ensures CoverInv(Apply(s, e), ttl)
  {
    if e.AcquireStep? {
      AcquireHolds(s.redis, e.showId, e.seats, e.ref, Ttl(e.ttlSec));
    }
    var s' := Apply(s, e);
    forall ref | ref in s'.requests
      ensures Covered(s', ref)
    {
      assert ref in s.requests ==> Covered(s, ref);
    }
  }

  ghost predicate OneTtl(actions: seq<Action>, ttl: int) {
    forall k :: 0 <= k < |actions| && actions[k].AcquireStep? ==> Ttl(actions[k].ttlSec) == ttl
  }

  lemma CoverStep(s: Sys, e: Action, ttl: int)
    requires BaseInv(s) && KeysApart(s) && CoverInv(s, ttl) && Enabled(s, e) && !LateRegrant(s, e)
    requires e.AcquireStep? ==> Ttl(e.ttlSec) == ttl
    ensures CoverInv(Apply(s, e), ttl)
  {
    match e
    case AddStep(_) => AddCovers(s, e, ttl);
    case DeleteStep(_) => DeleteCovers(s, e, ttl);
    case _ => OtherCovers(s, e, ttl);
  }

  lemma {:induction false} RunKeepsCover(states: seq<Sys>, actions: seq<Action>, ttl: int, k: nat)
    requires IsRun(states, actions) && OneTtl(actions, ttl) && k < |states| && Clean(states, actions, k)
    ensures CoverInv(states[k], ttl)
  {
    if k > 0 {
      RunKeepsCover(states, actions, ttl, k - 1);
      CleanRunKeepsKeys(states, actions, k - 1);
      assert StepsTo(states[k - 1], actions[k - 1], states[k]);
      CoverStep(states[k - 1], actions[k - 1], ttl);
    }
  }

  /** Seats of a show under completed holds that are still live. */
  ghost function LiveHeldSeats(s: Sys, showId: int): set<Seat> {
    set ref, seat | ref in s.requests && s.requests[ref].phase.Held? && Alive(s, s.requests[ref])
                    && s.requests[ref].showId == showId && seat in s.requests[ref].seats :: seat
  }

  lemma SubsetSize<T>(a: set<T>, b: set<T>)
    requires a <= b
    ensures |a| <= |b|
  {
    assert b == a + (b - a);
  }

  /**
   With one TTL and no late regrant the reserved set covers the live holds: it contains
   every seat of every live HELD request, so its size is at least their number.
   */
  lemma ReservedCoversHolds(states: seq<Sys>, actions: seq<Action>, ttl: int, k: nat, showId: int)
    requires IsRun(states, actions) && OneTtl(actions, ttl) && k < |states| && Clean(states, actions, k)
    ensures LiveHeldSeats(states[k], showId) <= ReservedSeats(states[k].redis, showId)
    ensures |LiveHeldSeats(states[k], showId)| <= |ReservedSeats(states[k].redis, showId)|
  {
    RunKeepsCover(states, actions, ttl, k);
    var s := states[k];
    forall seat | seat in LiveHeldSeats(s, showId)
      ensures seat in ReservedSeats(s.redis, showId)
    {
      var ref :| ref in s.requests && s.requests[ref].phase.Held? && Alive(s, s.requests[ref])
                 && s.requests[ref].showId == showId && seat in s.requests[ref].seats;
      assert Covered(s, ref);
    }
    SubsetSize(LiveHeldSeats(s, showId), ReservedSeats(s.redis, showId));
  }

  // ---------------------------------------------------------- late releases

  /** One client's part of the witness: acquire a single free seat and complete. */
  lemma HoldOneSeat(s: Sys, ref: Ref, seat: Seat) returns (s1: Sys, s2: Sys)
    requires ref !in s.requests && Key(1, seat) !in s.redis.holds
    ensures StepsTo(s, AcquireStep(ref, 1, [seat], 10), s1) && StepsTo(s1, AddStep(ref), s2)
    ensures s2.requests == s.requests[ref := Request(1, [seat], s.redis.now, 10, {seat}, {}, Held)]
    ensures s2.redis.now == s.redis.now && s2.redis.holds == s.redis.holds[Key(1, seat) := Hold(ref, s.redis.now + 10)]
  {
    AcquireHolds(s.redis, 1, [seat], ref, 10);
    assert Granted(s.redis, 1, [seat]) == [true];
    assert Prefix([true]) == 1;
    assert FreeOf(s.redis, 1, [seat]) == {seat};
    assert LeftBehind(s.redis, 1, [seat]) == {};
    s1 := Apply(s, AcquireStep(ref, 1, [seat], 10));
    s2 := Apply(s1, AddStep(ref));
  }

  /** A client refused on its second seat that has read its owner and not deleted yet. */
  lemma RefusedOnSecond(s: Sys, ref: Ref, first: Seat, second: Seat) returns (s1: Sys, s2: Sys)
    requires ref !in s.requests && Key(1, first) !in s.redis.holds && Key(1, second) in s.redis.holds
    ensures StepsTo(s, AcquireStep(ref, 1, [first, second], 10), s1) && StepsTo(s1, ReadStep(ref), s2)
    ensures s2.requests ==
            s.requests[ref := Request(1, [first, second], s.redis.now, 10, {first}, {}, Deleting({first}))]
    ensures s2.redis.now == s.redis.now
    ensures forall k :: k in s2.redis.holds && k !in s.redis.holds ==> s2.redis.holds[k].expiry == s.redis.now + 10
    ensures forall k :: k in s.redis.holds ==> k in s2.redis.holds && s2.redis.holds[k] == s.redis.holds[k]
  {
    var seats := [first, second];
    AcquireHolds(s.redis, 1, seats, ref, 10);
    var granted := Granted(s.redis, 1, seats);
    assert granted[0] && !granted[1];
    assert Prefix(granted) == 1;
    assert FreeOf(s.redis, 1, seats) == {first};
    assert LeftBehind(s.redis, 1, seats) == {};
    s1 := Apply(s, AcquireStep(ref, 1, seats, 10));
    assert s1.requests[ref].phase.held == [first];
    assert s1.redis.holds[Key(1, first)].owner == ref;
    assert Mine(s1.redis, 1, [first], ref) == {first};
    s2 := Apply(s1, ReadStep(ref));
  }

  /** Until the late client's own hold has run out. */
  lemma LateFirstHalf(s0: Sys, x: Seat, y: Seat) returns (s1: Sys, s2: Sys, s3: Sys, s4: Sys, s5: Sys)
    requires Init(s0) && s0.redis.now == 0 && x != y
    ensures StepsTo(s0, AcquireStep("first", 1, [y], 10), s1) && StepsTo(s1, AddStep("first"), s2)
    ensures StepsTo(s2, AcquireStep("late", 1, [x, y], 10), s3) && StepsTo(s3, ReadStep("late"), s4)
    ensures StepsTo(s4, TickStep(10), s5)
    ensures s5.redis.now == 10 && s5.redis.holds == map[] && s5.requests.Keys == {"first", "late"}
    ensures s5.requests["late"] == Request(1, [x, y], 0, 10, {x}, {}, Deleting({x}))
  {
    s1, s2 := HoldOneSeat(s0, "first", y);
    s3, s4 := RefusedOnSecond(s2, "late", x, y);
    s5 := Apply(s4, TickStep(10));
  }

  /** The seat is granted to a second client, wrongly freed, and granted to a third. */
  lemma LateSecondHalf(s0: Sys, x: Seat, y: Seat) returns (s1: Sys, s2: Sys, s3: Sys, s4: Sys, s5: Sys)
    requires s0.redis.now == 10 && s0.redis.holds == map[] && s0.requests.Keys == {"first", "late"}
    requires s0.requests["late"] == Request(1, [x, y], 0, 10, {x}, {}, Deleting({x}))
    ensures StepsTo(s0, AcquireStep("victim", 1, [x], 10), s1) && StepsTo(s1, AddStep("victim"), s2)
    ensures StepsTo(s2, DeleteStep("late"), s3)
    ensures StepsTo(s3, AcquireStep("third", 1, [x], 10), s4) && StepsTo(s4, AddStep("third"), s5)
    ensures "victim" in s5.requests && s5.requests["victim"] == Request(1, [x], 10, 10, {x}, {}, Held)
    ensures "third" in s5.requests && s5.requests["third"] == Request(1, [x], 10, 10, {x}, {}, Held)
  {
    s1, s2 := HoldOneSeat(s0, "victim", x);
    s3 := Apply(s2, DeleteStep("late"));
    assert Key(1, x) !in s3.redis.holds;
    s4, s5 := HoldOneSeat(s3, "third", x);
  }

  lemma ExtendRun(states: seq<Sys>, actions: seq<Action>, e: Action, s': Sys)
    returns (states': seq<Sys>, actions': seq<Action>)
    requires IsRun(states, actions) && StepsTo(states[|states| - 1], e, s')
    ensures IsRun(states', actions') && states'[|states'| - 1] == s'
  {
    states', actions' := states + [s'], actions + [e];
  }

  lemma LateRunToExpiry(start: Sys, x: Seat, y: Seat) returns (states: seq<Sys>, actions: seq<Action>)
    requires Init(start) && start.redis.now == 0 && x != y
    ensures IsRun(states, actions)
    ensures var s := states[|states| - 1];
            && s.redis.now == 10 && s.redis.holds == map[] && s.requests.Keys == {"first", "late"}
            && s.requests["late"] == Request(1, [x, y], 0, 10, {x}, {}, Deleting({x}))
  {
    var s1, s2, s3, s4, s5 := LateFirstHalf(start, x, y);
    states, actions := ExtendRun([start], [], AcquireStep("first", 1, [y], 10), s1);
    states, actions := ExtendRun(states, actions, AddStep("first"), s2);
    states, actions := ExtendRun(states, actions, AcquireStep("late", 1, [x, y], 10), s3);
    states, actions := ExtendRun(states, actions, ReadStep("late"), s4);
    states, actions := ExtendRun(states, actions, TickStep(10), s5);
  }

  /**
   Without timeliness exclusion fails: a refused client deletes after its own hold ran
   out and another client took the seat, so a third one is also granted it.
   */
  lemma LateReleaseBreaksExclusion(start: Sys) returns (states: seq<Sys>, actions: seq<Action>)
    requires Init(start) && start.redis.now == 0
    ensures IsRun(states, actions)
    ensures !Exclusive(states[|states| - 1])
  {
    var x, y := Seat(1, 1), Seat(1, 2);
    states, actions := LateRunToExpiry(start, x, y);
    var s1, s2, s3, s4, s5 := LateSecondHalf(states[|states| - 1], x, y);
    states, actions := ExtendRun(states, actions, AcquireStep("victim", 1, [x], 10), s1);
    states, actions := ExtendRun(states, actions, AddStep("victim"), s2);
    states, actions := ExtendRun(states, actions, DeleteStep("late"), s3);
    states, actions := ExtendRun(states, actions, AcquireStep("third", 1, [x], 10), s4);
    states, actions := ExtendRun(states, actions, AddStep("third"), s5);
    SharedSeatNotExclusive(s5, x);
  }

  lemma SharedSeatNotExclusive(s: Sys, x: Seat)
    requires "victim" in s.requests && s.requests["victim"] == Request(1, [x], 10, 10, {x}, {}, Held)
    requires "third" in s.requests && s.requests["third"] == Request(1, [x], 10, 10, {x}, {}, Held)
    ensures !Exclusive(s)
  {
    assert x in s.requests["victim"].seats && x in s.requests["third"].seats;
    assert ShareSeat(s.requests["victim"], s.requests["third"]);
  }
}
