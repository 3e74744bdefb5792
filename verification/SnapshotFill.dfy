/**
 The single-flight fill of one show's snapshot by the threads of one process, with the
 cache entry's TTL, and what the two together guarantee: one load for all concurrent
 misses, and a bound on the age of what is served.
 */
module SnapshotFill {
  import opened Wrappers

  // --------------------------------------------------------------------- TTL

  function Clamp(x: int, lo: int, hi: int): int {
    if x < lo then lo else if x > hi then hi else x
  }

  /** 2 to the 53rd: floating-point numbers have that many significant steps. */
  const PRECISION: real := 9007199254740992.0

  /** Base TTLs in seconds below this, some half a million years, divide without visible rounding. */
  const EXACT_BELOW: int := 0x1000_0000_0000

  /** q is the double nearest to m / 100; an integral quotient of this size is a double itself. */
  ghost predicate RoundedPercent(m: int, q: real) {
    && m as real / 100.0 - m as real / 100.0 / PRECISION <= q <= m as real / 100.0 + m as real / 100.0 / PRECISION
    && (m % 100 == 0 && m / 100 < 0x20_0000_0000_0000 ==> q == (m / 100) as real)
  }

  /** Truncating the floating-point quotient gives the integer quotient. */
  lemma TruncatedPercent(m: int, q: real)
    requires 0 <= m <= 150 * EXACT_BELOW && RoundedPercent(m, q)
    ensures q.Floor == m / 100
  {
    var d, r := m / 100, m % 100;
    var x := m as real / 100.0;
    assert x == d as real + r as real / 100.0;
    assert x / PRECISION <= 0.005;
    if r == 0 {
      assert q == d as real;
    } else {
      assert d as real + 0.005 <= q < d as real + 1.0;
    }
  }

  /**
   _snapshot_ttl_seconds, percent standing for the floating-point division by 100 and draw
   for the random choice between its two arguments.
   */
  method SnapshotTtl(base: int, jitterPct: int, percent: int -> real, draw: (int, int) -> int)
    returns (ttl: Option<int>)
    requires forall m :: 0 <= m ==> RoundedPercent(m, percent(m))
    requires forall lo, hi :: lo <= hi ==> lo <= draw(lo, hi) <= hi
    ensures ttl.None? <==> base <= 0
    ensures ttl.Some? ==> 1 <= ttl.value
    ensures ttl.Some? && base < EXACT_BELOW ==>
      && ttl.value == draw(MinTtl(base, jitterPct), MaxTtl(base, jitterPct))
      && MinTtl(base, jitterPct) <= ttl.value <= MaxTtl(base, jitterPct)
    ensures ttl.Some? && 2 <= base < EXACT_BELOW ==> base / 2 <= ttl.value
  {
    if base <= 0 {
      return None;
    }
    var j := Clamp(jitterPct, 0, 50);
    var lo := percent(base * (100 - j)).Floor;
    var hi := percent(base * (100 + j)).Floor;
    TtlWindow(base, jitterPct);
    if base < EXACT_BELOW {
      RoundsDown(base, j, percent);
    }
    if lo < 1 {
      lo := 1;
    }
    if hi < lo {
      hi := lo;
    }
    ttl := Some(draw(lo, hi));
  }

  lemma RoundsDown(base: int, j: int, percent: int -> real)
    requires 0 < base < EXACT_BELOW && 0 <= j <= 50 && forall m :: 0 <= m ==> RoundedPercent(m, percent(m))
    ensures percent(base * (100 - j)).Floor == base * (100 - j) / 100
    ensures percent(base * (100 + j)).Floor == base * (100 + j) / 100
  {
    TtlBounds(base, j);
    TruncatedPercent(base * (100 - j), percent(base * (100 - j)));
    TruncatedPercent(base * (100 + j), percent(base * (100 + j)));
  }

  /** The ends of the window, a jitter outside 0 to 50 counting as the nearer of the two. */
  function MinTtl(base: int, jitterPct: int): int {
    var lo := base * (100 - Clamp(jitterPct, 0, 50)) / 100;
    if lo < 1 then 1 else lo
  }

  function MaxTtl(base: int, jitterPct: int): int {
    var hi := base * (100 + Clamp(jitterPct, 0, 50)) / 100;
    if hi < 1 then 1 else hi
  }

  /** The window lies around the base, as wide to either side as the jitter says, and no lower than half of it. */
  lemma TtlWindow(base: int, jitterPct: int)
    requires base > 0
    ensures 1 <= MinTtl(base, jitterPct) <= base <= MaxTtl(base, jitterPct)
    ensures base / 2 <= MinTtl(base, jitterPct)
    ensures jitterPct <= 0 ==> MinTtl(base, jitterPct) == base == MaxTtl(base, jitterPct)
    ensures 0 <= jitterPct <= 50 ==>
      && (MinTtl(base, jitterPct) == 1 || MinTtl(base, jitterPct) == base * (100 - jitterPct) / 100)
      && MaxTtl(base, jitterPct) == base * (100 + jitterPct) / 100
    ensures jitterPct >= 50 ==>
      MinTtl(base, jitterPct) == MinTtl(base, 50) && MaxTtl(base, jitterPct) == MaxTtl(base, 50)
  {
    TtlBounds(base, Clamp(jitterPct, 0, 50));
  }

  lemma TtlBounds(base: int, j: int)
    requires base > 0 && 0 <= j <= 50
    ensures 0 <= base * (100 - j) && base * (100 + j) <= 150 * base
    ensures base / 2 <= base * (100 - j) / 100 <= base <= base * (100 + j) / 100
  {
    var less, more := base * (100 - j), base * (100 + j);
    assert base * 50 <= less && less <= base * 100 && base * 100 <= more;
    assert base * 50 / 100 == base / 2;
  }

  // ------------------------------------------------------------------ system

  /** A snapshot, told apart by the instants at which its two database reads were made. */
  datatype Payload = Payload(rowAt: int, reservedAt: int, loadNo: nat)

  datatype Entry = Entry(payload: Payload, expiry: Option<int>)

  /** The lock shard is shared with other shows. */
  datatype Holder = Thread(id: nat) | OtherShow

  /**
   Where a thread is in _coalesced_fill_show_snapshot. batchAt is the time of the batch's
   reserved lookup, made before the lock is asked for.
   */
  datatype Phase =
    | Entered(batchAt: Option<int>)
    | Waiting(batchAt: Option<int>)
    | Rechecking(batchAt: Option<int>)
    | Loading(batchAt: Option<int>)
    | RowRead(batchAt: Option<int>, rowAt: int)
    | Built(payload: Payload)
    | Releasing(payload: Payload, servedAt: int)
    | Done(payload: Payload, servedAt: int)

  /** loads counts the loads begun under the lock. */
  datatype Sys = Sys(now: int, cached: Option<Entry>, lock: Option<Holder>, threads: map<nat, Phase>, loads: nat)

  datatype Action =
    | Enter(t: nat, batchAt: Option<int>)
    | FirstGet(t: nat)
    | AcquireLock(t: nat)
    | SecondGet(t: nat)
    | ReadRow(t: nat)
    | ReadReserved(t: nat)
    | StoreEntry(t: nat, ttl: Option<int>)
    | ReleaseLock(t: nat)
    | LoadFails(t: nat)
    | OtherShowLock(held: bool)
    | DeleteKey
    | Tick(now: int)

  predicate At(s: Sys, t: nat) {
    t in s.threads
  }

  predicate Enabled(s: Sys, e: Action) {
    match e
    case Enter(t, batchAt) => t !in s.threads && (batchAt.Some? ==> batchAt.value <= s.now)
    case FirstGet(t) => At(s, t) && s.threads[t].Entered?
    case AcquireLock(t) => At(s, t) && s.threads[t].Waiting? && s.lock.None?
    case SecondGet(t) => At(s, t) && s.threads[t].Rechecking?
    case ReadRow(t) => At(s, t) && s.threads[t].Loading?
    case ReadReserved(t) => At(s, t) && s.threads[t].RowRead?
    case StoreEntry(t, _) => At(s, t) && s.threads[t].Built?
    case ReleaseLock(t) => At(s, t) && s.threads[t].Releasing?
    case LoadFails(t) => At(s, t) && InLoad(s.threads[t])
    case OtherShowLock(held) => s.lock == if held then None else Some(OtherShow)
    case DeleteKey => true
    case Tick(now) => s.now <= now
  }

  predicate InLoad(p: Phase) {
    p.Loading? || p.RowRead? || p.Built?
  }

  predicate InLock(p: Phase) {
    p.Rechecking? || InLoad(p) || p.Releasing?
  }

  function Goto(s: Sys, t: nat, p: Phase): Sys {
    s.(threads := s.threads[t := p])
  }

  function Apply(s: Sys, e: Action): Sys
    requires Enabled(s, e)
  {
    match e
    case Enter(t, batchAt) => Goto(s, t, Entered(batchAt))
    case FirstGet(t) =>
      if s.cached.Some? then Goto(s, t, Done(s.cached.value.payload, s.now))
      else Goto(s, t, Waiting(s.threads[t].batchAt))
    case AcquireLock(t) => Goto(s, t, Rechecking(s.threads[t].batchAt)).(lock := Some(Thread(t)))
    case SecondGet(t) =>
      if s.cached.Some? then Goto(s, t, Releasing(s.cached.value.payload, s.now))
      else Goto(s, t, Loading(s.threads[t].batchAt)).(loads := s.loads + 1)
    case ReadRow(t) => Goto(s, t, RowRead(s.threads[t].batchAt, s.now))
    case ReadReserved(t) =>
      var p := s.threads[t];
      Goto(s, t, Built(Payload(p.rowAt, if p.batchAt.Some? then p.batchAt.value else s.now, s.loads)))
    case StoreEntry(t, ttl) =>
      var payload := s.threads[t].payload;
      Goto(s, t, Releasing(payload, s.now))
        .(cached := Some(Entry(payload, if ttl.Some? then Some(s.now + ttl.value) else None)))
    case ReleaseLock(t) => Goto(s, t, Done(s.threads[t].payload, s.threads[t].servedAt)).(lock := None)
    case LoadFails(t) => s.(threads := s.threads - {t}, lock := None)
    case OtherShowLock(held) => s.(lock := if held then Some(OtherShow) else None)
    case DeleteKey => s.(cached := None)
    case Tick(now) =>
      s.(now := now, cached := if s.cached.Some? && Expired(s.cached.value, now) then None else s.cached)
  }

  predicate Expired(e: Entry, now: int) {
    e.expiry.Some? && e.expiry.value <= now
  }

  ghost predicate StepsTo(s: Sys, e: Action, s': Sys) {
    Enabled(s, e) && s' == Apply(s, e)
  }

  ghost predicate Init(s: Sys) {
    s.cached == None && s.lock == None && s.threads == map[] && s.loads == 0
  }

  ghost predicate IsRun(states: seq<Sys>, actions: seq<Action>) {
    && |states| == |actions| + 1
    && Init(states[0])
    && forall k :: 0 <= k < |actions| ==> StepsTo(states[k], actions[k], states[k + 1])
  }

  // ----------------------------------------------------------- single flight

  /** The lock is held by t iff t is inside the locked block. */
  ghost predicate LockInv(s: Sys) {
    && (forall t :: t in s.threads ==> (InLock(s.threads[t]) <==> s.lock == Some(Thread(t))))
    && (s.lock.Some? && s.lock.value.Thread? ==> s.lock.value.id in s.threads)
  }

  /** An action that makes the entry go away, or gives up a load. */
  ghost predicate Drops(s: Sys, e: Action) {
    e.DeleteKey? || e.LoadFails? || (e.Tick? && s.cached.Some? && Expired(s.cached.value, e.now))
  }

  /**
   As long as nothing drops it, there is one load: it is under way and nothing is cached,
   or it is cached and everyone who has a payload has that one.
   */
  ghost predicate FlightInv(s: Sys) {
    && LockInv(s)
    && (s.cached.None? ==>
          && (forall t :: t in s.threads ==> !s.threads[t].Done? && !s.threads[t].Releasing?)
          && s.loads == (if exists t :: t in s.threads && InLoad(s.threads[t]) then 1 else 0))
    && (s.cached.Some? ==>
          && s.loads == 1
          && forall t :: t in s.threads ==>
               && !InLoad(s.threads[t])
               && (s.threads[t].Done? || s.threads[t].Releasing? ==> s.threads[t].payload == s.cached.value.payload))
  }

  /** The thread a step moves; for the other steps any number will do. */
  function Actor(e: Action): nat {
    match e
    case Enter(t, _) => t
    case FirstGet(t) => t
    case AcquireLock(t) => t
    case SecondGet(t) => t
    case ReadRow(t) => t
    case ReadReserved(t) => t
    case StoreEntry(t, _) => t
    case ReleaseLock(t) => t
    case LoadFails(t) => t
    case _ => 0
  }

  lemma LockStep(s: Sys, e: Action)
    requires LockInv(s) && Enabled(s, e)
    ensures LockInv(Apply(s, e))
  {
  }

  lemma FlightStepMiss(s: Sys, e: Action)
    requires FlightInv(s) && Enabled(s, e) && !Drops(s, e) && s.cached.None?
    ensures FlightInv(Apply(s, e))
  {
    LockStep(s, e);
    var s' := Apply(s, e);
    if u :| u in s.threads && InLoad(s.threads[u]) {
      assert u != Actor(e) || e.OtherShowLock? || e.Tick? ==> u in s'.threads && InLoad(s'.threads[u]);
    }
    var t := Actor(e);
    if e.ReadRow? || e.ReadReserved? || e.SecondGet? {
      assert t in s'.threads && InLoad(s'.threads[t]);
    }
  }

  lemma FlightStepHit(s: Sys, e: Action)
    requires FlightInv(s) && Enabled(s, e) && !Drops(s, e) && s.cached.Some?
    ensures FlightInv(Apply(s, e))
  {
    LockStep(s, e);
  }

  ghost predicate Undropped(states: seq<Sys>, actions: seq<Action>, k: nat)
    requires k < |states| == |actions| + 1
  {
    forall j :: 0 <= j < k ==> !Drops(states[j], actions[j])
  }

  lemma {:induction false} RunKeepsFlight(states: seq<Sys>, actions: seq<Action>, k: nat)
    requires IsRun(states, actions) && k < |states| && Undropped(states, actions, k)
    ensures FlightInv(states[k])
  {
    if k > 0 {
      RunKeepsFlight(states, actions, k - 1);
      assert StepsTo(states[k - 1], actions[k - 1], states[k]);
      if states[k - 1].cached.None? {
        FlightStepMiss(states[k - 1], actions[k - 1]);
      } else {
        FlightStepHit(states[k - 1], actions[k - 1]);
      }
    }
  }

  /**
   Single flight: while the entry is not deleted, does not expire and no load fails, the
   threads of the process make at most one load, exactly one once any has returned, and
   all that have returned returned its payload.
   */
  lemma SingleFlight(states: seq<Sys>, actions: seq<Action>, k: nat, t: nat, u: nat)
    requires IsRun(states, actions) && k < |states| && Undropped(states, actions, k)
    ensures states[k].loads <= 1
    ensures t in states[k].threads && states[k].threads[t].Done? ==> states[k].loads == 1
    ensures t in states[k].threads && u in states[k].threads
            && states[k].threads[t].Done? && states[k].threads[u].Done? ==>
      states[k].threads[t].payload == states[k].threads[u].payload
  {
    RunKeepsFlight(states, actions, k);
  }

  /** A failed load blocks nobody: its thread is out, the lock is free for any that waits, nothing was cached. */
  lemma FailedLoadUnblocks(s: Sys, e: Action, u: nat)
    requires e.LoadFails? && Enabled(s, e) && u in s.threads && s.threads[u].Waiting?
    ensures Enabled(Apply(s, e), AcquireLock(u))
    ensures e.t !in Apply(s, e).threads && Apply(s, e).cached == s.cached
  {
  }

  // ------------------------------------------------------- bounded staleness

  function OldestRead(p: Payload): int {
    if p.rowAt < p.reservedAt then p.rowAt else p.reservedAt
  }

  /** Entries get a TTL of at most maxTtl, and are stored at most fill after their first read. */
  ghost predicate Prompt(s: Sys, e: Action, maxTtl: int, fill: int) {
    e.StoreEntry? && Enabled(s, e) ==>
      && e.ttl.Some? && 1 <= e.ttl.value <= maxTtl
      && s.now - OldestRead(s.threads[e.t].payload) <= fill
  }

  ghost predicate AgeInv(s: Sys, maxTtl: int, fill: int) {
    && (s.cached.Some? ==>
          && s.cached.value.expiry.Some? && s.now < s.cached.value.expiry.value
          && s.cached.value.expiry.value - OldestRead(s.cached.value.payload) <= maxTtl + fill)
    && (forall t :: t in s.threads && (s.threads[t].Done? || s.threads[t].Releasing?) ==>
          s.threads[t].servedAt - OldestRead(s.threads[t].payload) <= maxTtl + fill)
  }

  lemma AgeStep(s: Sys, e: Action, maxTtl: int, fill: int)
    requires AgeInv(s, maxTtl, fill) && Enabled(s, e) && Prompt(s, e, maxTtl, fill)
    ensures AgeInv(Apply(s, e), maxTtl, fill)
  {
  }

  ghost predicate PromptRun(states: seq<Sys>, actions: seq<Action>, maxTtl: int, fill: int) {
    && IsRun(states, actions)
    && forall k :: 0 <= k < |actions| ==> Prompt(states[k], actions[k], maxTtl, fill)
  }

  lemma {:induction false} RunKeepsAge(states: seq<Sys>, actions: seq<Action>, k: nat, maxTtl: int, fill: int)
    requires PromptRun(states, actions, maxTtl, fill) && k < |states|
    ensures AgeInv(states[k], maxTtl, fill)
  {
    if k > 0 {
      RunKeepsAge(states, actions, k - 1, maxTtl, fill);
      assert StepsTo(states[k - 1], actions[k - 1], states[k]);
      AgeStep(states[k - 1], actions[k - 1], maxTtl, fill);
    }
  }

  /**
   Bounded staleness, whatever deletes, expiries and failed loads happen: with a positive
   base TTL a snapshot is served at most the largest TTL plus its fill time after the
   first of its database reads.
   */
  lemma ServedAgeBounded(states: seq<Sys>, actions: seq<Action>, k: nat, t: nat, base: int, jitterPct: int, fill: int)
    requires PromptRun(states, actions, MaxTtl(base, jitterPct), fill) && k < |states|
    requires t in states[k].threads && states[k].threads[t].Done?
    ensures states[k].threads[t].servedAt - states[k].threads[t].payload.rowAt <= MaxTtl(base, jitterPct) + fill
    ensures states[k].threads[t].servedAt - states[k].threads[t].payload.reservedAt <= MaxTtl(base, jitterPct) + fill
  {
    RunKeepsAge(states, actions, k, MaxTtl(base, jitterPct), fill);
  }
}
