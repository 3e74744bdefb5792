/**
 The Redis seat hold of concert requests. Keys carry an owner and an expiry; the clock
 removes what has expired. Each pipeline is atomic, a request is several pipelines, and
 requests interleave between them.
 */
module SeatHold {
  import opened Sequences
  import opened SeatKeys
  import opened BookingMessages
  import opened Wrappers

  datatype Key = Key(showId: int, seat: Seat)
  datatype Hold = Hold(owner: Ref, expiry: int)

  /** The reserved set of a show, expiring as a whole. */
  datatype Reserved = Reserved(seats: set<Seat>, expiry: int)

  datatype Redis = Redis(now: int, holds: map<Key, Hold>, reserved: map<int, Reserved>)

  // --------------------------------------------------------------- pipelines

  /** SET NX EX of one seat key. */
  function SetNx(r: Redis, k: Key, owner: Ref, ttl: int): Redis {
    if k in r.holds then r else r.(holds := r.holds[k := Hold(owner, r.now + ttl)])
  }

  /** The acquire pipeline: SET NX for each seat in order. */
  function Acquire(r: Redis, showId: int, seats: seq<Seat>, owner: Ref, ttl: int): Redis {
    if seats == [] then r
    else SetNx(Acquire(r, showId, seats[..|seats| - 1], owner, ttl), Key(showId, seats[|seats| - 1]), owner, ttl)
  }

  /** The replies of the acquire pipeline: true where the key was absent. */
  function Granted(r: Redis, showId: int, seats: seq<Seat>): seq<bool> {
    seq(|seats|, i requires 0 <= i < |seats| => Key(showId, seats[i]) !in r.holds && seats[i] !in seats[..i])
  }

  /** Number of replies before the first refusal. */
  function Prefix(granted: seq<bool>): (n: nat)
    ensures n <= |granted|
    ensures forall i :: 0 <= i < n ==> granted[i]
    ensures n < |granted| ==> !granted[n]
  {
    if granted == [] || !granted[0] then 0 else 1 + Prefix(granted[1..])
  }

  /** The owner-read pipeline of a release: the seats whose key is this owner's. */
  function Mine(r: Redis, showId: int, seats: seq<Seat>, owner: Ref): set<Seat> {
    set s | s in seats && Key(showId, s) in r.holds && r.holds[Key(showId, s)].owner == owner
  }

  /** DEL of the keys and SREM of their members; an emptied set disappears. */
  function Delete(r: Redis, showId: int, mine: set<Seat>): Redis {
    var holds := r.holds - (set k | k in r.holds && k.showId == showId && k.seat in mine);
    if showId !in r.reserved then r.(holds := holds)
    else
      var left := r.reserved[showId].seats - mine;
      r.(holds := holds,
         reserved := if left == {} then r.reserved - {showId}
                     else r.reserved[showId := r.reserved[showId].(seats := left)])
  }

  /** SADD of the held seats and EXPIRE of the set. */
  function Add(r: Redis, showId: int, seats: seq<Seat>, ttl: int): Redis {
    var before := if showId in r.reserved then r.reserved[showId].seats else {};
    r.(reserved := r.reserved[showId := Reserved(before + (set s | s in seats), r.now + ttl)])
  }

  /** The clock moves; what has expired is gone. */
  function Tick(r: Redis, now: int): Redis {
    Redis(now,
          r.holds - (set k | k in r.holds && r.holds[k].expiry <= now),
          r.reserved - (set s | s in r.reserved && r.reserved[s].expiry <= now))
  }

  lemma {:induction false} AcquireHolds(r: Redis, showId: int, seats: seq<Seat>, owner: Ref, ttl: int)
    ensures var r' := Acquire(r, showId, seats, owner, ttl);
            && r'.now == r.now && r'.reserved == r.reserved
            && (forall k :: k in r'.holds <==> k in r.holds || (k.showId == showId && k.seat in seats))
            && (forall k :: k in r'.holds ==>
                  r'.holds[k] == if k in r.holds then r.holds[k] else Hold(owner, r.now + ttl))
  {
    if seats != [] {
      var n := |seats| - 1;
      AcquireHolds(r, showId, seats[..n], owner, ttl);
      assert seats == seats[..n] + [seats[n]];
    }
  }

  // ------------------------------------------------------- the code, one client

  /** REFUSED is the DUPLICATE_SEAT reply; RAISED is an exception that leaves the function. */
  datatype HoldReply = NO_SEATS | REFUSED | HELD | RAISED

  /** How the pipelines of one request end; those that are not reached do not matter. */
  datatype HoldCalls = HoldCalls(acquire: CallOutcome, add: CallOutcome, read: CallOutcome, delete: CallOutcome)

  const RELIABLE: HoldCalls := HoldCalls(Returned, Returned, Returned, Returned)

  function Ttl(ttlSec: int): int {
    if ttlSec < 10 then 10 else ttlSec
  }

  class HoldStore {
    var redis: Redis

    constructor (redis: Redis)
      ensures this.redis == redis
    {
      this.redis := redis;
    }

    /** The acquire pipeline with its list of replies. */
    method AcquireAll(showId: int, seats: seq<Seat>, owner: Ref, ttl: int) returns (results: seq<bool>)
      modifies this
      ensures redis == Acquire(old(redis), showId, seats, owner, ttl)
      ensures results == Granted(old(redis), showId, seats)
    {
      results := [];
      for i := 0 to |seats|
        invariant redis == Acquire(old(redis), showId, seats[..i], owner, ttl)
        invariant results == Granted(old(redis), showId, seats)[..i]
      {
        AcquireHolds(old(redis), showId, seats[..i], owner, ttl);
        results := results + [Key(showId, seats[i]) !in redis.holds];
        redis := SetNx(redis, Key(showId, seats[i]), owner, ttl);
        assert seats[..i + 1][..i] == seats[..i];
      }
      assert seats[..|seats|] == seats;
    }

    /** release_seats; the clock may move to deleteAt between its two pipelines. */
    method ReleaseSeats(showId: int, seats: seq<Seat>, owner: Ref, deleteAt: int, calls: HoldCalls)
      returns (raised: bool)
      requires redis.now <= deleteAt
      modifies this
      ensures redis == Release(old(redis), showId, seats, owner, deleteAt, calls)
      ensures raised <==> seats != [] && (!calls.read.Returned? || !calls.delete.Returned?)
    {
      if seats == [] {
        return false;
      }
      if calls.read != Returned {
        return true;
      }
      var mine: set<Seat> := {};
      for i := 0 to |seats|
        invariant redis == old(redis)
        invariant mine == Mine(redis, showId, seats[..i], owner)
      {
        var k := Key(showId, seats[i]);
        if k in redis.holds && redis.holds[k].owner == owner {
          mine := mine + {seats[i]};
        }
        assert seats[..i + 1] == seats[..i] + [seats[i]];
      }
      assert seats[..|seats|] == seats;
      redis := Tick(redis, deleteAt);
      if calls.delete != RaisedUnapplied {
        redis := Delete(redis, showId, mine);
      }
      raised := calls.delete != Returned;
    }

    /**
     try_hold_seats with the clock readings of its later pipelines. HELD iff every seat was
     free and asked for once; the refused request releases what it was granted before the
     first refusal.
     */
    method TryHoldSeats(showId: int, seats: seq<Seat>, owner: Ref, ttlSec: int, secondAt: int, deleteAt: int,
                        calls: HoldCalls)
      returns (reply: HoldReply)
      requires redis.now <= secondAt <= deleteAt
      modifies this
      ensures reply == HoldReplyOf(old(redis), showId, seats, calls)
      ensures redis == TryHold(old(redis), showId, seats, owner, ttlSec, secondAt, deleteAt, calls)
      ensures reply == NO_SEATS <==> seats == []
      ensures reply == HELD <==>
              && seats != [] && AllFree(old(redis), showId, seats)
              && calls.acquire == Returned && calls.add == Returned
      ensures reply == REFUSED <==>
              && seats != [] && !AllFree(old(redis), showId, seats) && calls.acquire == Returned
              && (Key(showId, seats[0]) in old(redis).holds || (calls.read == Returned && calls.delete == Returned))
      ensures reply == HELD ==> HeldIn(old(redis), redis, showId, seats, owner, ttlSec, secondAt)
    {
      reply := RunPipelines(showId, seats, owner, ttlSec, secondAt, deleteAt, calls);
      HoldReplyExact(old(redis), showId, seats, calls);
      if reply == HELD {
        HoldTakesSeats(old(redis), showId, seats, owner, ttlSec, secondAt, deleteAt, calls);
      }
    }

    /** Its pipelines: acquire, then add, or the release of the granted prefix. */
    method RunPipelines(showId: int, seats: seq<Seat>, owner: Ref, ttlSec: int, secondAt: int, deleteAt: int,
                        calls: HoldCalls)
      returns (reply: HoldReply)
      requires redis.now <= secondAt <= deleteAt
      modifies this
      ensures reply == HoldReplyOf(old(redis), showId, seats, calls)
      ensures redis == TryHold(old(redis), showId, seats, owner, ttlSec, secondAt, deleteAt, calls)
    {
      var ttl := Ttl(ttlSec);
      if seats == [] {
        return NO_SEATS;
      }
      if calls.acquire == RaisedUnapplied {
        return RAISED;
      }
      var results := AcquireAll(showId, seats, owner, ttl);
      if calls.acquire != Returned {
        return RAISED;
      }
      AcquireKeepsClock(old(redis), showId, seats, owner, ttl);
      redis := Tick(redis, secondAt);
      var held: seq<Seat> := [];
      for i := 0 to |seats|
        invariant held == seats[..i] && i <= Prefix(results)
        invariant redis == Tick(Acquire(old(redis), showId, seats, owner, ttl), secondAt)
      {
        if results[i] {
          held := held + [seats[i]];
        } else {
          var raised := ReleaseSeats(showId, held, owner, deleteAt, calls);
          return if raised then RAISED else REFUSED;
        }
      }
      assert held == seats;
      if calls.add != RaisedUnapplied {
        redis := Add(redis, showId, held, ttl);
      }
      reply := if calls.add == Returned then HELD else RAISED;
    }
  }

  lemma AcquireKeepsClock(r: Redis, showId: int, seats: seq<Seat>, owner: Ref, ttl: int)
    ensures Acquire(r, showId, seats, owner, ttl).now == r.now
  {
    AcquireHolds(r, showId, seats, owner, ttl);
  }

  function Release(r: Redis, showId: int, seats: seq<Seat>, owner: Ref, deleteAt: int, calls: HoldCalls): Redis {
    if seats == [] || !calls.read.Returned? then r
    else if calls.delete.RaisedUnapplied? then Tick(r, deleteAt)
    else Delete(Tick(r, deleteAt), showId, Mine(r, showId, seats, owner))
  }

  /** The whole of try_hold_seats when no other client comes between. */
  function TryHold(r: Redis, showId: int, seats: seq<Seat>, owner: Ref, ttlSec: int, secondAt: int, deleteAt: int,
                   calls: HoldCalls)
    : Redis
  {
    if seats == [] || calls.acquire.RaisedUnapplied? then r
    else
      var n := Prefix(Granted(r, showId, seats));
      var r1 := Acquire(r, showId, seats, owner, Ttl(ttlSec));
      if calls.acquire.RaisedApplied? then r1
      else if n < |seats| then Release(Tick(r1, secondAt), showId, seats[..n], owner, deleteAt, calls)
      else if calls.add.RaisedUnapplied? then Tick(r1, secondAt)
      else Add(Tick(r1, secondAt), showId, seats, Ttl(ttlSec))
  }

  function HoldReplyOf(r: Redis, showId: int, seats: seq<Seat>, calls: HoldCalls): HoldReply {
    var n := Prefix(Granted(r, showId, seats));
    if seats == [] then NO_SEATS
    else if !calls.acquire.Returned? then RAISED
    else if n == |seats| then (if calls.add.Returned? then HELD else RAISED)
    else if n > 0 && (!calls.read.Returned? || !calls.delete.Returned?) then RAISED
    else REFUSED
  }

  /** The reply for a seat is true iff the keys set before it in the pipeline left it free. */
  lemma GrantedIff(r: Redis, showId: int, seats: seq<Seat>, owner: Ref, ttl: int, i: nat)
    requires i < |seats|
    ensures |Granted(r, showId, seats)| == |seats|
    ensures Granted(r, showId, seats)[i] <==> Key(showId, seats[i]) !in Acquire(r, showId, seats[..i], owner, ttl).holds
  {
    AcquireHolds(r, showId, seats[..i], owner, ttl);
  }

  /** None of the seats is repeated and none has a key. */
  ghost predicate AllFree(r: Redis, showId: int, seats: seq<Seat>) {
    Distinct(seats) && forall s :: s in seats ==> Key(showId, s) !in r.holds
  }

  /** A pipeline grants every seat iff all are free. */
  lemma AllGrantedIff(r: Redis, showId: int, seats: seq<Seat>)
    ensures Prefix(Granted(r, showId, seats)) == |seats| <==> AllFree(r, showId, seats)
  {
    var granted := Granted(r, showId, seats);
    if Prefix(granted) == |seats| {
      forall i, j | 0 <= i < j < |seats|
        ensures seats[i] != seats[j]
      {
        assert granted[j] && seats[..j][i] == seats[i];
      }
      forall s | s in seats
        ensures Key(showId, s) !in r.holds
      {
        var i :| 0 <= i < |seats| && seats[i] == s;
        assert granted[i];
      }
    } else {
      var n := Prefix(granted);
      assert !granted[n] && seats[n] in seats;
      if seats[n] in seats[..n] {
        var i :| 0 <= i < n && seats[..n][i] == seats[n];
      }
    }
  }

  /** The replies in terms of the keys that were there: held iff every seat was free and asked for once. */
  lemma HoldReplyExact(r: Redis, showId: int, seats: seq<Seat>, calls: HoldCalls)
    ensures HoldReplyOf(r, showId, seats, calls) == NO_SEATS <==> seats == []
    ensures HoldReplyOf(r, showId, seats, calls) == HELD <==>
            seats != [] && AllFree(r, showId, seats) && calls.acquire == Returned && calls.add == Returned
    ensures HoldReplyOf(r, showId, seats, calls) == REFUSED <==>
            && seats != [] && !AllFree(r, showId, seats) && calls.acquire == Returned
            && (Key(showId, seats[0]) in r.holds || (calls.read == Returned && calls.delete == Returned))
  {
    AllGrantedIff(r, showId, seats);
    var granted := Granted(r, showId, seats);
    if seats != [] {
      assert granted[0] <==> Key(showId, seats[0]) !in r.holds;
    }
  }

  /** What the reserved set of a show lists. */
  function ReservedSeats(r: Redis, showId: int): set<Seat> {
    if showId in r.reserved then r.reserved[showId].seats else {}
  }

  /**
   What HELD means in Redis, r0 before and r after. Up to what runs out meanwhile: each
   seat's key names the request and lives max(10, ttlSec) from the acquire on, no other key
   is touched, and the reserved set has gained the seats and lives as long from the second
   pipeline on.
   */
  ghost predicate HeldIn(r0: Redis, r: Redis, showId: int, seats: seq<Seat>, owner: Ref, ttlSec: int, at: int) {
    var ttl := if ttlSec < 10 then 10 else ttlSec;
    && (at < r0.now + ttl ==> forall s :: s in seats ==>
          Key(showId, s) in r.holds && r.holds[Key(showId, s)] == Hold(owner, r0.now + ttl))
    && (forall k: Key :: k.showId != showId || k.seat !in seats ==>
          && (k in r.holds <==> k in r0.holds && at < r0.holds[k].expiry)
          && (k in r.holds ==> r.holds[k] == r0.holds[k]))
    && showId in r.reserved && r.reserved[showId].expiry == at + ttl
    && (forall s :: s in ReservedSeats(r, showId) <==>
          s in seats || (s in ReservedSeats(r0, showId) && at < r0.reserved[showId].expiry))
    && forall h :: h != showId ==> SameReserved(r0, r, h, at)
  }

  /** Another show's reserved set only runs out. */
  ghost predicate SameReserved(r0: Redis, r: Redis, h: int, at: int) {
    && (h in r.reserved <==> h in r0.reserved && at < r0.reserved[h].expiry)
    && (h in r.reserved ==> r.reserved[h] == r0.reserved[h])
  }

  lemma HoldTakesSeats(r: Redis, showId: int, seats: seq<Seat>, owner: Ref, ttlSec: int, secondAt: int, deleteAt: int,
                       calls: HoldCalls)
    requires r.now <= secondAt && HoldReplyOf(r, showId, seats, calls) == HELD
    ensures HeldIn(r, TryHold(r, showId, seats, owner, ttlSec, secondAt, deleteAt, calls), showId, seats, owner, ttlSec,
                   secondAt)
  {
    AcquireHolds(r, showId, seats, owner, Ttl(ttlSec));
    HoldReplyExact(r, showId, seats, calls);
  }

  /**
   What a release amounts to, up to what runs out meanwhile: the keys of the seats that name
   the owner are gone and no other, and the same seats leave the reserved set.
   */
  ghost predicate ReleasedIn(r0: Redis, r: Redis, showId: int, seats: seq<Seat>, owner: Ref, at: int) {
    && (forall k :: k in r.holds <==>
          && k in r0.holds && at < r0.holds[k].expiry
          && !(k.showId == showId && k.seat in seats && r0.holds[k].owner == owner))
    && (forall k :: k in r.holds ==> r.holds[k] == r0.holds[k])
    && (forall s :: s in ReservedSeats(r, showId) <==>
          && s in ReservedSeats(r0, showId) && at < r0.reserved[showId].expiry
          && !(s in seats && Key(showId, s) in r0.holds && r0.holds[Key(showId, s)].owner == owner))
    && (showId in r.reserved ==> showId in r0.reserved && r.reserved[showId].expiry == r0.reserved[showId].expiry)
    && (showId in r.reserved ==> r.reserved[showId].seats != {})
    && forall h :: h != showId ==> SameReserved(r0, r, h, at)
  }

  lemma ReleaseExact(r: Redis, showId: int, seats: seq<Seat>, owner: Ref, deleteAt: int)
    requires seats != []
    ensures ReleasedIn(r, Release(r, showId, seats, owner, deleteAt, RELIABLE), showId, seats, owner, deleteAt)
  {
  }

  // -------------------------------------------------------- all or nothing

  /** The seats after the first refused one that were free. */
  function LeftBehind(r: Redis, showId: int, seats: seq<Seat>): set<Seat> {
    var n := Prefix(Granted(r, showId, seats));
    set s | s in seats && Key(showId, s) !in r.holds && s !in seats[..n]
  }

  /** after is before plus one hold on each of the extra seats of the show. */
  ghost predicate ExtendedBy(before: map<Key, Hold>, after: map<Key, Hold>, showId: int, extra: set<Seat>, hold: Hold) {
    && (forall k :: k in after <==> k in before || (k.showId == showId && k.seat in extra))
    && (forall k :: k in before ==> k in after && after[k] == before[k])
    && (forall k :: k in after && k !in before ==> after[k] == hold)
  }

  /** The request's ref is new to Redis, and whatever is stored is still live. */
  ghost predicate Unknown(r: Redis, owner: Ref) {
    forall k :: k in r.holds ==> r.holds[k].owner != owner && r.now < r.holds[k].expiry
  }

  function FreeOf(r: Redis, showId: int, seats: seq<Seat>): set<Seat> {
    set s | s in seats && Key(showId, s) !in r.holds
  }

  /** While its TTL runs, an acquire adds one hold on each free seat; other holds may expire. */
  lemma AcquireAdds(r: Redis, showId: int, seats: seq<Seat>, owner: Ref, ttl: int, at: int)
    requires r.now <= at < r.now + ttl && Unknown(r, owner)
    ensures ExtendedBy(Tick(r, at).holds, Tick(Acquire(r, showId, seats, owner, ttl), at).holds, showId,
                       FreeOf(r, showId, seats), Hold(owner, r.now + ttl))
  {
    AcquireHolds(r, showId, seats, owner, ttl);
  }

  lemma MineIsAll(before: Redis, after: Redis, showId: int, seats: seq<Seat>, extra: set<Seat>, hold: Hold)
    requires ExtendedBy(before.holds, after.holds, showId, extra, hold)
    requires forall s :: s in seats ==> Key(showId, s) !in before.holds && s in extra
    ensures Mine(after, showId, seats, hold.owner) == set s | s in seats
  {
  }

  /** The seats of the granted prefix had no key before the acquire. */
  lemma GrantedWereFree(r: Redis, showId: int, seats: seq<Seat>, n: nat)
    requires n <= Prefix(Granted(r, showId, seats))
    ensures forall s :: s in seats[..n] ==> Key(showId, s) !in r.holds
  {
    var granted := Granted(r, showId, seats);
    forall i | 0 <= i < n
      ensures Key(showId, seats[i]) !in r.holds
    {
      assert granted[i];
    }
  }

  /** Time does not undo an extension whose hold is still live. */
  lemma TickKeepsExtension(before: Redis, after: Redis, at: int, showId: int, extra: set<Seat>, hold: Hold)
    requires ExtendedBy(before.holds, after.holds, showId, extra, hold) && at < hold.expiry
    requires forall s :: s in extra ==> Key(showId, s) !in before.holds
    ensures ExtendedBy(Tick(before, at).holds, Tick(after, at).holds, showId, extra, hold)
  {
  }

  /** Deleting part of an extension leaves the rest of it. */
  lemma DeleteShrinksExtension(before: Redis, after: Redis, showId: int, extra: set<Seat>, mine: set<Seat>, hold: Hold)
    requires ExtendedBy(before.holds, after.holds, showId, extra, hold)
    requires mine <= extra && forall s :: s in extra ==> Key(showId, s) !in before.holds
    ensures ExtendedBy(before.holds, Delete(after, showId, mine).holds, showId, extra - mine, hold)
  {
  }

  lemma TickTwice(r: Redis, first: int, second: int)
    requires first <= second
    ensures Tick(Tick(r, first), second).holds == Tick(r, second).holds
  {
  }

  /**
   A refused request that ends while its own keys live leaves, beyond the holds that were
   there before and have not expired, exactly the free seats after the first refused one.
   No other request in between.
   */
  lemma RefusedHoldLeaves(r: Redis, showId: int, seats: seq<Seat>, owner: Ref, ttlSec: int, secondAt: int,
                          deleteAt: int)
    requires r.now <= secondAt <= deleteAt < r.now + Ttl(ttlSec) && Unknown(r, owner)
    requires Prefix(Granted(r, showId, seats)) < |seats|
    ensures ExtendedBy(Tick(r, deleteAt).holds,
                       Tick(TryHold(r, showId, seats, owner, ttlSec, secondAt, deleteAt, RELIABLE), deleteAt).holds,
                       showId, LeftBehind(r, showId, seats), Hold(owner, r.now + Ttl(ttlSec)))
  {
    var n := Prefix(Granted(r, showId, seats));
    var hold, free := Hold(owner, r.now + Ttl(ttlSec)), FreeOf(r, showId, seats);
    var r1 := Tick(Acquire(r, showId, seats, owner, Ttl(ttlSec)), secondAt);
    AcquireAdds(r, showId, seats, owner, Ttl(ttlSec), secondAt);
    GrantedAreFree(r, showId, seats, n);
    TickTwice(r, secondAt, deleteAt);
    if n == 0 {
      TickKeepsExtension(Tick(r, secondAt), r1, deleteAt, showId, free, hold);
    } else {
      ReleaseShrinksExtension(Tick(r, secondAt), r1, showId, seats[..n], free, hold, deleteAt);
    }
  }

  lemma GrantedAreFree(r: Redis, showId: int, seats: seq<Seat>, n: nat)
    requires n == Prefix(Granted(r, showId, seats))
    ensures forall s :: s in seats[..n] ==> s in FreeOf(r, showId, seats)
    ensures FreeOf(r, showId, seats) - (set s | s in seats[..n]) == LeftBehind(r, showId, seats)
  {
    GrantedWereFree(r, showId, seats, n);
    assert forall s :: s in seats[..n] ==> s in seats;
  }

  /** A release of some of the seats it extended by leaves the others. */
  lemma ReleaseShrinksExtension(before: Redis, after: Redis, showId: int, seats: seq<Seat>, extra: set<Seat>,
                                hold: Hold, deleteAt: int)
    requires ExtendedBy(before.holds, after.holds, showId, extra, hold) && deleteAt < hold.expiry && seats != []
    requires forall s :: s in extra ==> Key(showId, s) !in before.holds
    requires forall s :: s in seats ==> s in extra
    ensures ExtendedBy(Tick(before, deleteAt).holds,
                       Tick(Release(after, showId, seats, hold.owner, deleteAt, RELIABLE), deleteAt).holds,
                       showId, extra - (set s | s in seats), hold)
  {
    var mine := Mine(after, showId, seats, hold.owner);
    MineIsAll(before, after, showId, seats, extra, hold);
    TickKeepsExtension(before, after, deleteAt, showId, extra, hold);
    DeleteShrinksExtension(Tick(before, deleteAt), Tick(after, deleteAt), showId, extra, mine, hold);
    TickAgain(Delete(Tick(after, deleteAt), showId, mine), deleteAt);
  }

  lemma TickAgain(r: Redis, at: int)
    requires forall k :: k in r.holds ==> at < r.holds[k].expiry
    ensures Tick(r, at).holds == r.holds
  {
  }

  lemma AcquireExpires(r: Redis, showId: int, seats: seq<Seat>, owner: Ref, ttl: int, at: int)
    requires r.now + ttl <= at
    ensures Tick(Acquire(r, showId, seats, owner, ttl), at).holds == Tick(r, at).holds
  {
    AcquireHolds(r, showId, seats, owner, ttl);
  }

  lemma DeleteOfAbsent(r: Redis, showId: int, mine: set<Seat>)
    requires forall s :: s in mine ==> Key(showId, s) !in r.holds
    ensures Delete(r, showId, mine).holds == r.holds
  {
  }

  /** Once the TTL has run out nothing of the request is left, released or not. */
  lemma ExpiredHoldLeavesNothing(r: Redis, showId: int, seats: seq<Seat>, owner: Ref, ttlSec: int, secondAt: int,
                                 deleteAt: int)
    requires r.now <= secondAt <= deleteAt && r.now + Ttl(ttlSec) <= deleteAt
    requires Prefix(Granted(r, showId, seats)) < |seats|
    ensures Tick(TryHold(r, showId, seats, owner, ttlSec, secondAt, deleteAt, RELIABLE), deleteAt).holds ==
            Tick(r, deleteAt).holds
  {
    var n := Prefix(Granted(r, showId, seats));
    var r1 := Tick(Acquire(r, showId, seats, owner, Ttl(ttlSec)), secondAt);
    AcquireExpires(r, showId, seats, owner, Ttl(ttlSec), deleteAt);
    TickTwice(Acquire(r, showId, seats, owner, Ttl(ttlSec)), secondAt, deleteAt);
    if n > 0 {
      GrantedWereFree(r, showId, seats, n);
      var mine := Mine(r1, showId, seats[..n], owner);
      DeleteOfAbsent(Tick(r1, deleteAt), showId, mine);
      TickAgain(Delete(Tick(r1, deleteAt), showId, mine), deleteAt);
    }
  }

  lemma ExtendedByNothingIff(before: map<Key, Hold>, after: map<Key, Hold>, showId: int, extra: set<Seat>, hold: Hold)
    requires ExtendedBy(before, after, showId, extra, hold)
    requires forall s :: s in extra ==> Key(showId, s) !in before
    ensures after == before <==> extra == {}
  {
    if extra != {} {
      var s :| s in extra;
      assert Key(showId, s) in after;
    }
  }

  /**
   The promised atomicity of a refused request, judged when it ends: the holds are what
   they would be without it iff its own TTL has run out by then or no seat after the first
   refused one was free. The code releases only the seats before it.
   */
  lemma RefusedHoldAtomicIff(r: Redis, showId: int, seats: seq<Seat>, owner: Ref, ttlSec: int, secondAt: int,
                             deleteAt: int)
    requires r.now <= secondAt <= deleteAt && Unknown(r, owner)
    requires Prefix(Granted(r, showId, seats)) < |seats|
    ensures Tick(TryHold(r, showId, seats, owner, ttlSec, secondAt, deleteAt, RELIABLE), deleteAt).holds
            == Tick(r, deleteAt).holds <==>
            || r.now + Ttl(ttlSec) <= deleteAt
            || forall i :: Prefix(Granted(r, showId, seats)) < i < |seats| ==>
                 Key(showId, seats[i]) in r.holds || seats[i] in seats[..Prefix(Granted(r, showId, seats))]
  {
    if r.now + Ttl(ttlSec) <= deleteAt {
      ExpiredHoldLeavesNothing(r, showId, seats, owner, ttlSec, secondAt, deleteAt);
    } else {
      RefusedHoldLeaves(r, showId, seats, owner, ttlSec, secondAt, deleteAt);
      ExtendedByNothingIff(Tick(r, deleteAt).holds,
                           Tick(TryHold(r, showId, seats, owner, ttlSec, secondAt, deleteAt, RELIABLE), deleteAt).holds,
                           showId, LeftBehind(r, showId, seats), Hold(owner, r.now + Ttl(ttlSec)));
      NothingLeftIff(r, showId, seats);
    }
  }

  lemma NothingLeftIff(r: Redis, showId: int, seats: seq<Seat>)
    requires Prefix(Granted(r, showId, seats)) < |seats|
    ensures LeftBehind(r, showId, seats) == {} <==>
            forall i :: Prefix(Granted(r, showId, seats)) < i < |seats| ==>
              Key(showId, seats[i]) in r.holds || seats[i] in seats[..Prefix(Granted(r, showId, seats))]
  {
    var n := Prefix(Granted(r, showId, seats));
    var left := LeftBehind(r, showId, seats);
    FirstRefusedNotLeft(r, showId, seats);
    if left == {} {
      forall i | n < i < |seats|
        ensures Key(showId, seats[i]) in r.holds || seats[i] in seats[..n]
      {
        assert seats[i] !in left;
      }
    } else {
      var s :| s in left;
      assert forall k :: 0 <= k < n ==> seats[..n][k] == seats[k];
      var i :| 0 <= i < |seats| && seats[i] == s;
    }
  }

  lemma FirstRefusedNotLeft(r: Redis, showId: int, seats: seq<Seat>)
    requires Prefix(Granted(r, showId, seats)) < |seats|
    ensures seats[Prefix(Granted(r, showId, seats))] !in LeftBehind(r, showId, seats)
  {
    var granted := Granted(r, showId, seats);
    assert !granted[Prefix(granted)];
  }

  /** A concrete family: with a taken seat first and a free one after it, the free one stays held. */
  lemma PartialRollbackWitness(r: Redis, showId: int, taken: Seat, free: Seat, owner: Ref, ttlSec: int)
    requires Key(showId, taken) in r.holds && Key(showId, free) !in r.holds && Unknown(r, owner)
    ensures var after := Tick(TryHold(r, showId, [taken, free], owner, ttlSec, r.now, r.now, RELIABLE), r.now).holds;
            Key(showId, free) in after && after[Key(showId, free)].owner == owner
  {
    var seats := [taken, free];
    assert !Granted(r, showId, seats)[0];
    assert seats[1] == free;
    RefusedHoldLeaves(r, showId, seats, owner, ttlSec, r.now, r.now);
  }
}
