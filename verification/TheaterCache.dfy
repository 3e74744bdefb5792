/**
 The read cache of the theater screens: the bootstrap key and one detail key a theater,
 over operations taken one at a time. Deleting the bootstrap and the booked theater's
 detail is enough; what happens when that delete, or a refund's warmup, is lost is exact.
 */
module TheaterCache {
  import opened Wrappers
  import opened BookingTables
  import opened BookingMessages
  import opened SeatKeys
  import opened Sequences
  import opened TheaterReads
  import opened TheaterSlices
  import BP = BookingProtocol
  import TB = TheaterBooking

  datatype Cache = Cache(bootstrap: Option<Bootstrap>, details: map<int, Detail>)

  function AfterBootstrapView(c: Cache, current: Bootstrap): Cache {
    if c.bootstrap.Some? then c else c.(bootstrap := Some(current))
  }

  function BootstrapReply(c: Cache, current: Bootstrap): Bootstrap {
    match c.bootstrap
    case Some(cached) => cached
    case None => current
  }

  /** A detail miss rebuilds and writes both keys; an unknown theater writes nothing. */
  function AfterDetailView(c: Cache, current: Bootstrap, tid: int): Cache {
    if tid in c.details then c
    else
      match Slice(current, tid)
      case None => c
      case Some(d) => Cache(Some(current), c.details[tid := d])
  }

  function DetailReply(c: Cache, current: Bootstrap, tid: int): Option<Detail> {
    if tid in c.details then Some(c.details[tid]) else Slice(current, tid)
  }

  /** The worker's delete after a committed booking. */
  function Invalidated(c: Cache, tid: int): Cache {
    Cache(None, if tid > 0 then c.details - {tid} else c.details)
  }

  function WarmDetails(details: map<int, Detail>, current: Bootstrap, tids: seq<int>): map<int, Detail> {
    if tids == [] then details
    else
      var front, tid := WarmDetails(details, current, tids[..|tids| - 1]), tids[|tids| - 1];
      match Slice(current, tid)
      case None => front
      case Some(d) => front[tid := d]
  }

  /** warmup_theaters_booking_caches when it stops after the given number of its writes. */
  function WarmedUpTo(c: Cache, current: Bootstrap, writes: nat): Cache {
    if writes == 0 then c
    else Cache(Some(current), WarmDetails(c.details, current, Renewed(current.theaters, writes)))
  }

  /** The theaters whose detail is rewritten by that many writes: the bootstrap comes first. */
  function Renewed(theaters: seq<int>, writes: nat): seq<int> {
    if writes == 0 then [] else if writes - 1 <= |theaters| then theaters[..writes - 1] else theaters
  }

  class BookingCaches {
    var bootstrap: Option<Bootstrap>
    var details: map<int, Detail>

    ghost function Value(): Cache
      reads this
    {
      Cache(bootstrap, details)
    }

    constructor ()
      ensures Value() == Cache(None, map[])
    {
      bootstrap, details := None, map[];
    }

    method GetBootstrap(cat: TB.Catalog, l: Listing, t: Tables<nat>) returns (payload: Bootstrap)
      requires TB.ValidCatalog(cat) && TableInv(t) && SeatsPlaced(cat, t) && Scheduled(cat, t, l.order)
      modifies this
      ensures Value() == AfterBootstrapView(old(Value()), Build(cat, l, t))
      ensures payload == BootstrapReply(old(Value()), Build(cat, l, t))
      ensures payload == (if old(bootstrap).Some? then old(bootstrap).value else Build(cat, l, t))
      ensures bootstrap == Some(payload) && details == old(details)
    {
      if bootstrap.Some? {
        return bootstrap.value;
      }
      payload := BuildPayload(cat, l, t);
      bootstrap := Some(payload);
    }

    method GetDetail(cat: TB.Catalog, l: Listing, t: Tables<nat>, tid: int) returns (payload: Option<Detail>)
      requires TB.ValidCatalog(cat) && TableInv(t) && SeatsPlaced(cat, t) && Scheduled(cat, t, l.order)
      modifies this
      ensures Value() == AfterDetailView(old(Value()), Build(cat, l, t), tid)
      ensures payload == DetailReply(old(Value()), Build(cat, l, t), tid)
      ensures tid in old(details) ==> payload == Some(old(details)[tid]) && Value() == old(Value())
      ensures tid !in old(details) ==> payload == Slice(Build(cat, l, t), tid)
      ensures tid !in old(details) && tid in l.theaters ==>
        bootstrap == Some(Build(cat, l, t)) && payload.Some? && details == old(details)[tid := payload.value]
      ensures tid !in old(details) && tid !in l.theaters ==> payload == None && Value() == old(Value())
    {
      if tid in details {
        return Some(details[tid]);
      }
      var built := BuildPayload(cat, l, t);
      payload := Slice(built, tid);
      if payload.None? {
        return;
      }
      bootstrap := Some(built);
      details := details[tid := payload.value];
    }

    method Invalidate(tid: int)
      modifies this
      ensures Value() == Invalidated(old(Value()), tid)
      ensures bootstrap == None && details == if tid > 0 then old(details) - {tid} else old(details)
    {
      bootstrap := None;
      if tid > 0 {
        details := details - {tid};
      }
    }

    /** failAt numbers the write that raises; the exception ends the warmup. */
    method Warmup(cat: TB.Catalog, l: Listing, t: Tables<nat>, failAt: nat)
      requires TB.ValidCatalog(cat) && TableInv(t) && SeatsPlaced(cat, t) && Scheduled(cat, t, l.order)
      modifies this
      ensures Value() == WarmedUpTo(old(Value()), Build(cat, l, t), failAt)
    {
      var built := BuildPayload(cat, l, t);
      if failAt == 0 {
        return;
      }
      bootstrap := Some(built);
      var tids := built.theaters;
      for i := 0 to |tids|
        invariant bootstrap == Some(built) && i < failAt
        invariant details == WarmDetails(old(details), built, tids[..i])
      {
        if failAt == i + 1 {
          return;
        }
        assert tids[..i + 1][..i] == tids[..i];
        var payload := Slice(built, tids[i]);
        if payload.Some? {
          details := details[tids[i] := payload.value];
        }
      }
      assert tids[..|tids|] == tids;
    }
  }

  // -------------------------------------------------------------- coherence

  /** Whatever is cached is what a build from the database would give now. */
  ghost predicate Coherent(c: Cache, current: Bootstrap) {
    && (c.bootstrap.Some? ==> c.bootstrap.value == current)
    && (forall tid :: tid in c.details ==> Slice(current, tid) == Some(c.details[tid]))
  }

  /** From a coherent cache every view is answered with what the database holds. */
  lemma CoherentViews(c: Cache, current: Bootstrap, tid: int)
    requires Coherent(c, current)
    ensures BootstrapReply(c, current) == current && DetailReply(c, current, tid) == Slice(current, tid)
    ensures Coherent(AfterBootstrapView(c, current), current) && Coherent(AfterDetailView(c, current, tid), current)
  {
  }

  /**
   After the view of a listed theater that was not cached, both keys hold the current build
   and the others what they held.
   */
  lemma DetailMissWritesBoth(c: Cache, current: Bootstrap, tid: int)
    requires tid !in c.details && tid in current.theaters
    ensures var c' := AfterDetailView(c, current, tid);
            && DetailReply(c, current, tid) == Slice(current, tid)
            && c'.bootstrap == Some(current) && tid in c'.details && Slice(current, tid) == Some(c'.details[tid])
            && (forall u :: u != tid ==> (u in c'.details <==> u in c.details))
            && (forall u :: u != tid && u in c.details ==> c'.details[u] == c.details[u])
  {
  }

  /** Every listed theater among those written has its slice, and every other detail is as it was. */
  lemma {:induction false} WarmDetailsExact(details: map<int, Detail>, current: Bootstrap, tids: seq<int>)
    ensures forall tid :: tid in tids && tid in current.theaters ==>
              && tid in WarmDetails(details, current, tids)
              && Slice(current, tid) == Some(WarmDetails(details, current, tids)[tid])
    ensures forall tid :: tid !in tids || tid !in current.theaters ==>
              && (tid in WarmDetails(details, current, tids) <==> tid in details)
              && (tid in details ==> WarmDetails(details, current, tids)[tid] == details[tid])
  {
    if tids != [] {
      WarmDetailsExact(details, current, tids[..|tids| - 1]);
      assert tids == tids[..|tids| - 1] + [tids[|tids| - 1]];
    }
  }

  /**
   What a warmup leaves: nothing before its first write, then the new bootstrap, and after
   as many writes as there are theaters besides, every listed theater's new detail, cached
   before or not. Details of unlisted theaters stay as they are.
   */
  lemma WarmupLeaves(c: Cache, current: Bootstrap, writes: nat)
    ensures writes == 0 ==> WarmedUpTo(c, current, writes) == c
    ensures writes > 0 ==> WarmedUpTo(c, current, writes).bootstrap == Some(current)
    ensures forall tid :: writes > 0 && tid in current.theaters[..Least(writes - 1, |current.theaters|)] ==>
              && tid in WarmedUpTo(c, current, writes).details
              && Slice(current, tid) == Some(WarmedUpTo(c, current, writes).details[tid])
    ensures forall tid :: tid !in current.theaters ==>
              && (tid in WarmedUpTo(c, current, writes).details <==> tid in c.details)
              && (tid in c.details ==> WarmedUpTo(c, current, writes).details[tid] == c.details[tid])
  {
    if writes > 0 {
      WarmDetailsExact(c.details, current, Renewed(current.theaters, writes));
      assert Renewed(current.theaters, writes) == current.theaters[..Least(writes - 1, |current.theaters|)];
    }
  }

  function Least(a: nat, b: nat): nat {
    if a <= b then a else b
  }

  lemma {:induction false} WarmDetailsMembers(details: map<int, Detail>, current: Bootstrap, tids: seq<int>)
    ensures forall tid :: tid in WarmDetails(details, current, tids) ==>
      if tid in tids && Slice(current, tid).Some?
      then Some(WarmDetails(details, current, tids)[tid]) == Slice(current, tid)
      else tid in details && WarmDetails(details, current, tids)[tid] == details[tid]
  {
    if tids != [] {
      WarmDetailsMembers(details, current, tids[..|tids| - 1]);
      assert tids == tids[..|tids| - 1] + [tids[|tids| - 1]];
    }
  }

  /** A warmup that comes to its end makes the cache coherent, provided no detail of an unlisted theater is cached. */
  lemma WarmedIsCoherent(c: Cache, current: Bootstrap, writes: nat)
    requires writes > |current.theaters| && forall tid :: tid in c.details ==> tid in current.theaters
    ensures Coherent(WarmedUpTo(c, current, writes), current)
  {
    assert Renewed(current.theaters, writes) == current.theaters;
    WarmDetailsMembers(c.details, current, current.theaters);
  }

  lemma InvalidatedIsCoherent(cat: TB.Catalog, l: Listing, t: Tables<nat>, t': Tables<nat>, ev: int, c: Cache)
    requires TB.ValidCatalog(cat) && ValidListing(cat, l) && ChangesOnly(t, t', ev) && ev in cat.screenings
    requires Scheduled(cat, t, l.order) && Scheduled(cat, t', l.order) && Coherent(c, Build(cat, l, t))
    ensures Coherent(Invalidated(c, TheaterOf(cat, ev)), Build(cat, l, t'))
  {
    forall tid | tid in Invalidated(c, TheaterOf(cat, ev)).details
      ensures Slice(Build(cat, l, t'), tid) == Some(c.details[tid])
    {
      OtherSlicesUnchanged(cat, l, t, t', ev, tid);
    }
  }

  // -------------------------------------------------------------------- runs

  datatype Site = Site(t: Tables<nat>, cache: Cache)

  /** deleted and writes tell how far the swallowed cache update of the operation came. */
  datatype SiteOp =
    | ViewBootstrap
    | ViewDetail(tid: int)
    | Book(userId: int, ev: int, seats: seq<Seat>, b: nat, deleted: bool)
    | CancelBooking(userId: int, b: nat, writes: nat)
    | EvictBootstrap
    | EvictDetail(tid: int)

  ghost predicate SiteInv(cat: TB.Catalog, l: Listing, seed: map<int, Event>, s: Site) {
    && TB.ValidCatalog(cat) && ValidListing(cat, l) && cat.screenings.Keys == s.t.events.Keys
    && Scheduled(cat, s.t, l.order)
    && TB.TheaterInv(s.t, seed) && SeatsPlaced(cat, s.t)
  }

  ghost predicate SiteStep(cat: TB.Catalog, l: Listing, users: set<int>, s: Site, op: SiteOp, s': Site)
    requires cat.screenings.Keys == s.t.events.Keys && Scheduled(cat, s.t, l.order)
  {
    match op
    case ViewBootstrap => s' == Site(s.t, AfterBootstrapView(s.cache, Build(cat, l, s.t)))
    case ViewDetail(tid) => s' == Site(s.t, AfterDetailView(s.cache, Build(cat, l, s.t), tid))
    case Book(userId, ev, seats, b, deleted) =>
      && b !in s.t.bookings && TB.BooksTo(cat, users, s.t, userId, ev, seats, b, s'.t)
      && s'.cache == if deleted then Invalidated(s.cache, TheaterOf(cat, ev)) else s.cache
    case CancelBooking(userId, b, writes) =>
      && RefundGuard(s.t, userId, b) == REFUNDED && s'.t == Refund(s.t, b) && Scheduled(cat, s'.t, l.order)
      && s'.cache == WarmedUpTo(s.cache, Build(cat, l, s'.t), writes)
    case EvictBootstrap => s' == s.(cache := s.cache.(bootstrap := None))
    case EvictDetail(tid) => s' == s.(cache := s.cache.(details := s.cache.details - {tid}))
  }

  /** The delete of a booking failed, or the warmup of a refund did not come to its end. */
  ghost predicate CacheUpdateLost(l: Listing, op: SiteOp) {
    (op.Book? && !op.deleted) || (op.CancelBooking? && op.writes <= |l.theaters|)
  }

  lemma BookedKeepsPlaces(cat: TB.Catalog, t: Tables<nat>, b: nat, userId: int, ev: int, seats: seq<Seat>,
                          ids: seq<nat>)
    requires TB.ValidCatalog(cat) && SeatsPlaced(cat, t) && TB.Known(cat, ev) && ev in t.events
    requires TB.ResolveSeats(cat, cat.screenings[ev].hallId, seats) == Some(ids)
    ensures SeatsPlaced(cat, TB.TheaterBooked(t, b, userId, ev, ids))
  {
    var t' := TB.TheaterBooked(t, b, userId, ev, ids);
    forall i | 0 <= i < |t'.seats|
      ensures RowPlaced(cat, t'.seats[i])
    {
      if i < |t.seats| {
        assert RowPlaced(cat, t.seats[i]);
      } else {
        var p := TB.PlaceOf(cat.screenings[ev].hallId, seats[i - |t.seats|]);
        assert cat.position[cat.seatAt[p]] == p;
      }
    }
  }

  lemma RefundKeepsPlaces(cat: TB.Catalog, t: Tables<nat>, b: nat)
    requires SeatsPlaced(cat, t) && b in t.bookings
    ensures SeatsPlaced(cat, Refund(t, b))
  {
    forall i | 0 <= i < |t.seats|
      ensures RowPlaced(cat, Refund(t, b).seats[i])
    {
      assert RowPlaced(cat, t.seats[i]);
    }
  }

  /** What a booking does to the rest of the site: it keeps the invariants and touches one schedule. */
  lemma BookStep(cat: TB.Catalog, l: Listing, users: set<int>, seed: map<int, Event>, s: Site, op: SiteOp, s': Site)
    requires SiteInv(cat, l, seed, s) && op.Book? && SiteStep(cat, l, users, s, op, s')
    ensures SiteInv(cat, l, seed, s') && ChangesOnly(s.t, s'.t, op.ev) && op.ev in cat.screenings && op.ev in s.t.events
    ensures |ActiveSeats(s'.t.seats, op.ev)| > |ActiveSeats(s.t.seats, op.ev)|
    ensures s.t.events[op.ev].status.OTHER? || !s'.t.events[op.ev].status.OTHER?
  {
    TB.TheaterCommitShape(cat, users, s.t, op.userId, op.ev, op.seats, op.b);
    var ids := TB.ResolveSeats(cat, cat.screenings[op.ev].hallId, op.seats).value;
    TB.BookingKeepsTheaterInv(cat, users, s.t, seed, op.userId, op.ev, op.seats, op.b);
    BookedKeepsPlaces(cat, s.t, op.b, op.userId, op.ev, op.seats, ids);
    BookingChangesOnly(s.t, op.b, op.userId, op.ev, ids);
    ActiveSeatsAppend(s.t.seats, op.b, op.ev, ids, op.ev);
  }

  lemma CancelStep(cat: TB.Catalog, l: Listing, users: set<int>, seed: map<int, Event>, s: Site, op: SiteOp, s': Site)
    requires SiteInv(cat, l, seed, s) && op.CancelBooking? && SiteStep(cat, l, users, s, op, s')
    ensures SiteInv(cat, l, seed, s')
    ensures op.b in s.t.bookings && ChangesOnly(s.t, s'.t, s.t.bookings[op.b].eventId) && s'.t.events == s.t.events
    ensures s.t.bookings[op.b].eventId in s.t.events
    ensures |ActiveSeats(s'.t.seats, s.t.bookings[op.b].eventId)| < |ActiveSeats(s.t.seats, s.t.bookings[op.b].eventId)|
  {
    assert BookingComplete(s.t, op.b);
    TB.RefundKeepsTheaterInv(s.t, seed, op.userId, op.b);
    RefundKeepsPlaces(cat, s.t, op.b);
    RefundChangesOnly(s.t, op.b);
    ActiveSeatsCancel(s.t.seats, op.b, s.t.bookings[op.b].eventId);
  }

  lemma StepKeepsSite(cat: TB.Catalog, l: Listing, users: set<int>, seed: map<int, Event>, s: Site, op: SiteOp,
                      s': Site)
    requires SiteInv(cat, l, seed, s) && SiteStep(cat, l, users, s, op, s')
    ensures SiteInv(cat, l, seed, s')
  {
    if op.Book? {
      BookStep(cat, l, users, seed, s, op, s');
    } else if op.CancelBooking? {
      CancelStep(cat, l, users, seed, s, op, s');
    }
  }

  lemma CancelKeepsCoherence(cat: TB.Catalog, l: Listing, t': Tables<nat>, c: Cache, current: Bootstrap, writes: nat)
    requires Scheduled(cat, t', l.order) && writes > |l.theaters|
    requires Coherent(c, current) && current.theaters == l.theaters
    ensures Coherent(WarmedUpTo(c, Build(cat, l, t'), writes), Build(cat, l, t'))
  {
    WarmedIsCoherent(c, Build(cat, l, t'), writes);
  }

  lemma StepKeepsCoherence(cat: TB.Catalog, l: Listing, users: set<int>, seed: map<int, Event>, s: Site, op: SiteOp,
                           s': Site)
    requires SiteInv(cat, l, seed, s) && SiteStep(cat, l, users, s, op, s') && !CacheUpdateLost(l, op)
    requires Coherent(s.cache, Build(cat, l, s.t))
    ensures SiteInv(cat, l, seed, s') && Coherent(s'.cache, Build(cat, l, s'.t))
  {
    StepKeepsSite(cat, l, users, seed, s, op, s');
    match op
    case ViewBootstrap => CoherentViews(s.cache, Build(cat, l, s.t), 0);
    case ViewDetail(tid) => CoherentViews(s.cache, Build(cat, l, s.t), tid);
    case Book(_, ev, _, _, _) =>
      BookStep(cat, l, users, seed, s, op, s');
      InvalidatedIsCoherent(cat, l, s.t, s'.t, ev, s.cache);
    case CancelBooking(_, _, writes) => CancelKeepsCoherence(cat, l, s'.t, s.cache, Build(cat, l, s.t), writes);
    case _ =>
  }

  ghost predicate IsSiteRun(cat: TB.Catalog, l: Listing, users: set<int>, seed: map<int, Event>,
                            states: seq<Site>, ops: seq<SiteOp>)
  {
    && |states| == |ops| + 1
    && SiteInv(cat, l, seed, states[0]) && states[0].cache == Cache(None, map[])
    && forall k :: 0 <= k < |ops| ==> SiteStepsTo(cat, l, users, states[k], ops[k], states[k + 1])
  }

  ghost predicate SiteStepsTo(cat: TB.Catalog, l: Listing, users: set<int>, s: Site, op: SiteOp, s': Site) {
    cat.screenings.Keys == s.t.events.Keys && Scheduled(cat, s.t, l.order) && SiteStep(cat, l, users, s, op, s')
  }

  lemma ExtendSiteRun(cat: TB.Catalog, l: Listing, users: set<int>, seed: map<int, Event>, states: seq<Site>,
                      ops: seq<SiteOp>, op: SiteOp, s': Site)
    requires IsSiteRun(cat, l, users, seed, states, ops) && SiteStepsTo(cat, l, users, states[|states| - 1], op, s')
    ensures IsSiteRun(cat, l, users, seed, states + [s'], ops + [op])
  {
    var states', ops' := states + [s'], ops + [op];
    forall k | 0 <= k < |ops'|
      ensures SiteStepsTo(cat, l, users, states'[k], ops'[k], states'[k + 1])
    {
      if k < |ops| {
        assert SiteStepsTo(cat, l, users, states[k], ops[k], states[k + 1]);
      }
    }
  }

  /**
   Cache coherence: after any sequence of views, bookings, refunds and evictions whose
   cache updates went through, what is cached equals a fresh build and its slices.
   */
  lemma {:induction false} CacheStaysCoherent(cat: TB.Catalog, l: Listing, users: set<int>, seed: map<int, Event>,
                                              states: seq<Site>, ops: seq<SiteOp>, k: nat)
    requires IsSiteRun(cat, l, users, seed, states, ops) && k < |states|
    requires forall j :: 0 <= j < k ==> !CacheUpdateLost(l, ops[j])
    ensures SiteInv(cat, l, seed, states[k]) && Coherent(states[k].cache, Build(cat, l, states[k].t))
  {
    if k > 0 {
      CacheStaysCoherent(cat, l, users, seed, states, ops, k - 1);
      assert SiteStepsTo(cat, l, users, states[k - 1], ops[k - 1], states[k]);
      StepKeepsCoherence(cat, l, users, seed, states[k - 1], ops[k - 1], states[k]);
    }
  }

  // ------------------------------------------------------ a lost cache update

  /** A listed schedule whose number of ACTIVE seats changed is a visible change. */
  lemma BuildDiffers(cat: TB.Catalog, l: Listing, t: Tables<nat>, t': Tables<nat>, ev: int)
    requires Scheduled(cat, t, l.order) && Scheduled(cat, t', l.order) && ev in l.order && ev in cat.screenings
    requires ev in t.events && ev in t'.events
    requires Listed(cat, l.movies, t', ev) && |ActiveSeats(t.seats, ev)| != |ActiveSeats(t'.seats, ev)|
    ensures || Build(cat, l, t).schedules != Build(cat, l, t').schedules
            || Build(cat, l, t).reserved != Build(cat, l, t').reserved
  {
    SchedulesMembers(cat, l.movies, t, l.order);
    SchedulesMembers(cat, l.movies, t', l.order);
    ReservedMembers(cat, l.movies, t, l.order);
    ReservedMembers(cat, l.movies, t', l.order);
    ReservedCount(cat, t, ev);
    ReservedCount(cat, t', ev);
    if Listed(cat, l.movies, t, ev) {
      assert |ReservedSeats(Build(cat, l, t), ev)| != |ReservedSeats(Build(cat, l, t'), ev)|;
    } else {
      assert RowOf(cat, t', ev) in Build(cat, l, t').schedules;
    }
  }

  lemma SliceDiffers(cat: TB.Catalog, l: Listing, t: Tables<nat>, t': Tables<nat>, ev: int)
    requires TB.ValidCatalog(cat) && ValidListing(cat, l) && Scheduled(cat, t, l.order) && Scheduled(cat, t', l.order)
    requires ev in l.order && ev in cat.screenings && ev in t.events
    requires ev in t'.events && TheaterOf(cat, ev) in l.theaters
    requires Listed(cat, l.movies, t', ev) && |ActiveSeats(t.seats, ev)| != |ActiveSeats(t'.seats, ev)|
    ensures Slice(Build(cat, l, t), TheaterOf(cat, ev)) != Slice(Build(cat, l, t'), TheaterOf(cat, ev))
  {
    var tid := TheaterOf(cat, ev);
    SliceIsLocalBuild(cat, l, t, tid);
    SliceIsLocalBuild(cat, l, t', tid);
    FilterMembers(ev => TheaterOf(cat, ev) == tid, l.order);
    BuildDiffers(cat, Local(cat, l, tid), t, t', ev);
  }

  lemma UnlistedChangeInvisible(cat: TB.Catalog, l: Listing, t: Tables<nat>, t': Tables<nat>, ev: int)
    requires ValidListing(cat, l) && Scheduled(cat, t, l.order) && Scheduled(cat, t', l.order) && ChangesOnly(t, t', ev)
    requires ev in cat.screenings && ev in t.events && ev in t'.events
    requires !Listed(cat, l.movies, t, ev) && !Listed(cat, l.movies, t', ev)
    ensures Build(cat, l, t) == Build(cat, l, t')
  {
    forall e | e in l.order
      ensures SameView(cat, l.movies, t, t', e)
    {
      assert e != ev ==> SameEvent(t, t', e);
    }
    BuildFrame(cat, l, t, t');
  }

  /** What a partial update leaves stale: a cached bootstrap not rewritten, or the touched theater's detail. */
  ghost predicate LeftStale(c: Cache, tid: int, bootstrapRenewed: bool, renewed: seq<int>) {
    (c.bootstrap.Some? && !bootstrapRenewed) || (tid in c.details && tid !in renewed)
  }

  /** A coherent cache that misses the update of a visible change stays coherent iff it held neither key. */
  lemma KeptCacheCoherentIff(cat: TB.Catalog, l: Listing, t: Tables<nat>, t': Tables<nat>, ev: int, c: Cache,
                             writes: nat)
    requires TB.ValidCatalog(cat) && ValidListing(cat, l) && Scheduled(cat, t, l.order) && Scheduled(cat, t', l.order)
    requires ChangesOnly(t, t', ev) && ev in cat.screenings && ev in t.events && ev in t'.events
    requires |ActiveSeats(t.seats, ev)| != |ActiveSeats(t'.seats, ev)|
    requires Listed(cat, l.movies, t, ev) ==> Listed(cat, l.movies, t', ev)
    requires Coherent(c, Build(cat, l, t))
    ensures Coherent(WarmedUpTo(c, Build(cat, l, t'), writes), Build(cat, l, t')) <==>
            || !Listed(cat, l.movies, t', ev)
            || !LeftStale(c, TheaterOf(cat, ev), writes > 0, Renewed(l.theaters, writes))
  {
    var current, tid := Build(cat, l, t'), TheaterOf(cat, ev);
    var after := WarmedUpTo(c, current, writes);
    var renewed := Renewed(l.theaters, writes);
    WarmDetailsMembers(c.details, current, renewed);
    if !Listed(cat, l.movies, t', ev) {
      UnlistedChangeInvisible(cat, l, t, t', ev);
    } else {
      BuildDiffers(cat, l, t, t', ev);
      forall u | u in after.details && u != tid
        ensures Slice(current, u) == Some(after.details[u])
      {
        OtherSlicesUnchanged(cat, l, t, t', ev, u);
      }
      if tid in c.details {
        SliceDiffers(cat, l, t, t', ev);
        WarmDetailsKeep(c.details, current, renewed, tid);
      }
    }
  }

  lemma {:induction false} WarmDetailsKeep(details: map<int, Detail>, current: Bootstrap, tids: seq<int>, tid: int)
    requires tid in details
    ensures tid in WarmDetails(details, current, tids)
  {
    if tids != [] {
      WarmDetailsKeep(details, current, tids[..|tids| - 1], tid);
    }
  }

  function TouchedEvent(s: Site, op: SiteOp): int
    requires op.Book? || (op.CancelBooking? && op.b in s.t.bookings)
  {
    if op.Book? then op.ev else s.t.bookings[op.b].eventId
  }

  function WritesOf(op: SiteOp): nat {
    if op.CancelBooking? then op.writes else 0
  }

  /**
   The swallowed failures, exactly: when a booking's delete is lost, or a refund's warmup
   ends after some of its writes, the cache is stale afterwards iff the touched schedule is
   listed and what was not rewritten includes the cached bootstrap or the cached detail of
   its theater.
   */
  lemma {:induction false} LostCacheUpdateIff(cat: TB.Catalog, l: Listing, users: set<int>, seed: map<int, Event>,
                                              s: Site, op: SiteOp, s': Site)
    requires SiteInv(cat, l, seed, s) && SiteStep(cat, l, users, s, op, s') && CacheUpdateLost(l, op)
    requires Coherent(s.cache, Build(cat, l, s.t))
    ensures SiteInv(cat, l, seed, s') && (op.CancelBooking? ==> op.b in s.t.bookings)
    ensures TouchedEvent(s, op) in cat.screenings && TouchedEvent(s, op) in s'.t.events
    ensures Coherent(s'.cache, Build(cat, l, s'.t)) <==>
            || !Listed(cat, l.movies, s'.t, TouchedEvent(s, op))
            || !LeftStale(s.cache, TheaterOf(cat, TouchedEvent(s, op)), WritesOf(op) > 0,
                          Renewed(l.theaters, WritesOf(op)))
  {
    if op.Book? {
      BookStep(cat, l, users, seed, s, op, s');
    } else {
      CancelStep(cat, l, users, seed, s, op, s');
    }
    KeptCacheCoherentIff(cat, l, s.t, s'.t, TouchedEvent(s, op), s.cache, WritesOf(op));
  }

  // ------------------------------------------- databases of the booking protocol

  lemma TheaterStepKeepsPlaces(cat: TB.Catalog, users: set<int>, t: Tables<nat>, t': Tables<nat>)
    requires TB.ValidCatalog(cat) && cat.screenings.Keys == t.events.Keys && TableInv(t) && SeatsPlaced(cat, t)
    requires TB.TheaterStep(cat, users, t, t')
    ensures SeatsPlaced(cat, t')
  {
    if userId, ev, seats, b :| b !in t.bookings && TB.BooksTo(cat, users, t, userId, ev, seats, b, t') {
      TB.TheaterCommitShape(cat, users, t, userId, ev, seats, b);
      BookedKeepsPlaces(cat, t, b, userId, ev, seats, TB.ResolveSeats(cat, cat.screenings[ev].hallId, seats).value);
    } else {
      var userId, b :| RefundGuard(t, userId, b) == REFUNDED && t' == Refund(t, b);
      RefundKeepsPlaces(cat, t, b);
    }
  }

  lemma DbStepKeepsPlaces(cat: BP.Catalog, db: BP.Db, db': BP.Db)
    requires BP.ValidCatalog(cat) && BP.Shaped(cat, db) && TableInv(db.theater) && SeatsPlaced(cat.theater, db.theater)
    requires BP.DbStep(cat, db, db')
    ensures SeatsPlaced(cat.theater, db'.theater)
  {
    if db'.theater != db.theater {
      TheaterStepKeepsPlaces(cat.theater, cat.users, db.theater, db'.theater);
    }
  }

  lemma {:induction false} RunKeepsPlaces(cat: BP.Catalog, states: seq<BP.Sys>, actions: seq<BP.Action>, k: nat)
    requires BP.ValidCatalog(cat) && BP.IsRun(cat, states, actions) && k < |states|
    ensures SeatsPlaced(cat.theater, states[k].db.theater)
  {
    if k > 0 {
      RunKeepsPlaces(cat, states, actions, k - 1);
      BP.RunKeepsTables(cat, states, actions, k - 1);
      BP.RunIsDbStep(cat, states, actions, k - 1);
      DbStepKeepsPlaces(cat, states[k - 1].db, states[k].db);
    }
  }

  /**
   Bootstrap accounting over runs of the whole booking protocol: in every reachable
   database, every schedule of a bootstrap read as one snapshot satisfies
   remain_count + number of its reservedSeats = total_count.
   */
  lemma RunBootstrapAccounts(cat: BP.Catalog, states: seq<BP.Sys>, actions: seq<BP.Action>, k: nat, l: Listing,
                             row: ScheduleRow)
    requires BP.ValidCatalog(cat) && BP.IsRun(cat, states, actions) && k < |states|
    requires forall ev :: ev in states[0].db.theater.events ==>
      states[0].db.theater.events[ev].remain <= states[0].db.theater.events[ev].total
    requires Scheduled(cat.theater, states[k].db.theater, l.order)
    requires row in Build(cat.theater, l, states[k].db.theater).schedules
    ensures row.remain + |ReservedSeats(Build(cat.theater, l, states[k].db.theater), row.scheduleId)| == row.total
    ensures row.scheduleId in states[0].db.theater.events
    ensures row.total == states[0].db.theater.events[row.scheduleId].total
    ensures row.remain == row.total - |ActiveSeats(states[k].db.theater.seats, row.scheduleId)|
  {
    BP.RunKeepsTables(cat, states, actions, k);
    SchedulesMembers(cat.theater, l.movies, states[k].db.theater, l.order);
    BootstrapAccounts(cat.theater, l, states[k].db.theater, states[0].db.theater.events, row);
  }
}
