/**
 A small world in which the promises that fail are seen to fail: two concert shows, one
 theater with one hall of one seat and one schedule, one user, and runs from its empty
 tables.
 */
module Witnesses {
  import opened Wrappers
  import opened BookingTables
  import opened BookingMessages
  import opened BookingProtocol
  import opened BookingStatus
  import opened SeatKeys
  import opened SeatOrder
  import opened Sequences
  import CB = ConcertBooking
  import CR = ConcertReads
  import SH = SeatHold
  import TB = TheaterBooking
  import TC = TheaterCache
  import TR = TheaterReads
  import TS = TheaterSlices

  const SEAT: Seat := Seat(1, 1)

  function Theater(): TB.Catalog {
    TB.Catalog(map[1 := 1], map[1 := TB.Screening(1, 1)], map[TB.Place(1, 1, 1) := 1], map[1 := TB.Place(1, 1, 1)])
  }

  function World(): Catalog {
    Catalog({1}, map[1 := CB.Show(1, 1, 2), 2 := CB.Show(1, 1, 2)], Theater())
  }

  function EmptyConcert(): Tables<Seat> {
    Tables(map[1 := Event(2, 2, OPEN), 2 := Event(2, 2, OPEN)], map[], [], map[])
  }

  function EmptyTheater(): Tables<nat> {
    Tables(map[1 := Event(1, 1, OPEN)], map[], [], map[])
  }

  function Start(): Sys {
    Sys(Db(EmptyConcert(), EmptyTheater()), map[], {}, {}, map[], {}, map[], map[], map[], {}, {}, {})
  }

  lemma WorldIsValid()
    ensures ValidCatalog(World()) && Init(World(), Start())
  {
    var t := Theater();
    assert t.screenings.Keys == EmptyTheater().events.Keys;
    assert World().shows.Keys == EmptyConcert().events.Keys;
  }

  lemma ExtendRun(states: seq<Sys>, actions: seq<Action>, e: Action) returns (states': seq<Sys>, actions': seq<Action>)
    requires IsRun(World(), states, actions)
    requires var s := states[|states| - 1]; Shaped(World(), s.db) && Enabled(s, e)
    ensures var s := states[|states| - 1];
            && IsRun(World(), states', actions') && |states'| == |states| + 1 && states'[..|states|] == states
            && states'[|states|] == Apply(World(), s, e)
  {
    states', actions' := states + [Apply(World(), states[|states| - 1], e)], actions + [e];
  }

  const CONCERT: Message := ConcertMsg(1, 1, [SEAT])
  const THEATER: Message := TheaterMsg(1, 1, [SEAT])

  /** The message is sent and marked. */
  lemma SentRun(msg: Message) returns (states: seq<Sys>, actions: seq<Action>)
    ensures IsRun(World(), states, actions) && |states| == 3
    ensures states[2] == Start().(queued := {"ref"}, queue := {"ref"}, sent := map["ref" := msg])
  {
    WorldIsValid();
    states, actions := ExtendRun([Start()], [], Send("ref", msg));
    states, actions := ExtendRun(states, actions, MarkQueued("ref", true));
  }

  /** It is received, checked and about to be processed. */
  lemma DeliveredRun(msg: Message) returns (states: seq<Sys>, actions: seq<Action>)
    ensures IsRun(World(), states, actions) && |states| == 5
    ensures states[2] == Start().(queued := {"ref"}, queue := {"ref"}, sent := map["ref" := msg])
    ensures states[4] == Start().(queued := {"ref"}, queue := {"ref"}, sent := map["ref" := msg],
                                  workers := map[0 := Processing("ref")])
  {
    WorldIsValid();
    states, actions := SentRun(msg);
    states, actions := ExtendRun(states, actions, Receive(0, "ref"));
    states, actions := ExtendRun(states, actions, CheckResult(0, false));
  }

  lemma ConcertBooks()
    ensures Shaped(World(), Start().db)
    ensures Transact(World(), Start().db, CONCERT, 0, NoFault)
            == Attempt(Start().db.(concert := Booked(EmptyConcert(), 0, 1, 1, [SEAT])), Success(0, 2), false, true)
  {
    WorldIsValid();
    CB.ConcertCommitsIff(World().shows, {1}, EmptyConcert(), 1, 1, [SEAT], 0);
    CB.ConcertCommitEffect(World().shows, {1}, EmptyConcert(), 1, 1, [SEAT], 0);
  }

  lemma BookedShape(states: seq<Sys>, actions: seq<Action>) returns (states': seq<Sys>, actions': seq<Action>)
    requires IsRun(World(), states, actions) && |states| == 5
    requires states[4] == Start().(queued := {"ref"}, queue := {"ref"}, sent := map["ref" := CONCERT],
                                   workers := map[0 := Processing("ref")])
    ensures IsRun(World(), states', actions') && |states'| == 6 && states'[..5] == states
    ensures states'[5].db.concert == Booked(EmptyConcert(), 0, 1, 1, [SEAT]) && Shaped(World(), states'[5].db)
    ensures states'[5].workers == map[0 := Storing("ref", Success(0, 2), false)] && states'[5].lost == {}
    ensures states'[5].results == map[] && states'[5].queued == {"ref"}
  {
    ConcertBooks();
    states', actions' := ExtendRun(states, actions, RunTx(0, 0, NoFault));
  }

  /**
   A poll that misses a live booking: it reads no result, the worker then stores OK and
   deletes the queued key, and the poll finds no queued key either.
   */
  lemma PollMissesBooking() returns (states: seq<Sys>, actions: seq<Action>)
    ensures IsRun(World(), states, actions) && |states| == 8
    ensures Held(states[2], "ref") && "ref" !in states[7].lost && "ref" !in states[2].unmarked
    ensures PollReplyOf(ReadResult(states[2], "ref"), "ref" in states[7].queued) == UnknownOrExpired
    ensures "ref" in states[7].results && states[7].results["ref"].Success?
  {
    states, actions := DeliveredRun(CONCERT);
    states, actions := BookedShape(states, actions);
    var i := states[2];
    states, actions := ExtendRun(states, actions, StoreResult(0, Returned));
    states, actions := ExtendRun(states, actions, Unmark(0, true));
    assert states[2] == i;
  }

  lemma SeatResolves()
    ensures TB.ResolveSeats(Theater(), 1, [SEAT]) == Some([1])
  {
    var ids := TB.ResolveSeats(Theater(), 1, [SEAT]);
    assert TB.PlaceOf(1, SEAT) in Theater().seatAt;
    assert ids.value == [1];
  }

  /** The theater after the only seat is booked. */
  function SoldTheater(): Tables<nat> {
    TB.TheaterBooked(EmptyTheater(), 0, 1, 1, [1])
  }

  lemma TheaterTxBooks()
    ensures Theater().screenings.Keys == EmptyTheater().events.Keys
    ensures TB.TheaterTx(Theater(), {1}, EmptyTheater(), 1, 1, [SEAT], 0) == Commit(SoldTheater(), 0, 0)
  {
    WorldIsValid();
    SeatResolves();
    TB.TheaterCommitsIff(Theater(), {1}, EmptyTheater(), 1, 1, [SEAT], 0);
    TB.TheaterCommitShape(Theater(), {1}, EmptyTheater(), 1, 1, [SEAT], 0);
  }

  lemma TheaterBooks()
    ensures Shaped(World(), Start().db)
    ensures Transact(World(), Start().db, THEATER, 0, NoFault)
            == Attempt(Start().db.(theater := SoldTheater()), Success(0, 0), false, true)
  {
    WorldIsValid();
    TheaterTxBooks();
  }

  lemma SoldShape(states: seq<Sys>, actions: seq<Action>) returns (states': seq<Sys>, actions': seq<Action>)
    requires IsRun(World(), states, actions) && |states| == 5
    requires states[4] == Start().(queued := {"ref"}, queue := {"ref"}, sent := map["ref" := THEATER],
                                   workers := map[0 := Processing("ref")])
    ensures IsRun(World(), states', actions') && |states'| == 6
    ensures states'[5].db.theater == SoldTheater() && Shaped(World(), states'[5].db)
  {
    TheaterBooks();
    states', actions' := ExtendRun(states, actions, RunTx(0, 0, NoFault));
  }

  /** The only seat of the hall, booked and refunded: it is free, and asking for it is answered SOLD_OUT. */
  lemma FreeSeatSoldOut() returns (states: seq<Sys>, actions: seq<Action>)
    ensures IsRun(World(), states, actions) && |states| == 7
    ensures var t := states[6].db.theater;
            && ActiveSeats(t.seats, 1) == [] && t.events.Keys == {1} && t.events[1].total == 1
            && Theater().screenings.Keys == t.events.Keys
            && TB.TheaterTx(Theater(), {1}, t, 1, 1, [SEAT], 1) == Refuse(SOLD_OUT)
  {
    states, actions := DeliveredRun(THEATER);
    states, actions := SoldShape(states, actions);
    states, actions := ExtendRun(states, actions, RefundTheater(1, 0));
    RefundedSoldOut();
  }

  lemma RefundedSoldOut()
    ensures var t := Refund(SoldTheater(), 0);
            && ActiveSeats(t.seats, 1) == [] && t.events.Keys == {1} && t.events[1].total == 1
            && Theater().screenings.Keys == t.events.Keys
            && TB.TheaterTx(Theater(), {1}, t, 1, 1, [SEAT], 1) == Refuse(SOLD_OUT)
  {
    var t := Refund(SoldTheater(), 0);
    WorldIsValid();
    SeatResolves();
    assert |t.seats| == 1 && t.seats[0].status == CANCELED;
  }

  /**
   A show whose only reserved seat is both held and sold, looked up together with a show
   Redis knows nothing of: its seat is listed twice, while alone it is listed once.
   */
  lemma SeatListedTwice() returns (states: seq<Sys>, actions: seq<Action>)
    ensures IsRun(World(), states, actions) && |states| == 6
    ensures var t, answers := states[5].db.concert, map[1 := [SEAT]];
            && CR.LookupOf(answers, t, [1, 2], 1) == [SEAT, SEAT]
            && CR.LookupOf(answers, t, [1], 1) == [SEAT]
    ensures var r := SH.TryHold(SH.Redis(0, map[], map[]), 1, [SEAT], "ref", 10, 0, 0, SH.RELIABLE);
            1 in r.reserved && r.reserved[1].seats == {SEAT}
  {
    OneSeatHeld();
    states, actions := DeliveredRun(CONCERT);
    states, actions := BookedShape(states, actions);
    TwiceInBatch(states[5].db.concert);
  }

  lemma TwiceInBatch(t: Tables<Seat>)
    requires t.seats == NewRows(0, 1, [SEAT])
    ensures var answers := map[1 := [SEAT]];
            CR.LookupOf(answers, t, [1, 2], 1) == [SEAT, SEAT] && CR.LookupOf(answers, t, [1], 1) == [SEAT]
  {
    var answers := map[1 := [SEAT]];
    OneSeatSorted();
    OneSeatSold(t);
    CR.LookupOne(answers, t, 1);
    CR.FullAnswerIff(answers, [1, 2]);
    CR.RedisPartMembers(answers, [1, 2], 1);
    assert 1 in [1, 2] && 2 in [1, 2] && !CR.Answered(answers, 2);
  }

  lemma OneSeatSold(t: Tables<Seat>)
    requires t.seats == NewRows(0, 1, [SEAT])
    ensures ActiveSeats(t.seats, 1) == [SEAT]
  {
    ActiveSeatsAppend([], 0, 1, [SEAT], 1);
    assert t.seats == [] + NewRows(0, 1, [SEAT]);
  }

  lemma OneSeatSorted()
    ensures SortSeats([SEAT]) == [SEAT]
  {
    assert [SEAT][..0] == [];
  }

  /** Such an answer does come from Redis: it lists the reserved set of a request that holds the seat. */
  lemma OneSeatHeld()
    ensures var r := SH.TryHold(SH.Redis(0, map[], map[]), 1, [SEAT], "ref", 10, 0, 0, SH.RELIABLE);
            1 in r.reserved && r.reserved[1].seats == {SEAT}
  {
    var r := SH.Redis(0, map[], map[]);
    SH.AcquireHolds(r, 1, [SEAT], "ref", 10);
    assert SH.Granted(r, 1, [SEAT]) == [true];
    assert SH.Prefix([true]) == 1;
  }

  function Screen(): TR.Listing {
    TR.Listing([1], [TR.HallRow(1, 1)], [1], {1})
  }

  lemma ScreenIsValid()
    ensures TB.ValidCatalog(Theater()) && TR.ValidListing(Theater(), Screen())
    ensures TR.Scheduled(Theater(), EmptyTheater(), Screen().order)
  {
    assert Screen().halls[0] in Screen().halls;
  }

  lemma SiteIsValid(cache: TC.Cache)
    ensures TC.SiteInv(Theater(), Screen(), EmptyTheater().events, TC.Site(EmptyTheater(), cache))
  {
    WorldIsValid();
    ScreenIsValid();
    InitDbInv(World(), Start());
  }

  lemma BookStepHere(cached: TR.Bootstrap)
    requires TR.Scheduled(Theater(), EmptyTheater(), Screen().order)
    ensures Theater().screenings.Keys == EmptyTheater().events.Keys
    ensures TC.SiteStep(Theater(), Screen(), {1}, TC.Site(EmptyTheater(), TC.Cache(Some(cached), map[])),
                        TC.Book(1, 1, [SEAT], 0, false), TC.Site(SoldTheater(), TC.Cache(Some(cached), map[])))
  {
    TheaterTxBooks();
    assert TB.BooksTo(Theater(), {1}, EmptyTheater(), 1, 1, [SEAT], 0, SoldTheater());
  }

  lemma CachedIsStale(cached: TR.Bootstrap)
    requires TR.Scheduled(Theater(), EmptyTheater(), Screen().order)
    requires cached == TR.Build(Theater(), Screen(), EmptyTheater())
    ensures TR.Scheduled(Theater(), SoldTheater(), Screen().order)
    ensures !TC.Coherent(TC.Cache(Some(cached), map[]), TR.Build(Theater(), Screen(), SoldTheater()))
  {
    var c := TC.Cache(Some(cached), map[]);
    SiteIsValid(c);
    BookStepHere(cached);
    TC.LostCacheUpdateIff(Theater(), Screen(), {1}, EmptyTheater().events, TC.Site(EmptyTheater(), c),
                          TC.Book(1, 1, [SEAT], 0, false), TC.Site(SoldTheater(), c));
  }

  lemma FirstViewStep(cat: TB.Catalog, l: TR.Listing, users: set<int>, t: Tables<nat>)
    requires cat.screenings.Keys == t.events.Keys && TR.Scheduled(cat, t, l.order)
    ensures TC.SiteStepsTo(cat, l, users, TC.Site(t, TC.Cache(None, map[])), TC.ViewBootstrap,
                           TC.Site(t, TC.Cache(Some(TR.Build(cat, l, t)), map[])))
  {
  }

  lemma ViewStepHere()
    ensures TR.Scheduled(Theater(), EmptyTheater(), Screen().order)
    ensures TC.SiteStepsTo(Theater(), Screen(), {1}, TC.Site(EmptyTheater(), TC.Cache(None, map[])), TC.ViewBootstrap,
                           TC.Site(EmptyTheater(),
                                   TC.Cache(Some(TR.Build(Theater(), Screen(), EmptyTheater())), map[])))
  {
    TheaterTxBooks();
    ScreenIsValid();
    FirstViewStep(Theater(), Screen(), {1}, EmptyTheater());
  }

  lemma ViewedRun(s0: TC.Site, s1: TC.Site)
    requires TC.SiteInv(Theater(), Screen(), EmptyTheater().events, s0) && s0.cache == TC.Cache(None, map[])
    requires TC.SiteStepsTo(Theater(), Screen(), {1}, s0, TC.ViewBootstrap, s1)
    ensures TC.IsSiteRun(Theater(), Screen(), {1}, EmptyTheater().events, [s0] + [s1], [] + [TC.ViewBootstrap])
  {
    TC.ExtendSiteRun(Theater(), Screen(), {1}, EmptyTheater().events, [s0], [], TC.ViewBootstrap, s1);
  }

  /** A stale bootstrap: it was cached, and the delete after the next booking is lost. */
  lemma LostDeleteLeavesStale() returns (states: seq<TC.Site>, ops: seq<TC.SiteOp>)
    ensures TC.IsSiteRun(Theater(), Screen(), {1}, EmptyTheater().events, states, ops) && |states| == 3
    ensures TR.Scheduled(Theater(), states[2].t, Screen().order)
    ensures !TC.Coherent(states[2].cache, TR.Build(Theater(), Screen(), states[2].t))
  {
    SiteIsValid(TC.Cache(None, map[]));
    ViewStepHere();
    var cached := TR.Build(Theater(), Screen(), EmptyTheater());
    BookStepHere(cached);
    CachedIsStale(cached);
    var s0 := TC.Site(EmptyTheater(), TC.Cache(None, map[]));
    var s1 := TC.Site(EmptyTheater(), TC.Cache(Some(cached), map[]));
    var s2 := TC.Site(SoldTheater(), TC.Cache(Some(cached), map[]));
    var book := TC.Book(1, 1, [SEAT], 0, false);
    ViewedRun(s0, s1);
    TC.ExtendSiteRun(Theater(), Screen(), {1}, EmptyTheater().events, [s0] + [s1], [] + [TC.ViewBootstrap], book, s2);
    states, ops := [s0] + [s1] + [s2], [] + [TC.ViewBootstrap] + [book];
  }
}
