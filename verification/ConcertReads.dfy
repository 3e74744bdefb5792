/**
 Reading concert shows: the reserved-seat lookup for a list of shows, the payload made of
 it, and the bootstrap of a concert over cached and missing show snapshots.
 */
module ConcertReads {
  import opened Wrappers
  import opened BookingTables
  import opened Collections
  import opened SeatKeys
  import opened SeatOrder
  import opened Sequences
  import BP = BookingProtocol
  import CB = ConcertBooking

  /** A list stored under a key of a dictionary; an absent key reads as the empty list. */
  function Get(m: map<int, seq<Seat>>, ev: int): seq<Seat> {
    if ev in m then m[ev] else []
  }

  // -------------------------------------------------------- reserved lookup

  /** What the database query selects for a list of shows. */
  function ActiveIn(rows: seq<SeatRow<Seat>>, ids: seq<int>): seq<EventSeat> {
    if rows == [] then []
    else
      var front, last := ActiveIn(rows[..|rows| - 1], ids), rows[|rows| - 1];
      if last.status.ACTIVE? && last.eventId in ids then front + [EventSeat(last.eventId, last.seat)] else front
  }

  function Itself(e: EventSeat): EventSeat {
    e
  }

  predicate Always(e: EventSeat) {
    true
  }

  function DbRows(t: Tables<Seat>, ids: seq<int>): seq<EventSeat> {
    SortRows(Itself, ActiveIn(t.seats, ids))
  }

  function FromDb(t: Tables<Seat>, ev: int): seq<Seat> {
    SortSeats(ActiveSeats(t.seats, ev))
  }

  lemma {:induction false} ActiveInGroups(rows: seq<SeatRow<Seat>>, ids: seq<int>, ev: int)
    ensures SeatsIn(Itself, Always, ActiveIn(rows, ids), ev) == if ev in ids then ActiveSeats(rows, ev) else []
  {
    if rows != [] {
      var front, last := rows[..|rows| - 1], rows[|rows| - 1];
      ActiveInGroups(front, ids, ev);
      var active := ActiveIn(rows, ids);
      if last.status.ACTIVE? && last.eventId in ids {
        assert active[..|active| - 1] == ActiveIn(front, ids);
      }
    }
  }

  lemma DbRowsGroups(t: Tables<Seat>, ids: seq<int>, ev: int)
    ensures SeatsIn(Itself, Always, DbRows(t, ids), ev) == if ev in ids then FromDb(t, ev) else []
  {
    ActiveInGroups(t.seats, ids, ev);
    SortRowsGroups(Itself, Always, ActiveIn(t.seats, ids), ev);
  }

  /** answers holds what smembers returned for each show: a listing of its reserved set. */
  predicate Answered(answers: map<int, seq<Seat>>, ev: int) {
    Get(answers, ev) != []
  }

  function RedisPart(answers: map<int, seq<Seat>>, ids: seq<int>): map<int, seq<Seat>> {
    if ids == [] then map[]
    else
      var front, ev := RedisPart(answers, ids[..|ids| - 1]), ids[|ids| - 1];
      if Answered(answers, ev) then front[ev := SortSeats(Get(answers, ev))] else front
  }

  /** The list the lookup of a batch of shows yields for one show. */
  function LookupOf(answers: map<int, seq<Seat>>, t: Tables<Seat>, ids: seq<int>, ev: int): seq<Seat> {
    var out := RedisPart(answers, ids);
    if |out| == |ids| then Get(out, ev)
    else Get(out, ev) + if ev in ids then FromDb(t, ev) else []
  }

  /** The dictionary without the shows whose list is empty. */
  ghost predicate Holds(m: map<int, seq<Seat>>, answers: map<int, seq<Seat>>, t: Tables<Seat>, ids: seq<int>) {
    forall ev :: Get(m, ev) == LookupOf(answers, t, ids, ev)
  }

  /** _fetch_reserved_seat_keys_by_show. */
  method ReservedByShow(answers: map<int, seq<Seat>>, t: Tables<Seat>, ids: seq<int>)
    returns (result: map<int, seq<Seat>>)
    ensures Holds(result, answers, t, ids)
    ensures forall ev :: ev !in ids ==> Get(result, ev) == []
  {
    if ids == [] {
      return map[];
    }
    var out: map<int, seq<Seat>> := map[];
    for i := 0 to |ids|
      invariant out == RedisPart(answers, ids[..i])
    {
      assert ids[..i + 1][..i] == ids[..i];
      if Answered(answers, ids[i]) {
        out := out[ids[i] := SortSeats(Get(answers, ids[i]))];
      }
    }
    assert ids[..|ids|] == ids;
    forall ev
      ensures ev in out ==> ev in ids
    {
      RedisPartMembers(answers, ids, ev);
    }
    if |out| == |ids| {
      return out;
    }
    var rows := DbRows(t, ids);
    result := AppendRows(out, rows);
    forall ev
      ensures Get(result, ev) == LookupOf(answers, t, ids, ev)
    {
      DbRowsGroups(t, ids, ev);
    }
  }

  /** The dictionary out with the seats of the rows appended, show by show. */
  ghost predicate Appended(result: map<int, seq<Seat>>, out: map<int, seq<Seat>>, rows: seq<EventSeat>) {
    forall ev :: Get(result, ev) == Get(out, ev) + SeatsIn(Itself, Always, rows, ev)
  }

  lemma AppendOne(result: map<int, seq<Seat>>, out: map<int, seq<Seat>>, rows: seq<EventSeat>, row: EventSeat)
    requires Appended(result, out, rows)
    ensures Appended(result[row.eventId := Get(result, row.eventId) + [row.seat]], out, rows + [row])
  {
    var result' := result[row.eventId := Get(result, row.eventId) + [row.seat]];
    assert (rows + [row])[..|rows|] == rows;
    forall ev
      ensures Get(result', ev) == Get(out, ev) + SeatsIn(Itself, Always, rows + [row], ev)
    {
      assert Get(result, ev) == Get(out, ev) + SeatsIn(Itself, Always, rows, ev);
    }
  }

  /** setdefault and append, row by row. */
  method AppendRows(out: map<int, seq<Seat>>, rows: seq<EventSeat>) returns (result: map<int, seq<Seat>>)
    ensures Appended(result, out, rows)
  {
    result := out;
    for i := 0 to |rows|
      invariant Appended(result, out, rows[..i])
    {
      AppendOne(result, out, rows[..i], rows[i]);
      assert rows[..i + 1] == rows[..i] + [rows[i]];
      result := result[rows[i].eventId := Get(result, rows[i].eventId) + [rows[i].seat]];
    }
    assert rows[..|rows|] == rows;
  }

  // ------------------------------------------------ batch against pointwise

  lemma {:induction false} RedisPartMembers(answers: map<int, seq<Seat>>, ids: seq<int>, ev: int)
    ensures ev in RedisPart(answers, ids) <==> ev in ids && Answered(answers, ev)
    ensures ev in RedisPart(answers, ids) ==> RedisPart(answers, ids)[ev] == SortSeats(Get(answers, ev))
  {
    if ids != [] {
      RedisPartMembers(answers, ids[..|ids| - 1], ev);
      assert ids == ids[..|ids| - 1] + [ids[|ids| - 1]];
    }
  }

  lemma LookupOne(answers: map<int, seq<Seat>>, t: Tables<Seat>, ev: int)
    ensures LookupOf(answers, t, [ev], ev) ==
            if Answered(answers, ev) then SortSeats(Get(answers, ev)) else FromDb(t, ev)
  {
    assert [ev][..0] == [];
    assert RedisPart(answers, []) == map[];
    if Answered(answers, ev) {
      assert RedisPart(answers, [ev]) == map[ev := SortSeats(Get(answers, ev))];
    }
  }

  /** Redis answered every show, none of them listed twice. */
  lemma {:induction false} FullAnswerIff(answers: map<int, seq<Seat>>, ids: seq<int>)
    ensures |RedisPart(answers, ids)| <= |ids|
    ensures |RedisPart(answers, ids)| == |ids| <==> Distinct(ids) && forall ev :: ev in ids ==> Answered(answers, ev)
  {
    if ids != [] {
      var front, last := ids[..|ids| - 1], ids[|ids| - 1];
      FullAnswerIff(answers, front);
      RedisPartMembers(answers, front, last);
      DistinctSnoc(front, last);
      assert ids == front + [last];
      assert forall ev :: ev in ids <==> ev in front || ev == last;
    }
  }

  lemma FromDbLength(t: Tables<Seat>, ev: int)
    ensures |FromDb(t, ev)| == |ActiveSeats(t.seats, ev)|
  {
    SortedList(ActiveSeats(t.seats, ev));
  }

  /**
   The lookup of a batch equals the lookups show by show iff Redis answered every show,
   none listed twice, or no show it answered has a row in the database. Otherwise a show
   it answered gets its database rows appended to the Redis list.
   */
  lemma BatchEqualsPointwiseIff(answers: map<int, seq<Seat>>, t: Tables<Seat>, ids: seq<int>)
    ensures (forall ev :: ev in ids ==> LookupOf(answers, t, ids, ev) == LookupOf(answers, t, [ev], ev)) <==>
            || (Distinct(ids) && forall ev :: ev in ids ==> Answered(answers, ev))
            || (forall ev :: ev in ids && Answered(answers, ev) ==> ActiveSeats(t.seats, ev) == [])
  {
    FullAnswerIff(answers, ids);
    forall ev | ev in ids
      ensures LookupOf(answers, t, ids, ev) == LookupOf(answers, t, [ev], ev) <==>
              |RedisPart(answers, ids)| == |ids| || !Answered(answers, ev) || ActiveSeats(t.seats, ev) == []
    {
      LookupOne(answers, t, ev);
      RedisPartMembers(answers, ids, ev);
      FromDbLength(t, ev);
    }
  }

  /** Show by show the list is strictly ascending, so sorted and without duplicates. */
  lemma LookupOneAscending(answers: map<int, seq<Seat>>, t: Tables<Seat>, ev: int)
    requires TableInv(t) && Distinct(Get(answers, ev))
    ensures SeatsAscending(LookupOf(answers, t, [ev], ev))
  {
    LookupOne(answers, t, ev);
    ActiveSeatsDistinct(t.seats, ev);
    SortedList(Get(answers, ev));
    SortedList(ActiveSeats(t.seats, ev));
  }

  /** What a mixed batch lists of a show: Redis's seats in order, then its database seats in order. */
  lemma MixedList(answers: map<int, seq<Seat>>, t: Tables<Seat>, ids: seq<int>, ev: int)
    requires ev in ids && exists e :: e in ids && !Answered(answers, e)
    ensures LookupOf(answers, t, ids, ev) == SortSeats(Get(answers, ev)) + SortSeats(ActiveSeats(t.seats, ev))
  {
    FullAnswerIff(answers, ids);
    RedisPartMembers(answers, ids, ev);
  }

  /** In a mixed batch the list of an answered show is duplicate-free iff Redis lists none of its sold seats. */
  lemma MixedListDistinctIff(answers: map<int, seq<Seat>>, t: Tables<Seat>, ids: seq<int>, ev: int)
    requires TableInv(t) && Distinct(Get(answers, ev)) && ev in ids && Answered(answers, ev)
    requires exists e :: e in ids && !Answered(answers, e)
    ensures Distinct(LookupOf(answers, t, ids, ev)) <==>
            forall s :: s in ActiveSeats(t.seats, ev) ==> s !in Get(answers, ev)
  {
    FullAnswerIff(answers, ids);
    RedisPartMembers(answers, ids, ev);
    ActiveSeatsDistinct(t.seats, ev);
    var a, b := SortSeats(Get(answers, ev)), FromDb(t, ev);
    SortedList(Get(answers, ev));
    SortedList(ActiveSeats(t.seats, ev));
    DistinctConcatIff(a, b);
  }

  lemma DistinctConcatIff(a: seq<Seat>, b: seq<Seat>)
    requires SeatsAscending(a) && SeatsAscending(b)
    ensures Distinct(a + b) <==> forall s :: s in b ==> s !in a
  {
    if Distinct(a + b) {
      forall s | s in b
        ensures s !in a
      {
        var j :| 0 <= j < |b| && b[j] == s;
        forall i | 0 <= i < |a|
          ensures a[i] != s
        {
          assert (a + b)[i] == a[i] && (a + b)[|a| + j] == s;
        }
      }
    } else {
      var i, j :| 0 <= i < j < |a + b| && (a + b)[i] == (a + b)[j];
      assert i < |a| <= j;
      assert b[j - |a|] in b && a[i] in a;
    }
  }

  // ---------------------------------------------------------------- payload

  datatype ShowRow = ShowRow(showId: int, concertId: int, total: int, status: EventStatus)
  datatype Payload = Payload(showId: int, concertId: int, total: int, holdCount: int, remain: int, status: EventStatus,
                             reserved: seq<Seat>)

  /** _show_payload_from_row. */
  function PayloadOf(row: ShowRow, holdCount: int, reserved: seq<Seat>): Payload {
    var left := row.total - |reserved|;
    var remain := if left < 0 then 0 else left;
    Payload(row.showId, row.concertId, row.total, holdCount, remain,
            if remain <= 0 then CLOSED else row.status, reserved)
  }

  /** The payload in full: the row's total, what the list leaves of it, and CLOSED when that is nothing. */
  lemma PayloadShows(row: ShowRow, holdCount: int, reserved: seq<Seat>)
    ensures var p := PayloadOf(row, holdCount, reserved);
            && p.showId == row.showId && p.concertId == row.concertId && p.holdCount == holdCount
            && p.total == row.total && p.reserved == reserved && p.remain >= 0
            && (|reserved| <= row.total ==> p.remain + |reserved| == row.total)
            && (|reserved| >= row.total ==> p.remain == 0)
            && (p.status.CLOSED? <==> |reserved| >= row.total || row.status.CLOSED?)
            && (!p.status.CLOSED? ==> p.status == row.status)
  {
  }

  /** The CHECK that ties a show's total to its grid. */
  ghost predicate GridTotal(cat: CB.Catalog, t: Tables<Seat>, showId: int) {
    && showId in cat && showId in t.events && cat[showId].rows > 0 && cat[showId].cols > 0
    && t.events[showId].total == cat[showId].rows * cat[showId].cols
  }

  /** From the database the shown remain is never clamped: remain and reserved seats add up to the total. */
  lemma DbPayloadAccounts(cat: CB.Catalog, t: Tables<Seat>, row: ShowRow, holdCount: int)
    requires TableInv(t) && CB.SeatsInGrid(cat, t) && GridTotal(cat, t, row.showId)
    requires row.total == t.events[row.showId].total
    ensures var p := PayloadOf(row, holdCount, FromDb(t, row.showId));
            && p.total == cat[row.showId].rows * cat[row.showId].cols
            && p.remain == p.total - |ActiveSeats(t.seats, row.showId)| && |p.reserved| == p.total - p.remain
  {
    CB.CapacityHolds(cat, t, row.showId);
    FromDbLength(t, row.showId);
  }

  /** In every reachable database of the booking protocol a payload made from it accounts for every seat. */
  lemma RunPayloadAccounts(cat: BP.Catalog, states: seq<BP.Sys>, actions: seq<BP.Action>, k: nat, row: ShowRow,
                           holdCount: int)
    requires BP.ValidCatalog(cat) && BP.IsRun(cat, states, actions) && k < |states|
    requires GridTotal(cat.shows, states[0].db.concert, row.showId)
    requires row.total == states[0].db.concert.events[row.showId].total
    ensures var p := PayloadOf(row, holdCount, FromDb(states[k].db.concert, row.showId));
            && p.total == cat.shows[row.showId].rows * cat.shows[row.showId].cols
            && p.remain == p.total - |ActiveSeats(states[k].db.concert.seats, row.showId)|
            && |p.reserved| == p.total - p.remain
            && p.status == if p.remain == 0 then CLOSED else row.status
  {
    BP.RunKeepsTables(cat, states, actions, k);
    DbPayloadAccounts(cat.shows, states[k].db.concert, row, holdCount);
  }

  // -------------------------------------------------------------- bootstrap

  /** The re-read of a show's row before a snapshot is written. */
  function DbRow(cat: CB.Catalog, t: Tables<Seat>, concertId: int, showId: int): Option<ShowRow> {
    if showId in cat && showId in t.events && cat[showId].concertId == concertId
    then Some(ShowRow(showId, concertId, t.events[showId].total, t.events[showId].status)) else None
  }

  /** The payload a miss loads; reserved carries the keys of the batch path. */
  function Loaded(cat: CB.Catalog, t: Tables<Seat>, answers: map<int, seq<Seat>>, row: ShowRow,
                  reserved: Option<seq<Seat>>): Payload
  {
    var found := if row.concertId > 0 then DbRow(cat, t, row.concertId, row.showId) else None;
    PayloadOf(if found.Some? then found.value else row, |Get(answers, row.showId)|,
              if reserved.Some? then reserved.value else LookupOf(answers, t, [row.showId], row.showId))
  }

  /** The show's row is in the database under the concert the request names. */
  ghost predicate KnownShow(cat: CB.Catalog, t: Tables<Seat>, row: ShowRow) {
    && row.concertId > 0 && row.showId in cat && row.showId in t.events && cat[row.showId].concertId == row.concertId
  }

  /** Seats of the grid, each once, as the reserved set of the show holds them. */
  ghost predicate GridSeats(show: CB.Show, seats: seq<Seat>) {
    Distinct(seats) && forall s :: s in seats ==> 1 <= s.row <= show.rows && 1 <= s.col <= show.cols
  }

  lemma GridSeatsFit(show: CB.Show, seats: seq<Seat>)
    requires show.rows > 0 && show.cols > 0 && GridSeats(show, seats)
    ensures |seats| <= show.rows * show.cols
  {
    CB.GridSize(show.rows, show.cols);
    forall s | s in seats
      ensures s in CB.Grid(show.rows, show.cols)
    {
      CB.GridMembers(show.rows, show.cols, s);
    }
    DistinctFits(seats, CB.Grid(show.rows, show.cols));
  }

  /**
   A miss of a known show, in any reachable state: the total is the whole grid; unless
   Redis lists its seats the reserved list is that of the owned seats, else Redis's; and
   what the list leaves of the grid remains, as long as Redis lists only seats of the grid.
   */
  lemma {:induction false} MissShowsGrid(cat: BP.Catalog, states: seq<BP.Sys>, actions: seq<BP.Action>, k: nat,
                                         answers: map<int, seq<Seat>>, row: ShowRow)
    requires BP.ValidCatalog(cat) && BP.IsRun(cat, states, actions) && k < |states|
    requires KnownShow(cat.shows, states[k].db.concert, row)
    requires GridTotal(cat.shows, states[0].db.concert, row.showId)
    ensures var p, t, show := Loaded(cat.shows, states[k].db.concert, answers, row, None), states[k].db.concert,
                              cat.shows[row.showId];
            && p.showId == row.showId && p.concertId == row.concertId
            && p.total == show.rows * show.cols && p.holdCount == |Get(answers, row.showId)|
            && (forall s :: s in p.reserved <==>
                  if Answered(answers, row.showId) then s in Get(answers, row.showId)
                  else (row.showId, s) in Owners(t.seats))
            && (!Answered(answers, row.showId) || GridSeats(show, Get(answers, row.showId)) ==>
                  && SeatsAscending(p.reserved) && p.remain + |p.reserved| == show.rows * show.cols)
            && (p.status.CLOSED? <==> p.remain == 0 || t.events[row.showId].status.CLOSED?)
            && (!p.status.CLOSED? ==> p.status == t.events[row.showId].status)
  {
    BP.RunKeepsTables(cat, states, actions, k);
    var t, ev := states[k].db.concert, row.showId;
    LookupOne(answers, t, ev);
    SortedList(Get(answers, ev));
    SortedList(ActiveSeats(t.seats, ev));
    ActiveSeatsDistinct(t.seats, ev);
    CB.CapacityHolds(cat.shows, t, ev);
    if GridSeats(cat.shows[ev], Get(answers, ev)) {
      GridSeatsFit(cat.shows[ev], Get(answers, ev));
    }
  }

  /** Cached show rows cannot leak into a snapshot: any two rows of the same known show load the same payload. */
  lemma StaleRowHarmless(cat: CB.Catalog, t: Tables<Seat>, answers: map<int, seq<Seat>>, row: ShowRow, row': ShowRow,
                         reserved: Option<seq<Seat>>)
    requires row'.showId == row.showId && row'.concertId == row.concertId > 0
    requires DbRow(cat, t, row.concertId, row.showId).Some?
    ensures Loaded(cat, t, answers, row, reserved) == Loaded(cat, t, answers, row', reserved)
  {
  }

  function Find<K, V>(store: map<K, V>, k: K): Option<V> {
    if k in store then Some(store[k]) else None
  }

  /** _redis_mget_values: at(c) is the store when chunk c is read. */
  method MgetValues<K(==), V>(at: nat -> map<K, V>, keys: seq<K>, chunk: nat) returns (out: seq<Option<V>>)
    requires chunk > 0
    ensures |out| == |keys|
    ensures forall i :: 0 <= i < |keys| ==> out[i] == Find(at(i / chunk), keys[i])
    ensures forall i :: 0 <= i < |keys| ==> (out[i].Some? <==> keys[i] in at(i / chunk))
    ensures forall i :: 0 <= i < |keys| && keys[i] in at(i / chunk) ==> out[i] == Some(at(i / chunk)[keys[i]])
  {
    out := [];
    var c := 0;
    while c * chunk < |keys|
      invariant |out| == if c * chunk <= |keys| then c * chunk else |keys|
      invariant forall i :: 0 <= i < |out| ==> out[i] == Find(at(i / chunk), keys[i])
      decreases |keys| - c * chunk
    {
      var lo := c * chunk;
      assert (c + 1) * chunk == lo + chunk;
      var hi := if lo + chunk <= |keys| then lo + chunk else |keys|;
      forall i | lo <= i < hi
        ensures i / chunk == c
      {
        DivisionInChunk(i, c, chunk);
      }
      var part := seq(hi - lo, j requires 0 <= j < hi - lo => Find(at(c), keys[lo + j]));
      out := out + part;
      c := c + 1;
    }
  }

  lemma ProductGrows(a: nat, b: nat, m: nat)
    ensures a <= b ==> a * m <= b * m
  {
  }

  lemma DivisionInChunk(i: nat, c: nat, chunk: nat)
    requires chunk > 0 && c * chunk <= i < c * chunk + chunk
    ensures i / chunk == c
  {
    var q := i / chunk;
    assert i == q * chunk + i % chunk;
    ProductGrows(q + 1, c, chunk);
    ProductGrows(c + 1, q, chunk);
  }

  function MissIds(snaps: map<int, Payload>, rows: seq<ShowRow>): seq<int> {
    if rows == [] then []
    else
      var front, id := MissIds(snaps, rows[..|rows| - 1]), rows[|rows| - 1].showId;
      if id in snaps then front else front + [id]
  }

  ghost predicate DistinctShows(rows: seq<ShowRow>) {
    forall i, j :: 0 <= i < j < |rows| ==> rows[i].showId != rows[j].showId
  }

  class SnapshotStore {
    var snaps: map<int, Payload>

    constructor ()
      ensures snaps == map[]
    {
      snaps := map[];
    }

    /** _coalesced_fill_show_snapshot when no other client acts between its two reads of the key. */
    method Fill(cat: CB.Catalog, t: Tables<Seat>, answers: map<int, seq<Seat>>, row: ShowRow,
                reserved: Option<seq<Seat>>)
      returns (payload: Payload)
      modifies this
      ensures payload == if row.showId in old(snaps) then old(snaps)[row.showId]
                         else Loaded(cat, t, answers, row, reserved)
      ensures snaps == old(snaps)[row.showId := payload]
      ensures row.showId !in old(snaps) ==>
        && payload.showId == row.showId && payload.concertId == row.concertId
        && payload.holdCount == |Get(answers, row.showId)|
        && payload.total == (if KnownShow(cat, t, row) then t.events[row.showId].total else row.total)
        && payload.reserved == (if reserved.Some? then reserved.value
                                else LookupOf(answers, t, [row.showId], row.showId))
        && payload.remain == (if |payload.reserved| <= payload.total then payload.total - |payload.reserved| else 0)
        && payload.status == (if |payload.reserved| >= payload.total then CLOSED
                              else if KnownShow(cat, t, row) then t.events[row.showId].status else row.status)
    {
      if row.showId in snaps {
        return snaps[row.showId];
      }
      var used := row;
      if row.concertId > 0 {
        var found := DbRow(cat, t, row.concertId, row.showId);
        if found.Some? {
          used := found.value;
        }
      }
      var holdCount := |Get(answers, row.showId)|;
      if reserved.Some? {
        payload := PayloadOf(used, holdCount, reserved.value);
      } else {
        var byShow := ReservedByShow(answers, t, [row.showId]);
        payload := PayloadOf(used, holdCount, Get(byShow, row.showId));
      }
      snaps := snaps[row.showId := payload];
    }

    /**
     The shows of get_concert_bootstrap_cached_or_load: every slot is filled, in row order,
     with the cached snapshot or with what its miss loads from the batch lookup.
     */
    method Bootstrap(cat: CB.Catalog, t: Tables<Seat>, answers: map<int, seq<Seat>>, rows: seq<ShowRow>, chunk: nat)
      returns (shows: seq<Payload>)
      requires DistinctShows(rows) && chunk > 0
      modifies this
      ensures |shows| == |rows|
      ensures forall i :: 0 <= i < |rows| ==> shows[i] == BootstrapSlot(cat, t, answers, old(snaps), rows, i)
      ensures forall id :: id in old(snaps) ==> id in snaps && snaps[id] == old(snaps)[id]
      ensures forall i :: 0 <= i < |rows| ==> rows[i].showId in snaps && snaps[rows[i].showId] == shows[i]
      ensures forall i :: 0 <= i < |rows| && rows[i].showId in old(snaps) ==> shows[i] == old(snaps)[rows[i].showId]
      ensures forall i :: 0 <= i < |rows| && rows[i].showId !in old(snaps) ==>
        && shows[i].showId == rows[i].showId && shows[i].concertId == rows[i].concertId
        && shows[i].holdCount == |Get(answers, rows[i].showId)|
        && shows[i].total == (if KnownShow(cat, t, rows[i]) then t.events[rows[i].showId].total else rows[i].total)
        && shows[i].reserved == LookupOf(answers, t, MissIds(old(snaps), rows), rows[i].showId)
        && shows[i].remain >= 0 && shows[i].remain + |shows[i].reserved| >= shows[i].total
        && (shows[i].remain > 0 ==> shows[i].remain + |shows[i].reserved| == shows[i].total)
    {
      var keys := seq(|rows|, i requires 0 <= i < |rows| => rows[i].showId);
      ghost var before := snaps;
      var store := snaps;
      var raws := MgetValues((c: nat) => store, keys, chunk);
      var missIds := Misses(before, rows, raws);
      var bulk := ReservedByShow(answers, t, missIds);
      shows := FillSlots(cat, t, answers, rows, raws, bulk);
    }

    /** The second pass: cached snapshots as they were read, misses filled with the batch's keys. */
    method FillSlots(cat: CB.Catalog, t: Tables<Seat>, answers: map<int, seq<Seat>>, rows: seq<ShowRow>,
                     raws: seq<Option<Payload>>, bulk: map<int, seq<Seat>>)
      returns (shows: seq<Payload>)
      requires DistinctShows(rows) && |raws| == |rows|
      requires forall i :: 0 <= i < |rows| ==> raws[i] == Find(snaps, rows[i].showId)
      requires Holds(bulk, answers, t, MissIds(snaps, rows))
      modifies this
      ensures |shows| == |rows|
      ensures forall i :: 0 <= i < |rows| ==> shows[i] == BootstrapSlot(cat, t, answers, old(snaps), rows, i)
      ensures forall id :: id in old(snaps) ==> id in snaps && snaps[id] == old(snaps)[id]
      ensures forall i :: 0 <= i < |rows| ==> rows[i].showId in snaps && snaps[rows[i].showId] == shows[i]
    {
      ghost var before := snaps;
      shows := [];
      for i := 0 to |rows|
        invariant Filled(cat, t, answers, before, snaps, rows, shows, i)
      {
        FillOne(cat, t, answers, before, snaps, rows, shows, i);
        var show: Payload;
        if raws[i].Some? {
          show := raws[i].value;
        } else {
          show := Fill(cat, t, answers, rows[i], Some(Get(bulk, rows[i].showId)));
        }
        shows := shows + [show];
      }
    }
  }

  /** The filled slots are cached; beyond them only what was cached before. */
  ghost predicate CachedSlots(before: map<int, Payload>, snaps: map<int, Payload>, rows: seq<ShowRow>,
                              shows: seq<Payload>)
  {
    && |shows| <= |rows|
    && (forall k :: 0 <= k < |shows| ==> rows[k].showId in snaps && snaps[rows[k].showId] == shows[k])
    && (forall k :: |shows| <= k < |rows| && rows[k].showId in snaps ==> rows[k].showId in before)
    && (forall id :: id in before ==> id in snaps && snaps[id] == before[id])
  }

  /** State of the second pass: the first n slots are filled, and every filled slot is cached. */
  ghost predicate Filled(cat: CB.Catalog, t: Tables<Seat>, answers: map<int, seq<Seat>>, before: map<int, Payload>,
                         snaps: map<int, Payload>, rows: seq<ShowRow>, shows: seq<Payload>, n: nat) {
    && |shows| == n && CachedSlots(before, snaps, rows, shows)
    && forall k :: 0 <= k < n ==> shows[k] == BootstrapSlot(cat, t, answers, before, rows, k)
  }

  lemma CacheOne(before: map<int, Payload>, snaps: map<int, Payload>, rows: seq<ShowRow>, shows: seq<Payload>,
                 show: Payload)
    requires DistinctShows(rows) && |shows| < |rows| && CachedSlots(before, snaps, rows, shows)
    requires var id := rows[|shows|].showId; id in before ==> show == before[id]
    ensures CachedSlots(before, snaps[rows[|shows|].showId := show], rows, shows + [show])
  {
    var id := rows[|shows|].showId;
    assert forall k :: 0 <= k < |rows| && k != |shows| ==> rows[k].showId != id;
  }

  /** Filling the next slot with its value, cached or not, extends the state by one. */
  lemma FillOne(cat: CB.Catalog, t: Tables<Seat>, answers: map<int, seq<Seat>>, before: map<int, Payload>,
                snaps: map<int, Payload>, rows: seq<ShowRow>, shows: seq<Payload>, n: nat)
    requires DistinctShows(rows) && n < |rows| && Filled(cat, t, answers, before, snaps, rows, shows, n)
    ensures var id, show := rows[n].showId, BootstrapSlot(cat, t, answers, before, rows, n);
            && (id in snaps <==> id in before)
            && (id in snaps ==> snaps[id] == show && snaps[id := show] == snaps)
            && Filled(cat, t, answers, before, snaps[id := show], rows, shows + [show], n + 1)
  {
    var id, show := rows[n].showId, BootstrapSlot(cat, t, answers, before, rows, n);
    CacheOne(before, snaps, rows, shows, show);
    if id in snaps {
      SameMaps(snaps[id := show], snaps);
    }
  }

  /** The ids of the shows whose slot the first pass leaves empty. */
  method Misses(ghost snaps: map<int, Payload>, rows: seq<ShowRow>, raws: seq<Option<Payload>>)
    returns (missIds: seq<int>)
    requires |raws| == |rows| && forall i :: 0 <= i < |rows| ==> raws[i] == Find(snaps, rows[i].showId)
    ensures missIds == MissIds(snaps, rows)
  {
    missIds := [];
    for i := 0 to |rows|
      invariant missIds == MissIds(snaps, rows[..i])
    {
      assert rows[..i + 1][..i] == rows[..i];
      if raws[i].None? {
        missIds := missIds + [rows[i].showId];
      }
    }
    assert rows[..|rows|] == rows;
  }

  function BootstrapSlot(cat: CB.Catalog, t: Tables<Seat>, answers: map<int, seq<Seat>>, snaps: map<int, Payload>,
                         rows: seq<ShowRow>, i: nat): Payload
    requires i < |rows|
  {
    var id := rows[i].showId;
    if id in snaps then snaps[id]
    else Loaded(cat, t, answers, rows[i], Some(LookupOf(answers, t, MissIds(snaps, rows), id)))
  }

  lemma {:induction false} MissIdsMembers(snaps: map<int, Payload>, rows: seq<ShowRow>)
    ensures forall id :: id in MissIds(snaps, rows) <==>
                         id !in snaps && exists i :: 0 <= i < |rows| && rows[i].showId == id
    ensures DistinctShows(rows) ==> Distinct(MissIds(snaps, rows))
  {
    if rows != [] {
      var n := |rows| - 1;
      MissIdsMembers(snaps, rows[..n]);
      assert rows == rows[..n] + [rows[n]];
    }
  }

  /**
   Each show of a bootstrap is what the single-show path would return iff, among the shows
   that missed, Redis answered all, or none that has rows in the database.
   */
  lemma {:induction false} BootstrapEqualsSingleIff(cat: CB.Catalog, t: Tables<Seat>, answers: map<int, seq<Seat>>,
                                                    snaps: map<int, Payload>, rows: seq<ShowRow>)
    requires DistinctShows(rows)
    ensures var ids := MissIds(snaps, rows);
            (forall i :: 0 <= i < |rows| && rows[i].showId !in snaps ==>
               BootstrapSlot(cat, t, answers, snaps, rows, i) == Loaded(cat, t, answers, rows[i], None)) <==>
            || (forall id :: id in ids ==> Answered(answers, id))
            || (forall id :: id in ids && Answered(answers, id) ==> ActiveSeats(t.seats, id) == [])
  {
    var ids := MissIds(snaps, rows);
    MissIdsMembers(snaps, rows);
    BatchEqualsPointwiseIff(answers, t, ids);
    forall i | 0 <= i < |rows| && rows[i].showId !in snaps
      ensures BootstrapSlot(cat, t, answers, snaps, rows, i) == Loaded(cat, t, answers, rows[i], None) <==>
              LookupOf(answers, t, ids, rows[i].showId) == LookupOf(answers, t, [rows[i].showId], rows[i].showId)
    {
    }
  }
}
