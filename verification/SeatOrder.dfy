/** Seats in the order of ORDER BY row, col. */
module SeatOrder {
  import opened SeatKeys
  import opened Sequences

  predicate SeatLess(a: Seat, b: Seat) {
    a.row < b.row || (a.row == b.row && a.col < b.col)
  }

  function PutSeat(x: Seat, s: seq<Seat>): seq<Seat> {
    if s == [] || !SeatLess(s[0], x) then [x] + s else [s[0]] + PutSeat(x, s[1..])
  }

  function SortSeats(s: seq<Seat>): seq<Seat> {
    if s == [] then [] else PutSeat(s[|s| - 1], SortSeats(s[..|s| - 1]))
  }

  ghost predicate SeatsAscending(s: seq<Seat>) {
    forall i, j :: 0 <= i < j < |s| ==> SeatLess(s[i], s[j])
  }

  lemma {:induction false} PutSeatMembers(x: Seat, s: seq<Seat>)
    ensures |PutSeat(x, s)| == |s| + 1
    ensures forall y :: y in PutSeat(x, s) <==> y == x || y in s
  {
    if s != [] && SeatLess(s[0], x) {
      PutSeatMembers(x, s[1..]);
      assert s == [s[0]] + s[1..];
    }
  }

  lemma {:induction false} PutSeatAscending(x: Seat, s: seq<Seat>)
    requires SeatsAscending(s) && x !in s
    ensures SeatsAscending(PutSeat(x, s))
  {
    if s != [] {
      assert s[0] in s;
      if SeatLess(s[0], x) {
        PutSeatAscending(x, s[1..]);
        PutSeatMembers(x, s[1..]);
        var r := PutSeat(x, s[1..]);
        forall j | 0 <= j < |r|
          ensures SeatLess(s[0], r[j])
        {
          assert r[j] in r;
        }
      }
    }
  }

  /** Sorting a duplicate-free list gives the strictly ascending list of the same seats. */
  lemma {:induction false} SortedList(s: seq<Seat>)
    ensures |SortSeats(s)| == |s|
    ensures forall y :: y in SortSeats(s) <==> y in s
    ensures Distinct(s) ==> SeatsAscending(SortSeats(s))
  {
    if s != [] {
      var front, last := s[..|s| - 1], s[|s| - 1];
      SortedList(front);
      PutSeatMembers(last, SortSeats(front));
      assert s == front + [last];
      if Distinct(s) {
        assert forall i :: 0 <= i < |front| ==> front[i] == s[i];
        assert last !in front;
        PutSeatAscending(last, SortSeats(front));
      }
    }
  }

  // --------------------------------------- rows of several events, sorted

  /** A seat of an event, as ORDER BY event, row, col sees it. */
  datatype EventSeat = EventSeat(eventId: int, seat: Seat)

  predicate RowLess(a: EventSeat, b: EventSeat) {
    a.eventId < b.eventId || (a.eventId == b.eventId && SeatLess(a.seat, b.seat))
  }

  function InsertRow<R>(key: R -> EventSeat, x: R, s: seq<R>): seq<R> {
    if s == [] || !RowLess(key(s[0]), key(x)) then [x] + s else [s[0]] + InsertRow(key, x, s[1..])
  }

  function SortRows<R>(key: R -> EventSeat, s: seq<R>): seq<R> {
    if s == [] then [] else InsertRow(key, s[|s| - 1], SortRows(key, s[..|s| - 1]))
  }

  /** Seats of the rows of one event that satisfy p, in row order. */
  function SeatsIn<R>(key: R -> EventSeat, p: R -> bool, rows: seq<R>, ev: int): seq<Seat> {
    if rows == [] then []
    else
      var front, last := SeatsIn(key, p, rows[..|rows| - 1], ev), rows[|rows| - 1];
      if key(last).eventId == ev && p(last) then front + [key(last).seat] else front
  }

  ghost predicate SortedRows<R>(key: R -> EventSeat, s: seq<R>) {
    forall i, j :: 0 <= i < j < |s| ==> !RowLess(key(s[j]), key(s[i]))
  }

  lemma {:induction false} InsertRowMembers<R>(key: R -> EventSeat, x: R, s: seq<R>)
    ensures forall y :: y in InsertRow(key, x, s) ==> y == x || y in s
  {
    if s != [] && RowLess(key(s[0]), key(x)) {
      InsertRowMembers(key, x, s[1..]);
      assert s == [s[0]] + s[1..];
    }
  }

  lemma {:induction false} InsertRowSorted<R>(key: R -> EventSeat, x: R, s: seq<R>)
    requires SortedRows(key, s)
    ensures SortedRows(key, InsertRow(key, x, s))
  {
    if s != [] && RowLess(key(s[0]), key(x)) {
      InsertRowSorted(key, x, s[1..]);
      InsertRowMembers(key, x, s[1..]);
      var r := InsertRow(key, x, s[1..]);
      forall j | 0 <= j < |r|
        ensures !RowLess(key(r[j]), key(s[0]))
      {
        assert r[j] in r;
      }
    }
  }

  lemma {:induction false} SeatsInAppend<R>(key: R -> EventSeat, p: R -> bool, a: seq<R>, b: seq<R>, ev: int)
    ensures SeatsIn(key, p, a + b, ev) == SeatsIn(key, p, a, ev) + SeatsIn(key, p, b, ev)
  {
    if b == [] {
      assert a + b == a;
    } else {
      var n := |b| - 1;
      SeatsInAppend(key, p, a, b[..n], ev);
      assert (a + b)[..|a + b| - 1] == a + b[..n];
    }
  }

  lemma SeatsInHead<R>(key: R -> EventSeat, p: R -> bool, x: R, s: seq<R>, ev: int)
    ensures SeatsIn(key, p, [x] + s, ev)
            == if key(x).eventId == ev && p(x) then [key(x).seat] + SeatsIn(key, p, s, ev) else SeatsIn(key, p, s, ev)
  {
    SeatsInAppend(key, p, [x], s, ev);
    assert [x][..0] == [];
  }

  lemma {:induction false} SeatsInHasRow<R>(key: R -> EventSeat, p: R -> bool, s: seq<R>, ev: int, i: nat)
    returns (j: nat)
    requires i < |SeatsIn(key, p, s, ev)|
    ensures j < |s| && key(s[j]) == EventSeat(ev, SeatsIn(key, p, s, ev)[i]) && p(s[j])
  {
    var front := s[..|s| - 1];
    if i < |SeatsIn(key, p, front, ev)| {
      j := SeatsInHasRow(key, p, front, ev, i);
    } else {
      j := |s| - 1;
    }
  }

  lemma {:induction false} SeatsInListsRow<R>(key: R -> EventSeat, p: R -> bool, s: seq<R>, j: nat)
    requires j < |s| && p(s[j])
    ensures key(s[j]).seat in SeatsIn(key, p, s, key(s[j]).eventId)
  {
    var front := s[..|s| - 1];
    if j < |front| {
      assert front[j] == s[j];
      SeatsInListsRow(key, p, front, j);
    }
  }

  /** Inserting a row into the sorted result inserts its seat into its event's list. */
  lemma {:induction false} InsertRowGroups<R>(key: R -> EventSeat, p: R -> bool, x: R, s: seq<R>, ev: int)
    requires SortedRows(key, s)
    ensures SeatsIn(key, p, InsertRow(key, x, s), ev)
            == if key(x).eventId == ev && p(x) then PutSeat(key(x).seat, SeatsIn(key, p, s, ev))
               else SeatsIn(key, p, s, ev)
  {
    if s == [] || !RowLess(key(s[0]), key(x)) {
      SeatsInHead(key, p, x, s, ev);
      if SeatsIn(key, p, s, ev) != [] && key(x).eventId == ev {
        var j := SeatsInHasRow(key, p, s, ev, 0);
        assert j == 0 || !RowLess(key(s[j]), key(s[0]));
      }
    } else {
      InsertRowGroups(key, p, x, s[1..], ev);
      SeatsInHead(key, p, s[0], InsertRow(key, x, s[1..]), ev);
      SeatsInHead(key, p, s[0], s[1..], ev);
      assert s == [s[0]] + s[1..];
    }
  }

  /** The list of one event in a sorted result is the sorted list of the event's seats. */
  lemma {:induction false} SortRowsGroups<R>(key: R -> EventSeat, p: R -> bool, s: seq<R>, ev: int)
    ensures SortedRows(key, SortRows(key, s))
    ensures SeatsIn(key, p, SortRows(key, s), ev) == SortSeats(SeatsIn(key, p, s, ev))
  {
    if s != [] {
      var front, last := s[..|s| - 1], s[|s| - 1];
      SortRowsGroups(key, p, front, ev);
      InsertRowSorted(key, last, SortRows(key, front));
      InsertRowGroups(key, p, last, SortRows(key, front), ev);
    }
  }
}
