/**
 The textual seat keys "row-col" that write-api puts into a booking message and
 that the worker parses back, and the duplicate-free seat list built by a commit
 request.
 */
module SeatKeys {
  import opened Sequences
  import opened Wrappers

  datatype Seat = Seat(row: int, col: int)

  predicate Positive(seats: seq<Seat>) {
    forall i :: 0 <= i < |seats| ==> seats[i].row > 0 && seats[i].col > 0
  }

  /** What the parsers produce. */
  type SeatList = s: seq<Seat> | Positive(s)

  // ---------------------------------------------------------------- printing

  function Digit(d: nat): (c: char)
    requires d < 10
    ensures IsDigit(c) && DigitValue(c) == d
  {
    "0123456789"[d]
  }

  /** Decimal digits of n, as Python prints a non-negative integer. */
  function Dec(n: nat): string {
    if n < 10 then [Digit(n)] else Dec(n / 10) + [Digit(n % 10)]
  }

  function Format(seat: Seat): string
    requires seat.row >= 0 && seat.col >= 0
  {
    Dec(seat.row) + "-" + Dec(seat.col)
  }

  // ----------------------------------------------------------------- parsing

  predicate IsDigit(c: char) {
    '0' <= c <= '9'
  }

  function DigitValue(c: char): int
    requires IsDigit(c)
  {
    c as int - '0' as int
  }

  predicate IsSpace(c: char) {
    c == ' ' || 9 <= c as int <= 13 || 28 <= c as int <= 31
  }

  function StripLeft(s: string): string {
    if s != "" && IsSpace(s[0]) then StripLeft(s[1..]) else s
  }

  function StripRight(s: string): string {
    if s != "" && IsSpace(s[|s| - 1]) then StripRight(s[..|s| - 1]) else s
  }

  function Strip(s: string): string {
    StripRight(StripLeft(s))
  }

  function Split(s: string, sep: char): (parts: seq<string>)
    ensures |parts| >= 1
  {
    if s == "" then [""]
    else
      var rest := Split(s[1..], sep);
      if s[0] == sep then [""] + rest else [[s[0]] + rest[0]] + rest[1..]
  }

  /** Value of a run of digits in which single underscores may separate digits. */
  function Digits(s: string): Option<nat> {
    if s == "" || !IsDigit(s[|s| - 1]) then None
    else if |s| == 1 then Some(DigitValue(s[0]))
    else
      var front := if s[|s| - 2] == '_' then s[..|s| - 2] else s[..|s| - 1];
      match Digits(front)
      case None => None
      case Some(v) => Some(10 * v + DigitValue(s[|s| - 1]))
  }

  /** int(text) with 0 for text that is not an integer. A part never contains '-'. */
  function ToInt(text: string): nat {
    var t := Strip(text);
    var unsigned := if t != "" && t[0] == '+' then t[1..] else t;
    match Digits(unsigned)
    case None => 0
    case Some(v) => v
  }

  function Parse(key: string): (r: Option<Seat>)
    ensures r.Some? ==> r.value.row > 0 && r.value.col > 0
  {
    var parts := Split(Strip(key), '-');
    if |parts| != 2 then None
    else
      var row, col := ToInt(parts[0]), ToInt(parts[1]);
      if row > 0 && col > 0 then Some(Seat(row, col)) else None
  }

  /** The worker's list: every key parsed, the unreadable ones dropped. */
  function ParseAll(keys: seq<string>): (seats: seq<Seat>)
    ensures Positive(seats)
  {
    if keys == [] then []
    else
      var front := ParseAll(keys[..|keys| - 1]);
      match Parse(keys[|keys| - 1])
      case None => front
      case Some(seat) => front + [seat]
  }

  function FormatAll(seats: seq<Seat>): seq<string>
    requires Positive(seats)
  {
    if seats == [] then [] else FormatAll(seats[..|seats| - 1]) + [Format(seats[|seats| - 1])]
  }

  // -------------------------------------------------------------- round trip

  ghost predicate AllDigits(s: string) {
    forall i :: 0 <= i < |s| ==> IsDigit(s[i])
  }

  lemma {:induction false} DecIsDigits(n: nat)
    ensures |Dec(n)| > 0 && AllDigits(Dec(n))
  {
    if n >= 10 {
      DecIsDigits(n / 10);
    }
  }

  /** Reading back a printed number gives the number. */
  lemma {:induction false} DigitsOfDec(n: nat)
    ensures Digits(Dec(n)) == Some(n)
  {
    if n >= 10 {
      var front, s := Dec(n / 10), Dec(n);
      DecIsDigits(n / 10);
      DigitsOfDec(n / 10);
      assert s[..|s| - 1] == front;
      assert s[|s| - 2] == front[|front| - 1];
    }
  }

  ghost predicate AllSpace(s: string) {
    forall i :: 0 <= i < |s| ==> IsSpace(s[i])
  }

  /** What is stripped is white space, and all of it that is at either end. */
  ghost predicate Stripped(s: string, before: string, core: string, after: string) {
    && s == before + core + after && AllSpace(before) && AllSpace(after)
    && (core != "" ==> !IsSpace(core[0]) && !IsSpace(core[|core| - 1]))
  }

  lemma {:induction false} StripExact(s: string) returns (before: string, after: string)
    ensures Stripped(s, before, Strip(s), after)
  {
    before := StripLeftExact(s);
    after := StripRightExact(StripLeft(s));
    assert s == before + Strip(s) + after;
    if Strip(s) != "" {
      assert Strip(s)[0] == StripLeft(s)[0];
    }
  }

  lemma {:induction false} StripLeftExact(s: string) returns (before: string)
    ensures s == before + StripLeft(s) && AllSpace(before)
    ensures StripLeft(s) != "" ==> !IsSpace(StripLeft(s)[0])
  {
    before := "";
    if s != "" && IsSpace(s[0]) {
      var rest := StripLeftExact(s[1..]);
      before := [s[0]] + rest;
    }
  }

  lemma {:induction false} StripRightExact(s: string) returns (after: string)
    ensures s == StripRight(s) + after && AllSpace(after)
    ensures StripRight(s) != "" ==> !IsSpace(StripRight(s)[|StripRight(s)| - 1])
  {
    after := "";
    if s != "" && IsSpace(s[|s| - 1]) {
      var n := |s| - 1;
      var rest := StripRightExact(s[..n]);
      after := rest + [s[n]];
      assert s == s[..n] + [s[n]];
    }
  }

  lemma StripKeeps(s: string)
    requires s != "" && !IsSpace(s[0]) && !IsSpace(s[|s| - 1])
    ensures Strip(s) == s
  {
  }

  /** Digits, with single underscores between some of them. */
  ghost predicate Grouped(s: string) {
    && s != "" && IsDigit(s[0]) && IsDigit(s[|s| - 1])
    && forall i :: 0 <= i < |s| && !IsDigit(s[i]) ==>
         s[i] == '_' && 0 < i < |s| - 1 && IsDigit(s[i - 1]) && IsDigit(s[i + 1])
  }

  /** What is read as a number: exactly the grouped digits. */
  lemma {:induction false} DigitsIff(s: string)
    ensures Digits(s).Some? <==> Grouped(s)
  {
    if |s| > 1 && IsDigit(s[|s| - 1]) {
      var n := if s[|s| - 2] == '_' then |s| - 2 else |s| - 1;
      DigitsIff(s[..n]);
      if Grouped(s) {
        assert n > 0 && IsDigit(s[n - 1]);
        assert forall i :: 0 <= i < n ==> s[..n][i] == s[i];
      }
      if n > 0 && Grouped(s[..n]) {
        assert forall i :: 0 <= i < n ==> s[..n][i] == s[i];
      }
    }
  }

  function Append(v: Option<nat>, d: char): Option<nat>
    requires IsDigit(d)
  {
    if v.Some? then Some(10 * v.value + DigitValue(d)) else None
  }

  /** One more digit, with an underscore before it or not. */
  lemma DigitsSnoc(s: string, front: string, d: char)
    requires front != "" && IsDigit(front[|front| - 1]) && IsDigit(d)
    requires s == front + [d] || s == front + ['_', d]
    ensures Digits(s) == Append(Digits(front), d)
  {
    if s == front + [d] {
      assert s[|s| - 2] == front[|front| - 1] && s[..|s| - 1] == front;
    } else {
      assert s[|s| - 2] == '_' && s[..|s| - 2] == front;
    }
  }

  /** An underscore between digits does not change the number. */
  lemma {:induction false} GroupingKeepsValue(a: string, b: string)
    requires Grouped(a) && Grouped(b)
    ensures Digits(a + "_" + b) == Digits(a + b)
  {
    var n := |b| - 1;
    if n == 0 {
      assert a + "_" + b == a + ['_', b[0]] && a + b == a + [b[0]];
      DigitsSnoc(a + "_" + b, a, b[0]);
      DigitsSnoc(a + b, a, b[0]);
    } else {
      var m := if b[n - 1] == '_' then n - 1 else n;
      var front, tail := b[..m], b[m..];
      FrontGrouped(b, m);
      GroupingKeepsValue(a, front);
      assert tail == [b[n]] || tail == ['_', b[n]];
      assert a + "_" + b == (a + "_" + front) + tail && a + b == (a + front) + tail;
      DigitsSnoc(a + "_" + b, a + "_" + front, b[n]);
      DigitsSnoc(a + b, a + front, b[n]);
    }
  }

  lemma FrontGrouped(b: string, m: nat)
    requires Grouped(b) && |b| > 1 && m == if b[|b| - 2] == '_' then |b| - 2 else |b| - 1
    ensures m > 0 && Grouped(b[..m])
  {
    assert forall i :: 0 <= i < m ==> b[..m][i] == b[i];
  }

  /** The white space of ASCII: blank, tab, line feed, vertical tab, form feed, return, and the four separators. */
  lemma SpacesAre(c: char)
    ensures IsSpace(c) <==> c == ' ' || c as int in {9, 10, 11, 12, 13, 28, 29, 30, 31}
  {
  }

  /** A text reads as the number of its grouped digits, after white space and one plus sign, and otherwise as 0. */
  lemma {:induction false} ToIntExact(text: string)
    ensures var t := Strip(text);
            && (Grouped(t) ==> Digits(t) == Some(ToInt(text)))
            && (t != "" && t[0] == '+' && Grouped(t[1..]) ==> Digits(t[1..]) == Some(ToInt(text)))
            && (!Grouped(t) && !(t != "" && t[0] == '+' && Grouped(t[1..])) ==> ToInt(text) == 0)
  {
    DigitsIff(Strip(text));
    if Strip(text) != "" {
      DigitsIff(Strip(text)[1..]);
    }
  }

  lemma ToIntOfDec(n: nat)
    ensures ToInt(Dec(n)) == n
  {
    DecIsDigits(n);
    StripKeeps(Dec(n));
    DigitsOfDec(n);
  }

  lemma {:induction false} SplitNone(s: string, sep: char)
    requires sep !in s
    ensures Split(s, sep) == [s]
  {
    if s != "" {
      SplitNone(s[1..], sep);
      assert [s[0]] + s[1..] == s;
    }
  }

  lemma {:induction false} SplitOnce(a: string, sep: char, b: string)
    requires sep !in a && sep !in b
    ensures Split(a + [sep] + b, sep) == [a, b]
  {
    var s := a + [sep] + b;
    if a == "" {
      assert s[1..] == b;
      SplitNone(b, sep);
    } else {
      assert s[1..] == a[1..] + [sep] + b;
      SplitOnce(a[1..], sep, b);
      assert [a[0]] + a[1..] == a;
    }
  }

  /** A printed seat key is parsed back to the same seat. */
  lemma ParseFormat(seat: Seat)
    requires seat.row > 0 && seat.col > 0
    ensures Parse(Format(seat)) == Some(seat)
  {
    var a, b := Dec(seat.row), Dec(seat.col);
    DecIsDigits(seat.row);
    DecIsDigits(seat.col);
    StripKeeps(Format(seat));
    assert Format(seat) == a + ['-'] + b;
    SplitOnce(a, '-', b);
    ToIntOfDec(seat.row);
    ToIntOfDec(seat.col);
  }

  lemma ParseAllAppend(keys: seq<string>, seat: Seat)
    requires seat.row > 0 && seat.col > 0
    ensures ParseAll(keys + [Format(seat)]) == ParseAll(keys) + [seat]
  {
    ParseFormat(seat);
    var all := keys + [Format(seat)];
    assert all[..|all| - 1] == keys && all[|all| - 1] == Format(seat);
  }

  lemma {:induction false} ParseAllFormatAll(seats: seq<Seat>)
    requires Positive(seats)
    ensures ParseAll(FormatAll(seats)) == seats
  {
    if seats == [] {
      assert FormatAll(seats) == [];
    } else {
      var front, last := seats[..|seats| - 1], seats[|seats| - 1];
      ParseAllFormatAll(front);
      ParseAllAppend(FormatAll(front), last);
      assert front + [last] == seats;
    }
  }

  // --------------------------------------------------------- what is readable

  function Join(parts: seq<string>, sep: char): string
    requires parts != []
  {
    if |parts| == 1 then parts[0] else parts[0] + [sep] + Join(parts[1..], sep)
  }

  /** Splitting loses nothing and leaves no separator in a part. */
  lemma {:induction false} SplitJoin(s: string, sep: char)
    ensures Join(Split(s, sep), sep) == s
    ensures forall i :: 0 <= i < |Split(s, sep)| ==> sep !in Split(s, sep)[i]
  {
    if s != "" {
      SplitJoin(s[1..], sep);
      var rest := Split(s[1..], sep);
      if s[0] == sep {
        assert Split(s, sep)[1..] == rest;
        assert [sep] + s[1..] == s;
      } else {
        assert Split(s, sep)[1..] == rest[1..];
        assert [s[0]] + s[1..] == s;
      }
    }
  }

  ghost predicate Reads(key: string, a: string, b: string, seat: Seat) {
    && '-' !in a && '-' !in b && Strip(key) == a + ['-'] + b
    && ToInt(a) == seat.row > 0 && ToInt(b) == seat.col > 0
  }

  /** A key is read as a seat iff, stripped, it is one dash between two positive integers. */
  lemma {:induction false} ParseIff(key: string, seat: Seat)
    ensures Parse(key) == Some(seat) <==> exists a, b :: Reads(key, a, b, seat)
  {
    var parts := Split(Strip(key), '-');
    SplitJoin(Strip(key), '-');
    if Parse(key) == Some(seat) {
      assert Join(parts[1..], '-') == parts[1];
      assert Reads(key, parts[0], parts[1], seat);
    }
    if a, b :| Reads(key, a, b, seat) {
      SplitOnce(a, '-', b);
    }
  }

  // --------------------------------------------------- the commit request's list

  /** s without later repetitions, in order of first occurrence. */
  function FirstOccurrences(s: seq<Seat>): seq<Seat> {
    if s == [] then []
    else
      var front := FirstOccurrences(s[..|s| - 1]);
      if s[|s| - 1] in front then front else front + [s[|s| - 1]]
  }

  ghost predicate ReadableUpTo(keys: seq<string>, n: nat)
    requires n <= |keys|
  {
    forall i :: 0 <= i < n ==> IsSeatKey(keys[i])
  }

  ghost predicate Readable(keys: seq<string>) {
    ReadableUpTo(keys, |keys|)
  }

  predicate IsSeatKey(key: string) {
    Parse(key).Some?
  }

  /** Reading one more key extends the collected list by a seat it does not hold yet. */
  lemma CollectOneMore(items: seq<string>, i: nat, seat: Seat)
    requires i < |items| && Parse(items[i]) == Some(seat)
    ensures ReadableUpTo(items, i) ==> ReadableUpTo(items, i + 1)
    ensures var before := FirstOccurrences(ParseAll(items[..i]));
            FirstOccurrences(ParseAll(items[..i + 1])) == (if seat in before then before else before + [seat])
  {
    var keys := items[..i + 1];
    assert keys[..|keys| - 1] == items[..i];
    var all := ParseAll(keys);
    assert all[..|all| - 1] == ParseAll(items[..i]);
  }

  /**
   The loop of a commit request: it stops at the first unreadable key (a 400 reply)
   and otherwise keeps each seat once.
   */
  method CollectSeats(items: seq<string>) returns (r: Option<seq<Seat>>)
    ensures r.Some? <==> Readable(items)
    ensures r.Some? ==> r.value == FirstOccurrences(ParseAll(items))
  {
    var parsedSeats: seq<Seat>, seatSet: set<Seat> := [], {};
    for i := 0 to |items|
      invariant ReadableUpTo(items, i)
      invariant parsedSeats == FirstOccurrences(ParseAll(items[..i]))
      invariant forall s :: s in seatSet <==> s in parsedSeats
    {
      var parsed := Parse(items[i]);
      if parsed.None? {
        return None;
      }
      CollectOneMore(items, i, parsed.value);
      if parsed.value !in seatSet {
        seatSet := seatSet + {parsed.value};
        parsedSeats := parsedSeats + [parsed.value];
      }
    }
    assert items[..|items|] == items;
    r := Some(parsedSeats);
  }

  lemma {:induction false} FirstOccurrencesDistinct(s: seq<Seat>)
    ensures Distinct(FirstOccurrences(s))
    ensures Positive(s) ==> Positive(FirstOccurrences(s))
    ensures forall x :: x in FirstOccurrences(s) <==> x in s
  {
    if s != [] {
      var front := s[..|s| - 1];
      FirstOccurrencesDistinct(front);
      assert s == front + [s[|s| - 1]];
    }
  }

  /** x is mentioned in s before y is. */
  ghost predicate MentionedBefore(s: seq<Seat>, x: Seat, y: Seat) {
    exists k :: 0 <= k < |s| && s[k] == x && y !in s[..k + 1]
  }

  /** The seats kept are in the order in which they were first mentioned. */
  lemma {:induction false} FirstOccurrencesOrder(s: seq<Seat>, i: nat, j: nat)
    requires i < j < |FirstOccurrences(s)|
    ensures MentionedBefore(s, FirstOccurrences(s)[i], FirstOccurrences(s)[j])
  {
    var n := |s| - 1;
    var front := FirstOccurrences(s[..n]);
    FirstOccurrencesDistinct(s[..n]);
    var k: nat;
    if j < |front| {
      FirstOccurrencesOrder(s[..n], i, j);
      k :| k < n && s[..n][k] == front[i] && front[j] !in s[..n][..k + 1];
    } else {
      assert front[i] in s[..n];
      k :| k < n && s[..n][k] == front[i];
    }
    assert s[k] == front[i] && s[..n][..k + 1] == s[..k + 1];
  }

  /** Of readable keys nothing is dropped: every key gives its seat, in its place. */
  lemma {:induction false} ParseAllReadable(keys: seq<string>)
    requires Readable(keys)
    ensures |ParseAll(keys)| == |keys|
    ensures forall i :: 0 <= i < |keys| ==> Parse(keys[i]) == Some(ParseAll(keys)[i])
  {
    if keys != [] {
      var front := keys[..|keys| - 1];
      assert forall i :: 0 <= i < |front| ==> front[i] == keys[i];
      ParseAllReadable(front);
    }
  }

  /**
   The list the worker works on is the one the commit request accepted: the same
   seats in the same order, each once, all with positive coordinates.
   */
  lemma {:induction false} SeatListIsLossless(items: seq<string>)
    requires Readable(items)
    ensures var seats := FirstOccurrences(ParseAll(items));
            && (forall s :: s in seats <==> s in ParseAll(items))
            && Positive(seats)
            && ParseAll(FormatAll(seats)) == seats
            && Distinct(seats)
            && (items != [] ==> seats != [])
  {
    var seats := FirstOccurrences(ParseAll(items));
    FirstOccurrencesDistinct(ParseAll(items));
    ParseAllFormatAll(seats);
    if items != [] {
      var last := items[|items| - 1];
      assert last in items;
      assert Parse(last).value in ParseAll(items);
      assert Parse(last).value in seats;
    }
  }
}
