/** Keyset pagination: walks that follow the returned cursor over a table that may change between pages. */
module Pagination {
  import opened Wrappers
  import opened Cursor

  // ---------- The order of rows ----------

  /** A listed row, by what it is ordered on: its creation time and then its id. */
  type Key = ListCursor

  datatype Order = Ascending | Descending

  function Fields(t: Stamp): seq<int> {
    [t.year, t.month, t.day, t.hour, t.minute, t.second, t.nano]
  }

  function Letters(s: string): seq<int> {
    seq(|s|, i requires 0 <= i < |s| => s[i] as int)
  }

  predicate Lexicographic(a: seq<int>, b: seq<int>) {
    b != [] && (a == [] || a[0] < b[0] || (a[0] == b[0] && Lexicographic(a[1..], b[1..])))
  }

  predicate Less(a: Key, b: Key) {
    || Lexicographic(Fields(a.createdAt), Fields(b.createdAt))
    || (a.createdAt == b.createdAt && Lexicographic(Letters(a.id), Letters(b.id)))
  }

  predicate Precedes(order: Order, a: Key, b: Key) {
    if order == Ascending then Less(a, b) else Less(b, a)
  }

  lemma {:induction false} LexicographicOrder(a: seq<int>, b: seq<int>, c: seq<int>)
    ensures !Lexicographic(a, a)
    ensures a == b || Lexicographic(a, b) || Lexicographic(b, a)
    ensures Lexicographic(a, b) && Lexicographic(b, c) ==> Lexicographic(a, c)
    decreases |a| + |b| + |c|
  {
    if a != [] {
      if b != [] && c != [] {
        LexicographicOrder(a[1..], b[1..], c[1..]);
      } else if b != [] {
        LexicographicOrder(a[1..], b[1..], []);
      } else {
        LexicographicOrder(a[1..], [], []);
      }
      assert a == [a[0]] + a[1..] && (b != [] ==> b == [b[0]] + b[1..]);
    }
  }

  lemma FieldsIdentify(s: Stamp, t: Stamp)
    ensures Fields(s) == Fields(t) <==> s == t
  {
    if Fields(s) == Fields(t) {
      assert Fields(s)[0] == Fields(t)[0] && Fields(s)[1] == Fields(t)[1] && Fields(s)[2] == Fields(t)[2];
      assert Fields(s)[3] == Fields(t)[3] && Fields(s)[4] == Fields(t)[4] && Fields(s)[5] == Fields(t)[5];
      assert Fields(s)[6] == Fields(t)[6];
    }
  }

  lemma LettersIdentify(a: string, b: string)
    ensures Letters(a) == Letters(b) <==> a == b
  {
    if Letters(a) == Letters(b) {
      assert |a| == |Letters(a)| == |Letters(b)| == |b|;
      forall i | 0 <= i < |a| ensures a[i] == b[i] {
        assert Letters(a)[i] == Letters(b)[i];
      }
    }
  }

  /** Rows are totally ordered: ids break the ties between equal creation times. */
  lemma TotalOrder(order: Order, a: Key, b: Key, c: Key)
    ensures !Precedes(order, a, a)
    ensures a == b || Precedes(order, a, b) || Precedes(order, b, a)
    ensures Precedes(order, a, b) && Precedes(order, b, c) ==> Precedes(order, a, c)
  {
    Trichotomy(a, b);
    Trichotomy(a, a);
    LessTransitive(a, b, c);
    LessTransitive(c, b, a);
  }

  lemma Trichotomy(a: Key, b: Key)
    ensures a == b || Less(a, b) || Less(b, a)
    ensures !Less(a, a)
  {
    LexicographicOrder(Fields(a.createdAt), Fields(b.createdAt), []);
    LexicographicOrder(Letters(a.id), Letters(b.id), []);
    FieldsIdentify(a.createdAt, b.createdAt);
    LettersIdentify(a.id, b.id);
  }

  lemma LessTransitive(a: Key, b: Key, c: Key)
    ensures Less(a, b) && Less(b, c) ==> Less(a, c)
  {
    LexicographicOrder(Fields(a.createdAt), Fields(b.createdAt), Fields(c.createdAt));
    LexicographicOrder(Letters(a.id), Letters(b.id), Letters(c.id));
  }

  /** Time as one number that grows with it: every month is given room for 32 days, every year for 13 months. */
  function Ticks(t: Stamp): int {
    Day(t) * 86_400_000_000_000 + Clock(t)
  }

  function Day(t: Stamp): int {
    (t.year * 13 + t.month) * 32 + t.day
  }

  function Clock(t: Stamp): int {
    ((t.hour * 60 + t.minute) * 60 + t.second) * 1_000_000_000 + t.nano
  }

  lemma MonthDigit(a: int, b: int, x: int, y: int)
    requires 0 <= x < 13 && 0 <= y < 13
    ensures a * 13 + x < b * 13 + y <==> a < b || (a == b && x < y)
    ensures a * 13 + x == b * 13 + y <==> a == b && x == y
  {
  }

  lemma DayDigit(a: int, b: int, x: int, y: int)
    requires 0 <= x < 32 && 0 <= y < 32
    ensures a * 32 + x < b * 32 + y <==> a < b || (a == b && x < y)
    ensures a * 32 + x == b * 32 + y <==> a == b && x == y
  {
  }

  lemma ClockDigit(a: int, b: int, x: int, y: int)
    requires 0 <= x < 86_400_000_000_000 && 0 <= y < 86_400_000_000_000
    ensures a * 86_400_000_000_000 + x < b * 86_400_000_000_000 + y <==> a < b || (a == b && x < y)
    ensures a * 86_400_000_000_000 + x == b * 86_400_000_000_000 + y <==> a == b && x == y
  {
  }

  lemma SexagesimalDigit(a: int, b: int, x: int, y: int)
    requires 0 <= x < 60 && 0 <= y < 60
    ensures a * 60 + x < b * 60 + y <==> a < b || (a == b && x < y)
    ensures a * 60 + x == b * 60 + y <==> a == b && x == y
  {
  }

  lemma NanoDigit(a: int, b: int, x: int, y: int)
    requires 0 <= x < 1_000_000_000 && 0 <= y < 1_000_000_000
    ensures a * 1_000_000_000 + x < b * 1_000_000_000 + y <==> a < b || (a == b && x < y)
    ensures a * 1_000_000_000 + x == b * 1_000_000_000 + y <==> a == b && x == y
  {
  }

  lemma LexicographicCons(x: int, a: seq<int>, y: int, b: seq<int>)
    ensures Lexicographic([x] + a, [y] + b) <==> x < y || (x == y && Lexicographic(a, b))
  {
    assert ([x] + a)[1..] == a && ([y] + b)[1..] == b;
  }

  lemma FieldsCompare(s: Stamp, t: Stamp)
    ensures Lexicographic(Fields(s), Fields(t))
       <==> s.year < t.year || (s.year == t.year && (s.month < t.month || (s.month == t.month && (s.day < t.day
            || (s.day == t.day && ClockLess(s, t))))))
  {
    var a, b := ClockFields(s), ClockFields(t);
    assert Fields(s) == [s.year] + ([s.month] + ([s.day] + a)) && Fields(t) == [t.year] + ([t.month] + ([t.day] + b));
    LexicographicCons(s.year, [s.month] + ([s.day] + a), t.year, [t.month] + ([t.day] + b));
    LexicographicCons(s.month, [s.day] + a, t.month, [t.day] + b);
    LexicographicCons(s.day, a, t.day, b);
    ClockCompare(s, t);
  }

  function ClockFields(t: Stamp): seq<int> {
    [t.hour, t.minute, t.second, t.nano]
  }

  predicate ClockLess(s: Stamp, t: Stamp) {
    s.hour < t.hour || (s.hour == t.hour && (s.minute < t.minute || (s.minute == t.minute
      && (s.second < t.second || (s.second == t.second && s.nano < t.nano)))))
  }

  lemma ClockCompare(s: Stamp, t: Stamp)
    ensures Lexicographic(ClockFields(s), ClockFields(t)) <==> ClockLess(s, t)
  {
    assert ClockFields(s) == [s.hour] + ([s.minute] + ([s.second] + ([s.nano] + [])));
    assert ClockFields(t) == [t.hour] + ([t.minute] + ([t.second] + ([t.nano] + [])));
    LexicographicCons(s.hour, [s.minute] + ([s.second] + ([s.nano] + [])), t.hour, [t.minute] + ([t.second] + ([t.nano] + [])));
    LexicographicCons(s.minute, [s.second] + ([s.nano] + []), t.minute, [t.second] + ([t.nano] + []));
    LexicographicCons(s.second, [s.nano] + [], t.second, [t.nano] + []);
    LexicographicCons(s.nano, [], t.nano, []);
  }

  lemma ClockCompares(s: Stamp, t: Stamp)
    requires ValidStamp(s) && ValidStamp(t)
    ensures Clock(s) < Clock(t) <==> ClockLess(s, t)
    ensures Clock(s) == Clock(t) <==> s.hour == t.hour && s.minute == t.minute && s.second == t.second && s.nano == t.nano
    ensures 0 <= Clock(s) < 86_400_000_000_000
  {
    SexagesimalDigit(s.hour, t.hour, s.minute, t.minute);
    SexagesimalDigit(s.hour * 60 + s.minute, t.hour * 60 + t.minute, s.second, t.second);
    NanoDigit((s.hour * 60 + s.minute) * 60 + s.second, (t.hour * 60 + t.minute) * 60 + t.second, s.nano, t.nano);
  }

  lemma DayCompares(s: Stamp, t: Stamp)
    requires s.month < 13 && t.month < 13 && s.day < 32 && t.day < 32
    ensures Day(s) < Day(t)
       <==> (s.year < t.year || (s.year == t.year && (s.month < t.month || (s.month == t.month && s.day < t.day))))
    ensures Day(s) == Day(t) <==> s.year == t.year && s.month == t.month && s.day == t.day
  {
    MonthDigit(s.year, t.year, s.month, t.month);
    DayDigit(s.year * 13 + s.month, t.year * 13 + t.month, s.day, t.day);
  }

  lemma TicksCompare(s: Stamp, t: Stamp)
    requires ValidStamp(s) && ValidStamp(t)
    ensures Ticks(s) < Ticks(t) <==> Lexicographic(Fields(s), Fields(t))
    ensures Ticks(s) == Ticks(t) <==> s == t
  {
    FieldsCompare(s, t);
    DayCompares(s, t);
    ClockCompares(s, t);
    ClockCompares(t, s);
    ClockDigit(Day(s), Day(t), Clock(s), Clock(t));
  }

  /** The first text has run out, or has the smaller letter, where they first differ. */
  ghost predicate TextLess(a: string, b: string) {
    exists i :: FirstDiffersAt(a, b, i)
  }

  predicate FirstDiffersAt(a: string, b: string, i: nat) {
    i <= |a| && i < |b| && a[..i] == b[..i] && (i == |a| || a[i] < b[i])
  }

  lemma {:induction false} LettersCompare(a: string, b: string)
    ensures Lexicographic(Letters(a), Letters(b)) <==> TextLess(a, b)
  {
    if a != "" && b != "" {
      LettersCompare(a[1..], b[1..]);
      assert Letters(a)[1..] == Letters(a[1..]) && Letters(b)[1..] == Letters(b[1..]);
      if TextLess(a[1..], b[1..]) && a[0] == b[0] {
        var i: nat :| FirstDiffersAt(a[1..], b[1..], i);
        assert a[..i + 1] == [a[0]] + a[1..][..i] && b[..i + 1] == [b[0]] + b[1..][..i];
        assert FirstDiffersAt(a, b, i + 1);
      }
      if a[0] < b[0] {
        assert FirstDiffersAt(a, b, 0);
      }
      if i: nat :| FirstDiffersAt(a, b, i) && i > 0 {
        assert a[0] == a[..i][0] == b[..i][0] == b[0];
        assert a[1..][..i - 1] == a[..i][1..] && b[1..][..i - 1] == b[..i][1..];
        assert FirstDiffersAt(a[1..], b[1..], i - 1);
      }
    } else if a == "" && b != "" {
      assert FirstDiffersAt(a, b, 0);
    }
  }

  /** The order of the rows is that of time, and of the ids as text at one instant. */
  lemma OrderIsChronological(order: Order, a: Key, b: Key)
    requires ValidStamp(a.createdAt) && ValidStamp(b.createdAt)
    ensures Precedes(Ascending, a, b) <==> Precedes(Descending, b, a)
    ensures Precedes(Ascending, a, b) <==> Ticks(a.createdAt) < Ticks(b.createdAt)
                                           || (Ticks(a.createdAt) == Ticks(b.createdAt) && TextLess(a.id, b.id))
  {
    TicksCompare(a.createdAt, b.createdAt);
    LettersCompare(a.id, b.id);
  }

  // ---------- One page ----------

  predicate Eligible(order: Order, cursor: Option<Key>, k: Key) {
    cursor.None? || Precedes(order, cursor.value, k)
  }

  ghost predicate Sorted(order: Order, rows: seq<Key>) {
    forall i, j | 0 <= i < j < |rows| :: Precedes(order, rows[i], rows[j])
  }

  /** What the query returns of the matching rows: those past the cursor, in order, cut off at `lim`. */
  ghost predicate Selects(order: Order, matching: set<Key>, cursor: Option<Key>, lim: nat, rows: seq<Key>) {
    && Sorted(order, rows) && |rows| <= lim
    && (forall k <- rows :: k in matching && Eligible(order, cursor, k))
    && (forall k <- matching :: Eligible(order, cursor, k) && k !in rows ==>
          |rows| == lim && forall i | 0 <= i < |rows| :: Precedes(order, rows[i], k))
  }

  function PageOf(limit: nat, rows: seq<Key>): seq<Key> {
    if |rows| > limit then rows[..limit] else rows
  }

  /** Asking for one row more than the page holds answers whether another page exists. */
  method ListPage(limit: int, rows: seq<Key>) returns (r: Result<(seq<Key>, Option<string>), ()>)
    requires limit > 0 ==> |rows| <= limit + 1
    ensures r.Err? <==> limit <= 0
    ensures r.Ok? ==>
              && r.value.0 == PageOf(limit, rows)
              && r.value.1 == if |rows| > limit then Some(EncodeCursor(rows[limit - 1])) else None
  {
    if limit <= 0 {
      return Err(());
    }
    var hasMore := |rows| > limit;
    var page := if hasMore then rows[..limit] else rows;
    var next := None;
    if hasMore {
      next := Some(EncodeCursor(page[|page| - 1]));
    }
    r := Ok((page, next));
  }

  // ---------- Walks ----------

  /** One request: the matching rows at that moment, and what the query returned. */
  datatype Visit = Visit(matching: set<Key>, rows: seq<Key>)

  /** Row keys as the database stores them. */
  predicate Storable(k: Key) {
    ValidStamp(k.createdAt) && 0 <= k.createdAt.year <= 9999 && IsUuid(k.id)
  }

  /** How a row key comes back from a client: what the server decodes of what it handed out. */
  type Wire = Key -> Option<Key>

  ghost predicate Faithful(wire: Wire) {
    forall k | Storable(k) :: wire(k) == Some(k)
  }

  function CursorWire(): Wire {
    (k: Key) => match ParseListCursor(EncodeCursor(k)) case Ok(c) => c case Err(_) => None
  }

  /** The cursor carries every storable row key unchanged. */
  lemma CursorIsFaithful()
    ensures Faithful(CursorWire())
  {
    forall k | Storable(k) ensures CursorWire()(k) == Some(k) {
      CursorRoundTripIff(k);
    }
  }

  /** A client follows each returned cursor until there is none. */
  ghost predicate Walk(order: Order, wire: Wire, limit: nat, cursor: Option<Key>, visits: seq<Visit>)
    requires limit > 0
    decreases |visits|
  {
    visits == []
    || (&& Selects(order, visits[0].matching, cursor, limit + 1, visits[0].rows)
        && if |visits[0].rows| > limit then
             wire(visits[0].rows[limit - 1]).Some?
             && Walk(order, wire, limit, wire(visits[0].rows[limit - 1]), visits[1..])
           else |visits| == 1)
  }

  predicate Completed(limit: nat, visits: seq<Visit>) {
    visits != [] && |visits[|visits| - 1].rows| <= limit
  }

  function Returned(limit: nat, visits: seq<Visit>): seq<Key> {
    if visits == [] then [] else PageOf(limit, visits[0].rows) + Returned(limit, visits[1..])
  }

  ghost predicate StorableTables(visits: seq<Visit>) {
    forall v <- visits :: forall k <- v.matching :: Storable(k)
  }

  /** The decoded cursor is the last row of the page, so the next page starts strictly after it. */
  lemma NextStartsAfterPage(order: Order, wire: Wire, limit: nat, cursor: Option<Key>, visits: seq<Visit>)
    requires limit > 0 && Faithful(wire) && visits != [] && StorableTables(visits) && Walk(order, wire, limit, cursor, visits)
    requires |visits[0].rows| > limit
    ensures Walk(order, wire, limit, Some(visits[0].rows[limit - 1]), visits[1..])
    ensures StorableTables(visits[1..])
  {
    var last := visits[0].rows[limit - 1];
    assert last in visits[0].rows && last in visits[0].matching;
    assert Storable(last);
  }

  /** No row is returned twice, and all come in order, whatever is inserted or removed between pages. */
  lemma {:induction false} NothingIsRepeated(order: Order, wire: Wire, limit: nat, cursor: Option<Key>, visits: seq<Visit>)
    requires limit > 0 && Faithful(wire) && StorableTables(visits) && Walk(order, wire, limit, cursor, visits)
    ensures Sorted(order, Returned(limit, visits))
    ensures forall k <- Returned(limit, visits) :: Eligible(order, cursor, k)
    ensures forall i, j | 0 <= i < j < |Returned(limit, visits)| :: Returned(limit, visits)[i] != Returned(limit, visits)[j]
    decreases |visits|
  {
    if visits != [] {
      var rows, page := visits[0].rows, PageOf(limit, visits[0].rows);
      var rest := Returned(limit, visits[1..]);
      if |rows| > limit {
        NextStartsAfterPage(order, wire, limit, cursor, visits);
        NothingIsRepeated(order, wire, limit, Some(rows[limit - 1]), visits[1..]);
        PageThenRest(order, cursor, page, rest);
      } else {
        assert visits[1..] == [] && page + rest == page;
      }
      SortedDistinct(order, page + rest);
    }
  }

  lemma SortedDistinct(order: Order, rows: seq<Key>)
    requires Sorted(order, rows)
    ensures forall i, j | 0 <= i < j < |rows| :: rows[i] != rows[j]
  {
    forall i, j | 0 <= i < j < |rows| ensures rows[i] != rows[j] {
      TotalOrder(order, rows[i], rows[i], rows[i]);
    }
  }

  lemma PageThenRest(order: Order, cursor: Option<Key>, page: seq<Key>, rest: seq<Key>)
    requires page != [] && Sorted(order, page) && Sorted(order, rest)
    requires forall k <- page :: Eligible(order, cursor, k)
    requires forall k <- rest :: Eligible(order, Some(page[|page| - 1]), k)
    ensures Sorted(order, page + rest)
    ensures forall k <- page + rest :: Eligible(order, cursor, k)
  {
    var last := page[|page| - 1];
    assert Eligible(order, cursor, last);
    forall k <- rest ensures Eligible(order, cursor, k) {
      if cursor.Some? {
        TotalOrder(order, cursor.value, last, k);
      }
    }
    forall i, j | 0 <= i < j < |page + rest| ensures Precedes(order, (page + rest)[i], (page + rest)[j]) {
      if i < |page| <= j {
        assert (page + rest)[j] == rest[j - |page|] && rest[j - |page|] in rest;
        TotalOrder(order, page[i], last, rest[j - |page|]);
      }
    }
  }

  /** A completed walk returns every row that matched throughout it. */
  lemma {:induction false} NothingIsMissed(order: Order, wire: Wire, limit: nat, cursor: Option<Key>, visits: seq<Visit>, k: Key)
    requires limit > 0 && Faithful(wire) && StorableTables(visits) && Walk(order, wire, limit, cursor, visits)
    requires Completed(limit, visits)
    requires Eligible(order, cursor, k) && forall v <- visits :: k in v.matching
    ensures k in Returned(limit, visits)
    decreases |visits|
  {
    var rows := visits[0].rows;
    assert visits[0] in visits;
    if k !in PageOf(limit, rows) && |rows| > limit {
      PastPage(order, limit, rows, k);
      NextStartsAfterPage(order, wire, limit, cursor, visits);
      NothingIsMissed(order, wire, limit, Some(rows[limit - 1]), visits[1..], k);
    }
  }

  /** A row of the query's result beyond the page, or beyond the result, comes after the page. */
  lemma PastPage(order: Order, limit: nat, rows: seq<Key>, k: Key)
    requires 0 < limit < |rows| && Sorted(order, rows) && k !in rows[..limit]
    requires k !in rows ==> forall i | 0 <= i < |rows| :: Precedes(order, rows[i], k)
    ensures Precedes(order, rows[limit - 1], k)
  {
    assert forall i | 0 <= i < limit :: rows[i] in rows[..limit];
  }

  /** A walk returns only rows that matched at some request of it. */
  lemma {:induction false} ReturnedMatched(order: Order, wire: Wire, limit: nat, cursor: Option<Key>, visits: seq<Visit>, k: Key)
    requires limit > 0 && Faithful(wire) && StorableTables(visits) && Walk(order, wire, limit, cursor, visits)
    ensures k in Returned(limit, visits) ==> exists v <- visits :: k in v.matching
    decreases |visits|
  {
    if visits != [] {
      var rows := visits[0].rows;
      assert visits[0] in visits;
      assert k in PageOf(limit, rows) ==> k in rows;
      if |rows| > limit {
        NextStartsAfterPage(order, wire, limit, cursor, visits);
        ReturnedMatched(order, wire, limit, Some(rows[limit - 1]), visits[1..], k);
      } else {
        assert visits[1..] == [];
      }
    }
  }

  /** Over a table that does not change, a completed walk from the first page returns exactly the matching
      rows, each once and in order. */
  lemma StaticWalkReturnsAll(order: Order, wire: Wire, limit: nat, table: set<Key>, visits: seq<Visit>)
    requires limit > 0 && Faithful(wire) && StorableTables(visits) && Walk(order, wire, limit, None, visits) && Completed(limit, visits)
    requires forall v <- visits :: v.matching == table
    ensures Sorted(order, Returned(limit, visits))
    ensures forall k :: k in Returned(limit, visits) <==> k in table
    ensures |Returned(limit, visits)| == |table|
  {
    NothingIsRepeated(order, wire, limit, None, visits);
    forall k ensures k in Returned(limit, visits) <==> k in table {
      if k in table {
        NothingIsMissed(order, wire, limit, None, visits, k);
      }
      if k in Returned(limit, visits) {
        ReturnedMatched(order, wire, limit, None, visits, k);
      }
    }
    DistinctCount(Returned(limit, visits), table);
  }

  lemma {:induction false} DistinctCount(rows: seq<Key>, table: set<Key>)
    requires forall i, j | 0 <= i < j < |rows| :: rows[i] != rows[j]
    requires forall k :: k in rows <==> k in table
    ensures |rows| == |table|
  {
    if rows == [] {
      assert table == {};
    } else {
      var rest, last := rows[..|rows| - 1], rows[|rows| - 1];
      assert rows == rest + [last];
      DistinctCount(rest, table - {last});
    }
  }

  function FullOnes(limit: nat, visits: seq<Visit>): nat
    requires visits != []
  {
    if Completed(limit, visits) then |visits| - 1 else |visits|
  }

  lemma {:induction false} FullPages(order: Order, wire: Wire, limit: nat, cursor: Option<Key>, visits: seq<Visit>)
    requires limit > 0 && Walk(order, wire, limit, cursor, visits) && visits != []
    ensures |Returned(limit, visits)| >= FullOnes(limit, visits) * limit
    decreases |visits|
  {
    var rest := visits[1..];
    if |visits[0].rows| > limit {
      if rest != [] {
        FullPages(order, wire, limit, wire(visits[0].rows[limit - 1]), rest);
        OneMorePage(FullOnes(limit, rest), limit);
        assert FullOnes(limit, visits) == FullOnes(limit, rest) + 1;
      } else {
        OneMorePage(0, limit);
      }
    } else {
      OneMorePage(-1, limit);
    }
  }

  lemma OneMorePage(n: int, limit: nat)
    ensures (n + 1) * limit == n * limit + limit
  {
  }

  /** Such a walk ends: every page but the last is full, so it completes within one request more than the
      full pages in the table. */
  lemma StaticWalkEnds(order: Order, wire: Wire, limit: nat, table: set<Key>, visits: seq<Visit>)
    requires limit > 0 && Faithful(wire) && StorableTables(visits) && Walk(order, wire, limit, None, visits) && visits != []
    requires forall v <- visits :: v.matching == table
    ensures FullOnes(limit, visits) * limit <= |table|
  {
    NothingIsRepeated(order, wire, limit, None, visits);
    FullPages(order, wire, limit, None, visits);
    var rows := Returned(limit, visits);
    forall k <- rows ensures k in table {
      ReturnedMatched(order, wire, limit, None, visits, k);
    }
    DistinctAtMost(rows, table);
  }

  lemma DistinctAtMost(rows: seq<Key>, table: set<Key>)
    requires forall i, j | 0 <= i < j < |rows| :: rows[i] != rows[j]
    requires forall k <- rows :: k in table
    ensures |rows| <= |table|
  {
    var seen := set k | k in rows;
    DistinctCount(rows, seen);
    SubsetSize(seen, table);
  }

  lemma {:induction false} SubsetSize(a: set<Key>, b: set<Key>)
    requires a <= b
    ensures |a| <= |b|
  {
    if a != {} {
      var k :| k in a;
      SubsetSize(a - {k}, b - {k});
    }
  }
}
