/** src/traffic/DBController.cpp over one table of rows per application. */
module Database {
  import opened Basics
  import opened StringUtil
  import opened Traffic

  datatype Row = Row(timestamp: int, line: Line)

  type Tables = map<string, seq<Row>>

  predicate HasTime(rows: seq<Row>, t: int) {
    exists i :: 0 <= i < |rows| && rows[i].timestamp == t
  }

  function RowsOf(tables: Tables, name: string): seq<Row> {
    if name in tables then tables[name] else []
  }

  /** A line is refused for a semicolon in its name, or when the name already has a row whose
      primary key is the deposit time as a 32-bit int. */
  predicate Refused(tables: Tables, name: string, now: int) {
    ';' in name || HasTime(RowsOf(tables, name), Int32(now))
  }

  function RowsAfter(tables: Tables, traffic: TrafficMap, now: int, name: string): seq<Row> {
    RowsOf(tables, name) +
    if name in traffic && !Refused(tables, name, now) then [Row(Int32(now), Stored(traffic[name]))] else []
  }

  /** The tables after depositing a traffic map. */
  function Deposited(tables: Tables, traffic: TrafficMap, now: int): Tables {
    map name | name in tables.Keys + traffic.Keys && (name in tables || ';' !in name) ::
      RowsAfter(tables, traffic, now, name)
  }

  /** timestamp is a primary key. */
  ghost predicate UniqueTimes(tables: Tables) {
    forall n :: n in tables ==> DistinctTimes(tables[n])
  }

  ghost predicate DistinctTimes(rows: seq<Row>) {
    forall i, j :: 0 <= i < j < |rows| ==> rows[i].timestamp != rows[j].timestamp
  }

  lemma DepositKeepsUniqueTimes(tables: Tables, traffic: TrafficMap, now: int)
    requires UniqueTimes(tables)
    ensures UniqueTimes(Deposited(tables, traffic, now))
  {
    var after := Deposited(tables, traffic, now);
    forall n | n in after ensures DistinctTimes(after[n]) {
      assert DistinctTimes(RowsOf(tables, n));
      assert after[n] == RowsAfter(tables, traffic, now, n);
    }
  }

  // ----- queries

  datatype Range = Since(from: int) | Between(from: int, to: int) {
    predicate Holds(t: int) {
      from <= t && (Between? ==> t <= to)
    }
  }

  /** SUM of each column over the rows in range; 0 over no rows. */
  function SumRows(rows: seq<Row>, range: Range): Line {
    if rows == [] then ZERO
    else
      Plus(SumRows(rows[..|rows| - 1], range), InRange(rows[|rows| - 1], range))
  }

  function InRange(r: Row, range: Range): Line {
    if range.Holds(r.timestamp) then r.line else ZERO
  }

  /** The answer of a query: the lines that are not empty once read back. */
  function Fetched(tables: Tables, range: Range): TrafficMap {
    map name | name in tables && !Empty(InMemory(SumRows(tables[name], range))) ::
      InMemory(SumRows(tables[name], range))
  }

  lemma FetchedLine(tables: Tables, range: Range, name: string)
    ensures Get(Fetched(tables, range), name) == InMemory(SumRows(RowsOf(tables, name), range))
  {
    assert InMemory(ZERO) == ZERO;
    var l := InMemory(SumRows(RowsOf(tables, name), range));
    assert Empty(l) ==> l == ZERO;
  }

  /** Exactly the rows from time a to time b. */
  function Within(rows: seq<Row>, a: int, b: int): (w: seq<Row>)
    ensures forall r :: r in w <==> r in rows && a <= r.timestamp <= b
  {
    if rows == [] then []
    else
      var w, r := Within(rows[..|rows| - 1], a, b), rows[|rows| - 1];
      if a <= r.timestamp <= b then w + [r] else w
  }

  /** Exactly the rows at or after time a. */
  function NotBefore(rows: seq<Row>, a: int): (w: seq<Row>)
    ensures forall r :: r in w <==> r in rows && a <= r.timestamp
  {
    if rows == [] then []
    else
      var w, r := NotBefore(rows[..|rows| - 1], a), rows[|rows| - 1];
      if a <= r.timestamp then w + [r] else w
  }

  function LinesOf(rows: seq<Row>): (lines: seq<Line>)
    ensures |lines| == |rows| && forall i :: 0 <= i < |rows| ==> lines[i] == rows[i].line
  {
    seq(|rows|, i requires 0 <= i < |rows| => rows[i].line)
  }

  lemma LinesOneMore(rows: seq<Row>, r: Row)
    ensures SumLines(LinesOf(rows + [r])) == Plus(SumLines(LinesOf(rows)), r.line)
  {
    hide Plus;
    var all := LinesOf(rows + [r]);
    assert all[..|all| - 1] == LinesOf(rows);
  }

  /** A query over a range sums the rows with a <= timestamp <= b, and no others. */
  lemma {:induction false} BetweenSums(rows: seq<Row>, a: int, b: int)
    ensures SumRows(rows, Between(a, b)) == SumLines(LinesOf(Within(rows, a, b)))
  {
    hide Plus, SumLines, LinesOf;
    if rows == [] {
      NoLines();
    } else {
      var init, r := rows[..|rows| - 1], rows[|rows| - 1];
      BetweenSums(init, a, b);
      LinesOneMore(Within(init, a, b), r);
      PlusZero(SumRows(init, Between(a, b)));
    }
  }

  /** An open query sums the rows with a <= timestamp, and no others. */
  lemma {:induction false} SinceSums(rows: seq<Row>, a: int)
    ensures SumRows(rows, Since(a)) == SumLines(LinesOf(NotBefore(rows, a)))
  {
    hide Plus, SumLines, LinesOf;
    if rows == [] {
      NoLines();
    } else {
      var init, r := rows[..|rows| - 1], rows[|rows| - 1];
      SinceSums(init, a);
      LinesOneMore(NotBefore(init, a), r);
      PlusZero(SumRows(init, Since(a)));
    }
  }

  lemma NoLines()
    ensures SumLines(LinesOf([])) == ZERO
  {
  }

  /** Keeping the rows of a range loses no copy of one in it. */
  lemma {:induction false} RangesKeepEvery(rows: seq<Row>, a: int, b: int, r: Row)
    ensures multiset(Within(rows, a, b))[r] == if a <= r.timestamp <= b then multiset(rows)[r] else 0
    ensures multiset(NotBefore(rows, a))[r] == if a <= r.timestamp then multiset(rows)[r] else 0
  {
    if rows != [] {
      RangesKeepEvery(rows[..|rows| - 1], a, b, r);
      assert rows == rows[..|rows| - 1] + [rows[|rows| - 1]];
    }
  }

  /** What the two queries answer for a name: the sums over the rows those times allow, read back
      into a line; and no entry exactly when that line is empty. */
  lemma QueriesAnswer(tables: Tables, name: string, a: int, b: int)
    ensures Get(Fetched(tables, Between(a, b)), name) == InMemory(SumLines(LinesOf(Within(RowsOf(tables, name), a, b))))
    ensures Get(Fetched(tables, Since(a)), name) == InMemory(SumLines(LinesOf(NotBefore(RowsOf(tables, name), a))))
    ensures name in Fetched(tables, Between(a, b)) <==> Get(Fetched(tables, Between(a, b)), name) != ZERO
    ensures name in Fetched(tables, Since(a)) <==> Get(Fetched(tables, Since(a)), name) != ZERO
  {
    hide InMemory, SumLines, LinesOf;
    FetchedLine(tables, Between(a, b), name);
    FetchedLine(tables, Since(a), name);
    BetweenSums(RowsOf(tables, name), a, b);
    SinceSums(RowsOf(tables, name), a);
  }

  lemma InRangeSplits(r: Row, a: int, b: int)
    requires a <= b + 1
    ensures InRange(r, Since(a)) == Plus(InRange(r, Between(a, b)), InRange(r, Since(b + 1)))
  {
  }

  lemma PlusExchange(a: Line, b: Line, c: Line, d: Line)
    ensures Plus(Plus(a, b), Plus(c, d)) == Plus(Plus(a, c), Plus(b, d))
  {
  }

  lemma {:induction false} SumSplits(rows: seq<Row>, a: int, b: int)
    requires a <= b + 1
    ensures SumRows(rows, Since(a)) == Plus(SumRows(rows, Between(a, b)), SumRows(rows, Since(b + 1)))
  {
    if rows != [] {
      var init, r := rows[..|rows| - 1], rows[|rows| - 1];
      SumSplits(init, a, b);
      InRangeSplits(r, a, b);
      PlusExchange(SumRows(init, Between(a, b)), SumRows(init, Since(b + 1)), InRange(r, Between(a, b)),
          InRange(r, Since(b + 1)));
    }
  }

  /** A range splits: everything since a is what lies in [a, b] plus everything since b + 1, name by
      name in machine arithmetic, a name missing from an answer counting as an empty line. */
  lemma RangesSplit(tables: Tables, a: int, b: int, name: string)
    requires a <= b + 1
    ensures Get(Fetched(tables, Since(a)), name)
         == InMemory(Plus(Get(Fetched(tables, Between(a, b)), name), Get(Fetched(tables, Since(b + 1)), name)))
  {
    var rows := RowsOf(tables, name);
    FetchedLine(tables, Since(a), name);
    FetchedLine(tables, Between(a, b), name);
    FetchedLine(tables, Since(b + 1), name);
    SumSplits(rows, a, b);
    WrappedSum(SumRows(rows, Between(a, b)), SumRows(rows, Since(b + 1)));
  }

  ghost predicate SomeInRange(rows: seq<Row>, range: Range) {
    exists r :: r in rows && range.Holds(r.timestamp) && !Empty(r.line)
  }

  lemma SomeInRangeAppend(init: seq<Row>, last: Row, range: Range)
    ensures SomeInRange(init + [last], range) <==> SomeInRange(init, range) || !Empty(InRange(last, range))
  {
    if SomeInRange(init, range) {
      var r :| r in init && range.Holds(r.timestamp) && !Empty(r.line);
      assert r in init + [last];
    }
    assert last in init + [last];
  }

  lemma NonNegativePlus(a: Line, b: Line)
    requires NonNegative(a) && NonNegative(b)
    ensures NonNegative(Plus(a, b))
    ensures Empty(Plus(a, b)) <==> Empty(a) && Empty(b)
  {
    SumZero(a.bytesRx, b.bytesRx);
    SumZero(a.bytesTx, b.bytesTx);
    SumZero(a.pktRxCount, b.pktRxCount);
    SumZero(a.pktTxCount, b.pktTxCount);
  }

  lemma SumZero(x: int, y: int)
    requires x >= 0 && y >= 0
    ensures x + y == 0 <==> x == 0 && y == 0
  {
  }

  lemma {:induction false} SumOfNonNegative(rows: seq<Row>, range: Range)
    requires forall r :: r in rows ==> NonNegative(r.line)
    ensures NonNegative(SumRows(rows, range))
    ensures !Empty(SumRows(rows, range)) <==> SomeInRange(rows, range)
  {
    if rows != [] {
      var init, last := rows[..|rows| - 1], rows[|rows| - 1];
      assert rows == init + [last];
      assert last in rows;
      SumOfNonNegative(init, range);
      SomeInRangeAppend(init, last, range);
      NonNegativePlus(SumRows(init, range), InRange(last, range));
    }
  }

  /** With non-negative rows whose sums fit, a name appears iff one of its rows in range is not empty. */
  lemma NamesCover(tables: Tables, range: Range, name: string)
    requires forall r :: r in RowsOf(tables, name) ==> NonNegative(r.line)
    requires FitsMemory(SumRows(RowsOf(tables, name), range))
    ensures name in Fetched(tables, range) <==> SomeInRange(RowsOf(tables, name), range)
  {
    SumOfNonNegative(RowsOf(tables, name), range);
  }

  // ----- bounded storage

  function SumLines(lines: seq<Line>): Line {
    if lines == [] then ZERO else Plus(SumLines(lines[..|lines| - 1]), lines[|lines| - 1])
  }

  ghost predicate RowsStore(rows: seq<Row>, lines: seq<Line>) {
    |rows| == |lines| && forall i :: 0 <= i < |rows| ==> rows[i].line == Stored(lines[i])
  }

  /** Whatever lines were bound into rows, the fetched sum over all of them is their true total
      modulo 2^32, and exactly it when every line is small and the total fits. */
  lemma BoundedStorage(rows: seq<Row>, lines: seq<Line>, from: int)
    requires RowsStore(rows, lines)
    requires forall r :: r in rows ==> from <= r.timestamp
    ensures CongruentLines(InMemory(SumRows(rows, Since(from))), SumLines(lines))
    ensures (forall l :: l in lines ==> Small(l)) && FitsMemory(SumLines(lines))
            ==> InMemory(SumRows(rows, Since(from))) == SumLines(lines)
  {
    SumOfStored(rows, lines, from);
    WrapFacts(SumRows(rows, Since(from)));
    CongruentTransitive(InMemory(SumRows(rows, Since(from))), SumRows(rows, Since(from)), SumLines(lines));
  }

  lemma {:induction false} SumOfStored(rows: seq<Row>, lines: seq<Line>, from: int)
    requires RowsStore(rows, lines)
    requires forall r :: r in rows ==> from <= r.timestamp
    ensures CongruentLines(SumRows(rows, Since(from)), SumLines(lines))
    ensures (forall l :: l in lines ==> Small(l)) ==>
              SumRows(rows, Since(from)) == SumLines(lines) && NonNegative(SumLines(lines))
  {
    if rows != [] {
      var n := |rows| - 1;
      assert rows[n] in rows && lines[n] in lines;
      SumOfStored(rows[..n], lines[..n], from);
      WrapFacts(lines[n]);
      CongruentSums(SumRows(rows[..n], Since(from)), SumLines(lines[..n]), rows[n].line, lines[n]);
    }
  }

  // ----- the controller

  class DBController {
    var mTables: Tables

    /** The database at the path may hold tables from earlier. */
    constructor (found: Tables)
      ensures mTables == found
    {
      mTables := found;
    }

    method InsertApplicationTraffic(traffic: TrafficMap, now: int)
      modifies this
      ensures mTables == Deposited(old(mTables), traffic, now)
    {
      var todo := traffic.Keys;
      assert traffic - todo == map[];
      DepositNothing(mTables, now);
      while todo != {}
        invariant todo <= traffic.Keys
        invariant mTables == Deposited(old(mTables), traffic - todo, now)
        decreases todo
      {
        var name :| name in todo;
        ghost var rest := todo - {name};
        assert todo == rest + {name};
        InsertLine(name, traffic[name], now);
        DepositOneMore(old(mTables), traffic, rest, name, now);
        todo := todo - {name};
      }
      assert traffic - {} == traffic;
    }

    /** The body of the deposit loop: skip, or create the table and try the row. */
    method InsertLine(name: string, line: Line, now: int)
      modifies this
      ensures if ';' in name then mTables == old(mTables)
              else mTables == old(mTables)[name := RowsAfter(old(mTables), map[name := line], now, name)]
    {
      var semicolon := ContainsSemicolon(name);
      if semicolon {
        return;
      }
      if name !in mTables {
        mTables := mTables[name := []];
      }
      if !HasTime(mTables[name], Int32(now)) {
        mTables := mTables[name := mTables[name] + [Row(Int32(now), Stored(line))]];
      } else {
        assert mTables[name] + [] == mTables[name];
      }
    }

    method FetchTrafficSince(timestamp: int) returns (traffic: TrafficMap)
      ensures traffic == Fetched(mTables, Since(timestamp))
      ensures forall n :: Get(traffic, n) == InMemory(SumLines(LinesOf(NotBefore(RowsOf(mTables, n), timestamp))))
    {
      traffic := FetchTrafficWithQuery(Since(timestamp));
      hide InMemory, Fetched, SumLines, LinesOf, NotBefore;
      forall n ensures Get(traffic, n) == InMemory(SumLines(LinesOf(NotBefore(RowsOf(mTables, n), timestamp)))) {
        QueriesAnswer(mTables, n, timestamp, timestamp);
      }
    }

    method FetchTrafficBetween(start: int, end: int) returns (traffic: TrafficMap)
      ensures traffic == Fetched(mTables, Between(start, end))
      ensures forall n :: Get(traffic, n) == InMemory(SumLines(LinesOf(Within(RowsOf(mTables, n), start, end))))
    {
      traffic := FetchTrafficWithQuery(Between(start, end));
      hide InMemory, Fetched, SumLines, LinesOf, Within;
      forall n ensures Get(traffic, n) == InMemory(SumLines(LinesOf(Within(RowsOf(mTables, n), start, end)))) {
        QueriesAnswer(mTables, n, start, end);
      }
    }

    method FetchTrafficWithQuery(range: Range) returns (traffic: TrafficMap)
      ensures traffic == Fetched(mTables, range)
    {
      var todo := mTables.Keys;
      traffic := map[];
      while todo != {}
        invariant todo <= mTables.Keys
        invariant traffic == Fetched(mTables - todo, range)
        decreases todo
      {
        var name :| name in todo;
        assert todo == (todo - {name}) + {name};
        FetchOneMore(mTables, todo - {name}, range, name);
        todo := todo - {name};
        var line := InMemory(SumRows(mTables[name], range));
        if !Empty(line) {
          traffic := traffic[name := line];
        }
      }
      assert mTables - {} == mTables;
    }
  }

  lemma DepositNothing(tables: Tables, now: int)
    ensures Deposited(tables, map[], now) == tables
  {
    assert forall n :: RowsOf(tables, n) + [] == RowsOf(tables, n);
  }

  /** Depositing one more line of a map changes the rows of that name alone. */
  lemma DepositOneMore(tables: Tables, traffic: TrafficMap, todo: set<string>, name: string, now: int)
    requires name in traffic && name !in todo
    ensures var before := Deposited(tables, traffic - (todo + {name}), now);
            var after := Deposited(tables, traffic - todo, now);
            if ';' in name then after == before
            else
              && after == before[name := RowsAfter(tables, traffic, now, name)]
              && RowsOf(before, name) == RowsOf(tables, name)
  {
    var part, more := traffic - (todo + {name}), traffic - todo;
    var before, after := Deposited(tables, part, now), Deposited(tables, more, now);
    var expected := if ';' in name then before else before[name := RowsAfter(tables, traffic, now, name)];
    assert RowsOf(tables, name) + [] == RowsOf(tables, name);
    forall n ensures n in after <==> n in expected {
      assert n in more <==> n in part || n == name;
    }
    forall n | n in after ensures after[n] == expected[n] {
      assert n != name ==> RowsAfter(tables, more, now, n) == RowsAfter(tables, part, now, n);
    }
    assert after == expected;
  }

  lemma FetchOneMore(tables: Tables, todo: set<string>, range: Range, name: string)
    requires name in tables && name !in todo
    ensures var line := InMemory(SumRows(tables[name], range));
            var before := Fetched(tables - (todo + {name}), range);
            Fetched(tables - todo, range) == if !Empty(line) then before[name := line] else before
  {
    var line := InMemory(SumRows(tables[name], range));
    var before, after := Fetched(tables - (todo + {name}), range), Fetched(tables - todo, range);
    var expected := if !Empty(line) then before[name := line] else before;
    forall n ensures n in after <==> n in expected {
    }
    forall n | n in after ensures after[n] == expected[n] {
    }
  }
}
