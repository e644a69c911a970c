/** Which deposited lines the database refuses, and which credits are lost, over every run. */
module Refusals {
  import opened Basics
  import opened Packets
  import opened Traffic
  import opened Database
  import opened Protocol
  import opened Ledger

  // ----- refused lines

  /** An earlier deposit at the same 32-bit time carried the name. */
  ghost predicate Carried(deposits: seq<DepositRecord>, name: string, t: int) {
    exists j :: 0 <= j < |deposits| && name in deposits[j].traffic && Int32(deposits[j].time) == t
  }

  /** Deposit i carried a line for the name, and either the name has a semicolon, or its rows from
      earlier runs have the time, or an earlier deposit within the same second carried it too. */
  ghost predicate RefusedAt(earlier: seq<Row>, deposits: seq<DepositRecord>, i: nat, name: string)
    requires i < |deposits|
  {
    var t := Int32(deposits[i].time);
    name in deposits[i].traffic && (';' in name || HasTime(earlier, t) || Carried(deposits[..i], name, t))
  }

  /** The sum of the lines of a name refused in a history of deposits. */
  ghost function RefusedTotal(earlier: seq<Row>, deposits: seq<DepositRecord>, name: string): Line {
    if deposits == [] then ZERO
    else
      var n := |deposits| - 1;
      Plus(RefusedTotal(earlier, deposits[..n], name),
           if RefusedAt(earlier, deposits, n, name) then deposits[n].traffic[name] else ZERO)
  }

  /** The times in a table are those found at the start and those of the deposits that carried its
      name; the rows of a name with a semicolon never change. */
  ghost predicate TimesAreDeposits(b: Books, earlier: seq<Row>, name: string) {
    if ';' in name then RowsOf(b.tables, name) == earlier
    else forall t :: HasTime(RowsOf(b.tables, name), t) <==> HasTime(earlier, t) || Carried(b.deposits, name, t)
  }

  lemma HasTimeAppend(rows: seq<Row>, row: Row, t: int)
    ensures HasTime(rows + [row], t) <==> HasTime(rows, t) || row.timestamp == t
  {
    if HasTime(rows, t) {
      var i :| 0 <= i < |rows| && rows[i].timestamp == t;
      assert (rows + [row])[i].timestamp == t;
    }
    assert (rows + [row])[|rows|] == row;
  }

  lemma CarriedAppend(deposits: seq<DepositRecord>, d: DepositRecord, name: string, t: int)
    ensures Carried(deposits + [d], name, t) <==>
              Carried(deposits, name, t) || (name in d.traffic && Int32(d.time) == t)
  {
    hide Int32;
    var all := deposits + [d];
    if Carried(deposits, name, t) {
      var j :| 0 <= j < |deposits| && name in deposits[j].traffic && Int32(deposits[j].time) == t;
      assert all[j] == deposits[j];
    }
    assert all[|deposits|] == d;
  }

  lemma TimesStep(b: Books, step: Step, earlier: seq<Row>, name: string)
    requires TimesAreDeposits(b, earlier, name)
    ensures TimesAreDeposits(NextBooks(b, step), earlier, name)
  {
    hide Int32, Unsigned64, Stored, HasTime, Carried;
    if step.Deposit? && ';' !in name {
      var rows, d := RowsOf(b.tables, name), DepositRecord(step.now, b.traffic, b.current);
      DepositedRows(b.tables, b.traffic, step.now, name);
      forall t ensures HasTime(RowsOf(NextBooks(b, step).tables, name), t) <==>
                       HasTime(earlier, t) || Carried(b.deposits + [d], name, t) {
        CarriedAppend(b.deposits, d, name, t);
        if name in b.traffic && !Refused(b.tables, name, step.now) {
          HasTimeAppend(rows, Row(Int32(step.now), Stored(b.traffic[name])), t);
        } else {
          assert RowsAfter(b.tables, b.traffic, step.now, name) == rows;
        }
      }
    } else if step.Deposit? {
      DepositedRows(b.tables, b.traffic, step.now, name);
      assert RowsAfter(b.tables, b.traffic, step.now, name) == RowsOf(b.tables, name);
    }
  }

  lemma {:induction false} TablesKnowDeposits(steps: seq<Step>, prior: Tables, interval: int, name: string)
    ensures TimesAreDeposits(Run(steps, prior, interval).books, RowsOf(prior, name), name)
  {
    hide NextBooks, NextLive;
    if steps != [] {
      TablesKnowDeposits(steps[..|steps| - 1], prior, interval, name);
      TimesStep(Run(steps[..|steps| - 1], prior, interval).books, steps[|steps| - 1], RowsOf(prior, name), name);
    }
  }

  lemma DroppedStep(b: Books, step: Step, earlier: seq<Row>, name: string)
    requires TimesAreDeposits(b, earlier, name) && Get(b.dropped, name) == RefusedTotal(earlier, b.deposits, name)
    ensures Get(NextBooks(b, step).dropped, name) == RefusedTotal(earlier, NextBooks(b, step).deposits, name)
  {
    hide Int32, Unsigned64, Stored, HasTime, Carried, Plus, Deposited;
    if step.Deposit? {
      var all := b.deposits + [DepositRecord(step.now, b.traffic, b.current)];
      assert all[..|all| - 1] == b.deposits;
      assert RefusedAt(earlier, all, |b.deposits|, name) <==> name in b.traffic && Refused(b.tables, name, step.now);
    }
  }

  /** What the database refuses, in every run: the lines caught by the semicolon test or by the
      primary key, and nothing else. */
  lemma {:induction false} DroppedExactly(steps: seq<Step>, prior: Tables, interval: int, name: string)
    ensures var b := Run(steps, prior, interval).books;
            Get(b.dropped, name) == RefusedTotal(RowsOf(prior, name), b.deposits, name)
  {
    hide NextBooks, NextLive;
    if steps != [] {
      var init := steps[..|steps| - 1];
      DroppedExactly(init, prior, interval, name);
      TablesKnowDeposits(init, prior, interval, name);
      DroppedStep(Run(init, prior, interval).books, steps[|init|], RowsOf(prior, name), name);
    }
  }

  // ----- the rows themselves

  /** The line of the name in deposit i went into its table. */
  ghost predicate StoredAt(earlier: seq<Row>, deposits: seq<DepositRecord>, i: nat, name: string)
    requires i < |deposits|
  {
    name in deposits[i].traffic && !RefusedAt(earlier, deposits, i, name)
  }

  /** The rows of a name after a history of deposits: those found at the start, and one for each
      deposit that stored a line, with its time and what its columns hold of that line. */
  ghost function StoredRows(earlier: seq<Row>, deposits: seq<DepositRecord>, name: string): seq<Row> {
    if deposits == [] then earlier
    else
      var n := |deposits| - 1;
      StoredRows(earlier, deposits[..n], name) +
      if StoredAt(earlier, deposits, n, name)
      then [Row(Int32(deposits[n].time), Stored(deposits[n].traffic[name]))] else []
  }

  lemma RefusedNow(b: Books, prior: Tables, now: int, name: string)
    requires TimesAreDeposits(b, RowsOf(prior, name), name)
    ensures var all := NextBooks(b, Deposit(now)).deposits;
            RefusedAt(RowsOf(prior, name), all, |b.deposits|, name) <==>
              name in b.traffic && Refused(b.tables, name, now)
  {
    hide Int32, Stored, HasTime, Carried, Plus, Deposited;
    var all := b.deposits + [DepositRecord(now, b.traffic, b.current)];
    assert all[..|b.deposits|] == b.deposits;
  }

  lemma RowsStep(b: Books, prior: Tables, step: Step, name: string)
    requires TimesAreDeposits(b, RowsOf(prior, name), name)
    requires RowsOf(b.tables, name) == StoredRows(RowsOf(prior, name), b.deposits, name)
    ensures var b' := NextBooks(b, step);
            RowsOf(b'.tables, name) == StoredRows(RowsOf(prior, name), b'.deposits, name)
  {
    hide Int32, Stored, TimesAreDeposits, Refused, RefusedAt, NextBooks;
    DepositsGrow(b, step);
    TablesStep(b, step, name);
    if step.Deposit? {
      RefusedNow(b, prior, step.now, name);
      assert NextBooks(b, step).deposits[..|b.deposits|] == b.deposits;
    } else {
      assert b.deposits + [] == b.deposits;
    }
  }

  lemma TablesStep(b: Books, step: Step, name: string)
    ensures RowsOf(NextBooks(b, step).tables, name) ==
            if step.Deposit? then RowsAfter(b.tables, b.traffic, step.now, name) else RowsOf(b.tables, name)
  {
    hide Int32, Stored, Refused, Deposited, RowsAfter, AddMaps, RefusedLines, Credited, Touched;
    if step.Deposit? {
      DepositedRows(b.tables, b.traffic, step.now, name);
    }
  }

  /** In every run a table holds exactly the rows its deposits stored, in order, after those found. */
  lemma {:induction false} RowsAreDeposits(steps: seq<Step>, prior: Tables, interval: int, name: string)
    ensures var b := Run(steps, prior, interval).books;
            RowsOf(b.tables, name) == StoredRows(RowsOf(prior, name), b.deposits, name)
  {
    hide NextBooks, NextLive, TimesAreDeposits;
    if steps != [] {
      var init := steps[..|steps| - 1];
      RowsAreDeposits(init, prior, interval, name);
      TablesKnowDeposits(init, prior, interval, name);
      RowsStep(Run(init, prior, interval).books, prior, steps[|init|], name);
    }
  }

  /** So in every run a query from a to b answers, for each name, the sum of what the deposits stored
      at those times, and what was found of those times. */
  lemma QueriesAnswerDeposits(steps: seq<Step>, prior: Tables, interval: int, name: string, a: int, b: int)
    ensures var s := Run(steps, prior, interval).books;
            var rows := StoredRows(RowsOf(prior, name), s.deposits, name);
            && Get(Fetched(s.tables, Between(a, b)), name) == InMemory(SumLines(LinesOf(Within(rows, a, b))))
            && Get(Fetched(s.tables, Since(a)), name) == InMemory(SumLines(LinesOf(NotBefore(rows, a))))
  {
    hide NextBooks, NextLive, InMemory, Fetched, Within, NotBefore, SumLines, LinesOf, StoredRows;
    RowsAreDeposits(steps, prior, interval, name);
    QueriesAnswer(Run(steps, prior, interval).books.tables, name, a, b);
  }

  // ----- when nothing is refused

  /** Deposit times rise strictly and fit 32 bits. */
  ghost predicate RisingClock(steps: seq<Step>) {
    && (forall i :: 0 <= i < |steps| && steps[i].Deposit? ==> -TWO_TO_THE_31 <= steps[i].now < TWO_TO_THE_31)
    && (forall i, j :: 0 <= i < j < |steps| && steps[i].Deposit? && steps[j].Deposit? ==> steps[i].now < steps[j].now)
  }

  lemma DepositsGrow(b: Books, step: Step)
    ensures NextBooks(b, step).deposits ==
            b.deposits + if step.Deposit? then [DepositRecord(step.now, b.traffic, b.current)] else []
  {
    hide Deposited, Credited, AddMaps, RefusedLines;
    assert b.deposits + [] == b.deposits;
  }

  lemma {:induction false} DepositsComeFromSteps(steps: seq<Step>, prior: Tables, interval: int, j: nat)
    requires j < |Run(steps, prior, interval).books.deposits|
    ensures exists i :: 0 <= i < |steps| && steps[i] == Deposit(Run(steps, prior, interval).books.deposits[j].time)
  {
    hide NextLive, NextBooks;
    var init := steps[..|steps| - 1];
    var before := Run(init, prior, interval).books.deposits;
    DepositsGrow(Run(init, prior, interval).books, steps[|init|]);
    if j < |before| {
      DepositsComeFromSteps(init, prior, interval, j);
      var i :| 0 <= i < |init| && init[i] == Deposit(before[j].time);
      assert steps[i] == init[i];
    } else {
      assert steps[|init|] == Deposit(Run(steps, prior, interval).books.deposits[j].time);
    }
  }

  /** The deposits come after every row found at the start. */
  ghost predicate ClockIsAhead(steps: seq<Step>, earlier: seq<Row>) {
    forall i, j :: 0 <= i < |steps| && steps[i].Deposit? && 0 <= j < |earlier| ==> earlier[j].timestamp < steps[i].now
  }

  /** With strictly rising deposit times, later than the rows found, and no semicolon in the name,
      nothing of it is dropped. */
  lemma {:induction false} NothingDropped(steps: seq<Step>, prior: Tables, interval: int, name: string)
    requires RisingClock(steps) && ClockIsAhead(steps, RowsOf(prior, name)) && ';' !in name
    ensures Get(Run(steps, prior, interval).books.dropped, name) == ZERO
  {
    hide NextLive, Deposited, Credited, Plus;
    if steps != [] {
      var init, step := steps[..|steps| - 1], steps[|steps| - 1];
      var b := Run(init, prior, interval).books;
      NothingDropped(init, prior, interval, name);
      if step.Deposit? {
        NotCarried(steps, prior, interval, name);
        TablesKnowDeposits(init, prior, interval, name);
        PlusZero(ZERO);
        assert !HasTime(RowsOf(prior, name), Int32(step.now));
        assert !Refused(b.tables, name, step.now);
      }
    }
  }

  lemma NotCarried(steps: seq<Step>, prior: Tables, interval: int, name: string)
    requires RisingClock(steps) && steps != [] && steps[|steps| - 1].Deposit?
    ensures !Carried(Run(steps[..|steps| - 1], prior, interval).books.deposits, name, Int32(steps[|steps| - 1].now))
  {
    hide NextBooks, NextLive;
    var init := steps[..|steps| - 1];
    var ds := Run(init, prior, interval).books.deposits;
    forall j | 0 <= j < |ds| ensures Int32(ds[j].time) != Int32(steps[|init|].now) {
      DepositsComeFromSteps(init, prior, interval, j);
      var i :| 0 <= i < |init| && init[i] == Deposit(ds[j].time);
      assert steps[i] == init[i];
    }
  }

  // ----- credits lost through a stale reference

  /** No deposit in the steps from i on, up to k. */
  ghost predicate NoDepositBetween(steps: seq<Step>, i: nat, k: nat) {
    forall j :: i < j < k && j < |steps| ==> !steps[j].Deposit?
  }

  lemma HeldStep(b: Books, step: Step)
    requires b.adding.Held? && !step.Credit?
    ensures NextBooks(b, step).adding == b.adding
    ensures NextBooks(b, step).epoch == if step.Deposit? then b.epoch + 1 else b.epoch
  {
    hide Deposited, AddMaps, RefusedLines;
  }

  lemma {:induction false} HeldSince(steps: seq<Step>, prior: Tables, interval: int, i: nat, k: nat)
    requires i < k <= |steps| && steps[i].Fetch?
    requires Run(steps[..i], prior, interval).books.adding.NoReference?
    requires forall j :: i < j < k ==> !steps[j].Credit?
    ensures var b, b0 := Run(steps[..k], prior, interval).books, Run(steps[..i], prior, interval).books;
            && b.adding == Held(steps[i].name, Contribution(steps[i].dir, steps[i].len), b0.epoch)
            && b.epoch >= b0.epoch && (b.epoch == b0.epoch <==> NoDepositBetween(steps, i, k))
  {
    hide NextLive, NextBooks;
    RunOneMore(steps, k - 1, prior, interval);
    var b := Run(steps[..k - 1], prior, interval).books;
    if i < k - 1 {
      HeldSince(steps, prior, interval, i, k - 1);
      HeldStep(b, steps[k - 1]);
    } else {
      TakesReference(b, steps[i]);
    }
  }

  lemma TakesReference(b: Books, step: Step)
    requires b.adding.NoReference? && step.Fetch?
    ensures var b' := NextBooks(b, step);
            b'.adding == Held(step.name, Contribution(step.dir, step.len), b.epoch) && b'.epoch == b.epoch
  {
    hide Touched;
  }

  /** The credit of a packet is lost exactly when a deposit came between the two steps of its add;
      otherwise it reaches memory. */
  lemma LostIffDepositBetween(steps: seq<Step>, prior: Tables, interval: int, i: nat, k: nat)
    requires i < k < |steps| && steps[i].Fetch? && steps[k].Credit?
    requires Run(steps[..i], prior, interval).books.adding.NoReference?
    requires forall j :: i < j < k ==> !steps[j].Credit?
    ensures var before, after := Run(steps[..k], prior, interval).books, Run(steps[..k + 1], prior, interval).books;
            var name, l := steps[i].name, Contribution(steps[i].dir, steps[i].len);
            if NoDepositBetween(steps, i, k)
            then after.lost == before.lost && after.traffic == Credited(before.traffic, name, l)
            else Get(after.lost, name) == Plus(Get(before.lost, name), l) && after.traffic == before.traffic
  {
    hide NextLive, Deposited, Credited, AddMaps, RefusedLines, Touched, Plus;
    HeldSince(steps, prior, interval, i, k);
    RunOneMore(steps, k, prior, interval);
  }

  /** Runs in which a whole packet is lost: it is credited, and is nowhere else. */
  lemma InterleavedDepositLoses(steps: seq<Step>, prior: Tables, interval: int, name: string, len: int, now: int)
    requires steps == [Fetch(name, Incoming, len), Deposit(now), Credit]
    ensures var b := Run(steps, prior, interval).books;
            && Get(b.credited, name) == Line(len, 0, 1, 0) == Get(b.lost, name)
            && InDatabase(b.tables, name) == InDatabase(prior, name)
            && Get(b.traffic, name) == ZERO && Get(b.dropped, name) == ZERO
  {
    hide NextLive, NextBooks, InDatabase, Get;
    assert steps[..0] == [] && steps[..3] == steps;
    RunOneMore(steps, 0, prior, interval);
    RunOneMore(steps, 1, prior, interval);
    RunOneMore(steps, 2, prior, interval);
    FirstFetch(prior, name, len);
    var b1 := Run(steps[..1], prior, interval).books;
    DepositWhileHeld(b1, now, name);
    StaleCredit(Run(steps[..2], prior, interval).books);
  }

  lemma FirstFetch(prior: Tables, name: string, len: int)
    ensures NextBooks(Start(prior).books, Fetch(name, Incoming, len)) ==
            Start(prior).books.(traffic := map[name := ZERO], adding := Held(name, Line(len, 0, 1, 0), 0))
  {
  }

  lemma DepositWhileHeld(b: Books, now: int, name: string)
    requires b.adding.Held? && b.adding.epoch == b.epoch
    requires b.dropped == map[] && b.traffic == map[name := ZERO]
    ensures var b' := NextBooks(b, Deposit(now));
            && b'.adding == b.adding && b'.epoch == b.epoch + 1 && b'.traffic == map[]
            && b'.lost == b.lost && b'.credited == b.credited
            && InDatabase(b'.tables, name) == InDatabase(b.tables, name)
            && Get(b'.dropped, name) == ZERO && Get(b'.traffic, name) == ZERO
  {
    hide Deposited, RefusedLines, AddMaps, InDatabase, Plus, Credited, Touched, AddOne, Contribution;
    EmptyLineDeposited(b.tables, b.traffic, name, now);
    PlusZero(ZERO);
    assert NextBooks(b, Deposit(now)).dropped == AddMaps(b.dropped, RefusedLines(b.tables, b.traffic, now));
  }

  lemma StaleCredit(b: Books)
    requires b.adding.Held? && b.adding.epoch != b.epoch
    requires b.credited == map[] && b.lost == map[]
    ensures var b' := NextBooks(b, Credit);
            && b'.tables == b.tables && b'.traffic == b.traffic && b'.dropped == b.dropped
            && Get(b'.credited, b.adding.name) == b.adding.added == Get(b'.lost, b.adding.name)
  {
  }

  /** Depositing an empty line stores nothing and drops nothing. */
  lemma EmptyLineDeposited(tables: Tables, traffic: TrafficMap, name: string, now: int)
    requires Get(traffic, name) == ZERO
    ensures InDatabase(Deposited(tables, traffic, now), name) == InDatabase(tables, name)
    ensures Get(RefusedLines(tables, traffic, now), name) == ZERO
  {
    hide Int32, Unsigned64, Congruent, Deposited, CongruentLines, InDatabase;
    DepositMoves(tables, traffic, now, name);
    PlusZero(InDatabase(tables, name));
    PlusZero(InDatabase(Deposited(tables, traffic, now), name));
  }

  // ----- what the API answers

  /** Whatever the run, the history the API can query and the live snapshot together account for
      the history before it and every credited packet, but for the refused lines and lost credits:
      fetchTrafficSince over all time, modulo 2^32. */
  lemma QueriesAccountForAll(steps: seq<Step>, prior: Tables, interval: int, name: string)
    ensures var b := Run(steps, prior, interval).books;
            CongruentLines(Plus(InDatabase(prior, name), Get(b.credited, name)),
                           Plus(Plus(Get(Fetched(b.tables, Since(OLDEST)), name), Get(b.traffic, name)),
                                Plus(RefusedTotal(RowsOf(prior, name), b.deposits, name), Get(b.lost, name))))
  {
    hide Congruent, Int32, Unsigned64, NextBooks, NextLive;
    var b := Run(steps, prior, interval).books;
    Conservation(steps, prior, interval, name);
    DroppedExactly(steps, prior, interval, name);
    FetchedLine(b.tables, Since(OLDEST), name);
    WrapFacts(InDatabase(b.tables, name));
    ReplaceDatabase(InDatabase(b.tables, name), InMemory(InDatabase(b.tables, name)),
                    Get(b.traffic, name), Get(b.dropped, name), Get(b.lost, name));
    CongruentTransitive(Owed(b, InDatabase(prior, name), name), Accounted(b, name),
                        Plus(Plus(InMemory(InDatabase(b.tables, name)), Get(b.traffic, name)),
                             Plus(Get(b.dropped, name), Get(b.lost, name))));
  }

  lemma ReplaceDatabase(d: Line, d': Line, m: Line, x: Line, y: Line)
    requires CongruentLines(d', d)
    ensures CongruentLines(Plus(Plus(d, m), Plus(x, y)), Plus(Plus(d', m), Plus(x, y)))
  {
    hide Congruent, CongruentLines, Plus;
    CongruentSelf(d);
    CongruentTransitive(d', d, d);
    CongruentSelf(m);
    CongruentSelf(Plus(x, y));
    CongruentSums(d, d', m, m);
    CongruentSums(Plus(d, m), Plus(d', m), Plus(x, y), Plus(x, y));
  }
}
