/** Conservation of traffic over every run. */
module Ledger {
  import opened Basics
  import opened Packets
  import opened Traffic
  import opened Database
  import opened Protocol

  /** Before every row a 32-bit timestamp can have. */
  const OLDEST: int := -TWO_TO_THE_31

  /** Everything the database holds for a name. */
  function InDatabase(tables: Tables, name: string): Line {
    SumRows(RowsOf(tables, name), Since(OLDEST))
  }

  /** Database, memory, dropped and lost together. */
  function Accounted(b: Books, name: string): Line {
    Plus(Plus(InDatabase(b.tables, name), Get(b.traffic, name)), Plus(Get(b.dropped, name), Get(b.lost, name)))
  }

  /** What a deposit adds to the database and the refused lines together: the line as a row holds
      it, or, when it is refused, the line itself. */
  lemma DepositAdds(tables: Tables, traffic: TrafficMap, now: int, name: string)
    ensures Plus(InDatabase(Deposited(tables, traffic, now), name), Get(RefusedLines(tables, traffic, now), name)) ==
            Plus(InDatabase(tables, name),
                 if name in traffic && !Refused(tables, name, now) then Stored(traffic[name]) else Get(traffic, name))
  {
    hide Int32, Stored, Plus, Deposited;
    DepositedRows(tables, traffic, now, name);
    PlusZero(InDatabase(Deposited(tables, traffic, now), name));
    if name in traffic && !Refused(tables, name, now) {
      AppendedRow(RowsOf(tables, name), Row(Int32(now), Stored(traffic[name])));
    } else {
      assert RowsAfter(tables, traffic, now, name) == RowsOf(tables, name);
    }
  }

  /** A deposit moves a line into the database or into the refused lines, modulo 2^32, and exactly
      when the line is small. */
  lemma DepositMoves(tables: Tables, traffic: TrafficMap, now: int, name: string)
    ensures var before := Plus(InDatabase(tables, name), Get(traffic, name));
            var after := Plus(InDatabase(Deposited(tables, traffic, now), name),
                              Get(RefusedLines(tables, traffic, now), name));
            CongruentLines(after, before) && (Small(Get(traffic, name)) ==> after == before)
  {
    hide Int32, Unsigned64, CongruentLines, Small, Plus, Stored, Deposited, RefusedLines, InDatabase, Refused;
    var total, line := InDatabase(tables, name), Get(traffic, name);
    DepositAdds(tables, traffic, now, name);
    WrapFacts(line);
    CongruentSelf(total);
    CongruentSelf(line);
    CongruentSums(total, total, Stored(line), line);
    CongruentSelf(Plus(total, line));
  }

  lemma AppendedRow(rows: seq<Row>, row: Row)
    requires row.timestamp >= OLDEST
    ensures SumRows(rows + [row], Since(OLDEST)) == Plus(SumRows(rows, Since(OLDEST)), row.line)
  {
    hide Plus;
    var all := rows + [row];
    assert all[..|all| - 1] == rows;
  }

  lemma DepositedRows(tables: Tables, traffic: TrafficMap, now: int, name: string)
    ensures RowsOf(Deposited(tables, traffic, now), name) == RowsAfter(tables, traffic, now, name)
  {
    assert RowsOf(tables, name) + [] == RowsOf(tables, name);
  }

  lemma MultipleOf(k: int)
    ensures (TWO_TO_THE_32 * k) % TWO_TO_THE_32 == 0
  {
  }

  lemma Multiples(a: int, b: int)
    requires a % TWO_TO_THE_32 == 0 && b % TWO_TO_THE_32 == 0
    ensures (a - b) % TWO_TO_THE_32 == 0
  {
    var p, q := a / TWO_TO_THE_32, b / TWO_TO_THE_32;
    assert a - b == TWO_TO_THE_32 * (p - q);
    MultipleOf(p - q);
  }

  lemma CreditCounter(d: int, m: int, x: int, y: int, credited: int, l: int, m': int)
    requires Congruent(credited, d + m + (x + y)) && Congruent(m', m + l)
    ensures Congruent(credited + l, d + m' + (x + y))
  {
    var p, q := credited - (d + m + (x + y)), m' - (m + l);
    assert credited + l - (d + m' + (x + y)) == p - q;
    Multiples(p, q);
  }

  lemma DepositCounter(d: int, m: int, x: int, y: int, credited: int, d': int, r: int)
    requires Congruent(credited, d + m + (x + y)) && Congruent(d' + r, d + m)
    ensures Congruent(credited, d' + 0 + (x + r + y))
  {
    var p, q := credited - (d + m + (x + y)), d' + r - (d + m);
    assert credited - (d' + 0 + (x + r + y)) == p - q;
    Multiples(p, q);
  }

  /** A credit adds the same to both sides. */
  lemma CreditBalances(d: Line, m: Line, x: Line, y: Line, credited: Line, l: Line, m': Line)
    requires CongruentLines(credited, Plus(Plus(d, m), Plus(x, y))) && CongruentLines(m', Plus(m, l))
    ensures CongruentLines(Plus(credited, l), Plus(Plus(d, m'), Plus(x, y)))
  {
    CreditCounter(d.bytesRx, m.bytesRx, x.bytesRx, y.bytesRx, credited.bytesRx, l.bytesRx, m'.bytesRx);
    CreditCounter(d.bytesTx, m.bytesTx, x.bytesTx, y.bytesTx, credited.bytesTx, l.bytesTx, m'.bytesTx);
    CreditCounter(d.pktRxCount, m.pktRxCount, x.pktRxCount, y.pktRxCount, credited.pktRxCount, l.pktRxCount,
        m'.pktRxCount);
    CreditCounter(d.pktTxCount, m.pktTxCount, x.pktTxCount, y.pktTxCount, credited.pktTxCount, l.pktTxCount,
        m'.pktTxCount);
  }

  /** A deposit moves what memory held to the database and the refused lines. */
  lemma DepositBalances(d: Line, m: Line, x: Line, y: Line, credited: Line, d': Line, r: Line)
    requires CongruentLines(credited, Plus(Plus(d, m), Plus(x, y))) && CongruentLines(Plus(d', r), Plus(d, m))
    ensures CongruentLines(credited, Plus(Plus(d', ZERO), Plus(Plus(x, r), y)))
  {
    DepositCounter(d.bytesRx, m.bytesRx, x.bytesRx, y.bytesRx, credited.bytesRx, d'.bytesRx, r.bytesRx);
    DepositCounter(d.bytesTx, m.bytesTx, x.bytesTx, y.bytesTx, credited.bytesTx, d'.bytesTx, r.bytesTx);
    DepositCounter(d.pktRxCount, m.pktRxCount, x.pktRxCount, y.pktRxCount, credited.pktRxCount, d'.pktRxCount,
        r.pktRxCount);
    DepositCounter(d.pktTxCount, m.pktTxCount, x.pktTxCount, y.pktTxCount, credited.pktTxCount, d'.pktTxCount,
        r.pktTxCount);
  }

  /** The same two facts when nothing wraps. */
  lemma ExactBalances(d: Line, m: Line, x: Line, y: Line, l: Line, d': Line, r: Line)
    ensures Plus(Plus(Plus(d, m), Plus(x, y)), l) == Plus(Plus(d, Plus(m, l)), Plus(x, y))
    ensures Plus(Plus(Plus(d, m), Plus(x, y)), l) == Plus(Plus(d, m), Plus(x, Plus(y, l)))
    ensures Plus(d', r) == Plus(d, m) ==> Plus(Plus(d, m), Plus(x, y)) == Plus(Plus(d', ZERO), Plus(Plus(x, r), y))
  {
  }

  /** What there is to account for: what the database held at the start, and every credit since. */
  function Owed(b: Books, found: Line, name: string): Line {
    Plus(found, Get(b.credited, name))
  }

  /** The account of a name is balanced modulo 2^32. */
  ghost predicate Balanced(b: Books, found: Line, name: string) {
    CongruentLines(Owed(b, found, name), Accounted(b, name))
  }

  lemma PlusAssociates(a: Line, b: Line, c: Line)
    ensures Plus(a, Plus(b, c)) == Plus(Plus(a, b), c)
  {
  }

  lemma CreditStep(b: Books, found: Line, name: string)
    requires Balanced(b, found, name) && b.adding.Held? && b.adding.name == name
    ensures Balanced(NextBooks(b, Credit), found, name)
  {
    hide Int32, Unsigned64, Congruent;
    var d, m, x, y := InDatabase(b.tables, name), Get(b.traffic, name), Get(b.dropped, name), Get(b.lost, name);
    var l := b.adding.added;
    PlusAssociates(found, Get(b.credited, name), l);
    if b.adding.epoch == b.epoch {
      WrapFacts(Plus(m, l));
      CreditBalances(d, m, x, y, Owed(b, found, name), l, InMemory(Plus(m, l)));
    } else {
      LossBalances(d, m, x, y, Owed(b, found, name), l);
    }
  }

  lemma LossBalances(d: Line, m: Line, x: Line, y: Line, credited: Line, l: Line)
    requires CongruentLines(credited, Plus(Plus(d, m), Plus(x, y)))
    ensures CongruentLines(Plus(credited, l), Plus(Plus(d, m), Plus(x, Plus(y, l))))
  {
    CongruentSums(credited, Plus(Plus(d, m), Plus(x, y)), l, l);
    ExactBalances(d, m, x, y, l, d, ZERO);
  }

  lemma DepositStep(b: Books, now: int, found: Line, name: string)
    requires Balanced(b, found, name)
    ensures Balanced(NextBooks(b, Deposit(now)), found, name)
  {
    hide Int32, Unsigned64, Congruent, InDatabase, Deposited, RefusedLines, AddMaps, Plus;
    var d, m, x, y := InDatabase(b.tables, name), Get(b.traffic, name), Get(b.dropped, name), Get(b.lost, name);
    var b' := NextBooks(b, Deposit(now));
    DepositMoves(b.tables, b.traffic, now, name);
    DepositBalances(d, m, x, y, Owed(b, found, name), InDatabase(b'.tables, name),
                    Get(RefusedLines(b.tables, b.traffic, now), name));
  }

  /** The account of a name, as other steps must leave it. */
  ghost predicate SameAccount(b: Books, b': Books, name: string) {
    && b'.tables == b.tables && b'.dropped == b.dropped && Get(b'.lost, name) == Get(b.lost, name)
    && Get(b'.credited, name) == Get(b.credited, name)
    && Get(b'.traffic, name) == Get(b.traffic, name) && Get(b'.current, name) == Get(b.current, name)
  }

  lemma FetchLeavesAccount(b: Books, step: Step, name: string)
    requires step.Fetch?
    ensures SameAccount(b, NextBooks(b, step), name)
  {
    hide Plus, InMemory, Contribution, Deposited, Credited;
  }

  lemma CreditLeavesOthers(b: Books, name: string)
    requires b.adding.Held? && b.adding.name != name
    ensures SameAccount(b, NextBooks(b, Credit), name)
  {
    hide Plus, InMemory, Contribution, Deposited, Touched, AddOne, Credited, Get;
    OtherName(b.credited, b.adding.name, name, b.adding.added);
    OtherName(b.current, b.adding.name, name, b.adding.added);
    OtherName(b.lost, b.adding.name, name, b.adding.added);
    OtherName(b.traffic, b.adding.name, name, b.adding.added);
  }

  lemma OtherName(m: TrafficMap, name: string, other: string, l: Line)
    requires name != other
    ensures Get(AddOne(m, name, l), other) == Get(m, other) == Get(Credited(m, name, l), other)
  {
    hide Plus, InMemory;
  }

  /** The other steps touch nothing the account of this name reads. */
  lemma OtherStep(b: Books, step: Step, name: string)
    requires !step.Deposit? && !(step.Credit? && b.adding.Held? && b.adding.name == name)
    ensures SameAccount(b, NextBooks(b, step), name)
    ensures Accounted(NextBooks(b, step), name) == Accounted(b, name)
  {
    if step.Fetch? {
      FetchLeavesAccount(b, step, name);
    } else if step.Credit? && b.adding.Held? {
      CreditLeavesOthers(b, name);
    }
    hide Plus, InMemory, InDatabase, Credited, Touched, Deposited;
  }

  /** One step keeps the account of a name balanced. */
  lemma StepBalances(b: Books, step: Step, found: Line, name: string)
    requires Balanced(b, found, name)
    ensures Balanced(NextBooks(b, step), found, name)
  {
    hide Int32, Unsigned64, Congruent, CongruentLines, NextBooks, Accounted;
    if step.Credit? && b.adding.Held? && b.adding.name == name {
      CreditStep(b, found, name);
    } else if step.Deposit? {
      DepositStep(b, step.now, found, name);
    } else {
      OtherStep(b, step, name);
    }
  }

  lemma StartAccount(prior: Tables, name: string)
    ensures var b := Start(prior).books;
            Owed(b, InDatabase(prior, name), name) == Accounted(b, name) == InDatabase(prior, name)
  {
    hide InDatabase;
    PlusZero(ZERO);
    PlusZero(InDatabase(prior, name));
  }

  lemma StartBalanced(prior: Tables, name: string)
    ensures Balanced(Start(prior).books, InDatabase(prior, name), name)
  {
    hide Accounted, Owed, CongruentLines;
    StartAccount(prior, name);
    CongruentSelf(InDatabase(prior, name));
  }

  /** Conservation, in every run, from any database and for every name: what the database held at the
      start and what was credited since is what the database holds, plus memory, plus the refused and
      the lost, in each counter modulo 2^32. */
  lemma {:induction false} Conservation(steps: seq<Step>, prior: Tables, interval: int, name: string)
    ensures Balanced(Run(steps, prior, interval).books, InDatabase(prior, name), name)
  {
    hide Balanced, NextBooks, NextLive, InDatabase;
    if steps == [] {
      StartBalanced(prior, name);
    } else {
      var before := Run(steps[..|steps| - 1], prior, interval);
      Conservation(steps[..|steps| - 1], prior, interval, name);
      StepBalances(before.books, steps[|steps| - 1], InDatabase(prior, name), name);
    }
  }

  // ----- what a snapshot shows

  /** Memory holds what was credited since the last deposit, in the width of its fields. */
  ghost predicate MemoryIsCurrent(b: Books, name: string) {
    Get(b.traffic, name) == InMemory(Get(b.current, name))
  }

  lemma CurrentStep(b: Books, step: Step, name: string)
    requires MemoryIsCurrent(b, name)
    ensures MemoryIsCurrent(NextBooks(b, step), name)
  {
    hide InMemory, Plus, Accounted;
    InMemoryZero();
    if step.Credit? && b.adding.Held? && b.adding.name == name {
      WrappedAdd(Get(b.current, name), b.adding.added);
    } else if !step.Deposit? {
      OtherStep(b, step, name);
    }
  }

  lemma InMemoryZero()
    ensures InMemory(ZERO) == ZERO
  {
  }

  /** A live snapshot at any moment shows exactly what was credited since the last deposit, bytes
      modulo 2^64 and counts as 32-bit ints: the very total while it fits a line. */
  lemma {:induction false} SnapshotIsCurrent(steps: seq<Step>, prior: Tables, interval: int, name: string)
    ensures var b := Run(steps, prior, interval).books;
            && MemoryIsCurrent(b, name)
            && (NonNegative(Get(b.current, name)) ==>
                  (Get(b.traffic, name) == Get(b.current, name) <==> FitsMemory(Get(b.current, name))))
  {
    hide NextBooks, NextLive, InMemory, NonNegative, FitsMemory;
    InMemoryZero();
    if steps != [] {
      SnapshotIsCurrent(steps[..|steps| - 1], prior, interval, name);
      CurrentStep(Run(steps[..|steps| - 1], prior, interval).books, steps[|steps| - 1], name);
    }
    var current := Get(Run(steps, prior, interval).books.current, name);
    if NonNegative(current) {
      WrappedIsLess(current);
    }
  }
}
