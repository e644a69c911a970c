/** When the books balance to the byte: an exact condition, for every run. */
module Exactness {
  import opened Basics
  import opened Packets
  import opened Traffic
  import opened Database
  import opened Protocol
  import opened Ledger
  import opened Refusals

  /** Nothing of what deposit i closed was cut: it fitted a line in memory and, if it was stored, a
      row. */
  ghost predicate WholeAt(earlier: seq<Row>, deposits: seq<DepositRecord>, i: nat, name: string)
    requires i < |deposits|
  {
    var credited := Get(deposits[i].credited, name);
    if StoredAt(earlier, deposits, i, name) then Small(credited) else FitsMemory(credited)
  }

  ghost predicate AllWhole(earlier: seq<Row>, deposits: seq<DepositRecord>, name: string) {
    forall i :: 0 <= i < |deposits| ==> WholeAt(earlier, deposits, i, name)
  }

  /** The account with the present interval in exact arithmetic. */
  function Settled(b: Books, name: string): Line {
    Plus(Plus(InDatabase(b.tables, name), Get(b.current, name)), Plus(Get(b.dropped, name), Get(b.lost, name)))
  }

  /** Closed intervals never hold more than was credited, and as much only if each was whole. */
  ghost predicate SettledWithin(b: Books, prior: Tables, name: string) {
    var owed := Owed(b, InDatabase(prior, name), name);
    && AtMost(Settled(b, name), owed)
    && (Settled(b, name) == owed <==> AllWhole(RowsOf(prior, name), b.deposits, name))
  }

  // ----- steps

  lemma ShiftAtMost(a: Line, b: Line, l: Line)
    ensures AtMost(Plus(a, l), Plus(b, l)) <==> AtMost(a, b)
    ensures Plus(a, l) == Plus(b, l) <==> a == b
  {
  }

  /** Replacing a part by less makes the sum less, and equal only if both are. */
  lemma LessPart(part: Line, whole: Line, rest: Line, owed: Line)
    requires AtMost(part, whole) && AtMost(Plus(whole, rest), owed)
    ensures AtMost(Plus(part, rest), owed)
    ensures Plus(part, rest) == owed <==> part == whole && Plus(whole, rest) == owed
  {
  }

  lemma Rearranged(d: Line, m: Line, x: Line, y: Line)
    ensures Plus(Plus(d, m), Plus(x, y)) == Plus(m, Plus(d, Plus(x, y)))
  {
  }

  lemma RefusedInto(d: Line, x: Line, r: Line, y: Line)
    ensures Plus(Plus(d, ZERO), Plus(Plus(x, r), y)) == Plus(Plus(d, r), Plus(x, y))
  {
  }

  lemma CreditSettles(b: Books, prior: Tables, name: string)
    requires SettledWithin(b, prior, name) && b.adding.Held? && b.adding.name == name
    ensures SettledWithin(NextBooks(b, Credit), prior, name)
  {
    hide InMemory, Plus, InDatabase, AtMost, AllWhole;
    var d, m, x, y := InDatabase(b.tables, name), Get(b.current, name), Get(b.dropped, name), Get(b.lost, name);
    var found, l := InDatabase(prior, name), b.adding.added;
    PlusAssociates(found, Get(b.credited, name), l);
    ExactBalances(d, m, x, y, l, d, ZERO);
    ShiftAtMost(Settled(b, name), Owed(b, found, name), l);
  }

  lemma WholeOneMore(earlier: seq<Row>, deposits: seq<DepositRecord>, d: DepositRecord, name: string)
    ensures var all := deposits + [d];
            AllWhole(earlier, all, name) <==>
              AllWhole(earlier, deposits, name) && WholeAt(earlier, all, |deposits|, name)
  {
    var all := deposits + [d];
    hide Small, FitsMemory, Carried, HasTime, Int32;
    forall i | 0 <= i < |deposits| ensures WholeAt(earlier, all, i, name) <==> WholeAt(earlier, deposits, i, name) {
      assert all[i] == deposits[i] && all[..i] == deposits[..i];
    }
  }

  lemma DepositSettles(b: Books, prior: Tables, now: int, name: string)
    requires SettledWithin(b, prior, name) && MemoryIsCurrent(b, name)
    requires TimesAreDeposits(b, RowsOf(prior, name), name) && NonNegative(Get(b.current, name))
    ensures SettledWithin(NextBooks(b, Deposit(now)), prior, name)
  {
    hide InMemory, Stored, Plus, InDatabase, AtMost, AllWhole, Deposited, RefusedLines, Refused, RefusedAt;
    hide Small, FitsMemory, TimesAreDeposits, NonNegative;
    var b' := NextBooks(b, Deposit(now));
    var d, m, x, y := InDatabase(b.tables, name), Get(b.current, name), Get(b.dropped, name), Get(b.lost, name);
    var earlier, record := RowsOf(prior, name), DepositRecord(now, b.traffic, b.current);
    var stored := name in b.traffic && !Refused(b.tables, name, now);
    var part := if stored then Stored(InMemory(m)) else InMemory(m);
    DepositAdds(b.tables, b.traffic, now, name);
    RefusedInto(InDatabase(b'.tables, name), x, Get(RefusedLines(b.tables, b.traffic, now), name), y);
    Rearranged(d, part, x, y);
    Rearranged(d, m, x, y);
    WrappedIsLess(m);
    LessPart(part, m, Plus(d, Plus(x, y)), Owed(b, InDatabase(prior, name), name));
    WholeOneMore(earlier, b.deposits, record, name);
    RefusedNow(b, prior, now, name);
    assert WholeAt(earlier, b.deposits + [record], |b.deposits|, name) <==> part == m;
  }

  lemma SettlesStep(b: Books, prior: Tables, step: Step, name: string)
    requires SettledWithin(b, prior, name) && MemoryIsCurrent(b, name)
    requires TimesAreDeposits(b, RowsOf(prior, name), name) && NonNegative(Get(b.current, name))
    ensures SettledWithin(NextBooks(b, step), prior, name)
  {
    hide InMemory, Plus, InDatabase, AtMost, AllWhole, TimesAreDeposits, NonNegative, NextBooks;
    if step.Credit? && b.adding.Held? && b.adding.name == name {
      CreditSettles(b, prior, name);
    } else if step.Deposit? {
      DepositSettles(b, prior, step.now, name);
    } else {
      OtherStep(b, step, name);
      DepositsGrow(b, step);
      assert b.deposits + [] == b.deposits;
    }
  }

  // ----- every run

  /** The exact total of the name in each interval never falls below zero. */
  ghost predicate NeverNegative(steps: seq<Step>, prior: Tables, interval: int, name: string) {
    forall k :: 0 <= k <= |steps| ==> NonNegative(Get(Run(steps[..k], prior, interval).books.current, name))
  }

  lemma EarlierToo(steps: seq<Step>, prior: Tables, interval: int, name: string)
    requires steps != [] && NeverNegative(steps, prior, interval, name)
    ensures NeverNegative(steps[..|steps| - 1], prior, interval, name)
    ensures NonNegative(Get(Run(steps, prior, interval).books.current, name))
    ensures NonNegative(Get(Run(steps[..|steps| - 1], prior, interval).books.current, name))
  {
    hide NonNegative, Run, Get;
    var init := steps[..|steps| - 1];
    assert forall k :: 0 <= k <= |init| ==> init[..k] == steps[..k];
    assert steps[..|steps|] == steps;
  }

  lemma {:induction false} RunSettles(steps: seq<Step>, prior: Tables, interval: int, name: string)
    requires NeverNegative(steps, prior, interval, name)
    ensures SettledWithin(Run(steps, prior, interval).books, prior, name)
  {
    hide NextBooks, NextLive, SettledWithin, NonNegative, MemoryIsCurrent, TimesAreDeposits, NeverNegative;
    if steps == [] {
      StartSettled(prior, interval, name);
    } else {
      var init := steps[..|steps| - 1];
      EarlierToo(steps, prior, interval, name);
      RunSettles(init, prior, interval, name);
      SnapshotIsCurrent(init, prior, interval, name);
      TablesKnowDeposits(init, prior, interval, name);
      SettlesStep(Run(init, prior, interval).books, prior, steps[|init|], name);
    }
  }

  lemma StartSettled(prior: Tables, interval: int, name: string)
    ensures SettledWithin(Start(prior).books, prior, name)
  {
    hide InDatabase, Plus, InMemory, WholeAt;
    StartAccount(prior, name);
  }

  /** The books balance to the byte exactly when nothing is too wide where it is kept: what was
      credited in each interval the database took below 2^31, in each it refused within a line in
      memory, and so too what is in memory now. They never show more than was credited. */
  lemma ExactConservation(steps: seq<Step>, prior: Tables, interval: int, name: string)
    requires NeverNegative(steps, prior, interval, name)
    ensures var b := Run(steps, prior, interval).books;
            var owed := Owed(b, InDatabase(prior, name), name);
            && AtMost(Accounted(b, name), owed)
            && (Accounted(b, name) == owed <==>
                  AllWhole(RowsOf(prior, name), b.deposits, name) && FitsMemory(Get(b.current, name)))
  {
    hide NextBooks, NextLive, Run, NonNegative, FitsMemory, AllWhole, InDatabase, AtMost, Plus, InMemory;
    var b := Run(steps, prior, interval).books;
    var d, m, x, y := InDatabase(b.tables, name), Get(b.current, name), Get(b.dropped, name), Get(b.lost, name);
    assert steps[..|steps|] == steps;
    RunSettles(steps, prior, interval, name);
    SnapshotIsCurrent(steps, prior, interval, name);
    WrappedIsLess(m);
    Rearranged(d, InMemory(m), x, y);
    Rearranged(d, m, x, y);
    LessPart(InMemory(m), m, Plus(d, Plus(x, y)), Owed(b, InDatabase(prior, name), name));
  }

  // ----- the same in terms of what was deposited

  /** What every deposit carried of the name is what had been credited, in the width of memory. */
  ghost predicate CarriesCurrent(deposits: seq<DepositRecord>, name: string) {
    forall i :: 0 <= i < |deposits| ==> Get(deposits[i].traffic, name) == InMemory(Get(deposits[i].credited, name))
  }

  /** In every closed interval the total of the name fitted a line in memory. */
  ghost predicate ClosedFit(deposits: seq<DepositRecord>, name: string) {
    forall i :: 0 <= i < |deposits| ==>
      NonNegative(Get(deposits[i].credited, name)) && FitsMemory(Get(deposits[i].credited, name))
  }

  /** At every moment the total of the name in the current interval fits a line in memory. */
  ghost predicate AlwaysFits(steps: seq<Step>, prior: Tables, interval: int, name: string) {
    forall k :: 0 <= k <= |steps| ==> FitsMemory(Get(Run(steps[..k], prior, interval).books.current, name))
  }

  lemma {:induction false} DepositsCarryCurrent(steps: seq<Step>, prior: Tables, interval: int, name: string)
    requires NeverNegative(steps, prior, interval, name) && AlwaysFits(steps, prior, interval, name)
    ensures CarriesCurrent(Run(steps, prior, interval).books.deposits, name)
    ensures ClosedFit(Run(steps, prior, interval).books.deposits, name)
  {
    hide NextBooks, NextLive, InMemory, NonNegative, FitsMemory, NeverNegative, Get;
    if steps != [] {
      var init := steps[..|steps| - 1];
      assert forall k :: 0 <= k <= |init| ==> init[..k] == steps[..k];
      assert init[..|init|] == init;
      EarlierToo(steps, prior, interval, name);
      DepositsCarryCurrent(init, prior, interval, name);
      SnapshotIsCurrent(init, prior, interval, name);
      DepositsGrow(Run(init, prior, interval).books, steps[|init|]);
    }
  }

  /** While every interval fits a line in memory, the books balance to the byte exactly when every
      line that was stored is below 2^31 in each counter. */
  lemma ExactIffStoredSmall(steps: seq<Step>, prior: Tables, interval: int, name: string)
    requires NeverNegative(steps, prior, interval, name) && AlwaysFits(steps, prior, interval, name)
    ensures var b := Run(steps, prior, interval).books;
            Accounted(b, name) == Owed(b, InDatabase(prior, name), name) <==>
            forall i :: 0 <= i < |b.deposits| && StoredAt(RowsOf(prior, name), b.deposits, i, name) ==>
              Small(b.deposits[i].traffic[name])
  {
    hide NextBooks, NextLive, Run, InMemory, NeverNegative, InDatabase, Accounted, Owed, FitsMemory, Small, RefusedAt;
    var b := Run(steps, prior, interval).books;
    var earlier := RowsOf(prior, name);
    assert steps[..|steps|] == steps;
    ExactConservation(steps, prior, interval, name);
    DepositsCarryCurrent(steps, prior, interval, name);
    forall i | 0 <= i < |b.deposits|
      ensures WholeAt(earlier, b.deposits, i, name) <==>
              (StoredAt(earlier, b.deposits, i, name) ==> Small(b.deposits[i].traffic[name]))
    {
      WrappedIsLess(Get(b.deposits[i].credited, name));
    }
  }

  // ----- when every interval is narrow

  /** At every moment the total of the name in the current interval is below 2^31 in each counter. */
  ghost predicate IntervalsFit(steps: seq<Step>, prior: Tables, interval: int, name: string) {
    forall k :: 0 <= k <= |steps| ==> Small(Get(Run(steps[..k], prior, interval).books.current, name))
  }

  ghost predicate ClosedSmall(deposits: seq<DepositRecord>, name: string) {
    forall i :: 0 <= i < |deposits| ==> Small(Get(deposits[i].credited, name))
  }

  lemma {:induction false} DepositsAreSmall(steps: seq<Step>, prior: Tables, interval: int, name: string)
    requires IntervalsFit(steps, prior, interval, name)
    ensures ClosedSmall(Run(steps, prior, interval).books.deposits, name)
  {
    hide NextBooks, NextLive, Small, Get;
    if steps != [] {
      var init := steps[..|steps| - 1];
      assert forall k :: 0 <= k <= |init| ==> init[..k] == steps[..k];
      assert init[..|init|] == init;
      DepositsAreSmall(init, prior, interval, name);
      DepositsGrow(Run(init, prior, interval).books, steps[|init|]);
    }
  }

  lemma SmallFits(l: Line)
    requires Small(l)
    ensures NonNegative(l) && FitsMemory(l)
  {
  }

  /** Then the books balance to the byte whatever is refused, and memory is the interval's total. */
  lemma NarrowIntervalsBalance(steps: seq<Step>, prior: Tables, interval: int, name: string)
    requires IntervalsFit(steps, prior, interval, name)
    ensures var b := Run(steps, prior, interval).books;
            && Accounted(b, name) == Owed(b, InDatabase(prior, name), name)
            && Get(b.traffic, name) == Get(b.current, name)
  {
    hide NextBooks, NextLive, Run, InMemory, InDatabase, Accounted, Owed, Small, FitsMemory, NonNegative, RefusedAt;
    var b := Run(steps, prior, interval).books;
    assert steps[..|steps|] == steps;
    forall k | 0 <= k <= |steps| ensures NonNegative(Get(Run(steps[..k], prior, interval).books.current, name)) {
      SmallFits(Get(Run(steps[..k], prior, interval).books.current, name));
    }
    DepositsAreSmall(steps, prior, interval, name);
    forall i | 0 <= i < |b.deposits| ensures WholeAt(RowsOf(prior, name), b.deposits, i, name) {
      SmallFits(Get(b.deposits[i].credited, name));
    }
    SmallFits(Get(b.current, name));
    ExactConservation(steps, prior, interval, name);
    SnapshotIsCurrent(steps, prior, interval, name);
  }

  // ----- when no length is negative

  ghost predicate LengthsNonNegative(steps: seq<Step>) {
    forall i :: 0 <= i < |steps| && steps[i].Fetch? ==> steps[i].len >= 0
  }

  ghost predicate CreditsNonNegative(b: Books) {
    (b.adding.Held? ==> NonNegative(b.adding.added)) && forall n :: n in b.current ==> NonNegative(b.current[n])
  }

  lemma CreditsStep(b: Books, step: Step)
    requires CreditsNonNegative(b) && (step.Fetch? ==> step.len >= 0)
    ensures CreditsNonNegative(NextBooks(b, step))
  {
    hide Deposited, Credited, RefusedLines, AddMaps, Touched;
  }

  lemma {:induction false} RunCredits(steps: seq<Step>, prior: Tables, interval: int)
    requires LengthsNonNegative(steps)
    ensures CreditsNonNegative(Run(steps, prior, interval).books)
  {
    hide NextBooks, NextLive, CreditsNonNegative;
    if steps != [] {
      RunCredits(steps[..|steps| - 1], prior, interval);
      CreditsStep(Run(steps[..|steps| - 1], prior, interval).books, steps[|steps| - 1]);
    } else {
      StartCredits(prior);
    }
  }

  lemma StartCredits(prior: Tables)
    ensures CreditsNonNegative(Start(prior).books)
  {
  }

  /** Packets of non-negative length, as all below 2^31 bytes are, keep every total non-negative. */
  lemma NonNegativeLengths(steps: seq<Step>, prior: Tables, interval: int, name: string)
    requires LengthsNonNegative(steps)
    ensures NeverNegative(steps, prior, interval, name)
  {
    hide Run;
    forall k | 0 <= k <= |steps| ensures NonNegative(Get(Run(steps[..k], prior, interval).books.current, name)) {
      RunCredits(steps[..k], prior, interval);
    }
  }

  // ----- and when they do not balance

  /** One deposit of a line too wide for a row, at any point of any run: from then on the books
      cannot balance. */
  lemma WideLineCut(steps: seq<Step>, prior: Tables, interval: int, name: string, now: int)
    requires NeverNegative(steps, prior, interval, name)
    requires var b := Run(steps, prior, interval).books;
             name in b.traffic && !Refused(b.tables, name, now) && !Small(Get(b.current, name))
    ensures var b' := Run(steps + [Deposit(now)], prior, interval).books;
            Accounted(b', name) != Owed(b', InDatabase(prior, name), name)
  {
    hide NextBooks, NextLive, NonNegative, InDatabase, Accounted, Owed, FitsMemory, Small;
    hide Refused, RefusedAt, TimesAreDeposits;
    var all := steps + [Deposit(now)];
    var b := Run(steps, prior, interval).books;
    assert all[..|steps|] == steps;
    DepositsGrow(b, Deposit(now));
    forall k | 0 <= k <= |all| ensures NonNegative(Get(Run(all[..k], prior, interval).books.current, name)) {
      if k <= |steps| {
        assert all[..k] == steps[..k];
      } else {
        assert all[..k] == all;
        ClearedCurrent(b, now);
      }
    }
    ExactConservation(all, prior, interval, name);
    TablesKnowDeposits(steps, prior, interval, name);
    RefusedNow(b, prior, now, name);
    assert !WholeAt(RowsOf(prior, name), Run(all, prior, interval).books.deposits, |b.deposits|, name);
  }

  lemma ClearedCurrent(b: Books, now: int)
    ensures NextBooks(b, Deposit(now)).current == map[]
    ensures forall name :: NonNegative(Get(map[], name))
  {
  }

  /** Such runs: two packets received in one interval, 2^31 bytes or more together. */
  lemma TwoPacketsCut(steps: seq<Step>, prior: Tables, interval: int, name: string, x: int, y: int, now: int)
    requires x >= 0 && y >= 0 && x + y >= TWO_TO_THE_31
    requires steps == [Fetch(name, Incoming, x), Credit, Fetch(name, Incoming, y), Credit]
    requires !Refused(prior, name, now)
    ensures var b := Run(steps + [Deposit(now)], prior, interval).books;
            Accounted(b, name) != Owed(b, InDatabase(prior, name), name)
  {
    hide NextBooks, NextLive, Accounted, Owed, InDatabase, Refused;
    assert steps[..0] == [] && steps[..4] == steps;
    RunOneMore(steps, 0, prior, interval);
    RunOneMore(steps, 1, prior, interval);
    RunOneMore(steps, 2, prior, interval);
    RunOneMore(steps, 3, prior, interval);
    OnePacket(Start(prior).books, name, x);
    OnePacket(Run(steps[..2], prior, interval).books, name, y);
    NonNegativeLengths(steps, prior, interval, name);
    WideLineCut(steps, prior, interval, name, now);
  }

  lemma OnePacket(b: Books, name: string, len: int)
    requires b.adding.NoReference?
    ensures var b' := NextBooks(NextBooks(b, Fetch(name, Incoming, len)), Credit);
            && b'.adding.NoReference? && b'.tables == b.tables && name in b'.traffic
            && Get(b'.current, name) == Plus(Get(b.current, name), Line(len, 0, 1, 0))
  {
    hide InMemory;
  }
}
