/** From captured frames to the database: the sniffer's callbacks among all other threads. */
module EndToEnd {
  import opened Basics
  import opened Packets
  import opened Traffic
  import opened Database
  import opened Protocol
  import opened Ledger
  import opened Pipeline

  /** A frame reaches the callback, another thread or the locked part of add takes a step, or one of
      the resolver's clearing loops turns. */
  datatype Happening = Arrives(c: Capture) | Takes(step: Step) | ClearsSockets | ClearsProcesses

  /** handled: the frames whose callback has begun. */
  datatype System = System(resolver: Resolver, state: State, handled: seq<Capture>)

  /** The step a frame leads to: add takes its reference for the application resolved. */
  ghost function FetchFor(resolver: Resolver, ips: seq<Word32>, size: nat, c: Capture): (Resolver, Step) {
    var pkt := Classified(c.frame, ips);
    var (resolver', process) := ResolveStep(resolver, size, c.net, c.w, pkt);
    (resolver', Fetch(process.comm, pkt.direction, pkt.len))
  }

  /** Callbacks run one after the other, so a frame waits while an add is under way. */
  ghost predicate Handles(s: System, h: Happening) {
    h.Arrives? && s.state.books.adding.NoReference?
  }

  ghost function NextSystem(s: System, ips: seq<Word32>, size: nat, interval: int, h: Happening): System {
    match h
    case Arrives(c) =>
      if !Handles(s, h) then s
      else if Classified(c.frame, ips).discard then s.(handled := s.handled + [c])
      else
        var (resolver, fetch) := FetchFor(s.resolver, ips, size, c);
        System(resolver, Next(s.state, interval, fetch), s.handled + [c])
    case Takes(step) => if step.Fetch? then s else s.(state := Next(s.state, interval, step))
    case ClearsSockets => s.(resolver := s.resolver.(sockets := s.resolver.sockets.(missed := {})))
    case ClearsProcesses => s.(resolver := s.resolver.(processes := s.resolver.processes.(missed := {})))
  }

  /** The steps of the protocol that happen. */
  ghost function StepsOf(s: System, ips: seq<Word32>, size: nat, h: Happening): seq<Step> {
    match h
    case Arrives(c) =>
      if Handles(s, h) && !Classified(c.frame, ips).discard then [FetchFor(s.resolver, ips, size, c).1] else []
    case Takes(step) => if step.Fetch? then [] else [step]
    case _ => []
  }

  /** A daemon started with this resolver on these tables. */
  datatype Setup = Setup(resolver: Resolver, prior: Tables, ips: seq<Word32>, size: nat, interval: int)

  ghost function RunSystem(u: Setup, hs: seq<Happening>): System {
    if hs == [] then System(u.resolver, Start(u.prior), [])
    else NextSystem(RunSystem(u, hs[..|hs| - 1]), u.ips, u.size, u.interval, hs[|hs| - 1])
  }

  ghost function StepsTaken(u: Setup, hs: seq<Happening>): seq<Step> {
    if hs == [] then []
    else StepsTaken(u, hs[..|hs| - 1]) + StepsOf(RunSystem(u, hs[..|hs| - 1]), u.ips, u.size, hs[|hs| - 1])
  }

  /** The storage and its clients go through a run of the protocol. */
  lemma {:induction false} SystemRunsProtocol(u: Setup, hs: seq<Happening>)
    ensures RunSystem(u, hs).state == Run(StepsTaken(u, hs), u.prior, u.interval)
  {
    hide Next, NextSystem, StepsOf;
    if hs != [] {
      var init := hs[..|hs| - 1];
      SystemRunsProtocol(u, init);
      OneHappening(RunSystem(u, init), u.ips, u.size, u.interval, hs[|init|]);
      var before, now := StepsTaken(u, init), StepsOf(RunSystem(u, init), u.ips, u.size, hs[|init|]);
      if now == [] {
        assert before + now == before;
      } else {
        assert (before + now)[..|before|] == before;
      }
    }
  }

  lemma OneHappening(s: System, ips: seq<Word32>, size: nat, interval: int, h: Happening)
    ensures var s', now := NextSystem(s, ips, size, interval, h), StepsOf(s, ips, size, h);
            if now == [] then s'.state == s.state else |now| == 1 && s'.state == Next(s.state, interval, now[0])
  {
    hide Next, FetchFor, Classified;
  }

  // ----- everything kept is credited

  /** What a packet still between the two parts of its add will credit. */
  function InHand(b: Books): Line {
    if b.adding.Held? then b.adding.added else ZERO
  }

  lemma AddedSum(m: TrafficMap, n: string, l: Line)
    ensures SumMap(AddOne(m, n, l)) == Plus(SumMap(m), l)
  {
    hide Plus, SumMap;
    SumMapUpdate(m, n, Plus(Get(m, n), l));
    PlusAround(Get(m, n), l, SumMap(m - {n}));
  }

  lemma OtherStepsCredit(b: Books, step: Step)
    requires !step.Fetch?
    ensures var b' := NextBooks(b, step);
            Plus(SumMap(b'.credited), InHand(b')) == Plus(SumMap(b.credited), InHand(b))
  {
    hide Plus, SumMap, AddOne, Deposited, Credited, RefusedLines, AddMaps;
    if step.Credit? && b.adding.Held? {
      AddedSum(b.credited, b.adding.name, b.adding.added);
      PlusZero(Plus(SumMap(b.credited), b.adding.added));
    }
  }

  lemma FetchInHand(b: Books, step: Step)
    requires step.Fetch? && b.adding.NoReference?
    ensures NextBooks(b, step).credited == b.credited
    ensures InHand(NextBooks(b, step)) == Contribution(step.dir, step.len)
  {
    hide Touched, Contribution;
  }

  /** Over all applications, what is credited and in hand is, to the byte, every kept frame. */
  lemma {:induction false} CreditedIsKept(u: Setup, hs: seq<Happening>)
    ensures var s := RunSystem(u, hs);
            Plus(SumMap(s.state.books.credited), InHand(s.state.books)) == KeptTotal(s.handled, u.ips)
  {
    hide Plus, SumMap, NextBooks, NextLive, ResolveStep, Classified, KeptLine, InHand;
    if hs == [] {
      StartsEmpty(u.prior);
    } else {
      var s, h := RunSystem(u, hs[..|hs| - 1]), hs[|hs| - 1];
      CreditedIsKept(u, hs[..|hs| - 1]);
      if h.Takes? && !h.step.Fetch? {
        OtherStepsCredit(s.state.books, h.step);
      } else if Handles(s, h) {
        assert (s.handled + [h.c])[..|s.handled|] == s.handled;
        ArrivalCredits(s, u, h.c);
      }
    }
  }

  lemma StartsEmpty(prior: Tables)
    ensures Plus(SumMap(Start(prior).books.credited), InHand(Start(prior).books)) == ZERO
  {
    hide SumMap, Plus;
    EmptySum();
    PlusZero(ZERO);
  }

  lemma ArrivalCredits(s: System, u: Setup, c: Capture)
    requires s.state.books.adding.NoReference?
    ensures var s' := NextSystem(s, u.ips, u.size, u.interval, Arrives(c));
            Plus(SumMap(s'.state.books.credited), InHand(s'.state.books)) ==
            Plus(Plus(SumMap(s.state.books.credited), InHand(s.state.books)), KeptLine(c.frame, u.ips))
  {
    hide Plus, SumMap, NextBooks, NextLive, ResolveStep, Contribution, KeptLine;
    var total := SumMap(s.state.books.credited);
    PlusZero(total);
    if Classified(c.frame, u.ips).discard {
      DiscardedAddsNothing(c.frame, u.ips);
    } else {
      KeptIsContribution(c.frame, u.ips);
      FetchInHand(s.state.books, FetchFor(s.resolver, u.ips, u.size, c).1);
    }
  }

  lemma DiscardedAddsNothing(f: Frame, ips: seq<Word32>)
    requires Classified(f, ips).discard
    ensures KeptLine(f, ips) == ZERO
  {
  }

  /** An arrival and the credit that follows undisturbed are one callback. */
  lemma ArrivalIsCallback(s: System, ips: seq<Word32>, size: nat, interval: int, c: Capture)
    requires s.state.books.adding.NoReference?
    ensures var s1 := NextSystem(s, ips, size, interval, Arrives(c));
            var s2 := NextSystem(s1, ips, size, interval, Takes(Credit));
            Sniffed(s2.resolver, s2.state.books.traffic) ==
            Callback(Sniffed(s.resolver, s.state.books.traffic), ips, size, c)
  {
    hide Classified, ResolveStep, InMemory, Plus, Contribution, NextLive;
    var m := s.state.books.traffic;
    if !Classified(c.frame, ips).discard {
      TouchedThenCredited(s.state.books, FetchFor(s.resolver, ips, size, c).1);
    }
  }

  lemma TouchedThenCredited(b: Books, step: Step)
    requires step.Fetch? && b.adding.NoReference?
    ensures NextBooks(NextBooks(b, step), Credit).traffic ==
            Credited(b.traffic, step.name, Contribution(step.dir, step.len))
  {
    hide InMemory, Plus, Contribution;
  }

  // ----- sums over applications

  lemma {:induction false} SumMapPlus(a: TrafficMap, b: TrafficMap)
    requires a.Keys == b.Keys
    ensures SumMap(map n | n in a :: Plus(a[n], b[n])) == Plus(SumMap(a), SumMap(b))
    decreases |a|
  {
    hide Plus, SumMap;
    var both := map n | n in a :: Plus(a[n], b[n]);
    if a == map[] {
      assert b == map[] && both == map[];
      EmptySum();
      PlusZero(ZERO);
    } else {
      var n := Pick(a);
      SumMapSplit(a, n);
      SumMapSplit(b, n);
      SumMapSplit(both, n);
      SumMapPlus(a - {n}, b - {n});
      assert both - {n} == map k | k in a - {n} :: Plus((a - {n})[k], (b - {n})[k]);
      PlusExchange(a[n], b[n], SumMap(a - {n}), SumMap(b - {n}));
    }
  }

  lemma EmptySum()
    ensures SumMap(map[]) == ZERO
  {
  }

  lemma {:induction false} SumMapCongruent(a: TrafficMap, b: TrafficMap)
    requires a.Keys == b.Keys && forall n :: n in a ==> CongruentLines(a[n], b[n])
    ensures CongruentLines(SumMap(a), SumMap(b))
    decreases |a|
  {
    hide Plus, SumMap, CongruentLines;
    if a == map[] {
      assert b == map[];
      CongruentSelf(SumMap(a));
    } else {
      var n := Pick(a);
      SumMapSplit(a, n);
      SumMapSplit(b, n);
      SumMapCongruent(a - {n}, b - {n});
      CongruentSums(a[n], b[n], SumMap(a - {n}), SumMap(b - {n}));
    }
  }

  /** Names a map does not mention add nothing. */
  lemma {:induction false} SumMapFilled(m: TrafficMap, names: set<string>)
    requires m.Keys <= names
    ensures SumMap(map n | n in names :: Get(m, n)) == SumMap(m)
    decreases |names|
  {
    hide Plus, SumMap;
    var filled := map n | n in names :: Get(m, n);
    if n :| n in names && n !in m {
      SumMapSplit(filled, n);
      SumMapFilled(m, names - {n});
      assert filled - {n} == map k | k in names - {n} :: Get(m, k);
      PlusZero(SumMap(m));
    } else {
      assert filled == m;
    }
  }

  // ----- the whole way

  ghost function Found(prior: Tables, names: set<string>): TrafficMap {
    map n | n in names :: InDatabase(prior, n)
  }

  ghost function Accounts(b: Books, names: set<string>): TrafficMap {
    map n | n in names :: Accounted(b, n)
  }

  /** From the wire to the database, in every run, deposits coming when they may: over any names that
      include all those credited, what the database held at the start and every kept frame is what
      the database, memory, the refused and the lost lines hold, and the packet in hand, each counter
      modulo 2^32; and to the byte when the books of each name balance so. */
  lemma FramesAccounted(u: Setup, hs: seq<Happening>, names: set<string>)
    requires RunSystem(u, hs).state.books.credited.Keys <= names
    ensures var s := RunSystem(u, hs);
            var b := s.state.books;
            var owed := Plus(SumMap(Found(u.prior, names)), KeptTotal(s.handled, u.ips));
            var held := Plus(SumMap(Accounts(b, names)), InHand(b));
            && CongruentLines(owed, held)
            && ((forall n :: n in names ==> Accounted(b, n) == Owed(b, InDatabase(u.prior, n), n)) ==> owed == held)
  {
    hide Plus, SumMap, CongruentLines, InHand, NextSystem, StepsOf, InDatabase, Accounted, KeptTotal, Run;
    var s := RunSystem(u, hs);
    var b := s.state.books;
    var found, credited := Found(u.prior, names), map n | n in names :: Get(b.credited, n);
    var owed := map n | n in names :: Owed(b, InDatabase(u.prior, n), n);
    SystemRunsProtocol(u, hs);
    forall n | n in names ensures CongruentLines(owed[n], Accounts(b, names)[n]) {
      Conservation(StepsTaken(u, hs), u.prior, u.interval, n);
    }
    SumMapCongruent(owed, Accounts(b, names));
    SumMapPlus(found, credited);
    assert owed == map n | n in found :: Plus(found[n], credited[n]);
    SumMapFilled(b.credited, names);
    CreditedIsKept(u, hs);
    PlusAssociates(SumMap(found), SumMap(b.credited), InHand(b));
    CongruentSelf(InHand(b));
    CongruentSums(SumMap(owed), SumMap(Accounts(b, names)), InHand(b), InHand(b));
    if forall n :: n in names ==> Accounted(b, n) == Owed(b, InDatabase(u.prior, n), n) {
      assert owed == Accounts(b, names);
    }
  }
}
