/** The live-stream handshake, for any number of clients and any run. */
module LiveStream {
  import opened Basics
  import opened Traffic
  import opened Database
  import opened Protocol

  /** The client waits at await.lock() on its own locked mutex. */
  ghost predicate Blocked(l: Live, c: int) {
    c in l.clients && l.clients[c].pc == Blocking && AddrOf(l, c) in l.locals && l.locals[AddrOf(l, c)].locked
  }

  /** A client has live locals iff it is open, and only those of its present iteration; before a
      registration their mutex is unlocked. */
  ghost predicate ShapeOf(l: Live, c: int) {
    && c in l.clients
    && (forall f :: Addr(c, f) in l.locals <==> l.clients[c].pc != Closed && f == l.clients[c].frame)
    && (l.clients[c].pc == Starting ==> !l.locals[AddrOf(l, c)].locked)
  }

  /** The hooks point at the locals of client c. */
  ghost predicate HookedTo(l: Live, c: int) {
    && c in l.clients && AddrOf(l, c) in l.locals
    && l.apiMutex == Some(AddrOf(l, c)) && l.apiTrafficMap == Some(AddrOf(l, c)) && l.apiInterval == Some(AddrOf(l, c))
  }

  /** A client is waited for iff one is blocked, and the hooks are that client's live locals. */
  ghost predicate Hook(l: Live) {
    && (l.waiting ==> exists c :: Blocked(l, c))
    && (forall c :: Blocked(l, c) ==> l.waiting && HookedTo(l, c))
  }

  /** What client c has registered for and received, against the deposits made. */
  ghost predicate HistoryOf(l: Live, deposits: seq<DepositRecord>, interval: int, c: int) {
    && c in l.clients
    && Rising(l.clients[c].claims)
    && Received(l.clients[c], deposits)
    && (l.clients[c].pc == Blocking ==>
          AddrOf(l, c) in l.locals && Awaits(l.clients[c], l.locals[AddrOf(l, c)], deposits, interval))
  }

  ghost predicate Rising(claims: seq<nat>) {
    forall i, j :: 0 <= i < j < |claims| ==> claims[i] < claims[j]
  }

  /** Every map received is that of the deposit claimed; a blocking client has one claim open. */
  ghost predicate Received(cl: Client, deposits: seq<DepositRecord>) {
    && |cl.claims| == |cl.received| + (if cl.pc == Blocking then 1 else 0)
    && forall k :: 0 <= k < |cl.received| ==>
         cl.claims[k] < |deposits| && cl.received[k] == deposits[cl.claims[k]].traffic
  }

  /** The open claim is for the next deposit while the mutex is locked, and afterwards for one whose
      map and interval the locals hold. */
  ghost predicate Awaits(cl: Client, x: Locals, deposits: seq<DepositRecord>, interval: int) {
    && cl.claims != []
    && var k := cl.claims[|cl.claims| - 1];
       if x.locked then k == |deposits|
       else k < |deposits| && x.traffic == deposits[k].traffic && x.interval == Some(interval)
  }

  /** No deposit is claimed twice. */
  ghost predicate Exclusive(l: Live) {
    forall c, d, i, j ::
      (c in l.clients && d in l.clients && 0 <= i < |l.clients[c].claims| && 0 <= j < |l.clients[d].claims|
       && l.clients[c].claims[i] == l.clients[d].claims[j])
      ==> c == d && i == j
  }

  ghost predicate Good(l: Live, deposits: seq<DepositRecord>, interval: int, c: int) {
    ShapeOf(l, c) && HistoryOf(l, deposits, interval, c)
  }

  ghost predicate Inv(l: Live, deposits: seq<DepositRecord>, interval: int) {
    && !l.fault && Hook(l) && Exclusive(l)
    && (forall a :: a in l.locals ==> a.client in l.clients)
    && (forall c :: c in l.clients ==> Good(l, deposits, interval, c))
  }

  // ----- steps of one client

  /** Nothing of the other clients changes. */
  ghost predicate OnlyClient(l: Live, l': Live, c: int) {
    && l'.fault == l.fault
    && (forall d :: d != c ==>
          (d in l.clients <==> d in l'.clients) && (d in l.clients ==> l'.clients[d] == l.clients[d]))
    && (forall a: Addr :: a.client != c ==>
          (a in l.locals <==> a in l'.locals) && (a in l.locals ==> l'.locals[a] == l.locals[a]))
  }

  lemma OthersStayGood(l: Live, l': Live, deposits: seq<DepositRecord>, interval: int, c: int, d: int)
    requires OnlyClient(l, l', c) && d != c
    ensures Blocked(l', d) <==> Blocked(l, d)
    ensures Good(l, deposits, interval, d) ==> Good(l', deposits, interval, d)
  {
    hide Rising, Received, Awaits;
    if Good(l, deposits, interval, d) {
      assert AddrOf(l', d) == AddrOf(l, d);
      forall f ensures Addr(d, f) in l'.locals <==> l'.clients[d].pc != Closed && f == l'.clients[d].frame {
        assert Addr(d, f) in l'.locals <==> Addr(d, f) in l.locals;
      }
    }
  }

  lemma OthersStayHooked(l: Live, l': Live, c: int, d: int)
    requires OnlyClient(l, l', c) && d != c && HookedTo(l, d)
    requires l'.apiMutex == l.apiMutex && l'.apiTrafficMap == l.apiTrafficMap && l'.apiInterval == l.apiInterval
    ensures HookedTo(l', d)
  {
  }

  /** A step of a client that is not blocked before or after, and claims nothing new. */
  lemma LocalStep(l: Live, l': Live, deposits: seq<DepositRecord>, interval: int, c: int)
    requires Inv(l, deposits, interval) && OnlyClient(l, l', c) && Good(l', deposits, interval, c)
    requires !Blocked(l, c) && !Blocked(l', c)
    requires l'.apiMutex == l.apiMutex && l'.apiTrafficMap == l.apiTrafficMap && l'.apiInterval == l.apiInterval
    requires l'.waiting == l.waiting
    requires l'.clients[c].claims == if c in l.clients then l.clients[c].claims else []
    ensures Inv(l', deposits, interval)
  {
    assert c in l'.clients;
    hide Good, HookedTo;
    forall d | d in l'.clients ensures Good(l', deposits, interval, d) {
      if d != c {
        assert d in l.clients;
        OthersStayGood(l, l', deposits, interval, c, d);
      }
    }
    HookStays(l, l', deposits, interval, c);
    assert Exclusive(l') by {
      hide Blocked, Hook;
    }
    forall a | a in l'.locals ensures a.client in l'.clients {
      if a.client != c { assert a in l.locals; }
    }
  }

  lemma HookStays(l: Live, l': Live, deposits: seq<DepositRecord>, interval: int, c: int)
    requires Hook(l) && OnlyClient(l, l', c) && !Blocked(l, c) && !Blocked(l', c)
    requires l'.apiMutex == l.apiMutex && l'.apiTrafficMap == l.apiTrafficMap && l'.apiInterval == l.apiInterval
    requires l'.waiting == l.waiting
    ensures Hook(l')
  {
    hide Blocked, HookedTo, OnlyClient;
    if l'.waiting {
      var d :| Blocked(l, d);
      OthersStayGood(l, l', deposits, interval, c, d);
      assert Blocked(l', d);
    }
    forall d | Blocked(l', d) ensures l'.waiting && HookedTo(l', d) {
      OthersStayGood(l, l', deposits, interval, c, d);
      OthersStayHooked(l, l', c, d);
    }
  }

  lemma ConnectKeeps(l: Live, b: Books, interval: int, c: int)
    requires Inv(l, b.deposits, interval) && c !in l.clients
    ensures Inv(NextLive(l, b, interval, Connect(c)), b.deposits, interval)
  {
    hide Hook, Exclusive;
    var l' := NextLive(l, b, interval, Connect(c));
    assert forall f :: Addr(c, f) !in l.locals;
    assert Good(l', b.deposits, interval, c);
    LocalStep(l, l', b.deposits, interval, c);
  }

  /** A client not at await.lock() can go: its locals die with it. */
  lemma ClosingKeeps(l: Live, deposits: seq<DepositRecord>, interval: int, c: int)
    requires Inv(l, deposits, interval)
    requires c in l.clients && l.clients[c].pc in {Starting, Serving}
    ensures Inv(l.(clients := l.clients[c := l.clients[c].(pc := Closed)], locals := l.locals - {AddrOf(l, c)}),
             deposits, interval)
  {
    hide Hook, Exclusive;
    var l' := l.(clients := l.clients[c := l.clients[c].(pc := Closed)], locals := l.locals - {AddrOf(l, c)});
    assert Good(l, deposits, interval, c);
    assert Good(l', deposits, interval, c);
    LocalStep(l, l', deposits, interval, c);
  }

  lemma WakeKeeps(l: Live, b: Books, interval: int, c: int)
    requires Inv(l, b.deposits, interval)
    requires c in l.clients && l.clients[c].pc == Blocking && !Blocked(l, c)
    ensures Inv(NextLive(l, b, interval, Wake(c)), b.deposits, interval)
  {
    hide Hook, Exclusive, Rising;
    var l' := NextLive(l, b, interval, Wake(c));
    assert Good(l, b.deposits, interval, c);
    assert Good(l', b.deposits, interval, c);
    LocalStep(l, l', b.deposits, interval, c);
  }

  lemma LeaveKeeps(l: Live, b: Books, interval: int, c: int)
    requires Inv(l, b.deposits, interval)
    requires c in l.clients && l.clients[c].pc == Serving
    ensures Inv(NextLive(l, b, interval, Leave(c, true)), b.deposits, interval)
  {
    hide Hook, Exclusive, Rising, Awaits;
    var l' := NextLive(l, b, interval, Leave(c, true));
    assert Good(l, b.deposits, interval, c);
    assert ShapeOf(l', c);
    assert HistoryOf(l', b.deposits, interval, c);
    LocalStep(l, l', b.deposits, interval, c);
  }

  /** While nobody is registered every claim is for a deposit already made. */
  lemma ClaimsAreMade(l: Live, deposits: seq<DepositRecord>, interval: int, d: int, j: nat)
    requires Inv(l, deposits, interval) && !l.waiting
    requires d in l.clients && j < |l.clients[d].claims|
    ensures l.clients[d].claims[j] < |deposits|
  {
    assert Good(l, deposits, interval, d);
    assert !Blocked(l, d);
  }

  /** A registration claims the next deposit, which nobody has claimed. */
  lemma RegisterKeeps(l: Live, b: Books, interval: int, c: int)
    requires Inv(l, b.deposits, interval)
    requires c in l.clients && l.clients[c].pc == Starting && !l.waiting
    ensures Inv(NextLive(l, b, interval, Register(c)), b.deposits, interval)
    ensures Blocked(NextLive(l, b, interval, Register(c)), c)
  {
    var l' := NextLive(l, b, interval, Register(c));
    RegisterFacts(l, b, interval, c);
    hide NextLive, HookedTo, ShapeOf, HistoryOf;
    forall d | d in l'.clients ensures Good(l', b.deposits, interval, d) {
      if d != c { OthersStayGood(l, l', b.deposits, interval, c, d); }
    }
    forall d | Blocked(l', d) ensures l'.waiting && HookedTo(l', d) {
      if d != c { OthersStayGood(l, l', b.deposits, interval, c, d); }
    }
    forall a | a in l'.locals ensures a.client in l'.clients {
      if a.client != c { assert a in l.locals; }
    }
    RegisterExclusive(l, l', b.deposits, interval, c);
  }

  lemma RegisterFacts(l: Live, b: Books, interval: int, c: int)
    requires Inv(l, b.deposits, interval)
    requires c in l.clients && l.clients[c].pc == Starting && !l.waiting
    ensures var l' := NextLive(l, b, interval, Register(c));
            && OnlyClient(l, l', c) && Blocked(l', c) && HookedTo(l', c) && l'.waiting
            && Good(l', b.deposits, interval, c)
            && l'.clients[c].claims == l.clients[c].claims + [|b.deposits|]
  {
    hide Hook, Exclusive;
    assert Good(l, b.deposits, interval, c);
    forall j | 0 <= j < |l.clients[c].claims| ensures l.clients[c].claims[j] < |b.deposits| {
      assert l.clients[c].claims[j] < |b.deposits|;
    }
  }

  lemma RegisterExclusive(l: Live, l': Live, deposits: seq<DepositRecord>, interval: int, c: int)
    requires Inv(l, deposits, interval) && !l.waiting && OnlyClient(l, l', c)
    requires c in l.clients && c in l'.clients && l'.clients[c].claims == l.clients[c].claims + [|deposits|]
    ensures Exclusive(l')
  {
    forall d, j | d in l.clients && 0 <= j < |l.clients[d].claims| ensures l.clients[d].claims[j] < |deposits| {
      ClaimsAreMade(l, deposits, interval, d, j);
    }
    hide Blocked, Hook, Good;
  }

  // ----- the deposit step

  lemma HandOverFacts(l: Live, traffic: TrafficMap, interval: int)
    requires !l.fault && Hook(l)
    ensures var l' := HandOver(l, traffic, interval);
            && !l'.fault && !l'.waiting && l'.clients == l.clients && l'.locals.Keys == l.locals.Keys
            && (forall c :: c in l.clients && AddrOf(l, c) in l.locals ==>
                  l'.locals[AddrOf(l, c)] ==
                  if Blocked(l, c) then Locals(false, traffic, Some(interval)) else l.locals[AddrOf(l, c)])
  {
    if l.waiting {
      var c :| Blocked(l, c);
      assert HookedTo(l, c);
      forall d | Blocked(l, d) ensures d == c {
        assert HookedTo(l, d);
      }
    }
  }

  lemma DepositKeeps(l: Live, deposits: seq<DepositRecord>, interval: int, d: DepositRecord)
    requires Inv(l, deposits, interval)
    ensures Inv(HandOver(l, d.traffic, interval), deposits + [d], interval)
    ensures forall c :: !Blocked(HandOver(l, d.traffic, interval), c)
  {
    var l' := HandOver(l, d.traffic, interval);
    HandOverFacts(l, d.traffic, interval);
    hide HandOver, Exclusive, Hook;
    forall c | c in l'.clients ensures Good(l', deposits + [d], interval, c) && !Blocked(l', c) {
      assert Good(l, deposits, interval, c);
      ReleasedIsGood(l, l', deposits, interval, d, c);
    }
    assert Exclusive(l');
    assert Hook(l');
  }

  lemma ReleasedIsGood(l: Live, l': Live, deposits: seq<DepositRecord>, interval: int, d: DepositRecord, c: int)
    requires Good(l, deposits, interval, c)
    requires l'.clients == l.clients && l'.locals.Keys == l.locals.Keys
    requires AddrOf(l, c) in l.locals ==>
             l'.locals[AddrOf(l, c)] ==
             if Blocked(l, c) then Locals(false, d.traffic, Some(interval)) else l.locals[AddrOf(l, c)]
    ensures Good(l', deposits + [d], interval, c) && !Blocked(l', c)
  {
    forall f ensures Addr(c, f) in l'.locals <==> l'.clients[c].pc != Closed && f == l'.clients[c].frame {
      assert Addr(c, f) in l.locals.Keys <==> Addr(c, f) in l'.locals.Keys;
    }
  }

  lemma StepKeeps(l: Live, b: Books, interval: int, step: Step)
    requires Inv(l, b.deposits, interval)
    ensures Inv(NextLive(l, b, interval, step), NextBooks(b, step).deposits, interval)
  {
    hide Inv, Deposited, Credited, Touched, AddMaps, HandOver;
    match step
    case Deposit(now) => DepositKeeps(l, b.deposits, interval, DepositRecord(now, b.traffic, b.current));
    case Connect(c) => if c !in l.clients { ConnectKeeps(l, b, interval, c); }
    case Register(c) =>
      if c in l.clients && l.clients[c].pc == Starting {
        if l.waiting { ClosingKeeps(l, b.deposits, interval, c); } else { RegisterKeeps(l, b, interval, c); }
      }
    case Wake(c) =>
      if c in l.clients && l.clients[c].pc == Blocking && !Blocked(l, c) { WakeKeeps(l, b, interval, c); }
    case Leave(c, open) =>
      if c in l.clients && l.clients[c].pc == Serving {
        if open { LeaveKeeps(l, b, interval, c); } else { ClosingKeeps(l, b.deposits, interval, c); }
      }
    case _ =>
  }

  lemma {:induction false} RunKeeps(steps: seq<Step>, prior: Tables, interval: int)
    ensures var s := Run(steps, prior, interval);
            Inv(s.live, s.books.deposits, interval)
  {
    hide NextBooks, NextLive, Inv;
    if steps == [] {
      StartInv(prior, interval);
    } else {
      var s := Run(steps[..|steps| - 1], prior, interval);
      RunKeeps(steps[..|steps| - 1], prior, interval);
      StepKeeps(s.live, s.books, interval, steps[|steps| - 1]);
    }
  }

  lemma StartInv(prior: Tables, interval: int)
    ensures Inv(Start(prior).live, Start(prior).books.deposits, interval)
  {
  }

  // ----- what that means for clients

  /** Ownership of the borrowed pointers: in every run no dead local is written, a client is
      registered iff exactly one client is blocked on its own locked mutex, and the stored pointers
      are the live locals of that client. */
  lemma HandshakeSafety(steps: seq<Step>, prior: Tables, interval: int)
    ensures var l := Run(steps, prior, interval).live;
            && !l.fault
            && (l.waiting <==> exists c :: Blocked(l, c))
            && (forall c, d :: Blocked(l, c) && Blocked(l, d) ==> c == d)
            && (forall c :: Blocked(l, c) ==> HookedTo(l, c))
  {
    hide NextBooks, NextLive, HistoryOf;
    RunKeeps(steps, prior, interval);
    var l := Run(steps, prior, interval).live;
    forall c, d | Blocked(l, c) && Blocked(l, d) ensures c == d {
      assert HookedTo(l, c) && HookedTo(l, d);
    }
  }

  /** A deposit releases the registered client: afterwards nobody is blocked, and the client finds
      the deposited map and the interval in its locals and can go on. */
  lemma DepositReleases(steps: seq<Step>, prior: Tables, interval: int, now: int, c: int)
    requires Blocked(Run(steps, prior, interval).live, c)
    ensures var s, s' := Run(steps, prior, interval), Run(steps + [Deposit(now)], prior, interval);
            && !s'.live.waiting && (forall d :: !Blocked(s'.live, d))
            && AddrOf(s.live, c) in s'.live.locals
            && s'.live.locals[AddrOf(s.live, c)] == Locals(false, s.books.traffic, Some(interval))
            && s'.live.clients == s.live.clients
  {
    hide NextBooks, HistoryOf, HandOver;
    var s := Run(steps, prior, interval);
    RunKeeps(steps, prior, interval);
    assert (steps + [Deposit(now)])[..|steps|] == steps;
    HandOverFacts(s.live, s.books.traffic, interval);
    DepositKeeps(s.live, s.books.deposits, interval, DepositRecord(now, s.books.traffic, s.books.current));
  }

  /** When await.lock() returns, the interval is set and the map read is the one given to the
      database by the first deposit after the registration. */
  lemma WakeReadsNextDeposit(steps: seq<Step>, prior: Tables, interval: int, c: int)
    requires var l := Run(steps, prior, interval).live;
             c in l.clients && l.clients[c].pc == Blocking && !Blocked(l, c)
    ensures var s, s' := Run(steps, prior, interval), Run(steps + [Wake(c)], prior, interval);
            var cl, cl' := s.live.clients[c], s'.live.clients[c];
            && cl.claims != [] && cl.claims[|cl.claims| - 1] < |s.books.deposits|
            && AddrOf(s.live, c) in s.live.locals && s.live.locals[AddrOf(s.live, c)].interval == Some(interval)
            && cl'.pc == Serving && AddrOf(s.live, c) in s'.live.locals && s'.live.locals[AddrOf(s.live, c)].locked
            && cl'.received == cl.received + [s.books.deposits[cl.claims[|cl.claims| - 1]].traffic]
  {
    hide NextBooks, Exclusive;
    RunKeeps(steps, prior, interval);
    var s := Run(steps, prior, interval);
    assert (steps + [Wake(c)])[..|steps|] == steps;
    assert Good(s.live, s.books.deposits, interval, c);
  }

  /** A registration is for the next deposit to be made. */
  lemma RegistrationClaimsNext(steps: seq<Step>, prior: Tables, interval: int, c: int)
    requires var l := Run(steps, prior, interval).live;
             c in l.clients && l.clients[c].pc == Starting
    ensures var s, s' := Run(steps, prior, interval), Run(steps + [Register(c)], prior, interval);
            if s.live.waiting
            then s'.live.clients[c].pc == Closed && s'.live.clients[c].claims == s.live.clients[c].claims
            else Blocked(s'.live, c) && s'.live.clients[c].claims == s.live.clients[c].claims + [|s.books.deposits|]
  {
    hide NextBooks, Exclusive, HistoryOf;
    RunKeeps(steps, prior, interval);
    assert (steps + [Register(c)])[..|steps|] == steps;
    assert Good(Run(steps, prior, interval).live, Run(steps, prior, interval).books.deposits, interval, c);
  }

  /** What a client received is an order-preserving choice of the deposits, and no deposit reaches
      two clients or one client twice. */
  lemma StreamsAreDisjointSubsequences(steps: seq<Step>, prior: Tables, interval: int, c: int, d: int)
    requires c in Run(steps, prior, interval).live.clients && d in Run(steps, prior, interval).live.clients
    ensures var s := Run(steps, prior, interval);
            var x, y := s.live.clients[c], s.live.clients[d];
            && |x.received| <= |x.claims| && |y.received| <= |y.claims|
            && (forall i :: 0 <= i < |x.received| ==>
                  x.claims[i] < |s.books.deposits| && x.received[i] == s.books.deposits[x.claims[i]].traffic)
            && (forall i, j :: 0 <= i < j < |x.claims| ==> x.claims[i] < x.claims[j])
            && (c != d ==> forall i, j :: 0 <= i < |x.claims| && 0 <= j < |y.claims| ==> x.claims[i] != y.claims[j])
  {
    hide NextBooks, NextLive, Hook;
    RunKeeps(steps, prior, interval);
    var s := Run(steps, prior, interval);
    assert Good(s.live, s.books.deposits, interval, c) && Good(s.live, s.books.deposits, interval, d);
  }
}
