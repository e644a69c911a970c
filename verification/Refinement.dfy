/** The storage object and the locals its clients lend it follow the protocol: each critical section
    is a step of it, in any run. */
module Refinement {
  import opened Basics
  import opened Packets
  import opened Traffic
  import opened Database
  import opened Protocol
  import opened LiveStream
  import opened TrafficStore

  /** The locals of one iteration of a client's loop. */
  datatype Lent = Lent(await: Mutex, trafficMap: Cell<TrafficMap>, interval: Cell<int>)

  /** The objects behind the addresses of a run, those of ended iterations included. */
  type Objects = map<Addr, Lent>

  ghost predicate Apart(o: Objects) {
    forall a, b :: a in o && b in o && a != b ==>
      o[a].await != o[b].await && o[a].trafficMap != o[b].trafficMap && o[a].interval != o[b].interval
  }

  /** Only iterations that began have objects. */
  ghost predicate Begun(l: Live, o: Objects) {
    forall a :: a in o ==> a.client in l.clients && a.frame <= l.clients[a.client].frame
  }

  /** An interval not yet set says nothing about its variable. */
  ghost predicate ShowsLocals(x: Locals, lent: Lent)
    reads lent.await, lent.trafficMap, lent.interval
  {
    && lent.await.locked == x.locked && lent.trafficMap.value == x.traffic
    && (x.interval.Some? ==> lent.interval.value == x.interval.value)
  }

  ghost predicate PointsTo(hook: Option<Addr>, o: Objects,
                           mutex: Mutex?, traffic: Cell?<TrafficMap>, interval: Cell?<int>)
  {
    match hook
    case None => mutex == null && traffic == null && interval == null
    case Some(a) => a in o && mutex == o[a].await && traffic == o[a].trafficMap && interval == o[a].interval
  }

  /** The three hooks are always set together, and point at the objects of one address. */
  ghost predicate ShowsHooks(t: TrafficStorage, l: Live, o: Objects)
    reads t`mAPIWaiting, t`apiMutex, t`apiTrafficMap, t`apiInterval
  {
    && t.mAPIWaiting == l.waiting
    && l.apiTrafficMap == l.apiMutex && l.apiInterval == l.apiMutex
    && PointsTo(l.apiMutex, o, t.apiMutex, t.apiTrafficMap, t.apiInterval)
  }

  /** The hooks and the lent locals are in this state of the handshake. */
  ghost predicate ShowsLive(t: TrafficStorage, l: Live, o: Objects)
    reads t`mAPIWaiting, t`apiMutex, t`apiTrafficMap, t`apiInterval
    reads set a | a in o :: o[a].await
    reads set a | a in o :: o[a].trafficMap
    reads set a | a in o :: o[a].interval
  {
    && Apart(o) && Begun(l, o) && ShowsHooks(t, l, o)
    && forall a :: a in l.locals ==> a in o && ShowsLocals(l.locals[a], o[a])
  }

  /** The storage, its database and the lent locals are in this state of the protocol. */
  ghost predicate Shows(t: TrafficStorage, s: State, o: Objects)
    reads t, t.mDB, t.apiMutex
    reads set a | a in o :: o[a].await
    reads set a | a in o :: o[a].trafficMap
    reads set a | a in o :: o[a].interval
  {
    && t.Valid() && t.mApplicationTraffic == s.books.traffic && t.mDB.mTables == s.books.tables
    && ShowsLive(t, s.live, o)
  }

  // ----- runs

  lemma StepFromRun(steps: seq<Step>, step: Step, prior: Tables, interval: int)
    ensures Run(steps + [step], prior, interval) == Next(Run(steps, prior, interval), interval, step)
  {
    assert (steps + [step])[..|steps|] == steps;
  }

  /** While a reference is good its line is in the map. */
  ghost predicate HeldLineIsThere(b: Books) {
    b.adding.Held? && b.adding.epoch == b.epoch ==> b.adding.name in b.traffic
  }

  lemma {:induction false} ReferenceIsGood(steps: seq<Step>, prior: Tables, interval: int)
    ensures var b := Run(steps, prior, interval).books;
            HeldLineIsThere(b) && (b.adding.Held? ==> b.adding.epoch <= b.epoch)
  {
    hide NextLive, Deposited, AddMaps, RefusedLines, InMemory, Plus;
    if steps != [] {
      ReferenceIsGood(steps[..|steps| - 1], prior, interval);
    }
  }

  /** A daemon starts in the first state of the protocol. */
  method StartTurn(interval: int, prior: Tables) returns (t: TrafficStorage)
    ensures fresh(t) && fresh(t.mDB) && t.mInterval == interval
    ensures Shows(t, Run([], prior, interval), map[])
  {
    var db := new DBController(prior);
    t := new TrafficStorage(interval, db);
  }

  // ----- the sniffer

  method FetchTurn(t: TrafficStorage, name: string, dir: Direction, len: int,
                   ghost steps: seq<Step>, ghost prior: Tables, ghost o: Objects)
    requires Shows(t, Run(steps, prior, t.mInterval), o)
    requires Run(steps, prior, t.mInterval).books.adding.NoReference?
    modifies t`mApplicationTraffic
    ensures Shows(t, Run(steps + [Fetch(name, dir, len)], prior, t.mInterval), o)
  {
    hide Run, InMemory, Inv;
    StepFromRun(steps, Fetch(name, dir, len), prior, t.mInterval);
    t.TouchLine(name);
  }

  /** The locked part of add, its reference still good. */
  method CreditTurn(t: TrafficStorage, name: string, pkt: Packet,
                    ghost steps: seq<Step>, ghost prior: Tables, ghost o: Objects)
    requires Shows(t, Run(steps, prior, t.mInterval), o)
    requires var b := Run(steps, prior, t.mInterval).books;
             b.adding == Held(name, Contribution(pkt.direction, pkt.len), b.epoch)
    modifies t`mApplicationTraffic
    ensures Shows(t, Run(steps + [Credit], prior, t.mInterval), o)
  {
    hide Run, InMemory, Inv, Contribution, Plus;
    StepFromRun(steps, Credit, prior, t.mInterval);
    ReferenceIsGood(steps, prior, t.mInterval);
    t.CreditLine(name, pkt);
  }

  // ----- the deposit loop

  /** The live state after a hand-over: the locals the hooks point at are set and unlocked. */
  ghost predicate HandedOver(l: Live, l': Live, traffic: TrafficMap, interval: int) {
    if !l.waiting then l' == l
    else
      && l.apiMutex.Some? && l.apiMutex.value in l.locals && l.locals[l.apiMutex.value].locked
      && l' == l.(waiting := false, locals := l.locals[l.apiMutex.value := Locals(false, traffic, Some(interval))])
  }

  lemma DepositHandsOver(s: State, interval: int, now: int)
    requires !s.live.fault && Hook(s.live)
    requires s.live.apiTrafficMap == s.live.apiMutex && s.live.apiInterval == s.live.apiMutex
    ensures var s' := Next(s, interval, Deposit(now));
            && HandedOver(s.live, s'.live, s.books.traffic, interval)
            && s'.books.traffic == map[] && s'.books.tables == Deposited(s.books.tables, s.books.traffic, now)
  {
    hide Deposited, AddMaps, RefusedLines;
    var l := s.live;
    if l.waiting {
      var c :| Blocked(l, c);
      assert HookedTo(l, c);
      var l' := HandOver(l, s.books.traffic, interval);
      assert l'.locals == l.locals[AddrOf(l, c) := Locals(false, s.books.traffic, Some(interval))];
    }
  }

  method DepositLive(t: TrafficStorage, now: int, ghost l: Live, ghost l': Live, ghost o: Objects)
    requires t.Valid() && ShowsLive(t, l, o) && HandedOver(l, l', t.mApplicationTraffic, t.mInterval)
    modifies t`mApplicationTraffic, t`mAPIWaiting, t.mDB, t.apiMutex, t.apiTrafficMap, t.apiInterval
    ensures t.Valid() && ShowsLive(t, l', o) && t.mApplicationTraffic == map[]
    ensures t.mDB.mTables == Deposited(old(t.mDB.mTables), old(t.mApplicationTraffic), now)
  {
    hide InMemory, Deposited;
    t.Deposit(now);
  }

  /** One turn of the deposit loop. */
  method DepositTurn(t: TrafficStorage, now: int, ghost steps: seq<Step>, ghost prior: Tables, ghost o: Objects)
    requires Shows(t, Run(steps, prior, t.mInterval), o)
    modifies t`mApplicationTraffic, t`mAPIWaiting, t.mDB, t.apiMutex, t.apiTrafficMap, t.apiInterval
    ensures Shows(t, Run(steps + [Deposit(now)], prior, t.mInterval), o)
  {
    ghost var s := Run(steps, prior, t.mInterval);
    RunKeeps(steps, prior, t.mInterval);
    StepFromRun(steps, Deposit(now), prior, t.mInterval);
    DepositHandsOver(s, t.mInterval, now);
    hide Run, Next, InMemory, Deposited, Inv, ShowsLive, HandedOver;
    DepositLive(t, now, s.live, Next(s, t.mInterval, Deposit(now)).live, o);
  }

  // ----- the clients

  /** The client's next iteration begins: its locals are new. */
  ghost predicate Begins(l: Live, l': Live, a: Addr) {
    && a !in l.locals
    && (a.client in l.clients ==> l.clients[a.client].frame < a.frame)
    && l'.clients.Keys == l.clients.Keys + {a.client}
    && (forall c :: c in l'.clients && c != a.client ==> l'.clients[c].frame == l.clients[c].frame)
    && l'.clients[a.client].frame == a.frame
    && l'.locals.Keys <= l.locals.Keys + {a} && a in l'.locals && l'.locals[a] == FRESH_LOCALS
    && (forall b :: b in l'.locals && b != a ==> l'.locals[b] == l.locals[b])
    && l'.waiting == l.waiting && l'.apiMutex == l.apiMutex
    && l'.apiTrafficMap == l.apiTrafficMap && l'.apiInterval == l.apiInterval
  }

  method NewLocals(t: TrafficStorage, unset: int, ghost a: Addr, ghost l: Live, ghost l': Live, ghost o: Objects)
    returns (lent: Lent)
    requires ShowsLive(t, l, o) && Begins(l, l', a)
    ensures fresh(lent.await) && fresh(lent.trafficMap) && fresh(lent.interval)
    ensures ShowsLive(t, l', o[a := lent])
  {
    var await := new Mutex();
    var trafficMap := new Cell<TrafficMap>(map[]);
    var interval := new Cell<int>(unset);
    lent := Lent(await, trafficMap, interval);
    ghost var o' := o[a := lent];
    AddressIsNew(l, l', a, o);
    assert Apart(o');
    forall b | b in l'.locals ensures b in o' && ShowsLocals(l'.locals[b], o'[b]) {
      if b != a { assert b in l.locals; }
    }
  }

  lemma AddressIsNew(l: Live, l': Live, a: Addr, o: Objects)
    requires Begun(l, o) && Begins(l, l', a)
    ensures a !in o
    ensures forall b :: b in o || b == a ==> b.client in l'.clients && b.frame <= l'.clients[b.client].frame
  {
  }

  lemma ConnectBegins(s: State, interval: int, client: int)
    requires Inv(s.live, s.books.deposits, interval) && client !in s.live.clients
    ensures var s' := Next(s, interval, Connect(client));
            s'.books == s.books && Begins(s.live, s'.live, Addr(client, 0))
  {
    hide Hook, Exclusive, Good;
  }

  lemma LeaveBegins(s: State, interval: int, client: int)
    requires Inv(s.live, s.books.deposits, interval)
    requires client in s.live.clients && s.live.clients[client].pc == Serving
    ensures var s' := Next(s, interval, Leave(client, true));
            s'.books == s.books && Begins(s.live, s'.live, Addr(client, s.live.clients[client].frame + 1))
  {
    assert Good(s.live, s.books.deposits, interval, client);
    hide Hook, Exclusive, HistoryOf;
  }

  /** A client thread starts: the locals of its first iteration, the interval not yet set. */
  method ConnectTurn(t: TrafficStorage, client: int, unset: int,
                     ghost steps: seq<Step>, ghost prior: Tables, ghost o: Objects) returns (lent: Lent)
    requires Shows(t, Run(steps, prior, t.mInterval), o)
    requires client !in Run(steps, prior, t.mInterval).live.clients
    ensures fresh(lent.await) && fresh(lent.trafficMap) && fresh(lent.interval)
    ensures Shows(t, Run(steps + [Connect(client)], prior, t.mInterval), o[Addr(client, 0) := lent])
  {
    ghost var s := Run(steps, prior, t.mInterval);
    RunKeeps(steps, prior, t.mInterval);
    StepFromRun(steps, Connect(client), prior, t.mInterval);
    ConnectBegins(s, t.mInterval, client);
    hide Run, Next, InMemory, Inv, ShowsLive, Begins;
    lent := NewLocals(t, unset, Addr(client, 0), s.live, Next(s, t.mInterval, Connect(client)).live, o);
  }

  /** The end of an iteration whose message was sent: the next one has locals of its own. */
  method AgainTurn(t: TrafficStorage, client: int, unset: int, ghost a: Addr,
                   ghost steps: seq<Step>, ghost prior: Tables, ghost o: Objects) returns (lent: Lent)
    requires Shows(t, Run(steps, prior, t.mInterval), o)
    requires var l := Run(steps, prior, t.mInterval).live;
             client in l.clients && l.clients[client].pc == Serving && a == Addr(client, l.clients[client].frame + 1)
    ensures fresh(lent.await) && fresh(lent.trafficMap) && fresh(lent.interval)
    ensures Shows(t, Run(steps + [Leave(client, true)], prior, t.mInterval), o[a := lent])
  {
    ghost var s := Run(steps, prior, t.mInterval);
    RunKeeps(steps, prior, t.mInterval);
    StepFromRun(steps, Leave(client, true), prior, t.mInterval);
    LeaveBegins(s, t.mInterval, client);
    hide Run, Next, InMemory, Inv, ShowsLive, Begins;
    lent := NewLocals(t, unset, a, s.live, Next(s, t.mInterval, Leave(client, true)).live, o);
  }

  /** The live state after a call of awaitSnapshot: refused, the client's locals end. */
  ghost predicate Registered(l: Live, l': Live, a: Addr) {
    && a in l.locals && !l.locals[a].locked
    && l'.clients.Keys == l.clients.Keys
    && (forall c :: c in l.clients ==> l'.clients[c].frame == l.clients[c].frame)
    && l'.locals == (if l.waiting then l.locals - {a} else l.locals[a := l.locals[a].(locked := true)])
    && l'.waiting
    && l'.apiMutex == (if l.waiting then l.apiMutex else Some(a))
    && l'.apiTrafficMap == (if l.waiting then l.apiTrafficMap else Some(a))
    && l'.apiInterval == (if l.waiting then l.apiInterval else Some(a))
  }

  lemma RegisterRegisters(s: State, interval: int, client: int)
    requires Inv(s.live, s.books.deposits, interval)
    requires client in s.live.clients && s.live.clients[client].pc == Starting
    ensures var s' := Next(s, interval, Register(client));
            s'.books == s.books && Registered(s.live, s'.live, AddrOf(s.live, client))
  {
    assert Good(s.live, s.books.deposits, interval, client);
    hide Inv, HistoryOf, Hook, Exclusive;
  }

  method RegisterLive(t: TrafficStorage, a: Addr, lent: Lent, ghost l: Live, ghost l': Live, ghost o: Objects)
    returns (ok: bool)
    requires t.Valid() && ShowsLive(t, l, o) && Registered(l, l', a) && a in o && lent == o[a]
    modifies t`mAPIWaiting, t`apiMutex, t`apiTrafficMap, t`apiInterval, lent.await
    ensures ok == !l.waiting
    ensures t.Valid() && ShowsLive(t, l', o)
  {
    hide InMemory;
    ok := t.AwaitSnapshot(lent.await, lent.trafficMap, lent.interval);
  }

  /** awaitSnapshot, called by a client at the top of its loop. */
  method RegisterTurn(t: TrafficStorage, a: Addr, lent: Lent,
                      ghost steps: seq<Step>, ghost prior: Tables, ghost o: Objects) returns (ok: bool)
    requires Shows(t, Run(steps, prior, t.mInterval), o)
    requires var l := Run(steps, prior, t.mInterval).live;
             a.client in l.clients && l.clients[a.client].pc == Starting && a == AddrOf(l, a.client)
    requires a in o && lent == o[a]
    modifies t`mAPIWaiting, t`apiMutex, t`apiTrafficMap, t`apiInterval, lent.await
    ensures ok == !Run(steps, prior, t.mInterval).live.waiting
    ensures Shows(t, Run(steps + [Register(a.client)], prior, t.mInterval), o)
  {
    ghost var s := Run(steps, prior, t.mInterval);
    RunKeeps(steps, prior, t.mInterval);
    StepFromRun(steps, Register(a.client), prior, t.mInterval);
    RegisterRegisters(s, t.mInterval, a.client);
    hide Run, Next, InMemory, Inv, ShowsLive, Registered;
    ok := RegisterLive(t, a, lent, s.live, Next(s, t.mInterval, Register(a.client)).live, o);
  }

  /** The live state after await.lock() returned. */
  ghost predicate Woken(l: Live, l': Live, a: Addr, interval: int) {
    && a in l.locals && l.locals[a].interval == Some(interval)
    && l'.clients.Keys == l.clients.Keys
    && (forall c :: c in l.clients ==> l'.clients[c].frame == l.clients[c].frame)
    && l'.locals == l.locals[a := l.locals[a].(locked := true)]
    && a.client in l.clients
    && l'.clients[a.client].received == l.clients[a.client].received + [l.locals[a].traffic]
    && l'.waiting == l.waiting && l'.apiMutex == l.apiMutex
    && l'.apiTrafficMap == l.apiTrafficMap && l'.apiInterval == l.apiInterval
    && (l.waiting ==> l.apiMutex != Some(a))
  }

  lemma WakeWakes(s: State, interval: int, client: int)
    requires Inv(s.live, s.books.deposits, interval)
    requires client in s.live.clients && s.live.clients[client].pc == Blocking && !Blocked(s.live, client)
    ensures var s' := Next(s, interval, Wake(client));
            s'.books == s.books && Woken(s.live, s'.live, AddrOf(s.live, client), interval)
  {
    assert Good(s.live, s.books.deposits, interval, client);
    if s.live.waiting {
      var c :| Blocked(s.live, c);
      assert HookedTo(s.live, c);
    }
    hide Inv, Hook, Exclusive, Rising, Received;
  }

  method WakeLive(t: TrafficStorage, a: Addr, lent: Lent, ghost l: Live, ghost l': Live, ghost o: Objects)
    returns (traffic: TrafficMap, interval: int)
    requires t.Valid() && ShowsLive(t, l, o) && Woken(l, l', a, t.mInterval) && a in o && lent == o[a]
    requires !lent.await.locked
    modifies lent.await
    ensures t.Valid() && ShowsLive(t, l', o)
    ensures traffic == l.locals[a].traffic && interval == t.mInterval
  {
    hide InMemory;
    assert ShowsLocals(l.locals[a], lent);
    lent.await.locked := true;
    traffic, interval := lent.trafficMap.value, lent.interval.value;
  }

  lemma UnlockedIsFree(t: TrafficStorage, l: Live, o: Objects, client: int)
    requires ShowsLive(t, l, o) && client in l.clients && AddrOf(l, client) in o
    requires !o[AddrOf(l, client)].await.locked
    ensures !Blocked(l, client)
  {
  }

  /** await.lock() returns, and the client reads its locals: the interval, and the map it receives. */
  method WakeTurn(t: TrafficStorage, a: Addr, lent: Lent, ghost steps: seq<Step>, ghost prior: Tables, ghost o: Objects)
    returns (traffic: TrafficMap, interval: int)
    requires Shows(t, Run(steps, prior, t.mInterval), o)
    requires var l := Run(steps, prior, t.mInterval).live;
             a.client in l.clients && l.clients[a.client].pc == Blocking && a == AddrOf(l, a.client)
    requires a in o && lent == o[a] && !lent.await.locked
    modifies lent.await
    ensures interval == t.mInterval
    ensures var s, s' := Run(steps, prior, t.mInterval), Run(steps + [Wake(a.client)], prior, t.mInterval);
            && Shows(t, s', o)
            && a.client in s'.live.clients
            && s'.live.clients[a.client].received == s.live.clients[a.client].received + [traffic]
  {
    ghost var s := Run(steps, prior, t.mInterval);
    RunKeeps(steps, prior, t.mInterval);
    StepFromRun(steps, Wake(a.client), prior, t.mInterval);
    UnlockedIsFree(t, s.live, o, a.client);
    WakeWakes(s, t.mInterval, a.client);
    hide Run, Next, InMemory, Inv, ShowsLive;
    traffic, interval := WakeLive(t, a, lent, s.live, Next(s, t.mInterval, Wake(a.client)).live, o);
  }
}
