/** The daemon's threads around the traffic storage, as atomic steps: one per critical section of
    its mutex, and the unlocked first statement of add as a step of its own. */
module Protocol {
  import opened Basics
  import opened Packets
  import opened Traffic
  import opened Database

  datatype Step =
    | Fetch(name: string, dir: Direction, len: int)  // sniffer: add takes its line reference
    | Credit                                          // sniffer: add, under the lock
    | Deposit(now: int)                               // one turn of the deposit loop
    | Connect(client: int)                            // a live stream thread starts
    | Register(client: int)                           // awaitSnapshot
    | Wake(client: int)                               // await.lock() returns
    | Leave(client: int, open: bool)                  // end of a loop iteration; the peer is still there or not

  // ----- the traffic and where it goes

  /** The reference add holds between its two steps; epoch is the number of clears before it. */
  datatype Reference = NoReference | Held(name: string, added: Line, epoch: nat)

  /** A deposit: its time, the map deposited, and what had been credited since the one before. */
  datatype DepositRecord = DepositRecord(time: int, traffic: TrafficMap, credited: TrafficMap)

  /** Memory and database, with an account of every packet: credited in all, credited since the
      last deposit, refused by the database, and lost through a stale reference. */
  datatype Books = Books(traffic: TrafficMap, epoch: nat, adding: Reference, tables: Tables,
                         deposits: seq<DepositRecord>,
                         credited: TrafficMap, current: TrafficMap, dropped: TrafficMap, lost: TrafficMap)

  function AddOne(m: TrafficMap, name: string, l: Line): TrafficMap {
    m[name := Plus(Get(m, name), l)]
  }

  function RefusedLines(tables: Tables, traffic: TrafficMap, now: int): TrafficMap {
    map n | n in traffic && Refused(tables, n, now) :: traffic[n]
  }

  /** The locked half of add: a reference no clear has invalidated reaches memory. */
  function PayIn(b: Books): Books
    requires b.adding.Held?
  {
    var name, l, alive := b.adding.name, b.adding.added, b.adding.epoch == b.epoch;
    Books(if alive then Credited(b.traffic, name, l) else b.traffic, b.epoch, NoReference, b.tables, b.deposits,
          AddOne(b.credited, name, l), if alive then AddOne(b.current, name, l) else b.current,
          b.dropped, if alive then b.lost else AddOne(b.lost, name, l))
  }

  function NextBooks(b: Books, step: Step): Books {
    match step
    case Fetch(name, dir, len) =>
      if b.adding.Held? then b
      else b.(traffic := Touched(b.traffic, name), adding := Held(name, Contribution(dir, len), b.epoch))
    case Credit => if b.adding.NoReference? then b else PayIn(b)
    case Deposit(now) =>
      b.(traffic := map[], epoch := b.epoch + 1, tables := Deposited(b.tables, b.traffic, now),
         deposits := b.deposits + [DepositRecord(now, b.traffic, b.current)],
         current := map[], dropped := AddMaps(b.dropped, RefusedLines(b.tables, b.traffic, now)))
    case _ => b
  }

  // ----- the live clients

  /** The locals of one iteration of one client's loop. */
  datatype Addr = Addr(client: int, frame: nat)

  datatype Locals = Locals(locked: bool, traffic: TrafficMap, interval: Option<int>)

  datatype PC = Starting | Blocking | Serving | Closed

  /** claims: how many deposits there were at each successful registration; received: the maps
      read after each return of await.lock(). */
  datatype Client = Client(pc: PC, frame: nat, claims: seq<nat>, received: seq<TrafficMap>)

  /** fault records a write or unlock through a pointer to dead locals, an unlock of an unlocked
      mutex, or a lock of a locked one. */
  datatype Live = Live(waiting: bool, apiMutex: Option<Addr>, apiTrafficMap: Option<Addr>, apiInterval: Option<Addr>,
                       clients: map<int, Client>, locals: map<Addr, Locals>, fault: bool)

  const FRESH_LOCALS: Locals := Locals(false, map[], None)

  function AddrOf(l: Live, c: int): Addr
    requires c in l.clients
  {
    Addr(c, l.clients[c].frame)
  }

  /** The deposit loop's hand-over to the registered client. */
  function HandOver(l: Live, traffic: TrafficMap, interval: int): Live {
    if !l.waiting then l
    else if l.apiMutex.None? || l.apiTrafficMap.None? || l.apiInterval.None? then l.(waiting := false)
    else
      var m, t, i := l.apiMutex.value, l.apiTrafficMap.value, l.apiInterval.value;
      if t !in l.locals || i !in l.locals || m !in l.locals || !l.locals[m].locked
      then l.(waiting := false, fault := true)
      else
        var a := l.locals[t := l.locals[t].(traffic := traffic)];
        var b := a[i := a[i].(interval := Some(interval))];
        l.(waiting := false, locals := b[m := b[m].(locked := false)])
  }

  function NextLive(l: Live, b: Books, interval: int, step: Step): Live {
    match step
    case Deposit(_) => HandOver(l, b.traffic, interval)
    case Connect(c) =>
      if c in l.clients then l
      else l.(clients := l.clients[c := Client(Starting, 0, [], [])], locals := l.locals[Addr(c, 0) := FRESH_LOCALS])
    case Register(c) =>
      if c !in l.clients || l.clients[c].pc != Starting || AddrOf(l, c) !in l.locals then l
      else
        var client, a := l.clients[c], AddrOf(l, c);
        if l.waiting then l.(clients := l.clients[c := client.(pc := Closed)], locals := l.locals - {a})
        else Live(true, Some(a), Some(a), Some(a),
                  l.clients[c := client.(pc := Blocking, claims := client.claims + [|b.deposits|])],
                  l.locals[a := l.locals[a].(locked := true)],
                  l.fault || l.locals[a].locked)
    case Wake(c) =>
      if c !in l.clients || l.clients[c].pc != Blocking || AddrOf(l, c) !in l.locals
         || l.locals[AddrOf(l, c)].locked then l
      else
        var client, a := l.clients[c], AddrOf(l, c);
        l.(clients := l.clients[c := client.(pc := Serving, received := client.received + [l.locals[a].traffic])],
           locals := l.locals[a := l.locals[a].(locked := true)])
    case Leave(c, open) =>
      if c !in l.clients || l.clients[c].pc != Serving then l
      else
        var client, a := l.clients[c], AddrOf(l, c);
        if open then l.(clients := l.clients[c := client.(pc := Starting, frame := client.frame + 1)],
                        locals := (l.locals - {a})[Addr(c, client.frame + 1) := FRESH_LOCALS])
        else l.(clients := l.clients[c := client.(pc := Closed)], locals := l.locals - {a})
    case _ => l
  }

  // ----- runs

  datatype State = State(books: Books, live: Live)

  /** A daemon starting on the tables it finds in the database. */
  function Start(prior: Tables): State {
    State(Books(map[], 0, NoReference, prior, [], map[], map[], map[], map[]),
          Live(false, None, None, None, map[], map[], false))
  }

  function Next(s: State, interval: int, step: Step): State {
    State(NextBooks(s.books, step), NextLive(s.live, s.books, interval, step))
  }

  /** The state after any steps of any threads; a step that is not enabled changes nothing. */
  function Run(steps: seq<Step>, prior: Tables, interval: int): State {
    if steps == [] then Start(prior)
    else Next(Run(steps[..|steps| - 1], prior, interval), interval, steps[|steps| - 1])
  }

  lemma RunOneMore(steps: seq<Step>, k: nat, prior: Tables, interval: int)
    requires k < |steps|
    ensures Run(steps[..k + 1], prior, interval) == Next(Run(steps[..k], prior, interval), interval, steps[k])
  {
    assert steps[..k + 1][..k] == steps[..k];
  }
}
