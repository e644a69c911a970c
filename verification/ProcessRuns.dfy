/** What the process index answers over whole runs, while /proc changes between calls. */
module ProcessRuns {
  import opened Basics
  import opened LRU
  import opened Processes

  // ----- one search

  /** The search order is all of /proc, whatever the cache holds. */
  lemma OrderCoversProc(cache: seq<int>, w: World, pid: int)
    ensures pid in SearchOrder(cache, w) <==> pid in w
  {
    DescendingFacts(Uncached(cache, w));
    assert pid in Uncached(cache, w) <==> pid in w && pid !in cache;
  }

  lemma {:induction false} AssignFacts(m: map<nat, Process>, inodes: seq<nat>, p: Process, k: nat)
    ensures k in AssignAll(m, inodes, p) <==> k in m || k in inodes
    ensures k in AssignAll(m, inodes, p) ==> AssignAll(m, inodes, p)[k] == if k in inodes then p else m[k]
  {
    if inodes != [] {
      AssignFacts(m, inodes[..|inodes| - 1], p, k);
      assert inodes == inodes[..|inodes| - 1] + [inodes[|inodes| - 1]];
    }
  }

  ghost predicate SomeOwner(w: World, pids: seq<int>, k: nat) {
    exists pid :: pid in pids && Owns(w, pid, k)
  }

  /** After a scan an inode maps to a scanned owner, or else to what it mapped to before. */
  lemma {:induction false} ScanFacts(m: map<nat, Process>, w: World, pids: seq<int>, k: nat)
    ensures k in ScanPids(m, w, pids) <==> k in m || SomeOwner(w, pids, k)
    ensures SomeOwner(w, pids, k) ==>
              OwnsAs(w, ScanPids(m, w, pids)[k], k) && ScanPids(m, w, pids)[k].pid in pids
    ensures k in m && !SomeOwner(w, pids, k) ==> ScanPids(m, w, pids)[k] == m[k]
  {
    if pids != [] {
      var init, pid := pids[..|pids| - 1], pids[|pids| - 1];
      ScanFacts(m, w, init, k);
      assert pids == init + [pid];
      assert SomeOwner(w, pids, k) <==> SomeOwner(w, init, k) || Owns(w, pid, k) by {
        if Owns(w, pid, k) { assert pid in pids; }
        if SomeOwner(w, init, k) {
          var q :| q in init && Owns(w, q, k);
          assert q in pids;
        }
      }
      if Readable(w, pid) {
        AssignFacts(ScanPids(m, w, init), w[pid].sockets.value, ProcessOf(w, pid), k);
      }
    }
  }

  /** A search finds an owner exactly when some process of /proc answers. */
  lemma SearchFindsOwner(cache: seq<int>, w: World, inode: nat)
    ensures FirstOwner(w, SearchOrder(cache, w), inode) < |SearchOrder(cache, w)| <==>
            exists pid :: Answers(w, pid, inode)
  {
    var order := SearchOrder(cache, w);
    var i := FirstOwner(w, order, inode);
    if exists pid :: Answers(w, pid, inode) {
      var pid :| Answers(w, pid, inode);
      OrderCoversProc(cache, w, pid);
      var k :| 0 <= k < |order| && order[k] == pid;
      assert i <= k;
    }
  }

  /** Completeness: get fails exactly on a recorded miss, or when nothing known or present owns
      the inode. */
  lemma GetFailsExactly(s: IndexState, size: nat, w: World, inode: nat)
    ensures GetStep(s, size, w, inode).1 == None <==>
            inode in s.missed || (inode !in s.processes && forall pid :: !Answers(w, pid, inode))
  {
    SearchFindsOwner(s.cache, w, inode);
  }

  /** The same from what is in /proc: a process directory whose comm and sockets can be read and that
      has the inode is enough for an answer; an answer not known before is such a directory; and an
      inode 0 is not searched for. */
  lemma SearchReadsProc(s: IndexState, size: nat, w: World, inode: nat)
    requires inode !in s.missed && inode !in s.processes
    ensures var answer := GetStep(s, size, w, inode).1;
            && (inode == 0 ==> answer == None)
            && (inode != 0 ==>
                  forall pid, comm, sockets ::
                    pid in w && w[pid] == ProcDir(Some(comm), Some(sockets)) && inode in sockets ==> answer.Some?)
            && (answer.Some? ==>
                  && answer.value.pid in w && w[answer.value.pid].comm == Some(answer.value.comm)
                  && w[answer.value.pid].sockets.Some? && inode in w[answer.value.pid].sockets.value)
  {
    GetFailsExactly(s, size, w, inode);
    forall pid, comm, sockets |
      pid in w && w[pid] == ProcDir(Some(comm), Some(sockets)) && inode in sockets && inode != 0
      ensures Answers(w, pid, inode)
    {
    }
    hide SearchOrder;
  }

  /** The kept elements ahead of x come from ahead of x. */
  lemma KeepUpTo(d: seq<int>, alive: set<int>, x: int)
    requires x in d && x in alive
    ensures Keep(d[..Find(d, x)], alive) + [x] <= Keep(d, alive)
    ensures x !in Keep(d[..Find(d, x)], alive)
  {
    var f := Find(d, x);
    assert d[..f + 1][..f] == d[..f];
    assert Keep(d[..f + 1], alive) == Keep(d[..f], alive) + [x];
    KeepPrefix(d, f + 1, alive);
  }

  /** A cached winner is ahead of every other owner in recency order. */
  lemma CachedWinner(cache: seq<int>, w: World, inode: nat, j: nat)
    requires var order := SearchOrder(cache, w);
             FirstOwner(w, order, inode) < |order| && order[FirstOwner(w, order, inode)] in cache
    requires j < Find(cache, SearchOrder(cache, w)[FirstOwner(w, SearchOrder(cache, w), inode)])
    ensures !Owns(w, cache[j], inode)
  {
    var order := SearchOrder(cache, w);
    var i := FirstOwner(w, order, inode);
    var winner := order[i];
    var ahead := Keep(cache[..Find(cache, winner)], w.Keys);
    KeepUpTo(cache, w.Keys, winner);
    assert ahead + [winner] <= order;
    assert forall q :: 0 <= q < |ahead| ==> order[q] == ahead[q] && ahead[q] in ahead;
    assert order[|ahead|] == (ahead + [winner])[|ahead|] == winner;
    assert i == |ahead|;
    if cache[j] in w {
      assert cache[..Find(cache, winner)][j] == cache[j];
      assert cache[j] in ahead;
      var q :| 0 <= q < |ahead| && ahead[q] == cache[j];
      assert !Answers(w, order[q], inode);
    }
  }

  /** An uncached winner means no cached owner, and no owner of a greater PID. */
  lemma UncachedWinner(cache: seq<int>, w: World, inode: nat, q: int)
    requires var order := SearchOrder(cache, w);
             FirstOwner(w, order, inode) < |order| && order[FirstOwner(w, order, inode)] !in cache
    requires Owns(w, q, inode)
    ensures q !in cache && q <= SearchOrder(cache, w)[FirstOwner(w, SearchOrder(cache, w), inode)]
  {
    var order := SearchOrder(cache, w);
    var live, rest := Keep(cache, w.Keys), Descending(Uncached(cache, w));
    var i := FirstOwner(w, order, inode);
    assert |live| <= i by {
      assert forall k :: 0 <= k < |live| ==> order[k] == live[k] && live[k] in live;
    }
    assert q !in cache by {
      if q in cache { LiveOwnerLeads(cache, w, inode, q); }
    }
    OrderCoversProc(cache, w, q);
    OwnersAfter(w, order, inode, q);
    var j :| i <= j < |order| && order[j] == q;
    DescendingFacts(Uncached(cache, w));
    assert rest[j - |live|] == q && rest[i - |live|] == order[i];
  }

  lemma LiveOwnerLeads(cache: seq<int>, w: World, inode: nat, q: int)
    requires inode != 0 && q in cache && Owns(w, q, inode)
    ensures FirstOwner(w, SearchOrder(cache, w), inode) < |Keep(cache, w.Keys)|
  {
    var live := Keep(cache, w.Keys);
    assert q in live;
    var j :| 0 <= j < |live| && live[j] == q;
    assert SearchOrder(cache, w)[j] == q;
  }

  /** Which owner wins a search: the first cached one in recency order, or without a cached owner
      the one with the greatest PID; and it ends at the front of a cache that holds anything. */
  lemma SearchPriority(s: IndexState, size: nat, w: World, inode: nat)
    requires inode !in s.missed && inode !in s.processes
    requires GetStep(s, size, w, inode).1.Some?
    ensures var (s', answer) := GetStep(s, size, w, inode);
            var winner := answer.value.pid;
            && Owns(w, winner, inode)
            && (winner in s.cache ==> forall j :: 0 <= j < Find(s.cache, winner) ==> !Owns(w, s.cache[j], inode))
            && (winner !in s.cache ==> forall q :: Owns(w, q, inode) ==> q !in s.cache && q <= winner)
            && (size > 0 ==> s'.cache != [] && s'.cache[0] == winner)
  {
    WinnerAtFront(s, size, w, inode);
    hide SearchOrder, GetStep, FirstOwner;
    var order := SearchOrder(s.cache, w);
    var winner := order[FirstOwner(w, order, inode)];
    if winner in s.cache {
      forall j | 0 <= j < Find(s.cache, winner) ensures !Owns(w, s.cache[j], inode) {
        CachedWinner(s.cache, w, inode, j);
      }
    } else {
      forall q | Owns(w, q, inode) ensures q !in s.cache && q <= winner {
        UncachedWinner(s.cache, w, inode, q);
      }
    }
  }

  /** The answer of a search is the first owner of its order, and leads the cache afterwards. */
  lemma WinnerAtFront(s: IndexState, size: nat, w: World, inode: nat)
    requires inode !in s.missed && inode !in s.processes
    requires GetStep(s, size, w, inode).1.Some?
    ensures var order := SearchOrder(s.cache, w);
            var (s', answer) := GetStep(s, size, w, inode);
            && FirstOwner(w, order, inode) < |order| && answer.value.pid == order[FirstOwner(w, order, inode)]
            && Owns(w, answer.value.pid, inode)
            && (size > 0 ==> s'.cache != [] && s'.cache[0] == answer.value.pid)
  {
    hide SearchOrder, ScanPids, Keep, FirstOwner;
  }

  lemma OwnersAfter(w: World, order: seq<int>, inode: nat, q: int)
    requires inode != 0 && q in order && Owns(w, q, inode)
    ensures exists j :: FirstOwner(w, order, inode) <= j < |order| && order[j] == q
  {
    var j :| 0 <= j < |order| && order[j] == q;
    assert Answers(w, order[j], inode);
    assert FirstOwner(w, order, inode) <= j;
  }

  // ----- runs

  datatype Event = Ask(w: World, inode: nat) | Clear

  /** The state after the constructor's scan of w0, in the order order0, and then the events. */
  ghost function After(w0: World, order0: seq<int>, size: nat, events: seq<Event>): IndexState {
    if events == [] then IndexState(ScanPids(map[], w0, order0), [], {})
    else Next(After(w0, order0, size, events[..|events| - 1]), size, events[|events| - 1])
  }

  ghost function Next(s: IndexState, size: nat, e: Event): IndexState {
    match e
    case Ask(w, inode) => GetStep(s, size, w, inode).0
    case Clear => s.(missed := {})
  }

  /** The worlds of a run, in order. */
  ghost function Moments(w0: World, events: seq<Event>): seq<World> {
    if events == [] then [w0]
    else Moments(w0, events[..|events| - 1]) + if events[|events| - 1].Ask? then [events[|events| - 1].w] else []
  }

  ghost predicate OwnedAtSomeMoment(worlds: seq<World>, p: Process, inode: nat) {
    exists i :: 0 <= i < |worlds| && OwnsAs(worlds[i], p, inode)
  }

  lemma LaterMoments(a: seq<World>, b: seq<World>, p: Process, inode: nat)
    ensures OwnedAtSomeMoment(a, p, inode) ==> OwnedAtSomeMoment(a + b, p, inode)
    ensures OwnedAtSomeMoment(b, p, inode) ==> OwnedAtSomeMoment(a + b, p, inode)
  {
    if OwnedAtSomeMoment(a, p, inode) {
      var i :| 0 <= i < |a| && OwnsAs(a[i], p, inode);
      assert (a + b)[i] == a[i];
    }
    if OwnedAtSomeMoment(b, p, inode) {
      var i :| 0 <= i < |b| && OwnsAs(b[i], p, inode);
      assert (a + b)[|a| + i] == b[i];
    }
  }

  /** What one call can put into the map: what was there, or an owner in the present world. */
  lemma StepKnows(s: IndexState, size: nat, w: World, inode: nat, k: nat)
    requires k in GetStep(s, size, w, inode).0.processes
    ensures var p := GetStep(s, size, w, inode).0.processes[k];
            (k in s.processes && s.processes[k] == p) || OwnsAs(w, p, k)
  {
    var order := SearchOrder(s.cache, w);
    var i := FirstOwner(w, order, inode);
    ScanFacts(s.processes, w, order, k);
    if i < |order| {
      ScanFacts(s.processes, w, order[..i + 1], k);
    }
  }

  lemma {:induction false} KnownWereOwners(w0: World, order0: seq<int>, size: nat, events: seq<Event>, k: nat)
    requires k in After(w0, order0, size, events).processes
    ensures OwnedAtSomeMoment(Moments(w0, events), After(w0, order0, size, events).processes[k], k)
  {
    var p := After(w0, order0, size, events).processes[k];
    if events == [] {
      ScanFacts(map[], w0, order0, k);
      assert OwnsAs(Moments(w0, events)[0], p, k);
    } else {
      var before, e := events[..|events| - 1], events[|events| - 1];
      var s := After(w0, order0, size, before);
      var now := if e.Ask? then [e.w] else [];
      if e.Ask? {
        StepKnows(s, size, e.w, e.inode, k);
        if OwnsAs(e.w, p, k) {
          assert OwnsAs(now[0], p, k);
        }
      }
      if k in s.processes && s.processes[k] == p {
        KnownWereOwners(w0, order0, size, before, k);
      }
      LaterMoments(Moments(w0, before), now, p, k);
    }
  }

  /** Every process returned owned the inode at some moment of the run. */
  lemma AnswerWasOwner(w0: World, order0: seq<int>, size: nat, events: seq<Event>, w: World, inode: nat)
    requires GetStep(After(w0, order0, size, events), size, w, inode).1.Some?
    ensures OwnedAtSomeMoment(Moments(w0, events + [Ask(w, inode)]),
                              GetStep(After(w0, order0, size, events), size, w, inode).1.value, inode)
  {
    var s := After(w0, order0, size, events);
    var p := GetStep(s, size, w, inode).1.value;
    assert (events + [Ask(w, inode)])[..|events|] == events;
    if inode in s.processes {
      KnownWereOwners(w0, order0, size, events, inode);
    } else {
      assert OwnsAs([w][0], p, inode);
    }
    LaterMoments(Moments(w0, events), [w], p, inode);
  }

  /** At position j the inode was asked for while no process owned it, and no clear followed. */
  ghost predicate MissAt(events: seq<Event>, j: nat, inode: nat) {
    && j < |events| && events[j].Ask? && events[j].inode == inode
    && (forall pid :: !Answers(events[j].w, pid, inode))
    && Clear !in events[j + 1..]
  }

  lemma {:induction false} MissesAreWitnessed(w0: World, order0: seq<int>, size: nat, events: seq<Event>, k: nat)
    requires k in After(w0, order0, size, events).missed
    ensures exists j :: MissAt(events, j, k)
  {
    hide GetStep;
    var n := |events| - 1;
    var before, e := events[..n], events[n];
    var s := After(w0, order0, size, before);
    assert events == before + [e];
    if k in s.missed {
      MissesAreWitnessed(w0, order0, size, before, k);
      var j :| MissAt(before, j, k);
      if e.Ask? {
        assert events[j + 1..] == before[j + 1..] + [e];
        assert MissAt(events, j, k);
      }
    } else if e.Ask? {
      NewMiss(s, size, e.w, e.inode, k);
      assert MissAt(events, n, k);
    }
  }

  lemma NewMiss(s: IndexState, size: nat, w: World, inode: nat, k: nat)
    requires k !in s.missed && k in GetStep(s, size, w, inode).0.missed
    ensures k == inode && forall pid :: !Answers(w, pid, inode)
  {
    GetFailsExactly(s, size, w, inode);
  }

  /** Every "none" has a moment since the last clear when no readable process owned the inode. */
  lemma NoneIsWitnessed(w0: World, order0: seq<int>, size: nat, events: seq<Event>,
                        w: World, inode: nat) returns (j: nat)
    requires GetStep(After(w0, order0, size, events), size, w, inode).1 == None
    ensures MissAt(events + [Ask(w, inode)], j, inode)
  {
    var all := events + [Ask(w, inode)];
    assert all[..|events|] == events;
    assert inode in After(w0, order0, size, all).missed;
    MissesAreWitnessed(w0, order0, size, all, inode);
    j :| MissAt(all, j, inode);
  }

  // ----- what a search finds is remembered

  /** Every inode of every process a search visits is known afterwards, with an owner; it visits the
      winner, or without one all of /proc. */
  lemma VisitedAreKnown(s: IndexState, size: nat, w: World, inode: nat, pid: int, k: nat)
    requires inode !in s.missed && inode !in s.processes && Owns(w, pid, k)
    requires pid in Visited(w, SearchOrder(s.cache, w), inode)
             || GetStep(s, size, w, inode).1 in {None, Some(ProcessOf(w, pid))}
    ensures var (s', answer) := GetStep(s, size, w, inode);
            k in s'.processes && OwnsAs(w, s'.processes[k], k)
  {
    var order := SearchOrder(s.cache, w);
    var i := FirstOwner(w, order, inode);
    OrderCoversProc(s.cache, w, pid);
    if i < |order| && order[i] == pid {
      assert order[..i + 1][i] == pid;
    }
    hide SearchOrder, FirstOwner;
    ScanFacts(s.processes, w, Visited(w, order, inode), k);
    assert SomeOwner(w, Visited(w, order, inode), k);
  }

  /** A known inode stays known through any call. */
  lemma KnownStaysKnown(s: IndexState, size: nat, w: World, inode: nat, k: nat)
    requires k in s.processes
    ensures k in GetStep(s, size, w, inode).0.processes
  {
    ScanFacts(s.processes, w, Visited(w, SearchOrder(s.cache, w), inode), k);
  }

  /** A process that was found is what its inode maps to afterwards. */
  lemma FoundIsKnown(s: IndexState, size: nat, w: World, inode: nat)
    requires GetStep(s, size, w, inode).1.Some?
    ensures var (s', answer) := GetStep(s, size, w, inode);
            inode !in s'.missed && inode in s'.processes && s'.processes[inode] == answer.value
  {
    if inode !in s.processes {
      var order := SearchOrder(s.cache, w);
      var i := FirstOwner(w, order, inode);
      var visited := order[..i + 1];
      hide SearchOrder, FirstOwner;
      ScanFacts(s.processes, w, visited, inode);
      assert visited[i] == order[i];
      assert SomeOwner(w, visited, inode);
      var p := ScanPids(s.processes, w, visited)[inode];
      var j :| 0 <= j < |visited| && visited[j] == p.pid;
      assert order[j] == p.pid && j == i;
    }
  }

  /** Once get has answered with a process, no later call of the run answers none for that inode,
      whatever becomes of /proc; nor does a clear of the misses change that. */
  lemma {:induction false} AnswerIsRemembered(w0: World, order0: seq<int>, size: nat, before: seq<Event>,
                                              w: World, inode: nat, more: seq<Event>, w': World)
    requires GetStep(After(w0, order0, size, before), size, w, inode).1.Some?
    ensures var s := After(w0, order0, size, before + [Ask(w, inode)] + more);
            inode !in s.missed && inode in s.processes && GetStep(s, size, w', inode).1.Some?
    decreases |more|
  {
    var all := before + [Ask(w, inode)] + more;
    if more == [] {
      assert all == before + [Ask(w, inode)] && all[..|before|] == before;
      FoundIsKnown(After(w0, order0, size, before), size, w, inode);
    } else {
      var init, e := more[..|more| - 1], more[|more| - 1];
      assert all[..|all| - 1] == before + [Ask(w, inode)] + init;
      AnswerIsRemembered(w0, order0, size, before, w, inode, init, w');
      KeepsAnswering(After(w0, order0, size, before + [Ask(w, inode)] + init), size, e, inode);
    }
  }

  lemma KeepsAnswering(s: IndexState, size: nat, e: Event, k: nat)
    requires k in s.processes && k !in s.missed
    ensures k in Next(s, size, e).processes && k !in Next(s, size, e).missed
  {
    if e.Ask? {
      KnownStaysKnown(s, size, e.w, e.inode, k);
      if k in GetStep(s, size, e.w, e.inode).0.missed {
        NewMiss(s, size, e.w, e.inode, k);
      }
    }
  }

  // ----- the cache is a recency cache of the processes found

  function Drops(cache: seq<int>, w: World): (ops: seq<Op<int>>)
    ensures forall x :: Drop(x) in ops <==> x in cache && x !in w
    ensures forall op :: op in ops ==> op.Drop?
  {
    if cache == [] then []
    else
      Drops(cache[..|cache| - 1], w) + if cache[|cache| - 1] in w then [] else [Drop(cache[|cache| - 1])]
  }

  /** What one call does to the cache: exited processes go unless a cached one is found, and the one
      found is the most recent. */
  ghost function CacheOps(s: IndexState, size: nat, w: World, inode: nat): seq<Op<int>> {
    if inode in s.missed || inode in s.processes then []
    else
      match GetStep(s, size, w, inode).1
      case None => Drops(s.cache, w)
      case Some(p) => (if p.pid in s.cache then [] else Drops(s.cache, w)) + [Touch(p.pid)]
  }

  /** A cache after more operations. */
  function RunFrom(d: seq<int>, ops: seq<Op<int>>, size: nat): seq<int> {
    if ops == [] then d else Apply(RunFrom(d, ops[..|ops| - 1], size), ops[|ops| - 1], size)
  }

  lemma {:induction false} RunConcat(a: seq<Op<int>>, b: seq<Op<int>>, size: nat)
    ensures LRU.Run(a + b, size) == RunFrom(LRU.Run(a, size), b, size)
  {
    hide Apply;
    if b == [] {
      assert a + b == a;
    } else {
      RunConcat(a, b[..|b| - 1], size);
      assert (a + b)[..|a + b| - 1] == a + b[..|b| - 1];
    }
  }

  function Items(ops: seq<Op<int>>): (xs: seq<int>)
    ensures |xs| == |ops| && forall i :: 0 <= i < |xs| ==> xs[i] == ops[i].item
  {
    seq(|ops|, i requires 0 <= i < |ops| => ops[i].item)
  }

  lemma {:induction false} DropsErase(d: seq<int>, ops: seq<Op<int>>, size: nat)
    requires forall op :: op in ops ==> op.Drop?
    ensures RunFrom(d, ops, size) == EraseAll(d, Items(ops))
  {
    if ops != [] {
      var init, op := ops[..|ops| - 1], ops[|ops| - 1];
      assert op in ops;
      DropsErase(d, init, size);
      assert Items(ops)[..|ops| - 1] == Items(init);
    }
  }

  lemma DropsKeepLive(d: seq<int>, w: World, size: nat)
    requires Distinct(d)
    ensures RunFrom(d, Drops(d, w), size) == Keep(d, w.Keys)
  {
    var ops := Drops(d, w);
    DropsErase(d, ops, size);
    forall x ensures x in Items(ops) <==> x in d && x !in w {
      if x in Items(ops) {
        var i :| 0 <= i < |ops| && ops[i].item == x;
        assert ops[i] in ops;
      }
      if x in d && x !in w {
        var i :| 0 <= i < |ops| && ops[i] == Drop(x);
        assert Items(ops)[i] == x;
      }
    }
    ExpiredAreErased(d, w, Items(ops));
  }

  lemma CacheStep(s: IndexState, size: nat, w: World, inode: nat)
    requires Distinct(s.cache)
    ensures GetStep(s, size, w, inode).0.cache == RunFrom(s.cache, CacheOps(s, size, w, inode), size)
  {
    hide SearchOrder, ScanPids, Winner, Keep, Drops, Cut, Front;
    DropsKeepLive(s.cache, w, size);
    if inode !in s.missed && inode !in s.processes && GetStep(s, size, w, inode).1.Some? {
      var p := GetStep(s, size, w, inode).1.value.pid;
      var drops: seq<Op<int>> := if p in s.cache then [] else Drops(s.cache, w);
      assert (drops + [Touch(p)])[..|drops|] == drops;
    }
  }

  /** The cache operations of a whole run. */
  ghost function AllCacheOps(w0: World, order0: seq<int>, size: nat, events: seq<Event>): seq<Op<int>> {
    if events == [] then []
    else
      var init, e := events[..|events| - 1], events[|events| - 1];
      AllCacheOps(w0, order0, size, init) +
      if e.Ask? then CacheOps(After(w0, order0, size, init), size, e.w, e.inode) else []
  }

  /** In every run the cache is that of a recency cache put through these operations, so whatever
      holds of one holds of it: no duplicates, its size, the most recently found in front. */
  lemma {:induction false} CacheIsRecency(w0: World, order0: seq<int>, size: nat, events: seq<Event>)
    ensures After(w0, order0, size, events).cache == LRU.Run(AllCacheOps(w0, order0, size, events), size)
    ensures Distinct(After(w0, order0, size, events).cache)
  {
    hide GetStep, CacheOps;
    if events != [] {
      var init, e := events[..|events| - 1], events[|events| - 1];
      var ops := AllCacheOps(w0, order0, size, init);
      CacheIsRecency(w0, order0, size, init);
      if e.Ask? {
        var s := After(w0, order0, size, init);
        CacheStep(s, size, e.w, e.inode);
        RunConcat(ops, CacheOps(s, size, e.w, e.inode), size);
      } else {
        assert ops + [] == ops;
      }
    }
    RefinesRecency(AllCacheOps(w0, order0, size, events), size);
  }

  // ----- a world that stays still

  ghost predicate SingleOwners(w: World) {
    forall p, q, inode: nat :: Owns(w, p, inode) && Owns(w, q, inode) ==> p == q
  }

  /** The plain answer: the owner, found with no caches at all. */
  ghost function PlainScan(w: World, inode: nat): Option<Process> {
    if pid :| Answers(w, pid, inode) then Some(ProcessOf(w, pid)) else None
  }

  /** Everything the caches record is so in w. */
  ghost predicate Truthful(s: IndexState, w: World) {
    && (forall k :: k in s.processes ==> OwnsAs(w, s.processes[k], k))
    && (forall k :: k in s.missed ==> forall pid :: !Answers(w, pid, k))
  }

  lemma TruthfulAnswer(s: IndexState, size: nat, w: World, inode: nat)
    requires SingleOwners(w) && Truthful(s, w) && inode != 0
    ensures GetStep(s, size, w, inode).1 == PlainScan(w, inode)
  {
    GetFailsExactly(s, size, w, inode);
    if inode in s.processes && inode !in s.missed {
      assert Answers(w, s.processes[inode].pid, inode);
    }
  }

  lemma TruthfulStep(s: IndexState, size: nat, w: World, inode: nat)
    requires Truthful(s, w)
    ensures Truthful(GetStep(s, size, w, inode).0, w)
  {
    var s' := GetStep(s, size, w, inode).0;
    forall k | k in s'.processes ensures OwnsAs(w, s'.processes[k], k) {
      StepKnows(s, size, w, inode, k);
    }
    GetFailsExactly(s, size, w, inode);
  }

  ghost predicate AllIn(events: seq<Event>, w: World) {
    forall e :: e in events && e.Ask? ==> e.w == w
  }

  lemma {:induction false} StillWorldIsTruthful(w: World, order0: seq<int>, size: nat, events: seq<Event>)
    requires AllIn(events, w)
    ensures Truthful(After(w, order0, size, events), w)
  {
    if events == [] {
      forall k | k in ScanPids(map[], w, order0) ensures OwnsAs(w, ScanPids(map[], w, order0)[k], k) {
        ScanFacts(map[], w, order0, k);
      }
    } else {
      var before, e := events[..|events| - 1], events[|events| - 1];
      assert e in events;
      StillWorldIsTruthful(w, order0, size, before);
      if e.Ask? {
        TruthfulStep(After(w, order0, size, before), size, w, e.inode);
      }
    }
  }

  /** In a still world with single owners the answer is the plain scan's, whatever the cache size,
      the directory order and the calls made before. */
  lemma CachesAreTransparent(w: World, order0: seq<int>, size: nat, events: seq<Event>, inode: nat)
    requires SingleOwners(w) && AllIn(events, w) && inode != 0
    ensures GetStep(After(w, order0, size, events), size, w, inode).1 == PlainScan(w, inode)
  {
    StillWorldIsTruthful(w, order0, size, events);
    TruthfulAnswer(After(w, order0, size, events), size, w, inode);
  }
}
