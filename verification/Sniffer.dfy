/** src/proc/ProcessResolver.cpp and src/net/SnifferLoop.cpp: from a captured frame to a credited
    application. */
module Pipeline {
  import opened Basics
  import opened Packets
  import opened Sockets
  import opened Processes
  import LRU
  import ProcessRuns
  import opened Traffic
  import opened Database
  import opened TrafficStore

  const UNKNOWN_PROCESS: Process := Process("Unknown Traffic", 0)

  datatype Resolver = Resolver(sockets: SocketState, processes: IndexState)

  /** One call of resolve, with the socket tables and /proc as they are at the time. */
  ghost function ResolveStep(r: Resolver, size: nat, net: Net, w: World, pkt: Packet): (Resolver, Process) {
    var (sockets, inode) := Lookup(r.sockets, net, pkt);
    if inode == 0 then (Resolver(sockets, r.processes), UNKNOWN_PROCESS)
    else
      var (processes, answer) := GetStep(r.processes, size, w, inode);
      (Resolver(sockets, processes), if answer.Some? then answer.value else UNKNOWN_PROCESS)
  }

  /** A resolver just constructed, /proc read in the given order. */
  ghost function Started(net0: Net, w0: World, order0: seq<int>, size: nat): Resolver {
    Resolver(Sockets.Initial(net0), ProcessRuns.After(w0, order0, size, []))
  }

  class ProcessResolver {
    const mSocketIndex: SocketIndex
    const mProcessIndex: ProcessIndex

    ghost predicate Valid()
      reads this, mProcessIndex, mProcessIndex.mLRUCache
    {
      mProcessIndex.Valid()
    }

    ghost function State(): Resolver
      reads this, mSocketIndex, mProcessIndex, mProcessIndex.mLRUCache
    {
      Resolver(mSocketIndex.State(), mProcessIndex.State())
    }

    constructor (net: Net, w: World, processIndexCacheSize: int)
      ensures Valid() && fresh(mSocketIndex) && fresh(mProcessIndex) && fresh(mProcessIndex.mLRUCache)
      ensures mProcessIndex.mLRUCache.mSize == Unsigned64(processIndexCacheSize)
      ensures exists order ::
                LRU.Elements(order) == w.Keys &&
                State() == Started(net, w, order, Unsigned64(processIndexCacheSize))
    {
      mSocketIndex := new SocketIndex(net);
      mProcessIndex := new ProcessIndex(w, processIndexCacheSize);
      new;
      ghost var order :| LRU.Elements(order) == w.Keys && mProcessIndex.mProcessMap == ScanPids(map[], w, order);
      assert State() == Started(net, w, order, Unsigned64(processIndexCacheSize));
    }

    method Resolve(net: Net, w: World, pkt: Packet) returns (process: Process)
      requires Valid()
      modifies mSocketIndex, mProcessIndex, mProcessIndex.mLRUCache
      ensures Valid()
      ensures (State(), process) == ResolveStep(old(State()), mProcessIndex.mLRUCache.mSize, net, w, pkt)
    {
      hide Lookup, GetStep;
      var inode := mSocketIndex.Get(net, pkt);
      if inode == 0 {
        return UNKNOWN_PROCESS;
      }
      var answer := mProcessIndex.Get(w, inode);
      if answer.Some? {
        process := answer.value;
      } else {
        process := UNKNOWN_PROCESS;
      }
    }
  }

  /** A frame with the state of the system it is looked up in. */
  datatype Capture = Capture(frame: Frame, net: Net, w: World)

  datatype Sniffed = Sniffed(resolver: Resolver, traffic: TrafficMap)

  /** One callback, no deposit coming in the middle of its add. */
  ghost function Callback(s: Sniffed, ips: seq<Word32>, size: nat, c: Capture): Sniffed {
    var pkt := Classified(c.frame, ips);
    if pkt.discard then s
    else
      var (resolver, process) := ResolveStep(s.resolver, size, c.net, c.w, pkt);
      Sniffed(resolver, Credited(s.traffic, process.comm, Contribution(pkt.direction, pkt.len)))
  }

  class Sniffer {
    const mIPList: IPList
    const mProcessResolver: ProcessResolver
    const mTrafficStorage: TrafficStorage

    ghost predicate Valid()
      reads this, mIPList, mIPList.mIPs, mProcessResolver, mProcessResolver.mProcessIndex
      reads mProcessResolver.mProcessIndex.mLRUCache, mTrafficStorage, mTrafficStorage.apiMutex
    {
      mIPList.Valid() && mProcessResolver.Valid() && mTrafficStorage.Valid()
    }

    ghost function State(): Sniffed
      reads this, mProcessResolver, mProcessResolver.mSocketIndex, mProcessResolver.mProcessIndex
      reads mProcessResolver.mProcessIndex.mLRUCache, mTrafficStorage
    {
      Sniffed(mProcessResolver.State(), mTrafficStorage.mApplicationTraffic)
    }

    constructor (iplist: IPList, resolver: ProcessResolver, storage: TrafficStorage)
      requires iplist.Valid() && resolver.Valid() && storage.Valid()
      ensures Valid() && mIPList == iplist && mProcessResolver == resolver && mTrafficStorage == storage
    {
      mIPList := iplist;
      mProcessResolver := resolver;
      mTrafficStorage := storage;
    }

    method PktCallback(c: Capture)
      requires Valid()
      modifies mProcessResolver.mSocketIndex, mProcessResolver.mProcessIndex
      modifies mProcessResolver.mProcessIndex.mLRUCache, mTrafficStorage`mApplicationTraffic
      ensures Valid()
      ensures State() == Callback(old(State()), mIPList.Local(), mProcessResolver.mProcessIndex.mLRUCache.mSize, c)
    {
      hide Classified, ResolveStep, Credited, Lookup, GetStep;
      var pkt := ParsePacket(c.frame, mIPList);
      if pkt.discard {
        return;
      }
      var process := mProcessResolver.Resolve(c.net, c.w, pkt);
      mTrafficStorage.Add(process.comm, pkt);
    }
  }

  // ----- what one frame does

  /** What a monitored frame is worth, read off its headers. */
  function FrameLine(f: Frame, addrs: seq<Word32>): Line {
    if IsOurs(addrs, f.saddr) then Line(0, CapturedLength(f), 0, 1) else Line(CapturedLength(f), 0, 1, 0)
  }

  /** A frame that is not monitored changes nothing at all; any other adds its line to the application
      its packet is resolved to, and to no other. */
  lemma FrameCredits(s: Sniffed, addrs: seq<Word32>, size: nat, c: Capture)
    ensures var s' := Callback(s, FillOrder(addrs), size, c);
            if !Monitored(c.frame, addrs) then s' == s
            else
              var pkt := Classified(c.frame, FillOrder(addrs));
              var (resolver, process) := ResolveStep(s.resolver, size, c.net, c.w, pkt);
              && s'.resolver == resolver
              && Get(s'.traffic, process.comm) ==
                 InMemory(Plus(Get(s.traffic, process.comm), FrameLine(c.frame, addrs)))
              && forall n :: n != process.comm ==> Get(s'.traffic, n) == Get(s.traffic, n)
  {
    FrameDecides(c.frame, addrs);
    hide Classified, ResolveStep, InMemory, Plus, Monitored, CapturedLength;
  }

  // ----- crediting over any sequence of packets

  ghost function CaptureAll(s: Sniffed, ips: seq<Word32>, size: nat, captures: seq<Capture>): Sniffed {
    if captures == [] then s
    else Callback(CaptureAll(s, ips, size, captures[..|captures| - 1]), ips, size, captures[|captures| - 1])
  }

  /** What a frame adds to the totals, whoever it belongs to. */
  function KeptLine(f: Frame, ips: seq<Word32>): Line {
    var pkt := Classified(f, ips);
    if pkt.discard then ZERO
    else if pkt.direction == Incoming then Line(pkt.len, 0, 1, 0)
    else Line(0, pkt.len, 0, 1)
  }

  /** Lengths and counts of all kept frames, by direction. */
  function KeptTotal(captures: seq<Capture>, ips: seq<Word32>): Line {
    if captures == [] then ZERO
    else Plus(KeptTotal(captures[..|captures| - 1], ips), KeptLine(captures[|captures| - 1].frame, ips))
  }

  /** The same, read off the headers. */
  function MonitoredTotal(captures: seq<Capture>, addrs: seq<Word32>): Line {
    if captures == [] then ZERO
    else
      var before, f := MonitoredTotal(captures[..|captures| - 1], addrs), captures[|captures| - 1].frame;
      if Monitored(f, addrs) then Plus(before, FrameLine(f, addrs)) else before
  }

  /** The kept total is that of the monitored frames. */
  lemma {:induction false} KeptIsMonitored(captures: seq<Capture>, addrs: seq<Word32>)
    ensures KeptTotal(captures, FillOrder(addrs)) == MonitoredTotal(captures, addrs)
  {
    if captures != [] {
      KeptIsMonitored(captures[..|captures| - 1], addrs);
      FrameDecides(captures[|captures| - 1].frame, addrs);
      hide Classified, Plus, Monitored, CapturedLength;
      PlusZero(KeptTotal(captures[..|captures| - 1], FillOrder(addrs)));
    }
  }

  /** Sum of a map's lines. */
  ghost function SumMap(m: TrafficMap): Line {
    if m == map[] then ZERO
    else
      var n := Pick(m);
      Plus(m[n], SumMap(m - {n}))
  }

  ghost function Pick(m: TrafficMap): (n: string)
    requires m != map[]
    ensures n in m
  {
    var n :| n in m;
    n
  }

  lemma PlusSwap(a: Line, b: Line, c: Line)
    ensures Plus(a, Plus(b, c)) == Plus(b, Plus(a, c))
  {
  }

  lemma {:induction false} SumMapSplit(m: TrafficMap, n: string)
    requires n in m
    ensures SumMap(m) == Plus(m[n], SumMap(m - {n}))
    decreases |m|
  {
    hide Plus;
    var p := Pick(m);
    if p != n {
      SumMapSplit(m - {p}, n);
      SumMapSplit(m - {n}, p);
      assert m - {p} - {n} == m - {n} - {p};
      PlusSwap(m[p], m[n], SumMap(m - {p} - {n}));
    }
  }

  /** Replacing one line of a map replaces it in the sum. */
  lemma SumMapUpdate(m: TrafficMap, n: string, l: Line)
    ensures SumMap(m[n := l]) == Plus(l, SumMap(m - {n}))
    ensures SumMap(m) == Plus(Get(m, n), SumMap(m - {n}))
  {
    hide Plus;
    SumMapSplit(m[n := l], n);
    assert m[n := l] - {n} == m - {n};
    if n in m {
      SumMapSplit(m, n);
    } else {
      assert m - {n} == m;
      PlusZero(SumMap(m));
    }
  }

  lemma PlusAround(a: Line, c: Line, rest: Line)
    ensures Plus(Plus(a, c), rest) == Plus(Plus(a, rest), c)
  {
  }

  /** Crediting a line adds it to the sum of the map, as far as memory can hold sums: bytes modulo
      2^64, counts as 32-bit ints; and exactly if the new line wraps nothing. */
  lemma CreditedSum(m: TrafficMap, n: string, c: Line)
    ensures InMemory(SumMap(Credited(m, n, c))) == InMemory(Plus(SumMap(m), c))
    ensures InMemory(Plus(Get(m, n), c)) == Plus(Get(m, n), c) ==> SumMap(Credited(m, n, c)) == Plus(SumMap(m), c)
  {
    hide Plus, InMemory;
    var a, rest := Get(m, n), SumMap(m - {n});
    SumMapUpdate(m, n, InMemory(Plus(a, c)));
    WrappedAdd(Plus(a, c), rest);
    PlusAround(a, c, rest);
  }

  lemma KeptIsContribution(f: Frame, ips: seq<Word32>)
    ensures var pkt := Classified(f, ips);
            !pkt.discard ==>
              KeptLine(f, ips) == Contribution(pkt.direction, pkt.len) && pkt.direction in {Incoming, Outgoing}
  {
    KeptShape(f, ips);
  }

  /** After any packets in one interval the totals over all applications are the lengths and counts
      of the kept ones, by direction, however they were attributed: bytes modulo 2^64, counts as
      32-bit ints. */
  lemma {:induction false} TotalsAreKept(s: Sniffed, ips: seq<Word32>, size: nat, captures: seq<Capture>)
    requires s.traffic == map[]
    ensures InMemory(SumMap(CaptureAll(s, ips, size, captures).traffic)) == InMemory(KeptTotal(captures, ips))
  {
    hide Plus, InMemory, Credited, ResolveStep, Classified, Contribution, KeptLine;
    if captures != [] {
      var init, c := captures[..|captures| - 1], captures[|captures| - 1];
      var before := CaptureAll(s, ips, size, init);
      TotalsAreKept(s, ips, size, init);
      KeptStep(before, ips, size, c);
      WrappedParts(SumMap(before.traffic), KeptLine(c.frame, ips), KeptTotal(init, ips), KeptLine(c.frame, ips));
    }
  }

  /** One callback adds the frame's line to the sum, in the same widths. */
  lemma KeptStep(s: Sniffed, ips: seq<Word32>, size: nat, c: Capture)
    ensures InMemory(SumMap(Callback(s, ips, size, c).traffic)) ==
            InMemory(Plus(SumMap(s.traffic), KeptLine(c.frame, ips)))
  {
    hide Plus, InMemory, Credited, ResolveStep, Contribution;
    var pkt := Classified(c.frame, ips);
    KeptIsContribution(c.frame, ips);
    if pkt.discard {
      PlusZero(SumMap(s.traffic));
    } else {
      var process := ResolveStep(s.resolver, size, c.net, c.w, pkt).1;
      CreditedSum(s.traffic, process.comm, Contribution(pkt.direction, pkt.len));
    }
  }

  /** An unresolved packet is credited under "Unknown Traffic". */
  lemma UnresolvedIsUnknown(s: Sniffed, ips: seq<Word32>, size: nat, c: Capture)
    requires var pkt := Classified(c.frame, ips);
             var inode := Lookup(s.resolver.sockets, c.net, pkt).1;
             !pkt.discard && (inode == 0 || GetStep(s.resolver.processes, size, c.w, inode).1 == None)
    ensures Callback(s, ips, size, c).traffic == Credited(s.traffic, "Unknown Traffic", KeptLine(c.frame, ips))
  {
    hide Classified, Credited, Lookup, GetStep;
    KeptIsContribution(c.frame, ips);
  }

  // ----- when nothing wraps

  ghost predicate AllNonNegative(m: TrafficMap) {
    forall n :: n in m ==> NonNegative(m[n])
  }

  lemma NonNegativeSum(a: Line, b: Line)
    requires NonNegative(a) && NonNegative(b)
    ensures NonNegative(Plus(a, b))
    ensures FitsMemory(Plus(a, b)) ==> FitsMemory(a)
  {
  }

  lemma {:induction false} SumIsNonNegative(m: TrafficMap)
    requires AllNonNegative(m)
    ensures NonNegative(SumMap(m))
    decreases |m|
  {
    hide Plus, NonNegative;
    if m == map[] {
      ZeroNonNegative();
    } else {
      var n := Pick(m);
      SumIsNonNegative(m - {n});
      NonNegativeSum(m[n], SumMap(m - {n}));
    }
  }

  lemma ZeroNonNegative()
    ensures NonNegative(ZERO)
  {
  }

  lemma FittingLineUnwrapped(l: Line)
    requires NonNegative(l) && FitsMemory(l)
    ensures InMemory(l) == l
  {
  }

  /** A credit wraps nothing while the whole sum fits. */
  lemma CreditFits(m: TrafficMap, n: string, c: Line)
    requires AllNonNegative(m) && NonNegative(c) && FitsMemory(Plus(SumMap(m), c))
    ensures InMemory(Plus(Get(m, n), c)) == Plus(Get(m, n), c) && AllNonNegative(Credited(m, n, c))
  {
    hide Plus, NonNegative, FitsMemory, InMemory;
    var rest := SumMap(m - {n});
    ZeroNonNegative();
    SumMapUpdate(m, n, ZERO);
    SumIsNonNegative(m - {n});
    PlusAround(Get(m, n), c, rest);
    NonNegativeSum(Get(m, n), c);
    NonNegativeSum(Plus(Get(m, n), c), rest);
    FittingLineUnwrapped(Plus(Get(m, n), c));
  }

  /** No kept frame has a length that wraps to a negative int. */
  ghost predicate LengthsFit(captures: seq<Capture>, ips: seq<Word32>) {
    forall c :: c in captures ==> NonNegative(KeptLine(c.frame, ips))
  }

  lemma {:induction false} KeptTotalNonNegative(captures: seq<Capture>, ips: seq<Word32>)
    requires LengthsFit(captures, ips)
    ensures NonNegative(KeptTotal(captures, ips))
  {
    hide Plus, NonNegative, KeptLine;
    if captures == [] {
      ZeroNonNegative();
    } else {
      var init, c := captures[..|captures| - 1], captures[|captures| - 1];
      assert c in captures;
      KeptTotalNonNegative(init, ips);
      NonNegativeSum(KeptTotal(init, ips), KeptLine(c.frame, ips));
    }
  }

  /** The totals exactly: while they fit a line, what all applications were credited is what was
      kept, to the byte. */
  lemma {:induction false} TotalsAreExactlyKept(s: Sniffed, ips: seq<Word32>, size: nat, captures: seq<Capture>)
    requires s.traffic == map[] && LengthsFit(captures, ips) && FitsMemory(KeptTotal(captures, ips))
    ensures SumMap(CaptureAll(s, ips, size, captures).traffic) == KeptTotal(captures, ips)
    ensures AllNonNegative(CaptureAll(s, ips, size, captures).traffic)
  {
    hide Plus, CongruentLines, Credited, ResolveStep, Classified, Contribution, KeptLine, NonNegative, FitsMemory,
         InMemory;
    if captures != [] {
      var init, c := captures[..|captures| - 1], captures[|captures| - 1];
      assert c in captures;
      KeptTotalNonNegative(init, ips);
      NonNegativeSum(KeptTotal(init, ips), KeptLine(c.frame, ips));
      TotalsAreExactlyKept(s, ips, size, init);
      ExactKeptStep(CaptureAll(s, ips, size, init), ips, size, c);
    }
  }

  lemma ExactKeptStep(s: Sniffed, ips: seq<Word32>, size: nat, c: Capture)
    requires AllNonNegative(s.traffic) && NonNegative(KeptLine(c.frame, ips))
    requires FitsMemory(Plus(SumMap(s.traffic), KeptLine(c.frame, ips)))
    ensures SumMap(Callback(s, ips, size, c).traffic) == Plus(SumMap(s.traffic), KeptLine(c.frame, ips))
    ensures AllNonNegative(Callback(s, ips, size, c).traffic)
  {
    hide Plus, CongruentLines, Credited, ResolveStep, Contribution, NonNegative, FitsMemory, InMemory;
    var pkt := Classified(c.frame, ips);
    KeptIsContribution(c.frame, ips);
    if pkt.discard {
      PlusZero(SumMap(s.traffic));
    } else {
      var process := ResolveStep(s.resolver, size, c.net, c.w, pkt).1;
      CreditFits(s.traffic, process.comm, KeptLine(c.frame, ips));
      CreditedSum(s.traffic, process.comm, KeptLine(c.frame, ips));
    }
  }

  // ----- what an attribution rests on

  /** What happens to the resolver: packets, and the two clearing loops. */
  datatype Event = Sniff(net: Net, w: World, pkt: Packet) | ClearSockets | ClearProcesses

  /** The resolver after its construction from net0 and w0 and then the events. */
  ghost function After(net0: Net, w0: World, order0: seq<int>, size: nat, events: seq<Event>): Resolver {
    if events == [] then Started(net0, w0, order0, size)
    else
      var r := After(net0, w0, order0, size, events[..|events| - 1]);
      match events[|events| - 1]
      case Sniff(net, w, pkt) => ResolveStep(r, size, net, w, pkt).0
      case ClearSockets => r.(sockets := r.sockets.(missed := {}))
      case ClearProcesses => r.(processes := r.processes.(missed := {}))
  }

  /** The run as the socket index sees it. */
  function SocketEvents(events: seq<Event>): seq<Sockets.Event> {
    if events == [] then []
    else SocketEvents(events[..|events| - 1]) +
         match events[|events| - 1]
         case Sniff(net, w, pkt) => [Sockets.Ask(net, pkt)]
         case ClearSockets => [Sockets.Clear]
         case ClearProcesses => []
  }

  /** The run as the process index sees it: it is asked only for the nonzero inodes found. */
  ghost function ProcessEvents(net0: Net, w0: World, order0: seq<int>, size: nat, events: seq<Event>)
    : seq<ProcessRuns.Event>
  {
    if events == [] then []
    else
      var init := events[..|events| - 1];
      ProcessEvents(net0, w0, order0, size, init) +
      ProcessEventsOf(After(net0, w0, order0, size, init), events[|events| - 1])
  }

  ghost function ProcessEventsOf(r: Resolver, e: Event): seq<ProcessRuns.Event> {
    match e
    case Sniff(net, w, pkt) =>
      var inode := Lookup(r.sockets, net, pkt).1;
      if inode == 0 then [] else [ProcessRuns.Ask(w, inode)]
    case ClearSockets => []
    case ClearProcesses => [ProcessRuns.Clear]
  }

  lemma SocketOneMore(net0: Net, es: seq<Sockets.Event>, e: Sockets.Event)
    ensures Sockets.After(net0, es + [e]) ==
            match e case Ask(net, pkt) => Lookup(Sockets.After(net0, es), net, pkt).0
                    case Clear => Sockets.After(net0, es).(missed := {})
  {
    hide Lookup;
    assert (es + [e])[..|es|] == es;
  }

  lemma ProcessOneMore(w0: World, order0: seq<int>, size: nat, es: seq<ProcessRuns.Event>, e: ProcessRuns.Event)
    ensures ProcessRuns.After(w0, order0, size, es + [e]) ==
            ProcessRuns.Next(ProcessRuns.After(w0, order0, size, es), size, e)
  {
    hide GetStep, ProcessRuns.Next;
    assert (es + [e])[..|es|] == es;
  }

  /** Inside the resolver each index runs exactly as on its own. */
  lemma {:induction false} IndexesRunAlone(net0: Net, w0: World, order0: seq<int>, size: nat, events: seq<Event>)
    ensures var r := After(net0, w0, order0, size, events);
            && r.sockets == Sockets.After(net0, SocketEvents(events))
            && r.processes == ProcessRuns.After(w0, order0, size, ProcessEvents(net0, w0, order0, size, events))
  {
    hide Lookup, GetStep, Sockets.Initial, Sockets.After, ProcessRuns.After;
    if events == [] {
      NoEvents(net0);
    } else {
      var init, e := events[..|events| - 1], events[|events| - 1];
      IndexesRunAlone(net0, w0, order0, size, init);
      var ss, ps := SocketEvents(init), ProcessEvents(net0, w0, order0, size, init);
      var r := After(net0, w0, order0, size, init);
      match e
      case Sniff(net, w, pkt) =>
        var inode := Lookup(r.sockets, net, pkt).1;
        SocketOneMore(net0, ss, Sockets.Ask(net, pkt));
        ProcessOneMore(w0, order0, size, ps, ProcessRuns.Ask(w, inode));
        assert ps + [] == ps;
      case ClearSockets =>
        SocketOneMore(net0, ss, Sockets.Clear);
        assert ps + [] == ps;
      case ClearProcesses =>
        ProcessOneMore(w0, order0, size, ps, ProcessRuns.Clear);
        assert ss + [] == ss;
    }
  }

  lemma NoEvents(net0: Net)
    ensures Sockets.After(net0, []) == Sockets.Initial(net0)
  {
  }

  /** In every run a packet attributed to a process was matched by the latest socket row read with
      its key, and the process owned that row's inode at some moment; for TCP with a local address
      the row has the packet's own four ends, and for UDP it is a UDP socket of the packet's port
      unless the latest row known before was a wildcard listener on that port. */
  lemma AttributionIsJustified(net0: Net, w0: World, order0: seq<int>, size: nat, events: seq<Event>,
                               net: Net, w: World, pkt: Packet) returns (i: nat)
    requires ResolveStep(After(net0, w0, order0, size, events), size, net, w, pkt).1 != UNKNOWN_PROCESS
    ensures var h := History(net0, SocketEvents(events) + [Sockets.Ask(net, pkt)]);
            && IsLatest(h, KeyOf(pkt), i)
            && ProcessRuns.OwnedAtSomeMoment(
                 ProcessRuns.Moments(w0, ProcessEvents(net0, w0, order0, size, events) +
                                         [ProcessRuns.Ask(w, h[i].sock.inode)]),
                 ResolveStep(After(net0, w0, order0, size, events), size, net, w, pkt).1, h[i].sock.inode)
            && (pkt.kind == TCP && Ends(pkt).0 != 0 ==>
                  h[i].table != UdpTable &&
                  (h[i].sock.localIP, h[i].sock.localPort, h[i].sock.remoteIP, h[i].sock.remotePort) == Ends(pkt))
            && (pkt.kind == UDP ==>
                  && h[i].sock.localPort == Ends(pkt).1
                  && (h[i].table != UdpTable <==> OtherTableHolds(History(net0, SocketEvents(events)), KeyOf(pkt)))
                  && (h[i].table != UdpTable ==> IsWildcard(h[i].sock)))
  {
    hide Lookup, GetStep, Sockets.After, ProcessRuns.After, After, History, ProcessRuns.Moments,
         ProcessRuns.OwnedAtSomeMoment;
    IndexesRunAlone(net0, w0, order0, size, events);
    var es, ps := SocketEvents(events), ProcessEvents(net0, w0, order0, size, events);
    if pkt.kind == TCP && Ends(pkt).0 != 0 {
      i := TcpAnswerMatchesEnds(net0, es, net, pkt);
    } else if pkt.kind == UDP {
      i := UdpAnswerTable(net0, es, net, pkt);
    } else {
      i := AnswerIsLatestRow(net0, es, net, pkt);
    }
    ProcessRuns.AnswerWasOwner(w0, order0, size, ps, w, Lookup(Sockets.After(net0, es), net, pkt).1);
  }

  // ----- and when there is one

  /** The inode is no recorded miss, and is known or owned by something readable now. */
  ghost predicate Resolvable(s: IndexState, w: World, inode: nat) {
    inode !in s.missed && (inode in s.processes || exists pid :: Owns(w, pid, inode))
  }

  /** Which packets are given to a process, in every run, and to which. A packet goes to "Unknown
      Traffic" if its key is a recorded miss or no row read so far has it; or if the inode of the latest
      such row is a recorded miss, or is unknown and nothing readable owns it now. Any other packet
      goes to a process that owned that inode at some moment. */
  lemma AttributionExactly(net0: Net, w0: World, order0: seq<int>, size: nat, events: seq<Event>,
                           net: Net, w: World, pkt: Packet) returns (i: nat)
    ensures var r, k := After(net0, w0, order0, size, events), KeyOf(pkt);
            var h := History(net0, SocketEvents(events) + [Sockets.Ask(net, pkt)]);
            var process := ResolveStep(r, size, net, w, pkt).1;
            if k in r.sockets.missed || NoneWithKey(h, k) then process == UNKNOWN_PROCESS
            else
              && IsLatest(h, k, i)
              && var inode := h[i].sock.inode;
                 var ps := ProcessEvents(net0, w0, order0, size, events) + [ProcessRuns.Ask(w, inode)];
                 if Resolvable(r.processes, w, inode)
                 then ProcessRuns.OwnedAtSomeMoment(ProcessRuns.Moments(w0, ps), process, inode)
                 else process == UNKNOWN_PROCESS
  {
    hide GetStep, Sockets.After, ProcessRuns.After, After, History, ProcessRuns.Moments, ProcessRuns.OwnedAtSomeMoment;
    hide Lookup;
    IndexesRunAlone(net0, w0, order0, size, events);
    var es, ps := SocketEvents(events), ProcessEvents(net0, w0, order0, size, events);
    var r := After(net0, w0, order0, size, events);
    var inode := Lookup(r.sockets, net, pkt).1;
    AnsweredExactly(net0, es, net, pkt);
    i := 0;
    if inode != 0 {
      i := AnswerIsLatestRow(net0, es, net, pkt);
      ProcessRuns.GetFailsExactly(r.processes, size, w, inode);
      assert forall pid :: Owns(w, pid, inode) ==> Answers(w, pid, inode);
      if GetStep(r.processes, size, w, inode).1.Some? {
        ProcessRuns.AnswerWasOwner(w0, order0, size, ps, w, inode);
      }
    }
  }

  /** In a still world with single owners a packet with a socket goes to the very process that a plain
      scan of /proc finds for the inode of its latest row, or without one to "Unknown Traffic". */
  lemma AttributionIsPlainScan(net0: Net, w: World, order0: seq<int>, size: nat, events: seq<Event>,
                               net: Net, pkt: Packet) returns (i: nat)
    requires ProcessRuns.SingleOwners(w) && forall e :: e in events && e.Sniff? ==> e.w == w
    requires var h := History(net0, SocketEvents(events) + [Sockets.Ask(net, pkt)]);
             KeyOf(pkt) !in After(net0, w, order0, size, events).sockets.missed && !NoneWithKey(h, KeyOf(pkt))
    ensures var h := History(net0, SocketEvents(events) + [Sockets.Ask(net, pkt)]);
            && IsLatest(h, KeyOf(pkt), i)
            && ResolveStep(After(net0, w, order0, size, events), size, net, w, pkt).1 ==
               match ProcessRuns.PlainScan(w, h[i].sock.inode) case Some(p) => p case None => UNKNOWN_PROCESS
  {
    hide GetStep, Sockets.After, ProcessRuns.After, After, History, ProcessRuns.PlainScan, Lookup;
    IndexesRunAlone(net0, w, order0, size, events);
    var es := SocketEvents(events);
    AnsweredExactly(net0, es, net, pkt);
    i := AnswerIsLatestRow(net0, es, net, pkt);
    SameWorldInside(net0, w, order0, size, events);
    ProcessRuns.CachesAreTransparent(w, order0, size, ProcessEvents(net0, w, order0, size, events),
                                     Lookup(Sockets.After(net0, es), net, pkt).1);
  }

  /** The socket index answers exactly the packets whose key is no recorded miss and has a row. */
  lemma AnsweredExactly(net0: Net, es: seq<Sockets.Event>, net: Net, pkt: Packet)
    ensures Lookup(Sockets.After(net0, es), net, pkt).1 != 0 <==>
            KeyOf(pkt) !in Sockets.After(net0, es).missed
            && !NoneWithKey(History(net0, es + [Sockets.Ask(net, pkt)]), KeyOf(pkt))
  {
    var all, k := es + [Sockets.Ask(net, pkt)], KeyOf(pkt);
    assert all[..|es|] == es;
    MapIsHistory(net0, all);
    StoreIsLatest(History(net0, all), k);
    if k in Sockets.After(net0, all).sockets {
      StoredInodesNonzero(net0, all, k);
    }
    hide Store, History, NoneWithKey;
  }

  lemma {:induction false} SameWorldInside(net0: Net, w: World, order0: seq<int>, size: nat, events: seq<Event>)
    requires forall e :: e in events && e.Sniff? ==> e.w == w
    ensures ProcessRuns.AllIn(ProcessEvents(net0, w, order0, size, events), w)
  {
    hide Lookup, After;
    if events != [] {
      var init, e := events[..|events| - 1], events[|events| - 1];
      SameWorldInside(net0, w, order0, size, init);
      assert e in events;
    }
  }

  /** So a monitored TCP or UDP frame, in either direction, whose socket is listed right now and is no
      recorded miss is credited to a process that owned the socket, if one is known or owns it now and
      the inode is no recorded miss: its line goes to that process's name. */
  lemma ListedFrameIsCredited(net0: Net, w0: World, order0: seq<int>, size: nat, events: seq<Event>,
                              traffic: TrafficMap, addrs: seq<Word32>, c: Capture,
                              t: Table, lines: seq<TableLine>, sock: Socket)
    returns (i: nat, process: Process)
    requires Monitored(c.frame, addrs)
    requires if c.frame.protocol == 6 then t in {TcpTable, Tcp6Table} else c.frame.protocol == 17 && t == UdpTable
    requires c.net.Open(t) == Some(lines) && TableLine.Row(sock) in lines && sock.inode != 0
    requires var k := KeyOf(Classified(c.frame, FillOrder(addrs)));
             EntryKey(Entry(t, sock)) == k && k !in After(net0, w0, order0, size, events).sockets.missed
    ensures var r, pkt := After(net0, w0, order0, size, events), Classified(c.frame, FillOrder(addrs));
            var h := History(net0, SocketEvents(events) + [Sockets.Ask(c.net, pkt)]);
            var traffic' := Callback(Sniffed(r, traffic), FillOrder(addrs), size, c).traffic;
            && IsLatest(h, KeyOf(pkt), i)
            && var inode := h[i].sock.inode;
               var ps := ProcessEvents(net0, w0, order0, size, events) + [ProcessRuns.Ask(c.w, inode)];
               Resolvable(r.processes, c.w, inode) ==>
                 && ProcessRuns.OwnedAtSomeMoment(ProcessRuns.Moments(w0, ps), process, inode)
                 && Get(traffic', process.comm) == InMemory(Plus(Get(traffic, process.comm), FrameLine(c.frame, addrs)))
                 && forall n :: n != process.comm ==> Get(traffic', n) == Get(traffic, n)
  {
    var r, pkt := After(net0, w0, order0, size, events), Classified(c.frame, FillOrder(addrs));
    FrameDecides(c.frame, addrs);
    FrameCredits(Sniffed(r, traffic), addrs, size, c);
    hide Classified, KeyOf, EntryKey, Callback, ResolveStep, Monitored, InMemory, Plus, FrameLine;
    hide Sockets.After, ProcessRuns.After, After, History, ProcessRuns.Moments, ProcessRuns.OwnedAtSomeMoment, Lookup;
    IndexesRunAlone(net0, w0, order0, size, events);
    ListedSocketIsFound(net0, SocketEvents(events), c.net, pkt, t, lines, sock);
    AnsweredExactly(net0, SocketEvents(events), c.net, pkt);
    i := AttributionExactly(net0, w0, order0, size, events, c.net, c.w, pkt);
    process := ResolveStep(r, size, c.net, c.w, pkt).1;
  }
}
