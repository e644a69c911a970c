/** src/proc/SocketIndex.cpp over decoded rows of the socket tables. */
module Sockets {
  import opened Basics
  import opened Packets

  datatype Table = TcpTable | Tcp6Table | UdpTable | RawTable

  datatype Socket = Socket(localIP: Word32, localPort: Word16, remoteIP: Word32, remotePort: Word16, inode: nat)

  datatype TableLine = Malformed | Row(sock: Socket)

  /** What the kernel tables hold at one moment; None for a table that does not open. */
  datatype Net = Net(tcp: Option<seq<TableLine>>, tcp6: Option<seq<TableLine>>,
                     udp: Option<seq<TableLine>>, raw: Option<seq<TableLine>>) {
    function Open(t: Table): Option<seq<TableLine>> {
      match t
      case TcpTable => tcp
      case Tcp6Table => tcp6
      case UdpTable => udp
      case RawTable => raw
    }
  }

  /** A row that was stored: well-formed and with an inode. */
  datatype Entry = Entry(table: Table, sock: Socket)

  function EntryKey(e: Entry): PacketHash {
    if e.table == UdpTable then UdpKey(e.sock.localPort)
    else SocketKey(e.sock.localIP, e.sock.localPort, e.sock.remoteIP, e.sock.remotePort)
  }

  function Accepted(t: Table, lines: seq<TableLine>): (entries: seq<Entry>)
    ensures forall e :: e in entries ==> e.sock.inode != 0 && e.table == t
  {
    if lines == [] then []
    else
      var before, line := Accepted(t, lines[..|lines| - 1]), lines[|lines| - 1];
      if line.Row? && line.sock.inode != 0 then before + [Entry(t, line.sock)] else before
  }

  /** The rows stored from one table; none when it does not open. */
  function RowsOf(net: Net, t: Table): (entries: seq<Entry>)
    ensures forall e :: e in entries ==> e.sock.inode != 0 && e.table == t
  {
    match net.Open(t) case None => [] case Some(lines) => Accepted(t, lines)
  }

  function ReadTables(net: Net, tables: seq<Table>): (entries: seq<Entry>)
    ensures forall e :: e in entries ==> e.sock.inode != 0 && e.table in tables
  {
    if tables == [] then []
    else ReadTables(net, tables[..|tables| - 1]) + RowsOf(net, tables[|tables| - 1])
  }

  function Store(m: map<PacketHash, nat>, entries: seq<Entry>): map<PacketHash, nat> {
    if entries == [] then m
    else
      var e := entries[|entries| - 1];
      Store(m, entries[..|entries| - 1])[EntryKey(e) := e.sock.inode]
  }

  lemma {:induction false} StoreConcat(m: map<PacketHash, nat>, a: seq<Entry>, b: seq<Entry>)
    ensures Store(m, a + b) == Store(Store(m, a), b)
  {
    if b == [] {
      assert a + b == a;
    } else {
      StoreConcat(m, a, b[..|b| - 1]);
      assert (a + b)[..|a + b| - 1] == a + b[..|b| - 1];
    }
  }

  /** Entry i is the last one of the history with this key. */
  ghost predicate IsLatest(h: seq<Entry>, k: PacketHash, i: nat) {
    i < |h| && EntryKey(h[i]) == k && NoneWithKey(h[i + 1..], k)
  }

  ghost predicate NoneWithKey(h: seq<Entry>, k: PacketHash) {
    forall e :: e in h ==> EntryKey(e) != k
  }

  lemma {:induction false} StoreIsLatest(h: seq<Entry>, k: PacketHash)
    ensures k in Store(map[], h) <==> !NoneWithKey(h, k)
    ensures k in Store(map[], h) ==> exists i: nat :: IsLatest(h, k, i) && Store(map[], h)[k] == h[i].sock.inode
  {
    if h != [] {
      var n := |h| - 1;
      var before := h[..n];
      StoreIsLatest(before, k);
      assert h == before + [h[n]];
      if EntryKey(h[n]) == k {
        assert h[n + 1..] == [];
        assert IsLatest(h, k, n);
      } else if k in Store(map[], before) {
        var i: nat :| IsLatest(before, k, i) && Store(map[], before)[k] == before[i].sock.inode;
        assert h[i + 1..] == before[i + 1..] + [h[n]];
        assert IsLatest(h, k, i);
      }
    }
  }

  // ----- the index

  datatype SocketState = SocketState(sockets: map<PacketHash, nat>, missed: set<PacketHash>)

  function Consulted(kind: PacketType): seq<Table> {
    if kind == TCP then [TcpTable, Tcp6Table] else if kind == UDP then [UdpTable] else []
  }

  /** The rows one call of get reads. */
  function RowsRead(s: SocketState, net: Net, pkt: Packet): seq<Entry> {
    if KeyOf(pkt) in s.missed || KeyOf(pkt) in s.sockets then [] else ReadTables(net, Consulted(pkt.kind))
  }

  /** One call of get: the state it leaves and its answer. */
  function Lookup(s: SocketState, net: Net, pkt: Packet): (SocketState, nat) {
    var k, m := KeyOf(pkt), Store(s.sockets, RowsRead(s, net, pkt));
    var found := k !in s.missed && k in m;
    var newMiss := k !in m && pkt.kind in {TCP, UDP};
    (SocketState(m, if newMiss then s.missed + {k} else s.missed), if found then m[k] else 0)
  }

  class SocketIndex {
    var mSocketMap: map<PacketHash, nat>
    var mCouldNotFind: set<PacketHash>

    function State(): SocketState
      reads this
    {
      SocketState(mSocketMap, mCouldNotFind)
    }

    constructor (net: Net)
      ensures State() == SocketState(Store(map[], ReadTables(net, [TcpTable, UdpTable, RawTable])), {})
    {
      mSocketMap := map[];
      mCouldNotFind := {};
      new;
      Refresh(net, [TcpTable, UdpTable, RawTable]);
    }

    method Refresh(net: Net, tables: seq<Table>)
      modifies this
      ensures State() == SocketState(Store(old(mSocketMap), ReadTables(net, tables)), old(mCouldNotFind))
    {
      for i := 0 to |tables|
        invariant mSocketMap == Store(old(mSocketMap), ReadTables(net, tables[..i]))
        invariant mCouldNotFind == old(mCouldNotFind)
      {
        assert tables[..i + 1][..i] == tables[..i];
        ghost var read := ReadTables(net, tables[..i]);
        if net.Open(tables[i]).Some? {
          var lines := net.Open(tables[i]).value;
          RefreshTable(tables[i], lines);
          StoreConcat(old(mSocketMap), read, Accepted(tables[i], lines));
        } else {
          assert read + [] == read;
        }
      }
      assert tables[..|tables|] == tables;
    }

    /** The rows of one open table. */
    method RefreshTable(table: Table, lines: seq<TableLine>)
      modifies this
      ensures State() == SocketState(Store(old(mSocketMap), Accepted(table, lines)), old(mCouldNotFind))
    {
      for j := 0 to |lines|
        invariant mSocketMap == Store(old(mSocketMap), Accepted(table, lines[..j]))
        invariant mCouldNotFind == old(mCouldNotFind)
      {
        AcceptedOneMore(old(mSocketMap), table, lines, j);
        hide Store, Accepted;
        if lines[j].Row? && lines[j].sock.inode != 0 {
          var sock := lines[j].sock;
          var hash: PacketHash;
          if table == UdpTable {
            hash := UdpKey(sock.localPort);
          } else {
            hash := SocketKey(sock.localIP, sock.localPort, sock.remoteIP, sock.remotePort);
          }
          mSocketMap := mSocketMap[hash := sock.inode];
        }
      }
      assert lines[..|lines|] == lines;
    }

    method Get(net: Net, pkt: Packet) returns (inode: nat)
      modifies this
      ensures (State(), inode) == Lookup(old(State()), net, pkt)
    {
      var hash := HashPacket(pkt);
      if hash in mCouldNotFind {
        assert mCouldNotFind + {hash} == mCouldNotFind;
        return 0;
      }
      if hash in mSocketMap {
        return mSocketMap[hash];
      }
      ghost var m0 := mSocketMap;
      if pkt.kind == TCP {
        Refresh(net, [TcpTable]);
        Refresh(net, [Tcp6Table]);
        ReadTwo(net, TcpTable, Tcp6Table);
        ReadTwo(net, Tcp6Table, TcpTable);
        StoreConcat(m0, RowsOf(net, TcpTable), RowsOf(net, Tcp6Table));
      } else if pkt.kind == UDP {
        Refresh(net, [UdpTable]);
      } else {
        return 0;
      }
      if hash in mSocketMap {
        inode := mSocketMap[hash];
      } else {
        mCouldNotFind := mCouldNotFind + {hash};
        inode := 0;
      }
    }

    /** One turn of the clearing loop. */
    method ClearMisses()
      modifies this
      ensures State() == SocketState(old(mSocketMap), {})
    {
      mCouldNotFind := {};
    }
  }

  /** One more line of a table: a well-formed row with an inode is stored under its key. */
  lemma AcceptedOneMore(m: map<PacketHash, nat>, t: Table, lines: seq<TableLine>, j: nat)
    requires j < |lines|
    ensures var before, after := Store(m, Accepted(t, lines[..j])), Store(m, Accepted(t, lines[..j + 1]));
            after == if lines[j].Row? && lines[j].sock.inode != 0
                     then before[EntryKey(Entry(t, lines[j].sock)) := lines[j].sock.inode] else before
  {
    hide EntryKey;
    var before := Accepted(t, lines[..j]);
    assert lines[..j + 1][..j] == lines[..j];
    if lines[j].Row? && lines[j].sock.inode != 0 {
      assert (before + [Entry(t, lines[j].sock)])[..|before|] == before;
    }
  }

  lemma ReadTwo(net: Net, a: Table, b: Table)
    ensures ReadTables(net, [a]) == RowsOf(net, a)
    ensures ReadTables(net, [a, b]) == RowsOf(net, a) + RowsOf(net, b)
  {
    assert [a][..0] == [];
    assert [a, b][..1] == [a];
    assert [] + RowsOf(net, a) == RowsOf(net, a);
  }

  // ----- runs

  datatype Event = Ask(net: Net, pkt: Packet) | Clear

  function Initial(net0: Net): SocketState {
    SocketState(Store(map[], ReadTables(net0, [TcpTable, UdpTable, RawTable])), {})
  }

  function After(net0: Net, events: seq<Event>): SocketState {
    if events == [] then Initial(net0)
    else
      var s := After(net0, events[..|events| - 1]);
      match events[|events| - 1]
      case Ask(net, pkt) => Lookup(s, net, pkt).0
      case Clear => s.(missed := {})
  }

  /** Every row stored so far, in reading order. */
  function History(net0: Net, events: seq<Event>): seq<Entry> {
    if events == [] then ReadTables(net0, [TcpTable, UdpTable, RawTable])
    else
      var before := events[..|events| - 1];
      match events[|events| - 1]
      case Ask(net, pkt) => History(net0, before) + RowsRead(After(net0, before), net, pkt)
      case Clear => History(net0, before)
  }

  lemma {:induction false} MapIsHistory(net0: Net, events: seq<Event>)
    ensures After(net0, events).sockets == Store(map[], History(net0, events))
    ensures forall e :: e in History(net0, events) ==> e.sock.inode != 0
  {
    if events != [] {
      var before := events[..|events| - 1];
      MapIsHistory(net0, before);
      match events[|events| - 1]
      case Ask(net, pkt) => StoreConcat(map[], History(net0, before), RowsRead(After(net0, before), net, pkt));
      case Clear =>
    }
  }

  /** No stored inode is 0. */
  lemma StoredInodesNonzero(net0: Net, events: seq<Event>, k: PacketHash)
    requires k in After(net0, events).sockets
    ensures After(net0, events).sockets[k] != 0
  {
    var h := History(net0, events);
    MapIsHistory(net0, events);
    StoreIsLatest(h, k);
    var i: nat :| IsLatest(h, k, i) && Store(map[], h)[k] == h[i].sock.inode;
    assert h[i] in h;
  }

  /** A nonzero answer is the inode of the latest row read with the packet's key. */
  lemma AnswerIsLatestRow(net0: Net, events: seq<Event>, net: Net, pkt: Packet) returns (i: nat)
    requires Lookup(After(net0, events), net, pkt).1 != 0
    ensures var h := History(net0, events + [Ask(net, pkt)]);
            IsLatest(h, KeyOf(pkt), i) && Lookup(After(net0, events), net, pkt).1 == h[i].sock.inode
  {
    var all := events + [Ask(net, pkt)];
    assert all[..|all| - 1] == events;
    MapIsHistory(net0, all);
    var h := History(net0, all);
    StoreIsLatest(h, KeyOf(pkt));
    i :| IsLatest(h, KeyOf(pkt), i) && Store(map[], h)[KeyOf(pkt)] == h[i].sock.inode;
  }

  /** The local and remote ends of a packet. */
  function Ends(pkt: Packet): (Word32, Word16, Word32, Word16) {
    if pkt.direction == Outgoing then (pkt.sip, pkt.sport, pkt.dip, pkt.dport)
    else (pkt.dip, pkt.dport, pkt.sip, pkt.sport)
  }

  /** A TCP packet with a local address is answered from a row with its own four ends, never
      from the UDP table. */
  lemma TcpAnswerMatchesEnds(net0: Net, events: seq<Event>, net: Net, pkt: Packet) returns (i: nat)
    requires pkt.kind == TCP && Ends(pkt).0 != 0
    requires Lookup(After(net0, events), net, pkt).1 != 0
    ensures var h := History(net0, events + [Ask(net, pkt)]);
            && IsLatest(h, KeyOf(pkt), i)
            && Lookup(After(net0, events), net, pkt).1 == h[i].sock.inode
            && h[i].table != UdpTable
            && (h[i].sock.localIP, h[i].sock.localPort, h[i].sock.remoteIP, h[i].sock.remotePort) == Ends(pkt)
  {
    i := AnswerIsLatestRow(net0, events, net, pkt);
  }

  lemma {:induction false} RowIsAccepted(t: Table, lines: seq<TableLine>, sock: Socket)
    requires Row(sock) in lines && sock.inode != 0
    ensures Entry(t, sock) in Accepted(t, lines)
  {
    var init, line := lines[..|lines| - 1], lines[|lines| - 1];
    assert lines == init + [line];
    if line != Row(sock) {
      RowIsAccepted(t, init, sock);
    }
  }

  /** Completeness: a packet whose socket is listed right now is answered, unless its key is a
      recorded miss: by the TCP or TCP6 table for TCP, by the UDP table for UDP. */
  lemma ListedSocketIsFound(net0: Net, events: seq<Event>, net: Net, pkt: Packet,
                            t: Table, lines: seq<TableLine>, sock: Socket)
    requires if pkt.kind == TCP then t in {TcpTable, Tcp6Table} else pkt.kind == UDP && t == UdpTable
    requires net.Open(t) == Some(lines) && Row(sock) in lines && sock.inode != 0
    requires EntryKey(Entry(t, sock)) == KeyOf(pkt) && KeyOf(pkt) !in After(net0, events).missed
    ensures Lookup(After(net0, events), net, pkt).1 != 0
  {
    var s, k := After(net0, events), KeyOf(pkt);
    var all := events + [Ask(net, pkt)];
    assert all[..|events|] == events;
    if k !in s.sockets {
      RowIsAccepted(t, lines, sock);
      ReadTwo(net, TcpTable, Tcp6Table);
      ReadTwo(net, UdpTable, UdpTable);
      assert Entry(t, sock) in RowsRead(s, net, pkt);
      MapIsHistory(net0, all);
      assert Entry(t, sock) in History(net0, all);
      StoreIsLatest(History(net0, all), k);
    }
    StoredInodesNonzero(net0, all, k);
  }

  // ----- what one lookup answers

  /** The inode of the last row of a table with the key, 0 without one. */
  function LastInode(t: Table, lines: seq<TableLine>, k: PacketHash): nat {
    if lines == [] then 0
    else
      var line := lines[|lines| - 1];
      if line.Row? && line.sock.inode != 0 && EntryKey(Entry(t, line.sock)) == k then line.sock.inode
      else LastInode(t, lines[..|lines| - 1], k)
  }

  /** The same of a table as it is now. */
  function ListedInode(net: Net, t: Table, k: PacketHash): nat {
    match net.Open(t) case None => 0 case Some(lines) => LastInode(t, lines, k)
  }

  lemma {:induction false} StoreLast(m: map<PacketHash, nat>, t: Table, lines: seq<TableLine>, k: PacketHash)
    ensures var m', inode := Store(m, Accepted(t, lines)), LastInode(t, lines, k);
            if inode != 0 then k in m' && m'[k] == inode
            else (k in m' <==> k in m) && (k in m ==> m'[k] == m[k])
  {
    hide EntryKey;
    if lines != [] {
      var n := |lines| - 1;
      StoreLast(m, t, lines[..n], k);
      AcceptedOneMore(m, t, lines, n);
      assert lines[..n + 1] == lines;
    }
  }

  lemma StoreListed(m: map<PacketHash, nat>, net: Net, t: Table, k: PacketHash)
    ensures var m', inode := Store(m, RowsOf(net, t)), ListedInode(net, t, k);
            if inode != 0 then k in m' && m'[k] == inode
            else (k in m' <==> k in m) && (k in m ==> m'[k] == m[k])
  {
    if net.Open(t).Some? {
      StoreLast(m, t, net.Open(t).value, k);
    }
  }

  /** A key neither known nor missed is looked up in the tables as they are now: for TCP the last row
      of tcp6 with it, else of tcp; for UDP of udp; nothing else is read. */
  lemma FreshAnswer(s: SocketState, net: Net, pkt: Packet)
    requires KeyOf(pkt) !in s.sockets && KeyOf(pkt) !in s.missed
    ensures var k, inode := KeyOf(pkt), Lookup(s, net, pkt).1;
            match pkt.kind
            case TCP => inode == if ListedInode(net, Tcp6Table, k) != 0 then ListedInode(net, Tcp6Table, k)
                                 else ListedInode(net, TcpTable, k)
            case UDP => inode == ListedInode(net, UdpTable, k)
            case _ => inode == 0 && Lookup(s, net, pkt).0 == s
  {
    hide Store, ReadTables;
    var k, m := KeyOf(pkt), s.sockets;
    ReadTwo(net, TcpTable, Tcp6Table);
    ReadTwo(net, UdpTable, UdpTable);
    if pkt.kind == TCP {
      StoreConcat(m, RowsOf(net, TcpTable), RowsOf(net, Tcp6Table));
      StoreListed(m, net, TcpTable, k);
      StoreListed(Store(m, RowsOf(net, TcpTable)), net, Tcp6Table, k);
    } else if pkt.kind == UDP {
      StoreListed(m, net, UdpTable, k);
    } else {
      NothingStored(m);
    }
  }

  lemma NothingStored(m: map<PacketHash, nat>)
    ensures Store(m, []) == m && ReadTables(Net(None, None, None, None), []) == []
    ensures forall net: Net :: ReadTables(net, []) == []
  {
  }

  /** A known key is answered from the map and a missed one with 0, and neither reads anything. */
  lemma SettledAnswer(s: SocketState, net: Net, pkt: Packet)
    requires KeyOf(pkt) in s.sockets || KeyOf(pkt) in s.missed
    ensures var k := KeyOf(pkt);
            Lookup(s, net, pkt) == (s, if k in s.missed then 0 else s.sockets[k])
  {
    hide KeyOf;
    assert KeyOf(pkt) in s.missed ==> s.missed + {KeyOf(pkt)} == s.missed;
  }

  lemma {:induction false} StoreKeeps(m: map<PacketHash, nat>, entries: seq<Entry>, k: PacketHash)
    ensures k in m ==> k in Store(m, entries)
  {
    if entries != [] {
      StoreKeeps(m, entries[..|entries| - 1], k);
    }
  }

  /** Once a packet was answered with an inode, every later packet of its key is, in every run,
      whatever the tables hold by then. */
  lemma {:induction false} SocketIsRemembered(net0: Net, before: seq<Event>, net: Net, pkt: Packet,
                                              more: seq<Event>, net': Net, pkt': Packet)
    requires Lookup(After(net0, before), net, pkt).1 != 0 && KeyOf(pkt') == KeyOf(pkt)
    ensures var s := After(net0, before + [Ask(net, pkt)] + more);
            && KeyOf(pkt) in s.sockets && KeyOf(pkt) !in s.missed
            && Lookup(s, net', pkt').1 != 0
    decreases |more|
  {
    hide Lookup, KeyOf, Store, Initial;
    var all := before + [Ask(net, pkt)] + more;
    if more == [] {
      assert all == before + [Ask(net, pkt)] && all[..|before|] == before;
      AnsweredIsKnown(After(net0, before), net, pkt);
    } else {
      var init, e := more[..|more| - 1], more[|more| - 1];
      assert all[..|all| - 1] == before + [Ask(net, pkt)] + init;
      SocketIsRemembered(net0, before, net, pkt, init, net', pkt');
      if e.Ask? {
        KnownKeyStays(After(net0, before + [Ask(net, pkt)] + init), e.net, e.pkt, KeyOf(pkt));
      }
    }
    var s := After(net0, all);
    SettledAnswer(s, net', pkt');
    StoredInodesNonzero(net0, all, KeyOf(pkt));
  }

  lemma AnsweredIsKnown(s: SocketState, net: Net, pkt: Packet)
    requires Lookup(s, net, pkt).1 != 0
    ensures KeyOf(pkt) in Lookup(s, net, pkt).0.sockets && KeyOf(pkt) !in Lookup(s, net, pkt).0.missed
  {
  }

  lemma KnownKeyStays(s: SocketState, net: Net, pkt: Packet, k: PacketHash)
    requires k in s.sockets && k !in s.missed
    ensures k in Lookup(s, net, pkt).0.sockets && k !in Lookup(s, net, pkt).0.missed
  {
    hide KeyOf, Store;
    StoreKeeps(s.sockets, RowsRead(s, net, pkt), k);
  }

  // ----- which table answers a UDP packet

  predicate IsWildcard(sock: Socket) {
    sock.localIP == 0 && sock.remoteIP == 0 && sock.remotePort == 0
  }

  /** Which rows have a UDP port's key: UDP rows of that port, and just as well a listener of another
      table on the wildcard address. */
  lemma UdpKeyRows(e: Entry, port: Word16)
    ensures EntryKey(e) == UdpKey(port) <==> e.sock.localPort == port && (e.table != UdpTable ==> IsWildcard(e.sock))
  {
  }

  /** The latest row of a longer history is in its new part if that has the key at all. */
  lemma LatestInConcat(h: seq<Entry>, more: seq<Entry>, k: PacketHash, i: nat)
    requires IsLatest(h + more, k, i)
    ensures if NoneWithKey(more, k) then IsLatest(h, k, i) && (h + more)[i] == h[i] else (h + more)[i] in more
  {
    var all := h + more;
    if i < |h| {
      assert all[i + 1..] == h[i + 1..] + more;
    } else {
      assert all[i] == more[i - |h|];
    }
  }

  lemma LatestIsUnique(h: seq<Entry>, k: PacketHash, i: nat, j: nat)
    requires IsLatest(h, k, i) && IsLatest(h, k, j)
    ensures i == j
  {
  }

  /** The latest row with the key is one of a table other than UDP. */
  ghost predicate OtherTableHolds(h: seq<Entry>, k: PacketHash) {
    exists j: nat :: IsLatest(h, k, j) && h[j].table != UdpTable
  }

  /** In every run a UDP packet is answered from another table exactly when the latest row of its
      key known before the call is of another table: a wildcard listener on the same port. When no
      such row is known the tables are read, and the answer is a UDP socket of that port. */
  lemma UdpAnswerTable(net0: Net, events: seq<Event>, net: Net, pkt: Packet) returns (i: nat)
    requires pkt.kind == UDP && Lookup(After(net0, events), net, pkt).1 != 0
    ensures var h := History(net0, events + [Ask(net, pkt)]);
            && IsLatest(h, KeyOf(pkt), i)
            && Lookup(After(net0, events), net, pkt).1 == h[i].sock.inode
            && h[i].sock.localPort == Ends(pkt).1
            && (h[i].table != UdpTable <==> OtherTableHolds(History(net0, events), KeyOf(pkt)))
            && (h[i].table != UdpTable ==> IsWildcard(h[i].sock))
  {
    var s, k, h := After(net0, events), KeyOf(pkt), History(net0, events);
    var all, read := events + [Ask(net, pkt)], RowsRead(s, net, pkt);
    assert all[..|events|] == events;
    assert History(net0, all) == h + read;
    i := AnswerIsLatestRow(net0, events, net, pkt);
    UdpKeyRows((h + read)[i], Ends(pkt).1);
    LatestInConcat(h, read, k, i);
    hide Lookup, Store, ReadTables, History, After, NoneWithKey;
    if NoneWithKey(read, k) {
      forall j: nat | IsLatest(h, k, j) ensures j == i {
        LatestIsUnique(h, k, i, j);
      }
    } else {
      ReadForUdp(s, net, pkt);
      UnknownHasNoRow(net0, events, k);
    }
  }

  /** A lookup that reads anything does not know the key, and for UDP reads UDP rows. */
  lemma ReadForUdp(s: SocketState, net: Net, pkt: Packet)
    requires pkt.kind == UDP && !NoneWithKey(RowsRead(s, net, pkt), KeyOf(pkt))
    ensures KeyOf(pkt) !in s.sockets
    ensures forall e :: e in RowsRead(s, net, pkt) ==> e.table == UdpTable
  {
  }

  lemma UnknownHasNoRow(net0: Net, events: seq<Event>, k: PacketHash)
    requires k !in After(net0, events).sockets
    ensures forall j: nat :: !IsLatest(History(net0, events), k, j)
  {
    MapIsHistory(net0, events);
    StoreIsLatest(History(net0, events), k);
    hide History, After, Store;
  }

  /** So from a daemon that starts while a server listens on a port, a UDP packet to that port gets
      the listener's inode, even if its own socket is listed when it is looked up. */
  lemma UdpAnsweredByListener(listener: Socket, net: Net, pkt: Packet)
    requires IsWildcard(listener) && listener.inode != 0
    requires pkt.kind == UDP && Ends(pkt).1 == listener.localPort
    ensures Lookup(Initial(Net(Some([Row(listener)]), None, None, None)), net, pkt).1 == listener.inode
  {
    ReadOneRow(listener);
    hide ReadTables, RowsOf, Accepted;
    var e := Entry(TcpTable, listener);
    assert [e][..0] == [];
    assert Store(map[], [e]) == Store(map[], [])[EntryKey(e) := listener.inode];
  }

  lemma ReadOneRow(sock: Socket)
    requires sock.inode != 0
    ensures ReadTables(Net(Some([Row(sock)]), None, None, None), [TcpTable, UdpTable, RawTable]) ==
            [Entry(TcpTable, sock)]
  {
    hide Accepted;
    var net0, lines := Net(Some([Row(sock)]), None, None, None), [Row(sock)];
    AcceptedRow(TcpTable, sock);
    assert RowsOf(net0, TcpTable) == Accepted(TcpTable, lines);
    ReadTwo(net0, TcpTable, UdpTable);
    assert [TcpTable, UdpTable, RawTable][..2] == [TcpTable, UdpTable];
  }

  lemma AcceptedRow(t: Table, sock: Socket)
    requires sock.inode != 0
    ensures Accepted(t, [Row(sock)]) == [Entry(t, sock)]
  {
    assert [Row(sock)][..0] == [];
  }

  /** Position j of a run was a miss of key k: a lookup of k after which no row ever read had k. */
  ghost predicate MissAt(net0: Net, events: seq<Event>, j: nat, k: PacketHash) {
    && j < |events| && events[j].Ask? && KeyOf(events[j].pkt) == k
    && NoneWithKey(History(net0, events[..j + 1]), k)
    && Clear !in events[j + 1..]
  }

  lemma MissPersists(net0: Net, before: seq<Event>, e: Event, j: nat, k: PacketHash)
    requires MissAt(net0, before, j, k) && e != Clear
    ensures MissAt(net0, before + [e], j, k)
  {
    assert (before + [e])[..j + 1] == before[..j + 1];
    assert (before + [e])[j + 1..] == before[j + 1..] + [e];
  }

  lemma NewMiss(net0: Net, before: seq<Event>, net: Net, pkt: Packet, k: PacketHash)
    requires k !in After(net0, before).missed && k in Lookup(After(net0, before), net, pkt).0.missed
    ensures MissAt(net0, before + [Ask(net, pkt)], |before|, k)
  {
    var all := before + [Ask(net, pkt)];
    assert all[..|all| - 1] == before && all[..|before| + 1] == all && all[|before| + 1..] == [];
    MapIsHistory(net0, all);
    StoreIsLatest(History(net0, all), k);
  }

  lemma {:induction false} MissesAreWitnessed(net0: Net, events: seq<Event>, k: PacketHash)
    requires k in After(net0, events).missed
    ensures exists j :: MissAt(net0, events, j, k)
  {
    var n := |events| - 1;
    var before, e := events[..n], events[n];
    assert events == before + [e];
    if k in After(net0, before).missed {
      MissesAreWitnessed(net0, before, k);
      var j :| MissAt(net0, before, j, k);
      MissPersists(net0, before, e, j, k);
    } else {
      NewMiss(net0, before, e.net, e.pkt, k);
    }
  }

  /** A zero answer to a TCP or UDP packet has a moment since the last clear at which the key was
      looked up and no row read until then had it. */
  lemma ZeroIsWitnessed(net0: Net, events: seq<Event>, net: Net, pkt: Packet) returns (j: nat)
    requires pkt.kind in {TCP, UDP}
    requires Lookup(After(net0, events), net, pkt).1 == 0
    ensures MissAt(net0, events + [Ask(net, pkt)], j, KeyOf(pkt))
  {
    var all, k := events + [Ask(net, pkt)], KeyOf(pkt);
    assert all[..|events|] == events;
    MapIsHistory(net0, all);
    StoreIsLatest(History(net0, all), k);
    if k !in After(net0, events).missed && k in After(net0, all).sockets {
      StoredInodesNonzero(net0, all, k);
    }
    assert k in After(net0, all).missed;
    MissesAreWitnessed(net0, all, k);
    j :| MissAt(net0, all, j, k);
  }
}
