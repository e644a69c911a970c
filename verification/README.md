# ntmd, verified

A Dafny model of ntmd, the network traffic monitor daemon: from a captured frame to the row its
bytes end up in, with the parsing, caching and printing code around that path. Everything the
operating system supplies (frames, socket tables, `/proc`, the clock, file texts) is an arbitrary
value, and every theorem about a run holds for all runs and all such values, starting on a database
with any tables from earlier runs.

`dafny verify dfyconfig.toml` checks the whole project.

## Overview

| file | models | main results |
|---|---|---|
| `LRUArray.dfy` | the recency cache | inclusion of smaller caches, refinement of a move-to-front list, presence iff recent |
| `ProcessIndex.dfy`, `ProcessRuns.dfy` | inode to process, with its map, negative cache and cache-guided search | exact failure condition, search priority, what is remembered, witnesses for every answer, cache transparency |
| `SocketIndex.dfy` | packet key to inode | answers are the latest row with the key, exactly when a UDP answer is from another table, what a lookup reads and remembers, witnesses for every zero |
| `Packets.dfy` | local addresses, packet classification, socket keys | membership whatever the filling order, which frames are kept, exact condition for both directions to share a key |
| `Traffic.dfy`, `DBController.dfy` | counters in machine arithmetic, tables, range queries | which rows a query counts, range splitting, sums modulo 2^32 and exactly, names present iff rows are not empty |
| `TrafficStorage.dfy` | the object with its lock, one method per critical section | the whole new state of each section |
| `Protocol.dfy`, `Ledger.dfy`, `Refusals.dfy`, `Exactness.dfy`, `LiveStream.dfy` | all threads as one state machine of atomic steps | conservation, when it is exact, account of refused and lost credits, pointer ownership, what live clients receive |
| `Refinement.dfy` | the storage object and client locals against that state machine | every critical section is a step of it |
| `Sniffer.dfy`, `EndToEnd.dfy` | resolving and crediting, alone and among all other threads | totals over applications are the kept packets, exactly which packets go to which process, frames accounted for in the database |
| `Config.dfy`, `StringUtil.dfy` | the configuration file, string helpers | what any file means field by field, parse/print round trip iff, idempotent rewriting, split/join iff |
| `HumanReadable.dfy` | unit scaling | least unit, monotone, what the texts say, buffer bound, exact range of the unit table |
| `Basics.dfy` | 32- and 64-bit conversions, `std::find` | |

Objects that the source updates in place are classes. Each method is proved against a
specification function (`Cut(Front(..))` for a cache update, `GetStep`, `Lookup`, `Deposited`,
`Credited`, `Callback`, `HandOver`, ...), and the run theorems are about those functions, so a method body that
departs from them does not verify and a specification that departs from the promise does not either.
For the storage and its clients `Refinement.dfy` shows that the object, the database and the locals
lent through the hooks follow the state machine, step by step, in every run.

The protocol has one step per critical section of the storage's mutex. Two of its facts matter when
reading the theorems. First, `add` takes its line reference before it takes the lock, so `Fetch` and
`Credit` are two steps and a deposit may come between them; the epoch in the reference says whether
it did. Second, the books carry accounts (`credited`, `current`, `dropped`, `lost`,
`deposits`, and each client's `claims`) which no step reads to decide anything; they are there to
state what happened.

## What the proofs found

- A deposit between the two halves of `add` loses that packet: the reference points into a map that
  has been cleared (in C++, at a destroyed line). `Refusals.LostIffDepositBetween` shows that this
  is the only way to lose a credit, and `Refusals.InterleavedDepositLoses` gives runs where it happens.
- A second deposit with the same 32-bit time is refused by the primary key although memory is
  cleared all the same. `Refusals.DroppedExactly` gives what is dropped; with strictly rising times
  within 32 bits, all after the rows found at the start, and no semicolon in the name it is nothing
  (`Refusals.NothingDropped`).
- Every column is bound as a 32-bit int, so a line of 2^31 bytes or more in one interval is stored
  wrapped. Conservation therefore holds modulo 2^32, and to the byte exactly when every stored line
  is below that bound (`Exactness.ExactIffStoredSmall`, with a failing run in `Exactness.TwoPacketsCut`).
- A UDP socket and a listener of another table on 0.0.0.0 share a key, so a UDP packet can be
  credited to a TCP server: exactly when such a listener is the latest row known with that key
  (`Sockets.UdpAnswerTable`, with failing inputs in `Sockets.UdpAnsweredByListener`).
- A frame between two local addresses gets a key that its reversal does not share, unless the two
  ends coincide (`Packets.ConversationKey`). A list with no addresses still answers yes for 0.0.0.0
  (`Packets.LocalIsMembership`).
- The unit table ends at PB, and amounts above 10^18 read past it (`HumanReadable.UnitInTable`); a rate
  over 0 seconds never ends (`HumanReadable.BytesToHumanOvertime`).
- More than 64 local addresses overrun the array of the list (`Packets.IPList.Init`).

Where comments and code disagree the model follows the code: `src/util/HumanReadable.hpp:7-14`
promises "1.0 KB" for 1000 where the code prints "1000.00 B"; `src/traffic/DBController.hpp:38-39`
wants the start greater than the end where the query and `docs/api.md` want it no greater;
`src/traffic/DBController.hpp:35` says "after" where the query includes the timestamp itself;
`src/net/IPList.cpp:40-41` speaks of 192.168 addresses where the test sends to the front any address
whose word is at least 43200.

## Model

| member | source | states |
|---|---|---|
| LRU.LRUArray.constructor | src/util/LRUArray.hpp:18 | a new cache is empty, with its size fixed |
| LRU.LRUArray.Update | src/util/LRUArray.hpp:23-60 | the new deque is the old one with the item moved to the front and the excess cut, duplicates never appear, and size 0 stores nothing |
| LRU.LRUArray.Contains | src/util/LRUArray.hpp:63-66 | answers exactly membership |
| LRU.LRUArray.Erase | src/util/LRUArray.hpp:68-73 | removes the item alone, keeping the order of the rest |
| LRU.LRUArray.Empty | src/util/LRUArray.hpp:79 | true iff no item is held |
| LRU.LRUArray.Clear | src/util/LRUArray.hpp:82 | nothing is held afterwards |
| LRU.StackInclusion | src/util/LRUArray.hpp:23-73 | for sizes m <= n, including 0, and any mixture of updates and erases, the smaller cache is a prefix of the larger |
| LRU.RefinesRecency | src/util/LRUArray.hpp:8-12 | after any history the cache is a duplicate-free prefix of the unbounded move-to-front list, within its size |
| LRU.LargeCacheIsRecency | src/util/LRUArray.hpp:23-73 | a cache as large as the history is the move-to-front list itself |
| LRU.UpdatesKeepTheNewest | src/util/LRUArray.hpp:8-12 | without erases a cache of any size holds the whole front of the move-to-front list, as much as fits |
| LRU.RecencyAhead | src/util/LRUArray.hpp:38-59 | the items ahead of x in the list are exactly those updated after x's last update |
| LRU.PresentIffRecent | src/util/LRUArray.hpp:8-12 | without erases an item is present iff fewer than the cache's size of distinct other items were updated since its last update |
| LRU.AbsentIfNeverUpdated | src/util/LRUArray.hpp:23-73 | an item never updated is in no cache after any history |
| Packets.LocalIsMembership | src/net/IPList.cpp:40-69 | whatever the order addresses arrive in, the list answers exact membership; with no addresses it answers for 0 alone |
| Packets.FillOrderIs | src/net/IPList.cpp:40-46 | the list is the large addresses, the last to come first, and then the others as they came |
| Packets.IPList.constructor | src/net/IPList.hpp:31-32 | the list starts with 64 zero words and size 0 |
| Packets.IPList.Init | src/net/IPList.cpp:25-52 | up to 64 reported addresses are held, large ones in front of those that came before; with more the array is overrun |
| Packets.IPList.Contains | src/net/IPList.cpp:57-69 | the scan, with its unconditional look at the first word, decides the membership above |
| Packets.ParsePacket | src/net/Packet.cpp:14-113 | after all branches and early returns the packet is the one that `FrameDecides` reads off the frame's headers |
| Packets.FrameDecides | src/net/Packet.cpp:16-112 | which frames are kept, by EtherType, addresses, protocol and ports, with everything else discarded; and for a kept one its length, kind, direction, addresses and ports |
| Packets.KeptShape | src/net/Packet.cpp:35-112 | a kept packet has a direction and is TCP, ordinary UDP or ICMP |
| Packets.HashPacket | src/net/PacketHash.cpp:6-32 | the key is the local end first, then the remote end, and for UDP the local port alone |
| Packets.KeyFromFrame | src/net/PacketHash.cpp:8-12 | the key of a kept frame, stated by its headers: which end counts as local, and which parts appear for each protocol |
| Packets.KeptTogether | src/net/Packet.cpp:35-112 | a frame and its reversal are kept or discarded together, for any frame and any addresses |
| Packets.ConversationKey | src/net/PacketHash.cpp:8-31 | a kept frame and its reversal share a key iff exactly one end is local or the two ends coincide |
| Packets.ConversationDirections | src/net/Packet.cpp:35-44 | with exactly one local end the two directions are Incoming and Outgoing |
| Packets.ConversationSymmetry | src/net/Packet.cpp:35-112 | over the device's addresses in any order: same fate, opposite directions, equal keys |
| Sockets.SocketIndex.constructor | src/proc/SocketIndex.cpp:18-32 | the map holds the rows of the tcp, udp and raw tables, later rows winning, and there are no misses |
| Sockets.SocketIndex.Refresh | src/proc/SocketIndex.cpp:34-93 | the rows of the tables that open are stored over the old map in reading order; misses stay |
| Sockets.SocketIndex.RefreshTable | src/proc/SocketIndex.cpp:50-91 | malformed rows and rows with inode 0 are skipped; udp rows are keyed by port, others by both ends |
| Sockets.SocketIndex.Get | src/proc/SocketIndex.cpp:95-146 | the new map, new misses and answer of one lookup are those of `Lookup`, which the run theorems below are about |
| Sockets.SocketIndex.ClearMisses | src/proc/SocketIndex.cpp:22-31 | a turn of the clearing loop forgets the misses and keeps the map |
| Sockets.StoreIsLatest | src/proc/SocketIndex.cpp:90 | a key is mapped iff some stored row has it, and then to the last such row's inode |
| Sockets.MapIsHistory | src/proc/SocketIndex.cpp:34-146 | in every run the map is what storing every row ever read, in order, gives |
| Sockets.StoredInodesNonzero | src/proc/SocketIndex.cpp:70-72 | in every run no stored inode is 0 |
| Sockets.AnswerIsLatestRow | src/proc/SocketIndex.cpp:95-146 | in every run a nonzero answer is the inode of the latest row read whose key is the packet's |
| Sockets.TcpAnswerMatchesEnds | src/net/PacketHash.hpp:17-21 | a TCP packet with a nonzero local address is answered from a row with its own four ends, never from the udp table |
| Sockets.RowIsAccepted | src/proc/SocketIndex.cpp:62-90 | every well-formed row with an inode is stored |
| Sockets.ListedSocketIsFound | src/proc/SocketIndex.cpp:113-136 | completeness: a TCP or UDP packet whose socket is listed now is answered, unless its key is a recorded miss |
| Sockets.FreshAnswer | src/proc/SocketIndex.cpp:113-145 | a key neither known nor missed is answered with the last row having it in tcp6, else tcp, or in udp, as the tables are now; for other kinds nothing is read or recorded |
| Sockets.SettledAnswer | src/proc/SocketIndex.cpp:100-112 | a known key is answered from the map and a missed one with 0, and nothing is read |
| Sockets.SocketIsRemembered | src/proc/SocketIndex.cpp:95-146 | once a packet was answered with an inode, every later packet of its key is, in every run |
| Sockets.UdpAnswerTable | src/proc/SocketIndex.cpp:80-146 | in every run a UDP packet is answered from a table other than udp iff the latest row of its key known before the call is of such a table, and then that row is a wildcard listener on the packet's port; otherwise the answer is a udp row of that port |
| Sockets.UdpAnsweredByListener | src/proc/SocketIndex.cpp:18-20 | inputs where that happens: started while a server listens on 0.0.0.0, any UDP packet to that port gets the listener's inode, even if its own socket is listed at the time |
| Sockets.MissesAreWitnessed | src/proc/SocketIndex.cpp:99-106 | every recorded miss was a lookup since the last clear after which no row ever read had its key |
| Sockets.ZeroIsWitnessed | src/proc/SocketIndex.cpp:99-145 | every 0 answered to a TCP or UDP packet has such a lookup behind it |
| Processes.ProcessIndex.constructor | src/proc/ProcessIndex.cpp:25-41 | the map is that of a full scan in some directory order; cache and misses are empty; a negative cache size becomes a huge one |
| Processes.ProcessIndex.Refresh | src/proc/ProcessIndex.cpp:43-86 | the map is rebuilt from every process not in the cache, in some order |
| Processes.ProcessIndex.ProcessPidDir | src/proc/ProcessIndex.cpp:191-262 | all the process's inodes map to it, nothing changes if it is unreadable, and it is returned iff it owns the nonzero target |
| Processes.ProcessIndex.SearchCache | src/proc/ProcessIndex.cpp:158-189 | finds the first live cached owner; expired processes leave the cache only when none is found |
| Processes.ProcessIndex.ScanCached | src/proc/ProcessIndex.cpp:163-179 | the scan visits the live cached processes in order up to the first owner and collects exactly the expired ones |
| Processes.ProcessIndex.EraseExpired | src/proc/ProcessIndex.cpp:183-186 | erasing them one by one leaves the live ones in order |
| Processes.ProcessIndex.Search | src/proc/ProcessIndex.cpp:88-156 | the two-phase search is one scan of the order "live cached, then the rest by falling PID", stopped at its first owner |
| Processes.ProcessIndex.ListUncached | src/proc/ProcessIndex.cpp:113-133 | the set searched second is every process directory not in the cache |
| Processes.ProcessIndex.SearchSorted | src/proc/ProcessIndex.cpp:138-153 | that set is searched by falling PID up to the first owner |
| Processes.ProcessIndex.Get | src/proc/ProcessIndex.cpp:264-302 | the new map, cache, misses and answer of one call are those the theorems below fix: who is found, what is remembered, what the cache becomes |
| Processes.ProcessIndex.ClearMisses | src/proc/ProcessIndex.cpp:31-39 | a turn of the clearing loop forgets the misses and keeps the rest |
| Processes.ExpiredAreErased | src/proc/ProcessIndex.cpp:181-186 | repeated erasing equals keeping the live processes, in order, in any duplicate-free cache |
| Processes.ScanConcat | src/proc/ProcessIndex.cpp:92-153 | searching the cache and then the rest is searching the two as one order |
| Processes.DescendingFacts | src/proc/ProcessIndex.cpp:113 | the order of the sorted set holds exactly its members, strictly falling |
| ProcessRuns.OrderCoversProc | src/proc/ProcessIndex.cpp:88-156 | cached and uncached processes together are exactly `/proc`, whatever the cache holds |
| ProcessRuns.ScanFacts | src/proc/ProcessIndex.cpp:221-256 | after a scan an inode maps to a scanned owner, else to what it mapped to before |
| ProcessRuns.SearchFindsOwner | src/proc/ProcessIndex.cpp:88-189 | a search succeeds iff some readable process owns the nonzero target |
| ProcessRuns.GetFailsExactly | src/proc/ProcessIndex.cpp:264-302 | `get` returns nothing iff the inode is a recorded miss, or is unknown and nothing readable owns it |
| ProcessRuns.SearchReadsProc | src/proc/ProcessIndex.cpp:196-261 | the same from directory contents: a readable comm and socket list holding the nonzero inode is enough for an answer, and a new answer is such a directory; inode 0 is never searched for |
| ProcessRuns.VisitedAreKnown | src/proc/ProcessIndex.cpp:242-256 | after a search every inode of every process visited is known and maps to an owner |
| ProcessRuns.KnownStaysKnown | src/proc/ProcessIndex.cpp:274-302 | no call forgets an inode |
| ProcessRuns.FoundIsKnown | src/proc/ProcessIndex.cpp:249-254 | what was answered is what the inode maps to afterwards |
| ProcessRuns.AnswerIsRemembered | src/proc/ProcessIndex.cpp:264-302 | once a process was answered for an inode, no later call of the run answers none for it, whatever `/proc` does |
| ProcessRuns.CacheIsRecency | src/proc/ProcessIndex.cpp:158-189 | in every run the cache is a recency cache put through its drops of exited processes and touches of found ones |
| ProcessRuns.CachedWinner | src/proc/ProcessIndex.cpp:163-179 | nothing ahead of a cached winner in recency order owns the inode |
| ProcessRuns.UncachedWinner | src/proc/ProcessIndex.cpp:113-153 | with an uncached winner no cached process owns the inode and no owner has a greater PID |
| ProcessRuns.SearchPriority | src/proc/ProcessIndex.cpp:274-292 | who wins among several owners, and that the winner is then at the front of a cache of nonzero size |
| ProcessRuns.KnownWereOwners | src/proc/ProcessIndex.cpp:43-262 | while `/proc` changes arbitrarily, every mapping was true at some moment of the run |
| ProcessRuns.AnswerWasOwner | src/proc/ProcessIndex.cpp:264-302 | every process returned owned the inode, under that name, at some moment of the run |
| ProcessRuns.MissesAreWitnessed | src/proc/ProcessIndex.cpp:31-39 | every recorded miss was asked for since the last clear when no readable process owned it |
| ProcessRuns.NoneIsWitnessed | src/proc/ProcessIndex.cpp:264-302 | every "none" has such a moment behind it |
| ProcessRuns.TruthfulStep | src/proc/ProcessIndex.cpp:264-302 | a call in an unchanged world keeps every cached fact true |
| ProcessRuns.CachesAreTransparent | src/proc/ProcessIndex.cpp:88-302 | in a still world with single owners every answer is the plain scan's, whatever the cache size, directory order and earlier calls |
| Traffic.WrapFacts | src/traffic/DBController.hpp:11-16 | wrapping to memory or to a row changes nothing modulo 2^32, and nothing at all below 2^31 |
| Traffic.WrappedSum | src/traffic/TrafficStorage.cpp:28-37 | adding wrapped counters and wrapping is wrapping the exact sum |
| Database.DBController.constructor | src/traffic/DBController.hpp:26-28 | the controller works on the tables already in the database |
| Database.DBController.InsertApplicationTraffic | src/traffic/DBController.cpp:40-112 | whatever order the lines are taken in, each application's table gains its line iff it has no semicolon and no row of that time |
| Database.DBController.InsertLine | src/traffic/DBController.cpp:69-112 | one application: skipped, or given a table and, if the key is free, a row |
| Database.DBController.FetchTrafficSince | src/traffic/DBController.cpp:137-146 | for each name the column sums over exactly the rows with timestamp at or after the time, read back into a line |
| Database.DBController.FetchTrafficBetween | src/traffic/DBController.cpp:148-157 | for each name the column sums over exactly the rows with start <= timestamp <= end |
| Database.DBController.FetchTrafficWithQuery | src/traffic/DBController.cpp:178-212 | over all tables in any order; names whose four sums read back as 0 are absent |
| Database.DepositKeepsUniqueTimes | src/traffic/DBController.cpp:56 | times stay unique in every table |
| Database.RangesSplit | src/traffic/DBController.cpp:137-157 | for a <= b+1, everything since a is [a, b] plus everything since b+1, in machine arithmetic, absent names counting as 0 |
| Database.SumSplits | src/traffic/DBController.cpp:140-154 | the same for exact sums |
| Database.BetweenSums | src/traffic/DBController.cpp:148-157 | the exact sum of a closed range is that of the rows with a <= timestamp <= b and no others |
| Database.SinceSums | src/traffic/DBController.cpp:137-146 | the exact sum of an open range is that of the rows with a <= timestamp and no others |
| Database.RangesKeepEvery | src/traffic/DBController.cpp:137-157 | picking the rows of a range keeps every copy of each row in it |
| Database.QueriesAnswer | src/traffic/DBController.cpp:178-212 | both queries answer those sums read back into a line, and have no entry for a name exactly when the line is empty |
| Database.NamesCover | src/traffic/DBController.cpp:205-207 | with non-negative rows whose sums fit, a name appears iff some row in range is not empty |
| Database.BoundedStorage | src/traffic/DBController.cpp:98-102 | the fetched sum is the true total modulo 2^32 for any lines, and the true total if the lines are below 2^31 and it fits |
| Database.DepositOneMore | src/traffic/DBController.cpp:69-112 | one more line of a deposit changes that name's rows alone, so the order of lines is irrelevant |
| TrafficStore.TrafficStorage.constructor | src/traffic/TrafficStorage.cpp:17-20 | nothing in memory, nobody waiting |
| TrafficStore.TrafficStorage.TouchLine | src/traffic/TrafficStorage.cpp:25 | the unlocked lookup gives the name a line, an empty one if it had none |
| TrafficStore.TrafficStorage.CreditLine | src/traffic/TrafficStorage.cpp:27-37 | the locked part adds length and count on the packet's side, in machine arithmetic |
| TrafficStore.TrafficStorage.Add | src/traffic/TrafficStorage.cpp:22-38 | undisturbed, the two parts credit the packet to its application and nothing else |
| TrafficStore.TrafficStorage.GetLiveSnapshot | src/traffic/TrafficStorage.cpp:40-44 | memory and the interval as they are |
| TrafficStore.TrafficStorage.AwaitSnapshot | src/traffic/TrafficStorage.cpp:46-63 | registers the three locals and locks the mutex iff nobody waits; a refusal changes nothing |
| TrafficStore.TrafficStorage.Deposit | src/traffic/TrafficStorage.cpp:72-101 | the database gets memory, the registered client gets it too and is unlocked, memory is cleared, and nothing else is written |
| Ledger.DepositMoves | src/traffic/DBController.cpp:69-112 | a deposit moves a line to the database or to the refused lines, modulo 2^32, and exactly when it is below 2^31 |
| Ledger.StepBalances | src/traffic/TrafficStorage.cpp:22-105 | every step of every thread keeps each application's account balanced |
| Ledger.Conservation | src/traffic/TrafficStorage.cpp:22-105 | in every run, from any database, for every application and counter: found at the start + credited = database + memory + refused + lost, modulo 2^32 |
| Exactness.ExactConservation | src/traffic/DBController.cpp:98-102 | in every run with no negative interval total: the books never hold more than is owed, and balance to the byte iff each interval's total fitted where it went, a row for a stored line and memory for a refused one, and the present one fits memory |
| Exactness.ExactIffStoredSmall | src/traffic/DBController.cpp:98-102 | while interval totals fit memory, the books balance to the byte iff every stored line is below 2^31 in each counter |
| Exactness.NarrowIntervalsBalance | src/traffic/TrafficStorage.cpp:22-105 | plain equality, and memory equal to the interval's total, when every interval stays below 2^31 |
| Exactness.NonNegativeLengths | src/net/Packet.cpp:29 | packets of non-negative length keep every interval total non-negative |
| Exactness.WideLineCut | src/traffic/DBController.cpp:98-102 | storing one line of 2^31 or more, at the end of any run, leaves books that do not balance |
| Exactness.TwoPacketsCut | src/traffic/DBController.cpp:98-102 | such runs: two packets of 2^31 bytes together, then a deposit |
| Ledger.SnapshotIsCurrent | src/traffic/TrafficStorage.cpp:40-44 | a snapshot at any moment of any run is what was credited since the last deposit in the width of the fields, bytes modulo 2^64 and counts as 32-bit ints, and so is exact iff that total fits |
| Refusals.TablesKnowDeposits | src/traffic/DBController.cpp:56-110 | in every run the times in a table are exactly those found at the start and those of the deposits that carried its name |
| Refusals.DroppedExactly | src/traffic/DBController.cpp:71-109 | in every run what is dropped is the lines whose name has a semicolon or already has a row of the same 32-bit time, from before the start or from an earlier deposit, and no others |
| Refusals.RowsAreDeposits | src/traffic/DBController.cpp:95-104 | in every run a table holds the rows found at the start and then one for each deposit that stored a line, with its time and that line's columns |
| Refusals.QueriesAnswerDeposits | src/traffic/DBController.cpp:137-212 | in every run a query over a range answers, per name, the sum of what deposits stored in it and of what was found in it |
| Refusals.NothingDropped | src/traffic/DBController.cpp:66-109 | with strictly rising 32-bit deposit times, later than any row found, and no semicolon nothing is dropped |
| Refusals.HeldSince | src/traffic/TrafficStorage.cpp:25-27 | the reference `add` holds is still good iff no deposit has come since it was taken |
| Refusals.LostIffDepositBetween | src/traffic/TrafficStorage.cpp:25-37 | a packet's credit is lost iff a deposit comes between the two parts of its `add`, and otherwise reaches memory |
| Refusals.InterleavedDepositLoses | src/traffic/TrafficStorage.cpp:25-37 | runs in which a credited packet is neither in memory nor in the database nor refused |
| Refusals.QueriesAccountForAll | src/traffic/DBController.cpp:137-212 | in every run the all-time query, the snapshot, the refused lines and the lost credits add up to what was found at the start and credited since, modulo 2^32 |
| LiveStream.RunKeeps | src/traffic/TrafficStorage.cpp:46-101 | the invariant of the handshake holds in every run, for any number of clients |
| LiveStream.HandshakeSafety | src/traffic/TrafficStorage.cpp:50-61 | in every run: no write or unlock through dead locals, no double lock; someone is registered iff exactly one client is blocked on its own locked mutex, and the three pointers are its live locals |
| LiveStream.DepositReleases | src/traffic/TrafficStorage.cpp:82-99 | any deposit releases the registered client with map and interval set, and afterwards nobody is blocked |
| LiveStream.RegistrationClaimsNext | src/api/APIController.cpp:295-304 | a registration is for the next deposit, or is refused and ends the stream when another client waits |
| LiveStream.WakeReadsNextDeposit | src/api/APIController.cpp:285-311 | when `await.lock()` returns the map read is that of the first deposit after the registration and the interval is set |
| LiveStream.StreamsAreDisjointSubsequences | src/api/APIController.cpp:241-277 | what a client received is an order-preserving choice of the deposits, and no deposit reaches two clients or one twice |
| LiveStream.StepKeeps | src/api/APIController.cpp:286-321 | each step of a client, the sniffer or the deposit loop keeps that invariant |
| Refinement.StartTurn | src/traffic/TrafficStorage.cpp:17-20 | a storage object starts in the first state of the protocol |
| Refinement.FetchTurn | src/traffic/TrafficStorage.cpp:25 | after any run, the unlocked lookup takes the object where `Fetch` takes the protocol |
| Refinement.CreditTurn | src/traffic/TrafficStorage.cpp:27-37 | the locked part of `add`, its reference still good, takes the object where `Credit` does |
| Refinement.DepositTurn | src/traffic/TrafficStorage.cpp:72-101 | a turn of the deposit loop, written through the hooks into the client's own variables, is the step `Deposit` |
| Refinement.ConnectTurn | src/api/APIController.cpp:285-290 | a client thread's first locals are those the step `Connect` gives it |
| Refinement.RegisterTurn | src/api/APIController.cpp:292-304 | `awaitSnapshot` on a client's locals is the step `Register`, its mutex being unlocked as the call demands |
| Refinement.WakeTurn | src/api/APIController.cpp:306-310 | after `await.lock()` the client's variables hold the interval and the map the step `Wake` says it receives |
| Refinement.AgainTurn | src/api/APIController.cpp:286-290 | the next iteration's locals are those `Leave` gives, apart from all earlier ones |
| Refinement.ReferenceIsGood | src/traffic/TrafficStorage.cpp:25-27 | in every run, until a deposit comes, the line `add` refers to is in the map |
| Pipeline.ProcessResolver.constructor | src/proc/ProcessResolver.hpp:15 | both indexes are in the state from which the run theorems start, `/proc` read in some order |
| Pipeline.ProcessResolver.Resolve | src/proc/ProcessResolver.cpp:13-29 | the indexes' new states and the process are those that `AttributionExactly` decides in every run |
| Pipeline.Sniffer.PktCallback | src/net/SnifferLoop.cpp:9-23 | parsing, resolving and adding together have the effect that `FrameCredits` states |
| Pipeline.FrameCredits | src/net/SnifferLoop.cpp:9-23 | a frame not monitored changes nothing; any other adds its length and count, on its direction's side, to the application it is resolved to and to no other |
| Pipeline.KeptStep | src/net/SnifferLoop.cpp:9-23 | a callback adds the frame's length and count to the sum over all applications, whoever it is attributed to, bytes modulo 2^64 and counts as 32-bit ints |
| Pipeline.CreditedSum | src/traffic/TrafficStorage.cpp:22-38 | a credit to one name changes the sum over all names by that credit, in the same widths, and exactly if the line does not wrap |
| Pipeline.TotalsAreKept | src/net/SnifferLoop.cpp:9-23 | after any frames in one interval the totals over applications are the kept frames' lengths and counts by direction, bytes modulo 2^64 and counts as 32-bit ints |
| Pipeline.TotalsAreExactlyKept | src/net/SnifferLoop.cpp:9-23 | to the byte, while those totals fit a line |
| Pipeline.UnresolvedIsUnknown | src/proc/ProcessResolver.cpp:15-28 | a kept packet with no socket or no process is credited to "Unknown Traffic" |
| Pipeline.IndexesRunAlone | src/proc/ProcessResolver.cpp:13-29 | inside the resolver each index goes through a run of its own, so its run theorems apply |
| Pipeline.AttributionIsJustified | src/proc/ProcessResolver.cpp:13-29 | in every run a packet given to a process was matched by the latest row with its key, whose inode that process owned at some moment; for TCP the row has the packet's four ends, for UDP it is a udp row of the packet's port unless a wildcard listener was the latest known before |
| Pipeline.AttributionExactly | src/proc/ProcessResolver.cpp:13-29 | in every run, for either direction: a packet goes to "Unknown Traffic" if its key is a recorded miss or has no row, or the row's inode is a recorded miss or neither known nor owned now; every other packet goes to a process that owned the inode |
| Pipeline.AttributionIsPlainScan | src/proc/ProcessResolver.cpp:13-29 | in a still world with single owners it goes to the process a plain scan finds for the row's inode |
| Pipeline.ListedFrameIsCredited | src/net/SnifferLoop.cpp:9-23 | a monitored TCP or UDP frame whose socket is listed now has its line credited to a process that owned it, if one is known or owns it now and nothing is a recorded miss |
| Pipeline.KeptIsMonitored | src/net/SnifferLoop.cpp:11-12 | the kept total is the sum over monitored frames of captured length and one packet, by direction, read off the headers |
| EndToEnd.ArrivalIsCallback | src/net/SnifferLoop.cpp:9-23 | an arrival whose credit follows undisturbed is one callback, so what is said of callbacks holds among other threads |
| EndToEnd.SystemRunsProtocol | src/net/SnifferLoop.cpp:9-23 | callbacks mixed with all other threads drive the storage through a run of the protocol |
| EndToEnd.CreditedIsKept | src/net/SnifferLoop.cpp:9-23 | in every such run what is credited over all applications, with the packet in hand, is every kept frame's length and count, to the byte |
| EndToEnd.FramesAccounted | src/net/SnifferLoop.cpp:9-23 | from the wire to the database, deposits interleaved: found at the start + kept frames = database + memory + refused + lost + in hand, summed over applications, modulo 2^32, and to the byte when each name's books balance |
| Configuration.ConfigFile.constructor | src/config/Config.cpp:29-188 | the fields are what the file means, or the defaults without one, and the file is rewritten from them |
| Configuration.ConfigFile.ReadItems | src/config/Config.cpp:50-68 | a key has an item iff some line of the file gives it one, and then it is what the last such line says, in any spacing |
| Configuration.ConfigFile.Assign | src/config/Config.cpp:70-183 | each field takes its item if it converts and keeps its default otherwise |
| Configuration.ConfigFile.AssignNumbers | src/config/Config.cpp:70-90 | numbers that do not parse or do not fit leave their field; the port is cut to 16 bits |
| Configuration.ConfigFile.MergeArgs | src/config/Config.cpp:190-196 | given arguments win, the other fields and the file stay |
| Configuration.ConfigFile.WriteConfig | src/config/Config.cpp:198-257 | the stream built line by line is the printed configuration, and replaces the file |
| Configuration.ItemLineReads | src/config/Config.cpp:59-66 | a printed item line reads back as exactly its key and value, even with '=', '#' or '[' in the value |
| Configuration.ItemReads | src/config/Config.cpp:54-66 | a line gives its key its value whatever white space, or none, is around them, whether or not this program wrote it |
| Configuration.EveryLine | src/config/Config.cpp:54-66 | an empty, comment, section or sign-less line changes nothing, and every other line gives one key a value |
| Configuration.ItemsAreLastGiven | src/config/Config.cpp:52-68 | the items of any lines are exactly what the last line for each key says |
| Configuration.ParsedFields | src/config/Config.cpp:50-183 | each field of any file is what its last line says if that converts, and otherwise its default: 10, empty, off, off, empty, 5, 13889 |
| Configuration.BlocksRead | src/config/Config.cpp:52-68 | a file of comments and items reads as its items, the last one of a key winning |
| Configuration.ItemsAreOneLine | src/config/Config.cpp:52-68 | a value read from any file is trimmed and has no newline |
| Configuration.ParsedIsWellFormed | src/config/Config.cpp:50-183 | whatever the file says, the configuration read is one the format can carry |
| Configuration.ParsePrinted | src/config/Config.cpp:198-257 | printing and parsing gives the configuration back, for any comment texts |
| Configuration.RoundTripIff | src/config/Config.cpp:50-257 | it does so iff the strings are trimmed single lines and the numbers fit their types |
| Configuration.RewritingNormalises | src/config/Config.cpp:185-187 | rewriting any file keeps its meaning, and rewriting it again changes nothing |
| StringUtil.TrimScan | src/util/StringUtil.cpp:9-24 | the two scans return the string without outer white space |
| StringUtil.TrimPadded | src/util/StringUtil.cpp:9-24 | any white space around a trimmed string is removed, and only that |
| StringUtil.TrimIsSlice | src/util/StringUtil.cpp:9-24 | what was removed is white space on both sides |
| StringUtil.SplitScan | src/util/StringUtil.cpp:26-48 | the loop returns the delimited parts without a last empty one |
| StringUtil.SplitThenJoin | src/util/StringUtil.cpp:26-48 | joining the parts gives the string back, less one delimiter at its end |
| StringUtil.JoinThenSplit | src/util/StringUtil.cpp:26-48 | splitting joined words gives the words back iff none holds the delimiter and the last is not empty |
| StringUtil.SplitTerminated | src/util/StringUtil.cpp:26-48 | a text of terminated lines splits into its lines |
| StringUtil.FieldsFree | src/util/StringUtil.cpp:26-48 | no part holds the delimiter |
| StringUtil.LowerInPlace | src/util/StringUtil.cpp:50-54 | the characters of the array are lowered where they stand |
| StringUtil.LowerForgetsCase | src/util/StringUtil.cpp:50-54 | two strings lower to the same one iff they differ only in case; lowering again changes nothing and leaves no capital |
| StringUtil.FlagWords | src/util/StringUtil.cpp:56-65 | exactly the four words for true and the four for false are read, in any case |
| Configuration.ConfigFile.ReadFlag | src/config/Config.cpp:99-103 | a flag is read from its lowered value |
| StringUtil.IsNumber | src/util/StringUtil.cpp:67-79 | true iff not empty and all digits |
| StringUtil.ContainsSemicolon | src/util/StringUtil.cpp:81-93 | true iff a semicolon occurs |
| StringUtil.StoiOfPrinted | src/config/Config.cpp:72-75 | every 32-bit int survives printing and `std::stoi` |
| StringUtil.StoiReads | src/config/Config.cpp:72-90 | of any text `std::stoi` takes white space, one sign and the digits after it, ignores the rest, and fails without a digit or out of range |
| StringUtil.SpaceCodes | src/util/StringUtil.cpp:12-21 | the white space characters by their codes |
| HumanReadable.ScaledIsLeast | src/util/HumanReadable.cpp:30-35 | repeated division stops at the least unit i with the rate at most 1000^(i+1), and the value in that unit is the rate |
| HumanReadable.ScaledMonotone | src/util/HumanReadable.cpp:30-35 | a larger rate never gets a smaller unit, nor a smaller value in the same unit |
| HumanReadable.UnitInTable | src/util/HumanReadable.cpp:7 | the unit is one of the six iff the rate is at most 10^18 |
| HumanReadable.FixedDenotes | src/util/HumanReadable.cpp:37-38 | a text with d decimals shows the whole part of n / 10^d, at least one digit, and after the point exactly d digits worth the remainder |
| HumanReadable.AmountSays | src/util/HumanReadable.cpp:20-21 | an amount's text is a number with two decimals within 0.005 of the amount in its unit, a space and that unit's name |
| HumanReadable.RateSays | src/util/HumanReadable.cpp:37-38 | a rate's text is a number with i decimals, at most half a last place off, in the unit 1000^i, its name and "/s" |
| HumanReadable.OvertimeFits | src/util/HumanReadable.cpp:37-38 | any rate's text with its terminator fits 16 bytes, and fills them iff it is "1000.00000 PB/s" |
| HumanReadable.AmountFits | src/util/HumanReadable.cpp:20-21 | any amount's text with its terminator fits 11 bytes |
| HumanReadable.BytesToHuman | src/util/HumanReadable.cpp:9-24 | a text showing the amount, rounded to two decimals in its unit, iff the amount is at most 10^18 |
| HumanReadable.BytesToHumanOvertime | src/util/HumanReadable.cpp:26-41 | a text showing the rate with i decimals in unit i, iff the rate is at most 10^18; for 0 seconds no text: not a number for 0 bytes, otherwise an endless loop |
| HumanReadable.Scale | src/util/HumanReadable.cpp:30-35 | the loop ends at the least unit and its value |

## Left out

- libpcap setup, device lookup and `getifaddrs`: an arbitrary address sequence and decoded frames take their place.
- Packets.IPList.Init: with more than 64 addresses only the overrun is reported, not what the source then overwrites.
- Packets.ParsePacket: works on decoded header fields; `totalHeaderLen`, which nothing reads, is not kept, and the timestamp of a frame that is not IPv4 reads 0 where the source leaves it unset.
- Sockets.SocketIndex.Refresh: takes decoded rows; the `sscanf` of table lines, and with it how an IPv6 address text becomes a 32-bit word, is not part of this model.
- `std::hash` of a key: it affects speed only; key equality is equality of the four fields.
- Processes.ProcessIndex.Get: sees one snapshot of `/proc` per call; `/proc` changes between calls, not within one. Reading directories, `readlink` and `std::stoi` on inode texts are replaced by decoded values.
- Exits of the daemon when `/proc`, the database or the configuration file cannot be opened.
- SQLite itself: SQL text and its truncation in fixed buffers, identifier quoting and case folding, transactions and failures other than the primary key, overflow of a SUM past 64 bits. A SUM over no rows counts as 0.
- TrafficStore.TrafficStorage.Add: the sequential composition of its two parts; the interleaved case is in the protocol, where the unlocked map access is one atomic step and a write through a stale reference is taken to change nothing else.
- TrafficStore.TrafficStorage.AwaitSnapshot: the client's `std::mutex` is a binary semaphore, since the deposit thread unlocks what the client's thread locked and the client leaves it locked when its loop turns. The hook pointers start as null where the source leaves them unset; nothing reads them before a registration.
- The client threads are modelled by their steps, one method each, not by one looping method; what they send (JSON, text) is left out, and a failed send is an arbitrary choice at the end of an iteration. A client whose greeting fails never connects.
- Refinement.CreditTurn: covers a reference that is still good; what the source does to memory through a destroyed one is undefined, and the protocol counts the credit as lost.
- The 60-second clears and the deposit interval: steps that may happen at any time.
- HumanReadable.BytesToHuman: exact rationals instead of `double`, and at a rounding tie either neighbour is allowed; amounts past the unit table give no text where the source reads past the table.
- HumanReadable.BytesToHumanOvertime: as above; what `sprintf` prints for a quotient that is not a number is not given, and the overflow of the unit index in the endless loop is not followed.
- StringUtil.TrimScan: the source steps before the beginning of an empty string; integer positions and the intended empty result are used.
- StringUtil.LowerInPlace: lowers the ASCII letters, as in the C locale; `Config` calls it on a copy, since nothing reads the lowered item again but a log line.
- Configuration.ConfigFile.WriteConfig: the wording of the comment lines is a parameter, 15 texts without a newline; their places, the sections and the items are as written.
- Configuration.ConfigFile.MergeArgs: arguments are taken as parsed; `ArgumentParser`, file paths and the warnings logged are not part of this model.
- The socket server, request dispatch, JSON building, logging, `main` and signal handling.
