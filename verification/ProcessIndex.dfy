/** src/proc/ProcessIndex.cpp over a snapshot of /proc per call. */
module Processes {
  import opened Basics
  import opened LRU

  datatype Process = Process(comm: string, pid: int)

  /** One process directory: its comm line and socket inodes, None where reading fails. */
  datatype ProcDir = ProcDir(comm: Option<string>, sockets: Option<seq<nat>>)

  /** The process directories present at one moment. */
  type World = map<int, ProcDir>

  predicate Readable(w: World, pid: int) {
    pid in w && w[pid].comm.Some? && w[pid].sockets.Some?
  }

  predicate Owns(w: World, pid: int, inode: nat) {
    Readable(w, pid) && inode in w[pid].sockets.value
  }

  function ProcessOf(w: World, pid: int): Process
    requires Readable(w, pid)
  {
    Process(w[pid].comm.value, pid)
  }

  /** p is exactly the process of w that owns the inode. */
  predicate OwnsAs(w: World, p: Process, inode: nat) {
    Owns(w, p.pid, inode) && ProcessOf(w, p.pid) == p
  }

  /** Inode 0 is never reported as found. */
  predicate Answers(w: World, pid: int, target: nat) {
    target != 0 && Owns(w, pid, target)
  }

  // ----- scanning

  function AssignAll(m: map<nat, Process>, inodes: seq<nat>, p: Process): map<nat, Process> {
    if inodes == [] then m else AssignAll(m, inodes[..|inodes| - 1], p)[inodes[|inodes| - 1] := p]
  }

  function ScanPid(m: map<nat, Process>, w: World, pid: int): map<nat, Process> {
    if Readable(w, pid) then AssignAll(m, w[pid].sockets.value, ProcessOf(w, pid)) else m
  }

  function ScanPids(m: map<nat, Process>, w: World, pids: seq<int>): map<nat, Process> {
    if pids == [] then m else ScanPid(ScanPids(m, w, pids[..|pids| - 1]), w, pids[|pids| - 1])
  }

  /** Position of the first process in the order that owns the target, or the length. */
  function FirstOwner(w: World, order: seq<int>, target: nat): (i: nat)
    ensures i <= |order| && forall k :: 0 <= k < i ==> !Answers(w, order[k], target)
    ensures i < |order| ==> Answers(w, order[i], target)
  {
    FirstOwnerFrom(w, order, target, 0)
  }

  function FirstOwnerFrom(w: World, order: seq<int>, target: nat, start: nat): (i: nat)
    requires start <= |order|
    ensures start <= i <= |order| && forall k :: start <= k < i ==> !Answers(w, order[k], target)
    ensures i < |order| ==> Answers(w, order[i], target)
    decreases |order| - start
  {
    if start == |order| || Answers(w, order[start], target) then start
    else FirstOwnerFrom(w, order, target, start + 1)
  }

  /** The elements of d that are in alive, in order. */
  function Keep(d: seq<int>, alive: set<int>): (k: seq<int>)
    ensures forall x :: x in k <==> x in d && x in alive
    ensures |k| <= |d|
  {
    if d == [] then []
    else
      var k, x := Keep(d[..|d| - 1], alive), d[|d| - 1];
      if x in alive then k + [x] else k
  }

  lemma {:induction false} KeepAgree(d: seq<int>, a: set<int>, b: set<int>)
    requires forall x :: x in d ==> (x in a <==> x in b)
    ensures Keep(d, a) == Keep(d, b)
    ensures (forall x :: x in d ==> x in a) ==> Keep(d, a) == d
  {
    if d != [] {
      KeepAgree(d[..|d| - 1], a, b);
    }
  }

  lemma {:induction false} KeepErase(d: seq<int>, alive: set<int>, x: int)
    requires Distinct(d)
    ensures Without(Keep(d, alive), x) == Keep(d, alive - {x})
  {
    if d != [] {
      var init, y := d[..|d| - 1], d[|d| - 1];
      var k := Keep(init, alive);
      DistinctInit(d);
      KeepErase(init, alive, x);
      if y != x {
        WithoutLast(k, y, x);
      } else {
        KeepAgree(init, alive, alive - {x});
        WithoutAppended(k, y);
      }
    }
  }

  function EraseAll(d: seq<int>, xs: seq<int>): seq<int> {
    if xs == [] then d else Without(EraseAll(d, xs[..|xs| - 1]), xs[|xs| - 1])
  }

  lemma {:induction false} EraseAllKeeps(d: seq<int>, a: set<int>, xs: seq<int>, b: set<int>)
    requires Distinct(d)
    requires forall x :: x in b <==> x in a && x !in xs
    ensures EraseAll(Keep(d, a), xs) == Keep(d, b)
  {
    if xs == [] {
      KeepAgree(d, a, b);
    } else {
      var init, x := xs[..|xs| - 1], xs[|xs| - 1];
      var mid := if x in a && x !in init then b + {x} else b;
      assert xs == init + [x];
      EraseAllKeeps(d, a, init, mid);
      KeepErase(d, mid, x);
      KeepAgree(d, mid - {x}, b);
    }
  }

  /** Erasing the expired processes keeps the live ones, in order. */
  lemma ExpiredAreErased(d: seq<int>, w: World, expired: seq<int>)
    requires Distinct(d) && forall x :: x in expired <==> x in d && x !in w
    ensures EraseAll(d, expired) == Keep(d, w.Keys)
  {
    var all := Elements(d);
    var live := set x | x in d && x in w;
    KeepAgree(d, all, all);
    EraseAllKeeps(d, all, expired, live);
    KeepAgree(d, live, w.Keys);
  }

  lemma DistinctInit(d: seq<int>)
    requires d != [] && Distinct(d)
    ensures Distinct(d[..|d| - 1]) && d[|d| - 1] !in d[..|d| - 1]
  {
  }

  lemma WithoutAppended(k: seq<int>, y: int)
    requires y !in k
    ensures Without(k + [y], y) == k && Without(k, y) == k
  {
    assert (k + [y])[|k|] == y;
    assert Find(k + [y], y) == |k|;
  }

  lemma WithoutLast(k: seq<int>, y: int, x: int)
    requires x != y
    ensures Without(k + [y], x) == Without(k, x) + [y]
  {
    var all, f := k + [y], Find(k, x);
    if x in k {
      assert all[f] == x && Find(all, x) == f;
      assert all[..f] == k[..f] && all[f + 1..] == k[f + 1..] + [y];
    } else {
      assert x !in all;
    }
  }

  lemma Any<T>(s: set<T>) returns (x: T)
    requires s != {}
    ensures x in s
  {
    x :| x in s;
  }

  lemma {:induction false} MaxExists(s: set<int>)
    requires s != {}
    ensures exists m :: m in s && forall x :: x in s ==> x <= m
  {
    var y := Any(s);
    var rest := s - {y};
    assert forall x :: x in s ==> x == y || x in rest;
    if rest == {} {
      assert y in s && forall x :: x in s ==> x <= y;
    } else {
      MaxExists(rest);
      var m :| m in rest && forall x :: x in rest ==> x <= m;
      var best := if m < y then y else m;
      assert best in s && forall x :: x in s ==> x <= best;
    }
  }

  ghost function Max(s: set<int>): (m: int)
    requires s != {}
    ensures m in s && forall x :: x in s ==> x <= m
  {
    MaxExists(s);
    var m :| m in s && forall x :: x in s ==> x <= m;
    m
  }

  /** The members of s, largest first. */
  ghost function Descending(s: set<int>): seq<int> {
    if s == {} then [] else [Max(s)] + Descending(s - {Max(s)})
  }

  lemma {:induction false} DescendingFacts(s: set<int>)
    ensures forall x :: x in Descending(s) <==> x in s
    ensures forall i, j :: 0 <= i < j < |Descending(s)| ==> Descending(s)[i] > Descending(s)[j]
  {
    if s != {} {
      DescendingFacts(s - {Max(s)});
      var rest := Descending(s - {Max(s)});
      assert forall i :: 0 <= i < |rest| ==> rest[i] in rest;
    }
  }

  lemma DescendingStep(s: set<int>, m: int)
    requires m in s && forall x :: x in s ==> x <= m
    ensures Descending(s) == [m] + Descending(s - {m})
  {
    assert Max(s) == m;
  }

  ghost function Uncached(cache: seq<int>, w: World): set<int> {
    set pid | pid in w && pid !in cache
  }

  /** The one order in which a search looks: live cached processes, then the rest by falling PID. */
  ghost function SearchOrder(cache: seq<int>, w: World): seq<int> {
    Keep(cache, w.Keys) + Descending(Uncached(cache, w))
  }

  // ----- the index

  datatype IndexState = IndexState(processes: map<nat, Process>, cache: seq<int>, missed: set<nat>)

  /** The part of an order that a search for the target visits. */
  function Visited(w: World, order: seq<int>, target: nat): seq<int> {
    var i := FirstOwner(w, order, target);
    if i < |order| then order[..i + 1] else order
  }

  /** The first owner of the order. */
  function Winner(w: World, order: seq<int>, target: nat): Option<Process> {
    var i := FirstOwner(w, order, target);
    if i < |order| then Some(ProcessOf(w, order[i])) else None
  }

  /** One call of get: the state it leaves and its answer. */
  ghost function GetStep(s: IndexState, size: nat, w: World, inode: nat): (IndexState, Option<Process>) {
    if inode in s.missed then (s, None)
    else if inode in s.processes then (s, Some(s.processes[inode]))
    else
      var order := SearchOrder(s.cache, w);
      var processes := ScanPids(s.processes, w, Visited(w, order, inode));
      match Winner(w, order, inode)
      case Some(p) =>
        var cache := if p.pid in s.cache then s.cache else Keep(s.cache, w.Keys);
        (IndexState(processes, Cut(Front(cache, p.pid), size), s.missed), Some(p))
      case None =>
        (IndexState(processes, Keep(s.cache, w.Keys), s.missed + {inode}), None)
  }

  class ProcessIndex {
    var mProcessMap: map<nat, Process>
    const mLRUCache: LRUArray<int>
    var mCouldNotFind: set<nat>

    ghost predicate Valid()
      reads this, mLRUCache
    {
      mLRUCache.Valid()
    }

    function State(): IndexState
      reads this, mLRUCache
    {
      IndexState(mProcessMap, mLRUCache.mDeque, mCouldNotFind)
    }

    /** The cache size is converted to an unsigned one. */
    constructor (w: World, cacheSize: int)
      ensures Valid() && fresh(mLRUCache) && mLRUCache.mSize == Unsigned64(cacheSize)
      ensures mLRUCache.mDeque == [] && mCouldNotFind == {}
      ensures exists order :: Elements(order) == w.Keys && mProcessMap == ScanPids(map[], w, order)
    {
      mLRUCache := new LRUArray(Unsigned64(cacheSize));
      mCouldNotFind := {};
      mProcessMap := map[];
      new;
      Refresh(w);
    }

    /** A full scan, in whatever order the directory is read. */
    method Refresh(w: World)
      requires Valid()
      modifies this`mProcessMap
      ensures exists order ::
                Elements(order) == Uncached(mLRUCache.mDeque, w) && mProcessMap == ScanPids(map[], w, order)
    {
      mProcessMap := map[];
      var todo := w.Keys;
      ghost var order: seq<int> := [];
      while todo != {}
        invariant todo <= w.Keys
        invariant Elements(order) == Uncached(mLRUCache.mDeque, w) - todo
        invariant mProcessMap == ScanPids(map[], w, order)
        decreases todo
      {
        ghost var some := Any(todo);
        var pid :| pid in todo;
        todo := todo - {pid};
        var cached := mLRUCache.Contains(pid);
        if !cached {
          var _ := ProcessPidDir(w, pid, 0);
          assert (order + [pid])[..|order|] == order;
          assert Elements(order + [pid]) == Elements(order) + {pid};
          order := order + [pid];
        }
      }
    }

    method ProcessPidDir(w: World, pid: int, target: nat) returns (found: Option<Process>)
      modifies this`mProcessMap
      ensures mProcessMap == ScanPid(old(mProcessMap), w, pid)
      ensures found == if Answers(w, pid, target) then Some(ProcessOf(w, pid)) else None
    {
      found := None;
      if pid !in w || w[pid].comm.None? {
        return;
      }
      var comm := w[pid].comm.value;
      if w[pid].sockets.None? {
        return;
      }
      var inodes := w[pid].sockets.value;
      for i := 0 to |inodes|
        invariant mProcessMap == AssignAll(old(mProcessMap), inodes[..i], Process(comm, pid))
        invariant found == if target != 0 && target in inodes[..i] then Some(Process(comm, pid)) else None
      {
        var process := Process(comm, pid);
        assert inodes[..i + 1][..i] == inodes[..i];
        mProcessMap := mProcessMap[inodes[i] := process];
        if inodes[i] != 0 && inodes[i] == target {
          found := Some(process);
        }
      }
      assert inodes[..|inodes|] == inodes;
    }

    method SearchCache(w: World, target: nat) returns (found: Option<Process>)
      requires Valid()
      modifies this`mProcessMap, mLRUCache
      ensures Valid()
      ensures ScanResult(old(mProcessMap), w, Keep(old(mLRUCache.mDeque), w.Keys), target, mProcessMap, found)
      ensures mLRUCache.mDeque == if found.Some? then old(mLRUCache.mDeque) else Keep(old(mLRUCache.mDeque), w.Keys)
    {
      var expired: seq<int>;
      found, expired := ScanCached(w, target);
      if found.None? {
        EraseExpired(w, expired);
      }
    }

    /** The first loop of the cache search: it skips and collects the expired processes. */
    method ScanCached(w: World, target: nat) returns (found: Option<Process>, expired: seq<int>)
      modifies this`mProcessMap
      ensures ScanResult(old(mProcessMap), w, Keep(mLRUCache.mDeque, w.Keys), target, mProcessMap, found)
      ensures found.None? ==> forall x :: x in expired <==> x in mLRUCache.mDeque && x !in w
    {
      var deque := mLRUCache.mDeque;
      expired := [];
      found := None;
      for k := 0 to |deque|
        invariant found == None
        invariant mProcessMap == ScanPids(old(mProcessMap), w, Keep(deque[..k], w.Keys))
        invariant NoneAnswers(w, Keep(deque[..k], w.Keys), target)
        invariant forall x :: x in expired <==> x in deque[..k] && x !in w
      {
        var pid := deque[k];
        assert deque[..k + 1][..k] == deque[..k];
        assert deque[..k + 1] == deque[..k] + [pid];
        ghost var before := Keep(deque[..k], w.Keys);
        if pid !in w {
          expired := expired + [pid];
        } else {
          found := ProcessPidDir(w, pid, target);
          KeepPrefix(deque, k + 1, w.Keys);
          ScanNext(old(mProcessMap), w, before, pid, Keep(deque, w.Keys), target);
          if found.Some? {
            return;
          }
        }
      }
      assert deque[..|deque|] == deque;
      NoOwner(w, Keep(deque, w.Keys), target);
    }

    method EraseExpired(w: World, expired: seq<int>)
      requires Valid()
      requires forall x :: x in expired <==> x in mLRUCache.mDeque && x !in w
      modifies mLRUCache
      ensures Valid() && mLRUCache.mDeque == Keep(old(mLRUCache.mDeque), w.Keys)
    {
      for k := 0 to |expired|
        invariant Valid() && mLRUCache.mDeque == EraseAll(old(mLRUCache.mDeque), expired[..k])
      {
        assert expired[..k + 1][..k] == expired[..k];
        mLRUCache.Erase(expired[k]);
      }
      assert expired[..|expired|] == expired;
      ExpiredAreErased(old(mLRUCache.mDeque), w, expired);
    }

    method Search(w: World, target: nat) returns (found: Option<Process>)
      requires Valid()
      modifies this`mProcessMap, mLRUCache
      ensures Valid()
      ensures ScanResult(old(mProcessMap), w, SearchOrder(old(mLRUCache.mDeque), w), target, mProcessMap, found)
      ensures mLRUCache.mDeque == if found.Some? && found.value.pid in old(mLRUCache.mDeque) then old(mLRUCache.mDeque)
                                  else Keep(old(mLRUCache.mDeque), w.Keys)
    {
      ghost var cache := mLRUCache.mDeque;
      found := SearchCache(w, target);
      ghost var m := mProcessMap;
      if found.None? {
        var sortedProcDir := ListUncached(w);
        assert sortedProcDir == Uncached(cache, w);
        found := SearchSorted(w, target, sortedProcDir);
      }
      ScanConcat(old(mProcessMap), w, Keep(cache, w.Keys), Descending(Uncached(cache, w)), target, m, mProcessMap,
          found);
    }

    /** All process directories not in the cache. */
    method ListUncached(w: World) returns (sortedProcDir: set<int>)
      ensures sortedProcDir == Uncached(mLRUCache.mDeque, w)
    {
      var todo := w.Keys;
      sortedProcDir := {};
      while todo != {}
        invariant todo <= w.Keys
        invariant sortedProcDir == Uncached(mLRUCache.mDeque, w) - todo
        decreases todo
      {
        ghost var some := Any(todo);
        var pid :| pid in todo;
        todo := todo - {pid};
        var cached := mLRUCache.Contains(pid);
        if !cached {
          sortedProcDir := sortedProcDir + {pid};
        }
      }
    }

    /** The directories of a set, the most recently spawned process first. */
    method SearchSorted(w: World, target: nat, sortedProcDir: set<int>) returns (found: Option<Process>)
      modifies this`mProcessMap
      ensures ScanResult(old(mProcessMap), w, Descending(sortedProcDir), target, mProcessMap, found)
    {
      ghost var order := Descending(sortedProcDir);
      ghost var done: seq<int> := [];
      var todo := sortedProcDir;
      found := None;
      while todo != {}
        invariant found == None
        invariant order == done + Descending(todo)
        invariant mProcessMap == ScanPids(old(mProcessMap), w, done)
        invariant NoneAnswers(w, done, target)
        decreases todo
      {
        var pid := Largest(todo);
        found := ProcessPidDir(w, pid, target);
        assert order == (done + [pid]) + Descending(todo - {pid});
        ScanNext(old(mProcessMap), w, done, pid, order, target);
        if found.Some? {
          return;
        }
        todo := todo - {pid};
        done := done + [pid];
      }
      assert order == done;
      NoOwner(w, order, target);
    }

    method Largest(pids: set<int>) returns (pid: int)
      requires pids != {}
      ensures pid in pids && Descending(pids) == [pid] + Descending(pids - {pid})
    {
      MaxExists(pids);
      pid :| pid in pids && forall x :: x in pids ==> x <= pid;
      DescendingStep(pids, pid);
    }

    method Get(w: World, inode: nat) returns (process: Option<Process>)
      requires Valid()
      modifies this, mLRUCache
      ensures Valid()
      ensures (State(), process) == GetStep(old(State()), mLRUCache.mSize, w, inode)
    {
      if inode in mCouldNotFind {
        return None;
      }
      if inode in mProcessMap {
        return Some(mProcessMap[inode]);
      }
      ghost var s := State();
      process := Search(w, inode);
      assert ScanResult(s.processes, w, SearchOrder(s.cache, w), inode, mProcessMap, process);
      if process.Some? {
        mLRUCache.Update(process.value.pid);
      } else {
        mCouldNotFind := mCouldNotFind + {inode};
      }
    }

    /** One turn of the clearing loop. */
    method ClearMisses()
      modifies this
      ensures State() == old(State()).(missed := {})
    {
      mCouldNotFind := {};
    }
  }

  /** m' and found are what scanning the order for the target leaves, stopping at its first owner. */
  ghost predicate ScanResult(m: map<nat, Process>, w: World, order: seq<int>, target: nat,
                             m': map<nat, Process>, found: Option<Process>) {
    found == Winner(w, order, target) && m' == ScanPids(m, w, Visited(w, order, target))
  }

  lemma {:induction false} ScanPidsConcat(m: map<nat, Process>, w: World, a: seq<int>, b: seq<int>)
    ensures ScanPids(m, w, a + b) == ScanPids(ScanPids(m, w, a), w, b)
  {
    if b == [] {
      assert a + b == a;
    } else {
      ScanPidsConcat(m, w, a, b[..|b| - 1]);
      assert (a + b)[..|a + b| - 1] == a + b[..|b| - 1];
    }
  }

  /** Scanning one part and then, if it holds no owner, the other is scanning the two as one. */
  lemma ScanConcat(m: map<nat, Process>, w: World, a: seq<int>, b: seq<int>, target: nat,
                   mid: map<nat, Process>, m': map<nat, Process>, found: Option<Process>)
    requires if Winner(w, a, target).Some? then ScanResult(m, w, a, target, m', found)
             else mid == ScanPids(m, w, a) && ScanResult(mid, w, b, target, m', found)
    ensures ScanResult(m, w, a + b, target, m', found)
  {
    VisitedConcat(w, a, b, target);
    ScanPidsConcat(m, w, a, Visited(w, b, target));
  }

  lemma VisitedConcat(w: World, a: seq<int>, b: seq<int>, target: nat)
    ensures Winner(w, a + b, target) == if Winner(w, a, target).Some? then Winner(w, a, target)
                                        else Winner(w, b, target)
    ensures Visited(w, a + b, target) == if Winner(w, a, target).Some? then Visited(w, a, target)
                                         else a + Visited(w, b, target)
  {
    var i, j := FirstOwner(w, a, target), FirstOwner(w, b, target);
    assert forall q :: 0 <= q < |a| ==> (a + b)[q] == a[q];
    assert forall q :: 0 <= q < |b| ==> (a + b)[|a| + q] == b[q];
    assert FirstOwner(w, a + b, target) == if i < |a| then i else |a| + j;
    if i == |a| && j < |b| {
      assert (a + b)[..|a| + j + 1] == a + b[..j + 1];
    }
  }

  ghost predicate NoneAnswers(w: World, pids: seq<int>, target: nat) {
    forall x :: x in pids ==> !Answers(w, x, target)
  }

  lemma NoOwner(w: World, order: seq<int>, target: nat)
    requires NoneAnswers(w, order, target)
    ensures FirstOwner(w, order, target) == |order|
  {
    assert forall k :: 0 <= k < |order| ==> order[k] in order;
  }

  /** The next process of an order either is its first owner or extends the part without one. */
  lemma ScanNext(m: map<nat, Process>, w: World, done: seq<int>, pid: int, order: seq<int>, target: nat)
    requires NoneAnswers(w, done, target) && done + [pid] <= order
    ensures ScanPids(m, w, done + [pid]) == ScanPid(ScanPids(m, w, done), w, pid)
    ensures if Answers(w, pid, target)
            then ScanResult(m, w, order, target, ScanPids(m, w, done + [pid]), Some(ProcessOf(w, pid)))
            else NoneAnswers(w, done + [pid], target)
  {
    assert (done + [pid])[..|done|] == done;
    if Answers(w, pid, target) {
      var j := FirstOwner(w, order, target);
      assert order[|done|] == (done + [pid])[|done|] == pid;
      assert forall q :: 0 <= q < |done| ==> order[q] == done[q] && done[q] in done;
      assert order[..|done| + 1] == done + [pid];
    }
  }

  lemma {:induction false} KeepPrefix(d: seq<int>, k: nat, alive: set<int>)
    requires k <= |d|
    ensures Keep(d[..k], alive) <= Keep(d, alive)
    decreases |d|
  {
    if k < |d| {
      KeepPrefix(d[..|d| - 1], k, alive);
      assert d[..|d| - 1][..k] == d[..k];
    } else {
      assert d[..k] == d;
    }
  }
}
