/** The recency cache of src/util/LRUArray.hpp, with its theory. */
module LRU {
  import opened Basics

  /** s without its first x. */
  function Without<T(==)>(s: seq<T>, x: T): (w: seq<T>)
    ensures |w| == if x in s then |s| - 1 else |s|
    ensures forall k :: 0 <= k < |w| ==> w[k] == if k < Find(s, x) then s[k] else s[k + 1]
  {
    var i := Find(s, x);
    if i < |s| then s[..i] + s[i + 1..] else s
  }

  /** Move to front. */
  function Front<T(==)>(s: seq<T>, x: T): seq<T> {
    [x] + Without(s, x)
  }

  /** At most n leading elements. */
  function Cut<T>(s: seq<T>, n: nat): seq<T> {
    if |s| <= n then s else s[..n]
  }

  ghost predicate Distinct<T>(s: seq<T>) {
    forall i, j :: 0 <= i < j < |s| ==> s[i] != s[j]
  }

  ghost function Elements<T>(s: seq<T>): set<T> {
    set x | x in s
  }

  class LRUArray<T(==)> {
    var mDeque: seq<T>
    const mSize: nat

    ghost predicate Valid()
      reads this
    {
      |mDeque| <= mSize && Distinct(mDeque)
    }

    constructor (size: nat)
      ensures Valid() && mSize == size && mDeque == []
    {
      mSize := size;
      mDeque := [];
    }

    method Update(item: T)
      requires Valid()
      modifies this
      ensures Valid()
      ensures mDeque == Cut(Front(old(mDeque), item), mSize)
    {
      FrontFacts(mDeque, item);
      if mSize == 0 {
        return;
      }
      if mDeque == [] {
        mDeque := [item];
        return;
      }
      if mDeque[0] != item {
        var inCache := Find(mDeque, item);
        if inCache < |mDeque| {
          mDeque := mDeque[..inCache] + mDeque[inCache + 1..];
        }
        if |mDeque| == mSize {
          mDeque := mDeque[..|mDeque| - 1];
          mDeque := [item] + mDeque;
        } else {
          mDeque := [item] + mDeque;
        }
      }
    }

    method Contains(item: T) returns (b: bool)
      ensures b <==> item in mDeque
    {
      b := Find(mDeque, item) != |mDeque|;
    }

    method Erase(item: T)
      requires Valid()
      modifies this
      ensures Valid()
      ensures mDeque == Without(old(mDeque), item) && item !in mDeque
    {
      FrontFacts(mDeque, item);
      var pos := Find(mDeque, item);
      if pos != |mDeque| {
        mDeque := mDeque[..pos] + mDeque[pos + 1..];
      }
    }

    method Empty() returns (b: bool)
      ensures b <==> Elements(mDeque) == {}
    {
      assert mDeque != [] ==> mDeque[0] in Elements(mDeque);
      b := mDeque == [];
    }

    method Clear()
      modifies this
      ensures Valid() && mDeque == []
    {
      mDeque := [];
    }
  }

  /** Moving to the front and removing keep a list duplicate-free and change only x's place. */
  lemma FrontFacts<T>(s: seq<T>, x: T)
    requires Distinct(s)
    ensures Distinct(Without(s, x)) && Distinct(Front(s, x))
    ensures Elements(Without(s, x)) == Elements(s) - {x}
    ensures Elements(Front(s, x)) == Elements(s) + {x}
  {
    var i, w := Find(s, x), Without(s, x);
    forall y ensures y in w <==> y in s && y != x {
      if y in s && y != x {
        var k :| 0 <= k < |s| && s[k] == y;
        assert k < i ==> w[k] == y;
        assert k > i ==> w[k - 1] == y;
      }
    }
    forall y ensures y in Front(s, x) <==> y in s || y == x {
      assert Front(s, x) == [x] + w;
    }
  }

  // ----- histories: any mixture of update and erase on an initially empty cache

  datatype Op<T> = Touch(item: T) | Drop(item: T)

  function Apply<T(==)>(d: seq<T>, op: Op<T>, size: nat): seq<T> {
    match op
    case Touch(x) => Cut(Front(d, x), size)
    case Drop(x) => Without(d, x)
  }

  /** The deque of a cache of the given size after a history. */
  function Run<T(==)>(ops: seq<Op<T>>, size: nat): seq<T> {
    if ops == [] then []
    else Apply(Run(ops[..|ops| - 1], size), ops[|ops| - 1], size)
  }

  /** The unbounded move-to-front list after a history. */
  function Recency<T(==)>(ops: seq<Op<T>>): seq<T> {
    if ops == [] then []
    else
      var before := Recency(ops[..|ops| - 1]);
      match ops[|ops| - 1]
      case Touch(x) => Front(before, x)
      case Drop(x) => Without(before, x)
  }

  lemma WithoutKeepsPrefix<T>(a: seq<T>, b: seq<T>, x: T)
    requires a <= b
    ensures Without(a, x) <= Without(b, x)
  {
    var i, j := Find(a, x), Find(b, x);
    assert x in a ==> i == j;
    assert x !in a ==> j >= |a|;
  }

  /** Cutting first and moving to the front in the shorter list gives the same cache. */
  lemma CutFront<T>(r: seq<T>, x: T, size: nat)
    ensures Cut(Front(Cut(r, size), x), size) == Cut(Front(r, x), size)
  {
    var c, i := Cut(r, size), Find(r, x);
    if |r| > size {
      assert c == r[..size];
      var j := Find(c, x);
      assert if i < size then x in c && j == i else x !in c && j == size by {
        if i < size { assert c[i] == x; }
      }
      var p, q := Front(c, x), Front(r, x);
      assert |q| >= size && |p| >= size;
      forall k | 0 <= k < size ensures p[k] == q[k] {
        if k > 0 {
          assert p[k] == Without(c, x)[k - 1] && q[k] == Without(r, x)[k - 1];
        }
      }
      assert Cut(p, size) == p[..size] && Cut(q, size) == q[..size];
    }
  }

  /** Inclusion of a smaller cache in a larger one, through any history of updates and erases. */
  lemma {:induction false} StackInclusion<T>(ops: seq<Op<T>>, m: nat, n: nat)
    requires m <= n
    ensures Run(ops, m) <= Run(ops, n)
  {
    if ops != [] {
      var before, op := ops[..|ops| - 1], ops[|ops| - 1];
      StackInclusion(before, m, n);
      WithoutKeepsPrefix(Run(before, m), Run(before, n), op.item);
    }
  }

  lemma {:induction false} LargeCacheIsRecency<T>(ops: seq<Op<T>>, n: nat)
    requires |ops| <= n
    ensures Run(ops, n) == Recency(ops) && |Recency(ops)| <= |ops|
  {
    if ops != [] {
      LargeCacheIsRecency(ops[..|ops| - 1], n);
    }
  }

  /** The cache is a duplicate-free prefix of the move-to-front list, within its size. */
  lemma {:induction false} RefinesRecency<T>(ops: seq<Op<T>>, size: nat)
    ensures Run(ops, size) <= Recency(ops)
    ensures |Run(ops, size)| <= size
    ensures Distinct(Recency(ops)) && Distinct(Run(ops, size))
  {
    var n := size + |ops|;
    LargeCacheIsRecency(ops, n);
    StackInclusion(ops, size, n);
    RecencyDistinct(ops);
    RunBounded(ops, size);
  }

  lemma {:induction false} RecencyDistinct<T>(ops: seq<Op<T>>)
    ensures Distinct(Recency(ops))
  {
    if ops != [] {
      RecencyDistinct(ops[..|ops| - 1]);
      FrontFacts(Recency(ops[..|ops| - 1]), ops[|ops| - 1].item);
    }
  }

  lemma {:induction false} RunBounded<T>(ops: seq<Op<T>>, size: nat)
    ensures |Run(ops, size)| <= size
  {
    if ops != [] {
      RunBounded(ops[..|ops| - 1], size);
    }
  }

  // ----- histories of updates only

  function Touches<T>(xs: seq<T>): (ops: seq<Op<T>>)
    ensures |ops| == |xs| && forall i :: 0 <= i < |xs| ==> ops[i] == Touch(xs[i])
  {
    seq(|xs|, i requires 0 <= i < |xs| => Touch(xs[i]))
  }

  lemma TouchesInit<T>(xs: seq<T>)
    requires xs != []
    ensures Touches(xs)[..|xs| - 1] == Touches(xs[..|xs| - 1])
  {
  }

  /** Without erases the cache holds exactly the most recent part of the move-to-front list. */
  lemma {:induction false} UpdatesKeepTheNewest<T>(xs: seq<T>, size: nat)
    ensures Run(Touches(xs), size) == Cut(Recency(Touches(xs)), size)
  {
    if xs != [] {
      var before, x := xs[..|xs| - 1], xs[|xs| - 1];
      TouchesInit(xs);
      UpdatesKeepTheNewest(before, size);
      CutFront(Recency(Touches(before)), x, size);
    }
  }

  /** The distinct items updated after position i. */
  ghost function TouchedAfter<T>(xs: seq<T>, i: nat): set<T> {
    set j | i < j < |xs| :: xs[j]
  }

  lemma TouchedAfterInit<T>(xs: seq<T>, i: nat)
    requires i < |xs| - 1
    ensures TouchedAfter(xs, i) == TouchedAfter(xs[..|xs| - 1], i) + {xs[|xs| - 1]}
  {
    var before := xs[..|xs| - 1];
    forall z | z in TouchedAfter(xs, i) ensures z in TouchedAfter(before, i) + {xs[|xs| - 1]} {
      var j :| i < j < |xs| && xs[j] == z;
      assert j < |before| ==> before[j] == z;
    }
    forall z | z in TouchedAfter(before, i) ensures z in TouchedAfter(xs, i) {
      var j :| i < j < |before| && before[j] == z;
      assert xs[j] == z;
    }
  }

  /** The items ahead of x in the list. */
  ghost function Ahead<T>(r: seq<T>, x: T): set<T> {
    set z | z in r && Find(r, z) < Find(r, x)
  }

  /** Where an item of the list is after y moves to the front. */
  lemma FindInFront<T>(r: seq<T>, z: T, y: T)
    requires z in r && z != y
    ensures z in Front(r, y)
    ensures Find(Front(r, y), z) == if Find(r, z) < Find(r, y) then Find(r, z) + 1 else Find(r, z)
  {
    var i := Find(r, z);
    var p := if i < Find(r, y) then i + 1 else i;
    assert Front(r, y)[p] == z;
  }

  lemma FrontMembers<T>(r: seq<T>, z: T, y: T)
    ensures z in Front(r, y) <==> z == y || z in r
    ensures Find(Front(r, y), y) == 0
  {
    assert Front(r, y)[0] == y;
    if z in r && z != y {
      FindInFront(r, z, y);
    }
  }

  /** Moving y to the front puts y ahead of x and disturbs nothing else. */
  lemma AheadInFront<T>(r: seq<T>, x: T, y: T)
    requires x in r && x != y
    ensures Ahead(Front(r, y), x) == Ahead(r, x) + {y}
  {
    hide Front, FindFrom;
    FindInFront(r, x, y);
    var a, b := Ahead(Front(r, y), x), Ahead(r, x) + {y};
    forall z ensures z in a <==> z in b {
      FrontMembers(r, z, y);
      if z != y && z in r {
        FindInFront(r, z, y);
      }
    }
    assert a == b;
  }

  /** The items ahead of x in the move-to-front list are those updated since x. */
  lemma {:induction false} RecencyAhead<T>(xs: seq<T>, i: nat)
    requires i < |xs| && xs[i] !in TouchedAfter(xs, i)
    ensures xs[i] in Recency(Touches(xs))
    ensures Ahead(Recency(Touches(xs)), xs[i]) == TouchedAfter(xs, i)
  {
    var before, y, x := xs[..|xs| - 1], xs[|xs| - 1], xs[i];
    TouchesInit(xs);
    var r := Recency(Touches(before));
    assert Recency(Touches(xs)) == Front(r, y);
    if i == |xs| - 1 {
      assert Front(r, y)[0] == x;
    } else {
      TouchedAfterInit(xs, i);
      RecencyAhead(before, i);
      AheadInFront(r, x, y);
      FindInFront(r, x, y);
    }
  }

  /** In a duplicate-free list the position of x is the number of items ahead of it. */
  lemma AheadCounts<T>(r: seq<T>, x: T)
    requires Distinct(r) && x in r
    ensures |Ahead(r, x)| == Find(r, x)
  {
    var p := r[..Find(r, x)];
    DistinctCardinality(p);
    forall z ensures z in Ahead(r, x) <==> z in p {
      if z in p {
        var j :| 0 <= j < |p| && p[j] == z;
        assert r[j] == z;
      }
      if z in Ahead(r, x) {
        assert p[Find(r, z)] == z;
      }
    }
    assert Ahead(r, x) == Elements(p);
  }

  lemma {:induction false} DistinctCardinality<T>(s: seq<T>)
    requires Distinct(s)
    ensures |Elements(s)| == |s|
  {
    if s == [] {
      assert Elements(s) == {};
    } else {
      DistinctCardinality(s[1..]);
      assert s == [s[0]] + s[1..];
      assert Elements(s) == {s[0]} + Elements(s[1..]);
    }
  }

  /** Without erases, an item last updated at i is cached iff fewer than `size` distinct other
      items were updated since. */
  lemma PresentIffRecent<T>(xs: seq<T>, i: nat, size: nat)
    requires i < |xs| && xs[i] !in TouchedAfter(xs, i)
    ensures xs[i] in Run(Touches(xs), size) <==> |TouchedAfter(xs, i)| < size
  {
    var r := Recency(Touches(xs));
    var p := Find(r, xs[i]);
    RecencyAhead(xs, i);
    RecencyDistinct(Touches(xs));
    AheadCounts(r, xs[i]);
    UpdatesKeepTheNewest(xs, size);
    assert r[p] == xs[i];
    if p < size {
      assert Cut(r, size)[p] == xs[i];
    }
  }

  /** An item never updated is never cached. */
  lemma {:induction false} AbsentIfNeverUpdated<T>(ops: seq<Op<T>>, size: nat, x: T)
    requires Touch(x) !in ops
    ensures x !in Run(ops, size)
  {
    if ops != [] {
      var d, op := Run(ops[..|ops| - 1], size), ops[|ops| - 1];
      AbsentIfNeverUpdated(ops[..|ops| - 1], size, x);
      RefinesRecency(ops[..|ops| - 1], size);
      FrontFacts(d, op.item);
      assert x !in Elements(d);
      match op
      case Touch(y) => assert x !in Elements(Front(d, y));
      case Drop(y) => assert x !in Elements(Without(d, y));
    }
  }
}
