/** Traffic lines (src/traffic/DBController.hpp) in machine and in exact arithmetic. */
module Traffic {
  import opened Basics
  import opened Packets

  /** Bytes and packet counts received and transmitted. */
  datatype Line = Line(bytesRx: int, bytesTx: int, pktRxCount: int, pktTxCount: int)

  const ZERO: Line := Line(0, 0, 0, 0)

  predicate Empty(l: Line) {
    l.bytesRx == 0 && l.bytesTx == 0 && l.pktRxCount == 0 && l.pktTxCount == 0
  }

  type TrafficMap = map<string, Line>

  /** Exact sum. */
  function Plus(a: Line, b: Line): Line {
    Line(a.bytesRx + b.bytesRx, a.bytesTx + b.bytesTx, a.pktRxCount + b.pktRxCount, a.pktTxCount + b.pktTxCount)
  }

  /** What the fields of a line in memory hold of a value: uint64 bytes, int counts. */
  function InMemory(l: Line): Line {
    Line(Unsigned64(l.bytesRx), Unsigned64(l.bytesTx), Int32(l.pktRxCount), Int32(l.pktTxCount))
  }

  /** What a database row holds of a line: every column is bound as a 32-bit int. */
  function Stored(l: Line): Line {
    Line(Int32(l.bytesRx), Int32(l.bytesTx), Int32(l.pktRxCount), Int32(l.pktTxCount))
  }

  function Get(m: TrafficMap, name: string): Line {
    if name in m then m[name] else ZERO
  }

  /** What one packet adds. */
  function Contribution(d: Direction, len: int): Line {
    if d == Incoming then Line(len, 0, 1, 0) else Line(0, len, 0, 1)
  }

  /** operator[]: the name gets a line, empty if it had none. */
  function Touched(m: TrafficMap, name: string): TrafficMap {
    m[name := Get(m, name)]
  }

  /** The map after one contribution to a name. */
  function Credited(m: TrafficMap, name: string, c: Line): TrafficMap {
    m[name := InMemory(Plus(Get(m, name), c))]
  }

  /** Equality of all four counters modulo 2^32. */
  ghost predicate CongruentLines(a: Line, b: Line) {
    && Congruent(a.bytesRx, b.bytesRx) && Congruent(a.bytesTx, b.bytesTx)
    && Congruent(a.pktRxCount, b.pktRxCount) && Congruent(a.pktTxCount, b.pktTxCount)
  }

  /** All four counters lie in [0, 2^31). */
  predicate Small(l: Line) {
    && 0 <= l.bytesRx < TWO_TO_THE_31 && 0 <= l.bytesTx < TWO_TO_THE_31
    && 0 <= l.pktRxCount < TWO_TO_THE_31 && 0 <= l.pktTxCount < TWO_TO_THE_31
  }

  lemma CongruentSums(a: Line, b: Line, c: Line, d: Line)
    requires CongruentLines(a, b) && CongruentLines(c, d)
    ensures CongruentLines(Plus(a, c), Plus(b, d))
  {
  }

  lemma CongruentSelf(l: Line)
    ensures CongruentLines(l, l)
  {
  }

  lemma PlusZero(l: Line)
    ensures Plus(l, ZERO) == l && Plus(ZERO, l) == l
  {
  }

  lemma CongruentTransitive(a: Line, b: Line, c: Line)
    requires CongruentLines(a, b) && CongruentLines(b, c)
    ensures CongruentLines(a, c) && CongruentLines(b, a)
  {
  }

  /** Wrapping changes nothing modulo 2^32, and nothing at all for small lines. */
  lemma WrapFacts(l: Line)
    ensures CongruentLines(InMemory(l), l) && CongruentLines(Stored(l), l)
    ensures Small(l) ==> InMemory(l) == l && Stored(l) == l
  {
  }

  lemma WrappedTwice(l: Line)
    ensures InMemory(InMemory(l)) == InMemory(l)
  {
  }

  lemma Shift64(z: int, k: int)
    ensures Unsigned64(z - TWO_TO_THE_64 * k) == Unsigned64(z)
  {
  }

  lemma Modulo64(x: int, y: int)
    ensures Unsigned64(Unsigned64(x) + Unsigned64(y)) == Unsigned64(x + y)
  {
    var p, q := x / TWO_TO_THE_64, y / TWO_TO_THE_64;
    assert Unsigned64(x) + Unsigned64(y) == x + y - TWO_TO_THE_64 * (p + q);
    Shift64(x + y, p + q);
  }

  lemma SameInt32(x: int, y: int)
    requires Congruent(x, y)
    ensures Int32(x) == Int32(y)
  {
    hide Int32;
    var a, b, c := (Int32(x) - x) / TWO_TO_THE_32, (x - y) / TWO_TO_THE_32, (Int32(y) - y) / TWO_TO_THE_32;
    assert Int32(x) - Int32(y) == TWO_TO_THE_32 * (a + b - c);
  }

  lemma CongruentAdd(a: int, x: int, b: int, y: int)
    requires Congruent(a, x) && Congruent(b, y)
    ensures Congruent(a + b, x + y)
  {
  }

  lemma Modulo32(x: int, y: int)
    ensures Int32(Int32(x) + Int32(y)) == Int32(x + y)
  {
    CongruentAdd(Int32(x), x, Int32(y), y);
    SameInt32(Int32(x) + Int32(y), x + y);
  }

  /** Machine addition of wrapped lines is the wrapped exact sum. */
  lemma WrappedSum(a: Line, b: Line)
    ensures InMemory(Plus(InMemory(a), InMemory(b))) == InMemory(Plus(a, b))
  {
    hide Unsigned64, Int32, Congruent;
    Modulo64(a.bytesRx, b.bytesRx);
    Modulo64(a.bytesTx, b.bytesTx);
    Modulo32(a.pktRxCount, b.pktRxCount);
    Modulo32(a.pktTxCount, b.pktTxCount);
  }

  /** So it does not matter whether the line added to is wrapped already. */
  lemma WrappedAdd(a: Line, b: Line)
    ensures InMemory(Plus(InMemory(a), b)) == InMemory(Plus(a, b))
  {
    hide InMemory, Plus;
    WrappedSum(InMemory(a), b);
    WrappedTwice(a);
    WrappedSum(a, b);
  }

  /** Sums of lines that memory cannot tell apart. */
  lemma WrappedParts(a: Line, b: Line, a': Line, b': Line)
    requires InMemory(a) == InMemory(a') && InMemory(b) == InMemory(b')
    ensures InMemory(Plus(a, b)) == InMemory(Plus(a', b'))
  {
    hide InMemory, Plus;
    WrappedSum(a, b);
    WrappedSum(a', b');
  }

  predicate NonNegative(l: Line) {
    l.bytesRx >= 0 && l.bytesTx >= 0 && l.pktRxCount >= 0 && l.pktTxCount >= 0
  }

  /** Within what a line in memory can hold. */
  predicate FitsMemory(l: Line) {
    && l.bytesRx < TWO_TO_THE_64 && l.bytesTx < TWO_TO_THE_64
    && l.pktRxCount < TWO_TO_THE_31 && l.pktTxCount < TWO_TO_THE_31
  }

  /** No counter of a is above that of b. */
  predicate AtMost(a: Line, b: Line) {
    && a.bytesRx <= b.bytesRx && a.bytesTx <= b.bytesTx
    && a.pktRxCount <= b.pktRxCount && a.pktTxCount <= b.pktTxCount
  }

  lemma WrapsDown(x: int)
    requires x >= 0
    ensures Unsigned64(x) <= x && (Unsigned64(x) == x <==> x < TWO_TO_THE_64)
    ensures Int32(x) <= x && (Int32(x) == x <==> x < TWO_TO_THE_31)
  {
  }

  lemma BoundWrapsDown(x: int)
    requires x >= 0
    ensures Int32(Unsigned64(x)) <= x && (Int32(Unsigned64(x)) == x <==> x < TWO_TO_THE_31)
    ensures Int32(Int32(x)) <= x && (Int32(Int32(x)) == x <==> x < TWO_TO_THE_31)
  {
    hide Unsigned64;
    WrapsDown(x);
    WrapsDown(Unsigned64(x));
    SameInt32(Int32(x), x);
  }

  /** Wrapping only takes away: in memory unless the line fits it, in a row unless it is small. */
  lemma WrappedIsLess(l: Line)
    requires NonNegative(l)
    ensures AtMost(InMemory(l), l) && (InMemory(l) == l <==> FitsMemory(l))
    ensures AtMost(Stored(InMemory(l)), l) && (Stored(InMemory(l)) == l <==> Small(l))
  {
    hide Unsigned64, Int32, Congruent;
    WrapsDown(l.bytesRx);
    WrapsDown(l.bytesTx);
    WrapsDown(l.pktRxCount);
    WrapsDown(l.pktTxCount);
    BoundWrapsDown(l.bytesRx);
    BoundWrapsDown(l.bytesTx);
    BoundWrapsDown(l.pktRxCount);
    BoundWrapsDown(l.pktTxCount);
  }

  /** Pointwise exact sum of two maps. */
  function AddMaps(a: TrafficMap, b: TrafficMap): (m: TrafficMap)
    ensures forall n :: Get(m, n) == Plus(Get(a, n), Get(b, n))
  {
    map n | n in a.Keys + b.Keys :: Plus(Get(a, n), Get(b, n))
  }
}
