/** Machine integers and small shared types. */
module Basics {

  datatype Option<+T> = None | Some(value: T)

  const TWO_TO_THE_16: int := 0x1_0000
  const TWO_TO_THE_31: int := 0x8000_0000
  const TWO_TO_THE_32: int := 0x1_0000_0000
  const TWO_TO_THE_64: int := 0x1_0000_0000_0000_0000

  type Word16 = x: int | 0 <= x < TWO_TO_THE_16
  type Word32 = x: int | 0 <= x < TWO_TO_THE_32

  /** Conversion to a signed 32-bit int, two's complement. */
  function Int32(x: int): (r: int)
    ensures -TWO_TO_THE_31 <= r < TWO_TO_THE_31
    ensures Congruent(r, x)
    ensures -TWO_TO_THE_31 <= x < TWO_TO_THE_31 ==> r == x
  {
    var m := x % TWO_TO_THE_32;
    if m < TWO_TO_THE_31 then m else m - TWO_TO_THE_32
  }

  /** Conversion to an unsigned 64-bit int. */
  function Unsigned64(x: int): (r: int)
    ensures 0 <= r < TWO_TO_THE_64
    ensures Congruent(r, x)
    ensures 0 <= x < TWO_TO_THE_64 ==> r == x
  {
    var q := x / TWO_TO_THE_64;
    var r := x % TWO_TO_THE_64;
    assert x - r == TWO_TO_THE_32 * (q * TWO_TO_THE_32);
    r
  }

  /** Equality modulo 2^32. */
  ghost predicate Congruent(a: int, b: int) {
    (a - b) % TWO_TO_THE_32 == 0
  }

  function FindFrom<T(==)>(s: seq<T>, x: T, start: nat): (i: nat)
    requires start <= |s|
    ensures start <= i <= |s| && forall k :: start <= k < i ==> s[k] != x
    ensures i < |s| ==> s[i] == x
    decreases |s| - start
  {
    if start == |s| || s[start] == x then start else FindFrom(s, x, start + 1)
  }

  /** Index of the first x in s, or |s| when there is none (std::find). */
  function Find<T(==)>(s: seq<T>, x: T): (i: nat)
    ensures i <= |s| && forall k :: 0 <= k < i ==> s[k] != x
    ensures if x in s then i < |s| && s[i] == x else i == |s|
  {
    FindFrom(s, x, 0)
  }
}
