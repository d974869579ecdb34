/** Small things several modules share. */
module Common {

  datatype Option<T> = None | Some(value: T)

  /** s with every occurrence of one element replaced by another. */
  function Replaced<T(==)>(s: seq<T>, x: T, y: T): (r: seq<T>)
    ensures |r| == |s|
    ensures forall k :: 0 <= k < |r| ==> r[k] == if s[k] == x then y else s[k]
  {
    if s == [] then [] else [if s[0] == x then y else s[0]] + Replaced(s[1..], x, y)
  }

  const INT_MAX: int := 0x7fff_ffff
  const TWO_32: int := 0x1_0000_0000
  const SIZE_T: int := 0x1_0000_0000_0000_0000

  /** Conversion to a two's complement int of 32 bits. */
  function Narrow(x: nat): (r: int)
    ensures -TWO_32 / 2 <= r <= INT_MAX
    ensures r <= x
  {
    var low := x % TWO_32;
    if low <= INT_MAX then low else low - TWO_32
  }

  /** The conversion drops whole multiples of 2^32. */
  lemma NarrowCongruent(x: nat)
    ensures (x - Narrow(x)) % TWO_32 == 0
  {
    var low := x % TWO_32;
    assert x == TWO_32 * (x / TWO_32) + low;
  }

  /** The conversion keeps exactly the values an int can hold. */
  lemma NarrowExact(x: nat)
    ensures Narrow(x) == x <==> x <= INT_MAX
  {}

  function Const(n: nat, x: int): (r: seq<int>)
    ensures |r| == n && forall k :: 0 <= k < n ==> r[k] == x
  {
    if n == 0 then [] else Const(n - 1, x) + [x]
  }

  /** How often x occurs in s. */
  function Count<T(==)>(s: seq<T>, x: T): nat {
    multiset(s)[x]
  }

  lemma CountSnoc<T>(s: seq<T>, x: T, y: T)
    ensures Count(s + [y], x) == Count(s, x) + if x == y then 1 else 0
  {}
}
