/** Small shared vocabulary: optional values, Kotlin's fixed-width integers,
    and the "index of first match" lookup that Kotlin's `indexOf` and
    `indexOfFirst` perform on lists. */
module Base {

  /** A Kotlin nullable value: `null` is None. */
  datatype Option<+T> = None | Some(value: T) {
    function GetOr(default: T): T {
      match this
      case Some(v) => v
      case None => default
    }
  }

  const INT_MIN: int := -0x8000_0000
  const INT_MAX: int := 0x7FFF_FFFF
  const LONG_MIN: int := -0x8000_0000_0000_0000
  const LONG_MAX: int := 0x7FFF_FFFF_FFFF_FFFF

  predicate IsInt32(n: int) { INT_MIN <= n <= INT_MAX }
  predicate IsInt64(n: int) { LONG_MIN <= n <= LONG_MAX }

  /** Two's-complement narrowing of an integer to a 32-bit Kotlin `Int`. */
  function WrapInt(n: int): (r: int)
    ensures IsInt32(r)
    ensures (r - n) % 0x1_0000_0000 == 0
    ensures IsInt32(n) ==> r == n
  {
    (n - INT_MIN) % 0x1_0000_0000 + INT_MIN
  }

  /** Two's-complement wrap-around of a 64-bit Kotlin `Long` operation. */
  function WrapLong(n: int): (r: int)
    ensures IsInt64(r)
    ensures (r - n) % 0x1_0000_0000_0000_0000 == 0
    ensures IsInt64(n) ==> r == n
  {
    (n - LONG_MIN) % 0x1_0000_0000_0000_0000 + LONG_MIN
  }

  /** Kotlin `List.indexOfFirst(p)`: the index of the first element satisfying
      `p`, or -1 when there is none. */
  function IndexOfFirst<T>(xs: seq<T>, p: T -> bool): (r: int)
    ensures -1 <= r < |xs|
    ensures r == -1 <==> forall i :: 0 <= i < |xs| ==> !p(xs[i])
    ensures 0 <= r ==> p(xs[r]) && forall i :: 0 <= i < r ==> !p(xs[i])
  {
    if |xs| == 0 then -1
    else if p(xs[0]) then 0
    else
      var k := IndexOfFirst(xs[1..], p);
      assert forall i :: 1 <= i < |xs| ==> xs[i] == xs[1..][i - 1];
      if k == -1 then -1 else k + 1
  }

  /** Kotlin `List.indexOf(x)`: the first position holding `x`, or -1. */
  function IndexOf<T(==)>(xs: seq<T>, x: T): (r: int)
    ensures -1 <= r < |xs|
    ensures r == -1 <==> x !in xs
    ensures 0 <= r ==> xs[r] == x && x !in xs[..r]
  {
    IndexFrom(xs, x, 0)
  }

  function IndexFrom<T(==)>(xs: seq<T>, x: T, i: nat): (r: int)
    requires i <= |xs|
    requires x !in xs[..i]
    ensures -1 <= r < |xs|
    ensures r == -1 <==> x !in xs
    ensures 0 <= r ==> xs[r] == x && x !in xs[..r]
    decreases |xs| - i
  {
    if i == |xs| then assert xs[..i] == xs; -1
    else if xs[i] == x then i
    else assert xs[..i + 1] == xs[..i] + [xs[i]]; IndexFrom(xs, x, i + 1)
  }

  /** What a list's differ (`DiffUtil.ItemCallback`) does with an old and a
      new element at the same place: replace the row when they are not the
      same item, rebind it when the item's contents changed, keep it
      otherwise. The contents are compared only for the same item. */
  datatype Change = Kept | Rebound | Replaced

  function DiffStep(sameItem: bool, sameContents: bool): Change {
    if !sameItem then Replaced else if !sameContents then Rebound else Kept
  }
}
