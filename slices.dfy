/** The two read-only scans over string slices. */
module Slices {

  /** `contains`: a linear scan that stops at the first element equal to `e`. */
  function Contains(s: seq<string>, e: string): (r: bool)
    ensures r <==> e in s
  {
    if s == [] then false
    else if s[0] == e then true
    else Contains(s[1..], e)
  }

  /** `isSameSlice`: unequal lengths differ; otherwise compare position by
      position. The result is exactly sequence equality, so it is reflexive,
      symmetric, and sensitive to order and to duplicates. */
  function IsSameSlice(a: seq<string>, b: seq<string>): (r: bool)
    ensures r <==> a == b
  {
    |a| == |b| && SameFrom(a, b, 0)
  }

  /** The index loop of `isSameSlice`, from position `i` on. */
  function SameFrom(a: seq<string>, b: seq<string>, i: nat): (r: bool)
    requires |a| == |b| && i <= |a|
    ensures r <==> forall k :: i <= k < |a| ==> a[k] == b[k]
    decreases |a| - i
  {
    if i == |a| then true
    else if a[i] != b[i] then false
    else SameFrom(a, b, i + 1)
  }
}
