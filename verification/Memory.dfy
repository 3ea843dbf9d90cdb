/** Memory cells, and the sequences the other modules are about. */
module Memory {
  /** A 32-bit memory cell. */
  type Cell = x: int | 0 <= x < 0x1_0000_0000

  ghost predicate Distinct(s: seq<int>)
  {
    forall i, j :: 0 <= i < j < |s| ==> s[i] != s[j]
  }

  /** The element at place `i`; 0, which ends a list, past the last. */
  function Nth(s: seq<int>, i: int): int
    requires 0 <= i
  {
    if i < |s| then s[i] else 0
  }

  /** The sequence without the element at place `i`. */
  function Dropped<T>(s: seq<T>, i: int): seq<T>
    requires 0 <= i < |s|
  {
    s[..i] + s[i + 1..]
  }

  /** Memory has changed from `lo` to below `hi` at most. */
  ghost predicate SameOutside<T>(m: seq<T>, m': seq<T>, lo: int, hi: int)
  {
    |m'| == |m| && forall a :: 0 <= a < |m| && !(lo <= a < hi) ==> m'[a] == m[a]
  }
}
