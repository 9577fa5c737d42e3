/** JavaScript's `Array.prototype.slice`: a negative index counts back from
    the end of the array, and every index is clamped into the array's range. */
module JsArray {

  function Min(a: int, b: int): int { if a <= b then a else b }

  function Max(a: int, b: int): int { if a <= b then b else a }

  /** The position a relative slice index denotes in an array of length `len`. */
  function Position(k: int, len: nat): (p: nat)
    ensures p <= len
    ensures k < 0 && len + k >= 0 ==> p == len + k
    ensures k < 0 && len + k < 0 ==> p == 0
    ensures 0 <= k <= len ==> p == k
    ensures k > len ==> p == len
  {
    if k < 0 then Max(len + k, 0) else Min(k, len)
  }

  /** `s.slice(start, end)`: the elements from position `start` up to, not
      including, position `end`; empty when `end` does not lie past `start`. */
  function Slice<T>(s: seq<T>, start: int, end: int): (r: seq<T>)
    ensures |r| <= |s|
    ensures Position(start, |s|) < Position(end, |s|) ==> r == s[Position(start, |s|)..Position(end, |s|)]
    ensures Position(end, |s|) <= Position(start, |s|) ==> r == []
  {
    var from, to := Position(start, |s|), Position(end, |s|);
    if from < to then s[from..to] else []
  }

  /** `s.slice(start)`: the end defaults to the length of the array. */
  function SliceFrom<T>(s: seq<T>, start: int): (r: seq<T>)
    ensures |r| <= |s|
    ensures s == s[..|s| - |r|] + r
    ensures 0 <= start <= |s| ==> |r| == |s| - start
    ensures start < 0 ==> |r| == Min(-start, |s|)
    ensures start > |s| ==> r == []
  {
    Slice(s, start, |s|)
  }

  /** The last `k` elements of `s`, or all of `s` when it is shorter: the
      meaning the views give to `slice(-k)`. */
  function Last<T>(s: seq<T>, k: nat): (r: seq<T>)
    ensures |r| == Min(k, |s|)
    ensures s == s[..|s| - |r|] + r
  {
    s[|s| - Min(k, |s|)..]
  }

  /** `s.slice(-k)` is the last `k` elements, for every positive `k`. */
  lemma SliceFromNegativeIsLast<T>(s: seq<T>, k: nat)
    requires 0 < k
    ensures SliceFrom(s, -(k as int)) == Last(s, k)
  {
  }

  /** `s.slice(-hi, -lo)` is the run of positions from `hi` back to `lo`
      back from the end, cut off at the start of the array. */
  lemma SliceBetweenNegatives<T>(s: seq<T>, hi: nat, lo: nat)
    requires 0 < lo <= hi
    ensures Slice(s, -(hi as int), -(lo as int)) == s[Max(|s| - hi, 0)..Max(|s| - lo, 0)]
  {
  }
}
