/**
 * The two pieces of JavaScript's Array.prototype that the list controller
 * leans on for its arithmetic: `slice` (with its negative-index and clamping
 * rules) and a small `Min`.
 */
module JsArray {

  function Min(a: int, b: int): int {
    if a <= b then a else b
  }

  /** How `slice` normalises one bound: a negative bound counts back from the
      end of the array, and the result is clamped to [0, len]. */
  function SliceBound(len: nat, k: int): (r: nat)
    ensures r <= len
  {
    if k < 0 then (if len + k < 0 then 0 else len + k)
    else if k > len then len
    else k
  }

  /** `s.slice(start, end)`: the elements between the two normalised bounds,
      or nothing when the normalised start is not before the normalised end. */
  function Slice<T>(s: seq<T>, start: int, end: int): (r: seq<T>)
    ensures |r| <= |s|
    // with non-negative bounds, slice never fails: it clamps both to the length
    ensures 0 <= start <= end ==> r == s[Min(start, |s|)..Min(end, |s|)]
    ensures 0 <= end <= start ==> r == []
    // a negative end drops that many elements from the back
    ensures start == 0 && end < 0 ==> r == s[..SliceBound(|s|, end)] && |r| == if |s| + end < 0 then 0 else |s| + end
  {
    var b, e := SliceBound(|s|, start), SliceBound(|s|, end);
    if b < e then s[b..e] else []
  }

  /** `s.slice(0, n)` for a non-negative n is the prefix of length min(n, |s|). */
  lemma SliceFromZero<T>(s: seq<T>, n: int)
    requires 0 <= n
    ensures Slice(s, 0, n) <= s && |Slice(s, 0, n)| == Min(n, |s|)
  {
  }
}
