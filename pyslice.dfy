/** Python's `s[start:stop]` on a sequence, for the step 1 used by the crop. */
module PySlice {

  /** How Python resolves one slice bound `k` against a length `n`:
      a negative bound counts from the end, and the result is clamped to [0, n]. */
  function Bound(n: nat, k: int): (b: nat)
    ensures b <= n
    ensures 0 <= k ==> b == if k <= n then k else n
    ensures k < 0 ==> b == if -k <= n then n + k else 0
  {
    if k < 0 then (if n + k < 0 then 0 else n + k)
    else if k > n then n
    else k
  }

  /** The number of elements `s[start:stop]` selects from a sequence of length `n`. */
  function SliceLen(n: nat, start: int, stop: int): nat
  {
    var lo, hi := Bound(n, start), Bound(n, stop);
    if lo < hi then hi - lo else 0
  }

  /** `s[start:stop]`: the elements from the resolved start up to (not including) the resolved stop,
      empty when the resolved stop does not lie after the resolved start. */
  function Slice<T>(s: seq<T>, start: int, stop: int): (r: seq<T>)
    ensures |r| == SliceLen(|s|, start, stop)
    ensures forall k :: 0 <= k < |r| ==> Bound(|s|, start) + k < |s| && r[k] == s[Bound(|s|, start) + k]
  {
    var lo, hi := Bound(|s|, start), Bound(|s|, stop);
    if lo < hi then s[lo..hi] else []
  }

  /** The shape of `s[l:-m]` with non-negative margins that fit: `n - l - m` elements when `m > 0`,
      but nothing at all when `m == 0`, because `-0` is the bound 0, not the end of the sequence. */
  lemma TrailingMarginSlice(n: nat, l: int, m: int)
    requires 0 <= l && 0 <= m && l + m <= n
    ensures SliceLen(n, l, -m) == if m == 0 then 0 else n - l - m
  {
  }
}
