/** Python's slice `s[lo:hi]` on sequences, negative bounds counting from the end. */
module Slices {

  /** A slice bound resolved against a sequence of length `n`. */
  function Resolve(i: int, n: nat): (k: nat)
    ensures k <= n
    ensures 0 <= i <= n ==> k == i
    ensures i > n ==> k == n
    ensures i < 0 ==> k == if n + i < 0 then 0 else n + i
  {
    if i < 0 then (if n + i < 0 then 0 else n + i) else if i > n then n else i
  }

  /** `s[lo:hi]`. */
  function PySlice<T>(s: seq<T>, lo: int, hi: int): (r: seq<T>)
    ensures |r| <= |s|
  {
    var a := Resolve(lo, |s|);
    var b := Resolve(hi, |s|);
    if a < b then s[a..b] else []
  }

  /** `s[:n]`. */
  function PyTake<T>(s: seq<T>, n: int): (r: seq<T>)
    ensures r <= s
  {
    var b := Resolve(n, |s|);
    assert 0 < b ==> s[0..b] <= s;
    PySlice(s, 0, n)
  }

  /** `s[n:]`. */
  function PyDrop<T>(s: seq<T>, n: int): seq<T> {
    PySlice(s, n, |s|)
  }

  /** With a non-negative bound, `s[:n]` is the first `min(n, len(s))` elements. */
  lemma PyTakeNonNegative<T>(s: seq<T>, n: int)
    requires 0 <= n
    ensures PyTake(s, n) == if n <= |s| then s[..n] else s
  {
    assert s[0..|s|] == s;
  }

  /** Taking from nothing, or taking nothing, gives nothing. */
  lemma PyTakeEmpty<T>(s: seq<T>, n: int)
    requires s == [] || n == 0
    ensures PyTake(s, n) == []
  {
  }

  /** With non-negative bounds in order, the three slices `s[:a]`, `s[a:b]`, `s[b:]`
      put back together give `s`. */
  lemma PySliceThree<T>(s: seq<T>, a: int, b: int)
    requires 0 <= a <= b
    ensures PyTake(s, a) + PySlice(s, a, b) + PyDrop(s, b) == s
  {
    var x := Resolve(a, |s|);
    var y := Resolve(b, |s|);
    assert s[0..x] + s[x..y] + s[y..|s|] == s;
  }
}
