/** Occurrence counts and first-occurrence order, the shape of the insertion-ordered
    counters the source keeps in JavaScript objects and Python dicts. */
module Counting {

  /** How often `x` occurs in `xs`. */
  function Count<T(==)>(xs: seq<T>, x: T): (n: nat)
    ensures n <= |xs|
    ensures n == 0 <==> x !in xs
  {
    if xs == [] then 0
    else
      var init := xs[..|xs| - 1];
      assert xs == init + [xs[|xs| - 1]];
      Count(init, x) + (if xs[|xs| - 1] == x then 1 else 0)
  }

  predicate NoDuplicates<T(==)>(xs: seq<T>) {
    forall i, j :: 0 <= i < j < |xs| ==> xs[i] != xs[j]
  }

  /** The distinct elements of `xs` in order of first occurrence: the key order of a
      JavaScript object or a Python dict filled by scanning `xs`. */
  function Distinct<T(==,!new)>(xs: seq<T>): (d: seq<T>)
    ensures forall x :: x in d <==> x in xs
    ensures NoDuplicates(d)
    ensures |d| <= |xs|
  {
    if xs == [] then []
    else
      var init := xs[..|xs| - 1];
      var last := xs[|xs| - 1];
      assert xs == init + [last];
      var d := Distinct(init);
      if last in d then d else d + [last]
  }

  /** The value stored under `k`, or 0 when there is none: Python's `defaultdict(int)`
      and JavaScript's `acc[k] || 0`. */
  function Get<K>(m: map<K, nat>, k: K): nat {
    if k in m then m[k] else 0
  }

  /** The sum, over `keys`, of each key's count in `xs`. */
  function SumCounts<T(==)>(keys: seq<T>, xs: seq<T>): nat {
    if keys == [] then 0 else SumCounts(keys[..|keys| - 1], xs) + Count(xs, keys[|keys| - 1])
  }

  lemma CountSnoc<T>(xs: seq<T>, y: T, x: T)
    ensures Count(xs + [y], x) == Count(xs, x) + (if y == x then 1 else 0)
  {
    assert (xs + [y])[..|xs|] == xs;
  }

  lemma {:induction false} CountAppend<T>(xs: seq<T>, ys: seq<T>, x: T)
    ensures Count(xs + ys, x) == Count(xs, x) + Count(ys, x)
    decreases |ys|
  {
    if ys == [] {
      assert xs + ys == xs;
    } else {
      var n := |ys| - 1;
      assert xs + ys == (xs + ys[..n]) + [ys[n]];
      assert ys == ys[..n] + [ys[n]];
      CountAppend(xs, ys[..n], x);
      CountSnoc(xs + ys[..n], ys[n], x);
      CountSnoc(ys[..n], ys[n], x);
    }
  }

  lemma {:induction false} SumCountsSnoc<T>(keys: seq<T>, xs: seq<T>, x: T)
    ensures SumCounts(keys, xs + [x]) == SumCounts(keys, xs) + Count(keys, x)
    decreases |keys|
  {
    if keys != [] {
      SumCountsSnoc(keys[..|keys| - 1], xs, x);
      CountSnoc(xs, x, keys[|keys| - 1]);
      CountSnoc(keys[..|keys| - 1], keys[|keys| - 1], x);
      assert keys[..|keys| - 1] + [keys[|keys| - 1]] == keys;
    }
  }

  lemma DistinctSnoc<T(!new)>(xs: seq<T>, x: T)
    ensures Distinct(xs + [x]) == if x in Distinct(xs) then Distinct(xs) else Distinct(xs) + [x]
  {
    assert (xs + [x])[..|xs|] == xs;
  }

  lemma SumCountsAppendKey<T>(keys: seq<T>, k: T, xs: seq<T>)
    ensures SumCounts(keys + [k], xs) == SumCounts(keys, xs) + Count(xs, k)
  {
    assert (keys + [k])[..|keys|] == keys;
  }

  lemma {:induction false} CountInDistinct<T(!new)>(xs: seq<T>, x: T)
    ensures Count(Distinct(xs), x) == if x in xs then 1 else 0
    decreases |xs|
  {
    if xs != [] {
      var init := xs[..|xs| - 1];
      var last := xs[|xs| - 1];
      assert xs == init + [last];
      CountInDistinct(init, x);
      var d := Distinct(init);
      if last !in d {
        CountSnoc(d, last, x);
      }
    }
  }

  /** Every element is counted once under its own key: summing the per-key counts over
      the distinct keys gives back the length of the sequence. */
  lemma {:induction false} SumCountsOfDistinct<T(!new)>(xs: seq<T>)
    ensures SumCounts(Distinct(xs), xs) == |xs|
    decreases |xs|
  {
    if xs != [] {
      var init := xs[..|xs| - 1];
      var last := xs[|xs| - 1];
      assert xs == init + [last];
      SumCountsOfDistinct(init);
      var d := Distinct(init);
      SumCountsSnoc(d, init, last);
      CountInDistinct(init, last);
      if last !in d {
        SumCountsAppendKey(d, last, xs);
        CountSnoc(init, last, last);
        assert Count(init, last) == 0;
      }
    }
  }
}
