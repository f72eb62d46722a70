/**
 * `DataFrame.sample(n)`: n rows drawn without replacement, in the order drawn.
 * The random generator is replaced by a sequence of draws; each draw picks
 * one of the rows still in the pool. Whatever the draws, the result is a
 * duplicate-free selection of n positions, and every such selection is
 * produced by some draws, so the function ranges over exactly the outcomes
 * pandas can return.
 */
module Sampling {
  import opened Sequences

  /** `s` without its element at position j. */
  function RemoveAt<T>(s: seq<T>, j: nat): (r: seq<T>)
    requires j < |s|
    ensures |r| == |s| - 1
    decreases j
  {
    if j == 0 then s[1..] else [s[0]] + RemoveAt(s[1..], j - 1)
  }

  /** Taking position j out of `s` removes exactly one occurrence of `s[j]`. */
  lemma {:induction false} RemoveAtBag<T>(s: seq<T>, j: nat)
    requires j < |s|
    ensures multiset(RemoveAt(s, j)) + multiset{s[j]} == multiset(s)
    decreases j
  {
    assert s == [s[0]] + s[1..];
    if j > 0 {
      RemoveAtBag(s[1..], j - 1);
      assert multiset(RemoveAt(s, j)) == multiset{s[0]} + multiset(RemoveAt(s[1..], j - 1));
    }
  }

  /** The next draw, or 0 once the draws run out; the caller reduces it modulo the pool size. */
  function Head(draws: seq<nat>): nat {
    if |draws| > 0 then draws[0] else 0
  }

  /** The pool position a draw selects. */
  function Pick(draws: seq<nat>, size: nat): (j: nat)
    requires size > 0
    ensures j < size
    ensures Head(draws) < size ==> j == Head(draws)
  {
    Head(draws) % size
  }

  function Tail(draws: seq<nat>): seq<nat> {
    if |draws| > 0 then draws[1..] else []
  }

  /** n elements of `pool`, each drawn from what the earlier draws left. */
  function Sample<T>(pool: seq<T>, n: nat, draws: seq<nat>): (r: seq<T>)
    requires n <= |pool|
    ensures |r| == n
    decreases n
  {
    if n == 0 then []
    else
      [pool[Pick(draws, |pool|)]] + Sample(RemoveAt(pool, Pick(draws, |pool|)), n - 1, Tail(draws))
  }

  /** Whatever the draws, the sample is taken without replacement: a sub-multiset of the pool. */
  lemma {:induction false} SampleFromPool<T>(pool: seq<T>, n: nat, draws: seq<nat>)
    requires n <= |pool|
    ensures multiset(Sample(pool, n, draws)) <= multiset(pool)
    decreases n
  {
    if n > 0 {
      var j := Pick(draws, |pool|);
      var remaining := RemoveAt(pool, j);
      var rest := Sample(remaining, n - 1, Tail(draws));
      var r := Sample(pool, n, draws);
      assert r == [pool[j]] + rest;
      SampleFromPool(remaining, n - 1, Tail(draws));
      RemoveAtBag(pool, j);
      ConsFromPool(r, pool[j], rest, remaining, pool);
    }
  }

  /** Drawing `a` and then a sub-multiset of what is left stays inside the pool. */
  lemma ConsFromPool<T>(r: seq<T>, a: T, rest: seq<T>, remaining: seq<T>, pool: seq<T>)
    requires r == [a] + rest
    requires multiset(rest) <= multiset(remaining)
    requires multiset(remaining) + multiset{a} == multiset(pool)
    ensures multiset(r) <= multiset(pool)
  {
    assert multiset(r) == multiset{a} + multiset(rest);
  }

  /** Every arrangement of n rows taken without replacement from `pool` is the outcome of some draws. */
  lemma {:induction false} SampleComplete<T>(pool: seq<T>, t: seq<T>) returns (draws: seq<nat>)
    requires multiset(t) <= multiset(pool)
    ensures |t| <= |pool|
    ensures Sample(pool, |t|, draws) == t
    decreases |t|, 1
  {
    if |t| == 0 {
      draws := [];
    } else {
      draws := SampleCompleteCons(pool, t);
    }
  }

  /** The non-empty case: draw the position of `t[0]`, then draws for the rest from what remains. */
  lemma {:induction false} SampleCompleteCons<T>(pool: seq<T>, t: seq<T>) returns (draws: seq<nat>)
    requires |t| > 0 && multiset(t) <= multiset(pool)
    ensures |t| <= |pool|
    ensures Sample(pool, |t|, draws) == t
    decreases |t|, 0
  {
    var j := DrawFor(pool, t);
    var draws' := SampleComplete(RemoveAt(pool, j), t[1..]);
    draws := SampleStep(pool, t, j, draws');
  }

  /** The position of the first element of `t` in `pool`, and what remains to be drawn after it. */
  lemma DrawFor<T>(pool: seq<T>, t: seq<T>) returns (j: nat)
    requires |t| > 0 && multiset(t) <= multiset(pool)
    ensures j < |pool| && pool[j] == t[0]
    ensures multiset(t[1..]) <= multiset(RemoveAt(pool, j))
  {
    assert t[0] in multiset(t);
    assert t[0] in pool;
    j :| 0 <= j < |pool| && pool[j] == t[0];
    var rest := RemoveAt(pool, j);
    RemoveAtBag(pool, j);
    assert t == [t[0]] + t[1..];
    assert multiset(t) == multiset{t[0]} + multiset(t[1..]);
    forall x ensures multiset(t[1..])[x] <= multiset(rest)[x] {
      assert multiset(t)[x] <= multiset(pool)[x];
    }
  }

  /** Drawing position j first, then `draws'` for the rest, reproduces `t`. */
  lemma SampleStep<T>(pool: seq<T>, t: seq<T>, j: nat, draws': seq<nat>) returns (draws: seq<nat>)
    requires |t| > 0 && j < |pool| && pool[j] == t[0]
    requires |t| - 1 <= |RemoveAt(pool, j)|
    requires Sample(RemoveAt(pool, j), |t| - 1, draws') == t[1..]
    ensures |t| <= |pool|
    ensures Sample(pool, |t|, draws) == t
  {
    draws := [j] + draws';
    SampleUnfold(pool, |t|, j, draws');
    assert t == [t[0]] + t[1..];
  }

  /** A first draw of position j puts `pool[j]` first and samples the rest from what remains. */
  lemma SampleUnfold<T>(pool: seq<T>, n: nat, j: nat, draws': seq<nat>)
    requires 0 < n <= |pool| && j < |pool|
    ensures Sample(pool, n, [j] + draws') == [pool[j]] + Sample(RemoveAt(pool, j), n - 1, draws')
  {
    var draws := [j] + draws';
    assert Pick(draws, |pool|) == j;
    assert Tail(draws) == draws';
  }

  /** Sampling a duplicate-free pool yields distinct elements of that pool. */
  lemma SampleOfDistinct<T>(pool: seq<T>, n: nat, draws: seq<nat>)
    requires n <= |pool| && Distinct(pool)
    ensures Distinct(Sample(pool, n, draws))
    ensures forall i :: 0 <= i < n ==> Sample(pool, n, draws)[i] in pool
  {
    var r := Sample(pool, n, draws);
    SampleFromPool(pool, n, draws);
    DistinctCounts(pool);
    DistinctCounts(r);
    forall i | 0 <= i < n ensures r[i] in pool {
      assert r[i] in multiset(r);
    }
  }
}
