/** The earlier revision's `memoize(fn, hasher)`: the cache is consulted by
    truthiness, not by key presence, so a stored result that is falsy
    (`null`, `0`, `''`, `false`, `undefined`) counts as a miss: `fn` runs
    again and its result overwrites the entry. `truthy` is JavaScript's
    conversion of a result to a boolean. */
module Legacy {
  import Memoization

  /** Whether the cache `m` answers key `k` without running `fn`. */
  predicate Hit<K, R>(truthy: R -> bool, m: map<K, R>, k: K)
  {
    k in m && truthy(m[k])
  }

  /** The cache left by the calls `xs`: each call that misses stores what
      `fn` returns for it. */
  function TruthyCache<A, K(==), R>(hash: A -> K, f: A -> R, truthy: R -> bool, xs: seq<A>): map<K, R>
  {
    if xs == [] then map[]
    else
      var m := TruthyCache(hash, f, truthy, xs[..|xs| - 1]);
      var last := xs[|xs| - 1];
      if Hit(truthy, m, hash(last)) then m else m[hash(last) := f(last)]
  }

  /** The calls among `xs` that miss the cache: the calls that reach `fn`. */
  function Recomputed<A, K(==), R>(hash: A -> K, f: A -> R, truthy: R -> bool, xs: seq<A>): (ys: seq<A>)
    ensures |ys| <= |xs|
  {
    if xs == [] then []
    else
      var init := xs[..|xs| - 1];
      var last := xs[|xs| - 1];
      Recomputed(hash, f, truthy, init) +
        if Hit(truthy, TruthyCache(hash, f, truthy, init), hash(last)) then [] else [last]
  }

  /** When `fn` returns only falsy results, every call reaches `fn`: the
      cache never answers. */
  lemma {:induction false} FalsyAlwaysRecomputed<A, K, R>(hash: A -> K, f: A -> R, truthy: R -> bool, xs: seq<A>)
    requires forall i :: 0 <= i < |xs| ==> !truthy(f(xs[i]))
    ensures Recomputed(hash, f, truthy, xs) == xs
    ensures forall k :: k in TruthyCache(hash, f, truthy, xs) ==> !truthy(TruthyCache(hash, f, truthy, xs)[k])
  {
    if xs != [] {
      var init := xs[..|xs| - 1];
      assert forall i :: 0 <= i < |init| ==> init[i] == xs[i];
      FalsyAlwaysRecomputed(hash, f, truthy, init);
      assert init + [xs[|xs| - 1]] == xs;
    }
  }

  /** When `fn` returns only truthy results, the earlier revision behaves as
      the later one: the same cache, and `fn` runs for the same calls. */
  lemma {:induction false} TruthyAgreesWithMemoize<A, K, R>(hash: A -> K, f: A -> R, truthy: R -> bool, xs: seq<A>)
    requires forall i :: 0 <= i < |xs| ==> truthy(f(xs[i]))
    ensures TruthyCache(hash, f, truthy, xs) == Memoization.Cache(hash, f, xs)
    ensures Recomputed(hash, f, truthy, xs) == Memoization.Firsts(hash, xs)
    ensures forall k :: k in TruthyCache(hash, f, truthy, xs) ==> truthy(TruthyCache(hash, f, truthy, xs)[k])
  {
    if xs != [] {
      var init := xs[..|xs| - 1];
      assert forall i :: 0 <= i < |init| ==> init[i] == xs[i];
      TruthyAgreesWithMemoize(hash, f, truthy, init);
      Memoization.CacheHoldsFirsts(hash, f, init);
    }
  }

  /** Once a key holds a truthy result, no later call changes its entry and
      none with that key reaches `fn`. */
  lemma {:induction false} TruthySettles<A, K, R>(hash: A -> K, f: A -> R, truthy: R -> bool, xs: seq<A>, ys: seq<A>, k: K)
    requires Hit(truthy, TruthyCache(hash, f, truthy, xs), k)
    ensures Hit(truthy, TruthyCache(hash, f, truthy, xs + ys), k)
    ensures TruthyCache(hash, f, truthy, xs + ys)[k] == TruthyCache(hash, f, truthy, xs)[k]
    ensures var before := Recomputed(hash, f, truthy, xs);
      var after := Recomputed(hash, f, truthy, xs + ys);
      && |before| <= |after| && after[..|before|] == before
      && forall j :: |before| <= j < |after| ==> hash(after[j]) != k
  {
    if ys == [] {
      assert xs + ys == xs;
    } else {
      var zs := xs + ys[..|ys| - 1];
      assert (xs + ys)[..|xs + ys| - 1] == zs;
      TruthySettles(hash, f, truthy, xs, ys[..|ys| - 1], k);
    }
  }

  /** The earlier revision runs `fn` twice for two calls with the same
      arguments when the first result is falsy, where the later revision
      runs it once. */
  lemma FalsyCalledTwice<A, K, R>(hash: A -> K, f: A -> R, truthy: R -> bool, x: A)
    requires !truthy(f(x))
    ensures Recomputed(hash, f, truthy, [x, x]) == [x, x]
    ensures Memoization.Firsts(hash, [x, x]) == [x]
  {
    FalsyAlwaysRecomputed(hash, f, truthy, [x, x]);
    assert [x, x][..1] == [x];
    Memoization.KeysHas(hash, [x], 0);
  }

  class TruthyMemoize<A, K(==), R> {
    const f: A -> R
    const hash: A -> K
    const truthy: R -> bool
    /** The cache, by key. */
    var memo: map<K, R>
    /** Every call of the wrapper so far. */
    ghost var received: seq<A>
    /** The invocations of `fn` made so far. */
    var calls: seq<A>

    /** The cache is the one the calls so far leave, and `fn` has run for
        the calls that missed it. */
    ghost predicate Valid()
      reads this
    {
      && memo == TruthyCache(hash, f, truthy, received)
      && calls == Recomputed(hash, f, truthy, received)
    }

    constructor (f: A -> R, hash: A -> K, truthy: R -> bool)
      ensures Valid() && this.f == f && this.hash == hash && this.truthy == truthy
      ensures memo == map[] && received == [] && calls == []
    {
      this.f := f;
      this.hash := hash;
      this.truthy := truthy;
      memo := map[];
      received := [];
      calls := [];
    }

    /** A call: a truthy entry under its key is returned as it is; anything
        else, a missing entry included, makes `fn` run and its result
        overwrite the entry. A falsy result is therefore always fresh. */
    method Call(a: A) returns (r: R)
      requires Valid()
      modifies this
      ensures Valid() && received == old(received) + [a]
      ensures calls == if Hit(truthy, old(memo), hash(a)) then old(calls) else old(calls) + [a]
      ensures memo == if Hit(truthy, old(memo), hash(a)) then old(memo) else old(memo)[hash(a) := f(a)]
      ensures hash(a) in memo && r == memo[hash(a)]
      ensures r == f(a) || Hit(truthy, old(memo), hash(a))
      ensures !truthy(r) ==> r == f(a)
    {
      var key := hash(a);
      if !(key in memo && truthy(memo[key])) {
        memo := memo[key := f(a)];
        calls := calls + [a];
      }
      r := memo[key];
      received := received + [a];
      assert received[..|received| - 1] == old(received);
    }
  }

  /** Runs a fresh wrapper of the earlier revision over the calls `xs`: `fn`
      runs for exactly the calls that miss the cache, every call returns
      either a fresh result or a truthy cached one, and a falsy answer is
      always fresh. */
  method TruthyMemoizeRun<A, K(==), R>(f: A -> R, hash: A -> K, truthy: R -> bool, xs: seq<A>)
    returns (results: seq<R>, invoked: seq<A>)
    ensures invoked == Recomputed(hash, f, truthy, xs)
    ensures |results| == |xs|
    ensures forall i :: 0 <= i < |xs| ==> results[i] == f(xs[i]) || truthy(results[i])
  {
    var g := new TruthyMemoize(f, hash, truthy);
    results := [];
    for i := 0 to |xs|
      invariant g.Valid() && g.f == f && g.hash == hash && g.truthy == truthy
      invariant g.received == xs[..i]
      invariant |results| == i
      invariant forall j :: 0 <= j < i ==> results[j] == f(xs[j]) || truthy(results[j])
    {
      var r := g.Call(xs[i]);
      results := results + [r];
    }
    assert xs[..|xs|] == xs;
    invoked := g.calls;
  }
}
