/** `memoize(fn, hashFn)`: results are cached by the key `hashFn` computes
    from the call; a key already in the cache is answered from it, whatever
    was stored, and `fn` never runs for it again. Nothing is ever evicted. */
module Memoization {

  /** The keys of the calls `xs`. */
  function Keys<A, K(==)>(hash: A -> K, xs: seq<A>): set<K>
  {
    if xs == [] then {} else Keys(hash, xs[..|xs| - 1]) + {hash(xs[|xs| - 1])}
  }

  /** The key of every call is among the keys of the calls. */
  lemma {:induction false} KeysHas<A, K>(hash: A -> K, xs: seq<A>, i: nat)
    requires i < |xs|
    ensures hash(xs[i]) in Keys(hash, xs)
  {
    if i < |xs| - 1 {
      var init := xs[..|xs| - 1];
      assert init[i] == xs[i];
      KeysHas(hash, init, i);
    }
  }

  /** A key no call has is not among the keys of the calls. */
  lemma {:induction false} KeysOnly<A, K>(hash: A -> K, xs: seq<A>, k: K)
    requires forall i :: 0 <= i < |xs| ==> hash(xs[i]) != k
    ensures k !in Keys(hash, xs)
  {
    if xs != [] {
      var init := xs[..|xs| - 1];
      assert forall i :: 0 <= i < |init| ==> init[i] == xs[i];
      KeysOnly(hash, init, k);
    }
  }

  /** The earliest of the calls `xs` whose key is `k`. */
  function FirstWith<A, K(==)>(hash: A -> K, xs: seq<A>, k: K): (x: A)
    requires k in Keys(hash, xs)
    ensures hash(x) == k
  {
    var init := xs[..|xs| - 1];
    if k in Keys(hash, init) then FirstWith(hash, init, k) else xs[|xs| - 1]
  }

  /** The calls among `xs` whose key no earlier call had: the calls that
      reach `fn`. */
  function Firsts<A, K(==)>(hash: A -> K, xs: seq<A>): (ys: seq<A>)
    ensures |ys| <= |xs|
  {
    if xs == [] then []
    else
      var init := xs[..|xs| - 1];
      Firsts(hash, init) + if hash(xs[|xs| - 1]) in Keys(hash, init) then [] else [xs[|xs| - 1]]
  }

  /** The earliest call with key `k` is the one no earlier call shares `k`
      with. */
  lemma {:induction false} FirstWithIsEarliest<A, K>(hash: A -> K, xs: seq<A>, i: nat)
    requires i < |xs|
    requires forall j :: 0 <= j < i ==> hash(xs[j]) != hash(xs[i])
    ensures hash(xs[i]) in Keys(hash, xs) && FirstWith(hash, xs, hash(xs[i])) == xs[i]
  {
    var init := xs[..|xs| - 1];
    KeysHas(hash, xs, i);
    if i < |xs| - 1 {
      assert init[i] == xs[i];
      FirstWithIsEarliest(hash, init, i);
    } else {
      assert forall j :: 0 <= j < |init| ==> init[j] == xs[j];
      KeysOnly(hash, init, hash(xs[i]));
    }
  }

  /** Later calls never change which call a key's entry came from: a cached
      entry is never overwritten. */
  lemma {:induction false} FirstWithStable<A, K>(hash: A -> K, xs: seq<A>, ys: seq<A>, k: K)
    requires k in Keys(hash, xs)
    ensures k in Keys(hash, xs + ys) && FirstWith(hash, xs + ys, k) == FirstWith(hash, xs, k)
  {
    if ys != [] {
      var zs := xs + ys[..|ys| - 1];
      assert (xs + ys)[..|xs + ys| - 1] == zs;
      FirstWithStable(hash, xs, ys[..|ys| - 1], k);
    } else {
      assert xs + ys == xs;
    }
  }

  /** Every key of the calls is the key of a call that reached `fn`. */
  lemma {:induction false} FirstsCoverKeys<A, K>(hash: A -> K, xs: seq<A>)
    ensures Keys(hash, Firsts(hash, xs)) == Keys(hash, xs)
  {
    if xs != [] {
      var init := xs[..|xs| - 1];
      var last := xs[|xs| - 1];
      FirstsCoverKeys(hash, init);
      var zs := Firsts(hash, init);
      if hash(last) !in Keys(hash, init) {
        var ys := zs + [last];
        assert Firsts(hash, xs) == ys && ys[..|ys| - 1] == zs;
      } else {
        assert Firsts(hash, xs) == zs;
      }
    }
  }
  /** `fn` runs at most once per key: no two calls that reached it share a
      key. */
  lemma {:induction false} FirstsOncePerKey<A, K>(hash: A -> K, xs: seq<A>)
    ensures forall i, j :: 0 <= i < j < |Firsts(hash, xs)| ==> hash(Firsts(hash, xs)[i]) != hash(Firsts(hash, xs)[j])
  {
    if xs != [] {
      var init := xs[..|xs| - 1];
      var last := xs[|xs| - 1];
      FirstsOncePerKey(hash, init);
      FirstsCoverKeys(hash, init);
      var zs := Firsts(hash, init);
      if hash(last) !in Keys(hash, init) {
        var ys := zs + [last];
        assert Firsts(hash, xs) == ys;
        forall i, j | 0 <= i < j < |ys|
          ensures hash(ys[i]) != hash(ys[j])
        {
          if j == |ys| - 1 {
            KeysHas(hash, zs, i);
          }
        }
      } else {
        assert Firsts(hash, xs) == zs;
      }
    }
  }

  /** The cache left by the calls `xs`: each call whose key is absent
      stores what `fn` returns for it. */
  function Cache<A, K(==), R>(hash: A -> K, f: A -> R, xs: seq<A>): map<K, R>
  {
    if xs == [] then map[]
    else
      var m := Cache(hash, f, xs[..|xs| - 1]);
      var last := xs[|xs| - 1];
      if hash(last) in m then m else m[hash(last) := f(last)]
  }

  /** The cache holds a key exactly when some call had it, with what `fn`
      returned for the earliest such call. */
  lemma {:induction false} CacheHoldsFirsts<A, K, R>(hash: A -> K, f: A -> R, xs: seq<A>)
    ensures Cache(hash, f, xs).Keys == Keys(hash, xs)
    ensures forall k :: k in Cache(hash, f, xs) ==>
      k in Keys(hash, xs) && Cache(hash, f, xs)[k] == f(FirstWith(hash, xs, k))
  {
    if xs != [] {
      CacheHoldsFirsts(hash, f, xs[..|xs| - 1]);
    }
  }

  class Memoize<A, K(==), R> {
    const f: A -> R
    const hash: A -> K
    /** The cache, by key. */
    var memo: map<K, R>
    /** Every call of the wrapper so far. */
    ghost var received: seq<A>
    /** The invocations of `fn` made so far. */
    var calls: seq<A>

    /** The cache is the one the calls so far leave, and `fn` has run for
        the calls whose key no earlier call had. */
    ghost predicate Valid()
      reads this
    {
      && memo == Cache(hash, f, received)
      && calls == Firsts(hash, received)
    }

    constructor (f: A -> R, hash: A -> K)
      ensures Valid() && this.f == f && this.hash == hash
      ensures memo == map[] && received == [] && calls == []
    {
      this.f := f;
      this.hash := hash;
      memo := map[];
      received := [];
      calls := [];
    }

    /** A call: its key is looked up; if absent, `fn` runs and its result is
        stored; the stored result is returned. */
    method Call(a: A) returns (r: R)
      requires Valid()
      modifies this
      ensures Valid() && received == old(received) + [a]
      ensures hash(a) in Keys(hash, received) && r == f(FirstWith(hash, received, hash(a)))
      ensures hash(a) in memo && r == memo[hash(a)]
      ensures calls == if hash(a) in old(memo) then old(calls) else old(calls) + [a]
      ensures memo == if hash(a) in old(memo) then old(memo) else old(memo)[hash(a) := f(a)]
    {
      CacheHoldsFirsts(hash, f, received);
      var key := hash(a);
      if key !in memo {
        memo := memo[key := f(a)];
        calls := calls + [a];
      }
      r := memo[key];
      received := received + [a];
      assert received[..|received| - 1] == old(received);
      CacheHoldsFirsts(hash, f, received);
    }
  }

  /** Runs a fresh memoized wrapper over the calls `xs`: `fn` runs once for
      each key, on the first call with it, and every call returns what `fn`
      returned for the first call with its key, so calls with equal keys
      return equal results. */
  method MemoizeRun<A, K(==), R>(f: A -> R, hash: A -> K, xs: seq<A>) returns (results: seq<R>, invoked: seq<A>)
    ensures invoked == Firsts(hash, xs)
    ensures |results| == |xs|
    ensures forall i :: 0 <= i < |xs| ==>
      hash(xs[i]) in Keys(hash, xs) && results[i] == f(FirstWith(hash, xs, hash(xs[i])))
    ensures forall i, j :: 0 <= i < |xs| && 0 <= j < |xs| && hash(xs[i]) == hash(xs[j]) ==> results[i] == results[j]
  {
    var g := new Memoize(f, hash);
    results := [];
    for i := 0 to |xs|
      invariant g.Valid() && g.f == f && g.hash == hash
      invariant g.received == xs[..i]
      invariant |results| == i
      invariant forall j :: 0 <= j < i ==> hash(xs[j]) in g.memo && results[j] == g.memo[hash(xs[j])]
    {
      var r := g.Call(xs[i]);
      results := results + [r];
    }
    assert xs[..|xs|] == xs;
    invoked := g.calls;
    CacheHoldsFirsts(hash, f, xs);
  }
}
