/** The call-count limiters `once`, `allow` and `after`: each wrapper keeps a
    flag or a counter and decides from it whether a call reaches `fn`. */
module Limiters {
  import opened Common

  /** `once(fn)`: the first call runs `fn` and keeps its result; every call
      returns that result. */
  class Once<A, R> {
    const f: A -> R
    var done: bool
    var result: Option<R>
    /** The invocations of `fn` made so far. */
    var calls: seq<A>

    ghost predicate Valid()
      reads this
    {
      && |calls| <= 1
      && (done <==> calls != [])
      && result == (if done then Some(f(calls[0])) else None)
    }

    constructor (f: A -> R)
      ensures Valid() && this.f == f
      ensures !done && calls == []
    {
      this.f := f;
      done := false;
      result := None;
      calls := [];
    }

    /** One call of the wrapper: `fn` runs only if no call has run it yet,
        and the result is the one of the first call. */
    method Call(a: A) returns (r: R)
      requires Valid()
      modifies this
      ensures Valid() && done
      ensures calls == if old(done) then old(calls) else [a]
      ensures r == f(calls[0])
    {
      if !done {
        done := true;
        result := Some(f(a));
        calls := calls + [a];
      }
      r := result.value;
    }
  }

  /** Runs a fresh `once` wrapper over the calls `xs`: `fn` runs at most once,
      on the first call, and every call returns the first call's result. */
  method OnceRun<A, R>(f: A -> R, xs: seq<A>) returns (results: seq<R>, invoked: seq<A>)
    ensures invoked == if xs == [] then [] else [xs[0]]
    ensures |results| == |xs|
    ensures forall i :: 0 <= i < |xs| ==> results[i] == f(xs[0])
  {
    var g := new Once(f);
    results := [];
    for i := 0 to |xs|
      invariant g.Valid() && g.f == f
      invariant g.calls == if i == 0 then [] else [xs[0]]
      invariant |results| == i
      invariant forall j :: 0 <= j < i ==> results[j] == f(xs[0])
    {
      var r := g.Call(xs[i]);
      results := results + [r];
    }
    invoked := g.calls;
  }

  /** How many of the first `k` calls `allow(fn, n)` forwards. */
  function Allowed(n: int, k: nat): nat
  {
    if n <= 0 then 0 else Min(n, k)
  }

  /** `allow(fn, times)`: the counter `times` is decremented by each call that
      finds it positive, and only those calls reach `fn`. */
  class Allow<A, R> {
    const f: A -> R
    /** The `times` the wrapper was created with. */
    ghost const n: int
    var times: int
    /** Every call of the wrapper so far. */
    ghost var received: seq<A>
    /** The invocations of `fn` made so far. */
    var calls: seq<A>

    ghost predicate Valid()
      reads this
    {
      && times == n - Allowed(n, |received|)
      && calls == received[..Allowed(n, |received|)]
    }

    constructor (f: A -> R, times: int)
      ensures Valid() && this.f == f && n == times
      ensures received == [] && calls == []
    {
      this.f := f;
      n := times;
      this.times := times;
      received := [];
      calls := [];
    }

    /** The k-th call reaches `fn` if and only if k <= n; the others return
        `undefined`. The counter never drops below 0 when it starts there. */
    method Call(a: A) returns (r: Option<R>)
      requires Valid()
      modifies this
      ensures Valid() && received == old(received) + [a]
      ensures r.Some? <==> |received| <= n
      ensures r.Some? ==> r.value == f(a)
      ensures n >= 0 ==> 0 <= times
    {
      if times > 0 {
        times := times - 1;
        r := Some(f(a));
        calls := calls + [a];
      } else {
        r := None;
      }
      received := received + [a];
      assert received[..|received| - 1] == old(received);
    }
  }

  /** Runs a fresh `allow(fn, n)` over the calls `xs`: exactly the first `n`
      calls reach `fn` and return its result; the rest return `undefined`. */
  method AllowRun<A, R>(f: A -> R, n: int, xs: seq<A>) returns (results: seq<Option<R>>, invoked: seq<A>)
    ensures invoked == xs[..Allowed(n, |xs|)]
    ensures |results| == |xs|
    ensures forall i :: 0 <= i < |xs| ==> results[i] == if i < n then Some(f(xs[i])) else None
  {
    var g := new Allow(f, n);
    results := [];
    for i := 0 to |xs|
      invariant g.Valid() && g.f == f && g.n == n
      invariant g.received == xs[..i]
      invariant |results| == i
      invariant forall j :: 0 <= j < i ==> results[j] == if j < n then Some(f(xs[j])) else None
    {
      var r := g.Call(xs[i]);
      results := results + [r];
    }
    assert xs[..|xs|] == xs;
    invoked := g.calls;
  }

  /** How many of the first `k` calls `after(fn, n)` suppresses. */
  function Suppressed(n: int, k: nat): nat
  {
    if n <= 1 then 0 else Min(n - 1, k)
  }

  /** `after(fn, times)`: every call decrements `times`, and a call reaches
      `fn` once the counter has fallen below 1. */
  class After<A, R> {
    const f: A -> R
    /** The `times` the wrapper was created with. */
    ghost const n: int
    var times: int
    /** Every call of the wrapper so far. */
    ghost var received: seq<A>
    /** The invocations of `fn` made so far. */
    var calls: seq<A>

    ghost predicate Valid()
      reads this
    {
      && times == n - |received|
      && Suppressed(n, |received|) <= |received|
      && calls == received[Suppressed(n, |received|)..]
    }

    constructor (f: A -> R, times: int)
      ensures Valid() && this.f == f && n == times
      ensures received == [] && calls == []
    {
      this.f := f;
      n := times;
      this.times := times;
      received := [];
      calls := [];
    }

    /** The k-th call reaches `fn` if and only if k >= n; the earlier ones
        return `undefined`. */
    method Call(a: A) returns (r: Option<R>)
      requires Valid()
      modifies this
      ensures Valid() && received == old(received) + [a]
      ensures times == old(times) - 1
      ensures r.Some? <==> |received| >= n
      ensures r.Some? ==> r.value == f(a)
    {
      times := times - 1;
      if times < 1 {
        r := Some(f(a));
        calls := calls + [a];
      } else {
        r := None;
      }
      received := received + [a];
    }
  }

  /** Runs a fresh `after(fn, n)` over the calls `xs`: calls 1..n-1 never reach
      `fn`, and every call from the n-th on does. */
  method AfterRun<A, R>(f: A -> R, n: int, xs: seq<A>) returns (results: seq<Option<R>>, invoked: seq<A>)
    ensures invoked == xs[Suppressed(n, |xs|)..]
    ensures |results| == |xs|
    ensures forall i :: 0 <= i < |xs| ==> results[i] == if i + 1 >= n then Some(f(xs[i])) else None
  {
    var g := new After(f, n);
    results := [];
    for i := 0 to |xs|
      invariant g.Valid() && g.f == f && g.n == n
      invariant g.received == xs[..i]
      invariant |results| == i
      invariant forall j :: 0 <= j < i ==> results[j] == if j + 1 >= n then Some(f(xs[j])) else None
    {
      var r := g.Call(xs[i]);
      results := results + [r];
    }
    assert xs[..|xs|] == xs;
    invoked := g.calls;
  }
}
