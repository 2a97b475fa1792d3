/** `debounce(fn, wait, leading)`: every call replaces the one pending timer;
    `fn` runs either when that timer finally fires (trailing edge) or, with
    `leading`, on a call that finds no timer pending (leading edge). */
module Debouncing {
  import opened Common

  class Debounce<A, R> {
    const f: A -> R
    const wait: int
    const leading: bool
    /** The pending timer, with the call it will run for, if one is pending. */
    var timeout: Option<Timer<A>>
    /** The invocations of `fn` made so far. */
    var calls: seq<Fire<A>>

    constructor (f: A -> R, wait: int, leading: bool)
      ensures this.f == f && this.wait == wait && this.leading == leading
      ensures timeout == None && calls == []
    {
      this.f := f;
      this.wait := wait;
      this.leading := leading;
      timeout := None;
      calls := [];
    }

    /** A call at clock reading `now`: with `leading` and no timer pending it
        reaches `fn` at once; in every case the pending timer is cancelled
        and a new one is set `wait` ahead for this call. */
    method Call(now: int, a: A)
      modifies this
      ensures calls == old(calls) + (if leading && old(timeout) == None then [Fire(now, a)] else [])
      ensures timeout == Some(Timer(now + TimerDelay(wait), a))
    {
      if leading && timeout == None {
        calls := calls + [Fire(now, a)];
      }
      timeout := Some(Timer(now + TimerDelay(wait), a));
    }

    /** The pending timer runs at clock reading `now`: it clears itself and,
        without `leading`, applies `fn` to the call that set it. */
    method FireTimer(now: int)
      requires timeout.Some? && timeout.value.due <= now
      modifies this
      ensures timeout == None
      ensures calls == old(calls) + (if leading then [] else [Fire(now, old(timeout).value.args)])
    {
      var pending := timeout.value;
      timeout := None;
      if !leading {
        calls := calls + [Fire(now, pending.args)];
      }
    }
  }

  /** Calls each less than `wait` after the previous one. */
  ghost predicate Burst<A>(calls: seq<Fire<A>>, wait: int)
  {
    forall i :: 0 < i < |calls| ==> calls[i - 1].at <= calls[i].at < calls[i - 1].at + wait
  }

  /** A burst of calls to a fresh debounced function, followed by its timer
      firing when due. No timer can fire inside the burst, since each call
      comes before the pending one is due. Without `leading`, `fn` runs once,
      `wait` after the last call and with its arguments; with `leading`, it
      runs once, at the first call, and not at the end. */
  method DebounceBurst<A, R>(f: A -> R, wait: int, leading: bool, burst: seq<Fire<A>>)
    returns (fired: seq<Fire<A>>)
    requires |burst| >= 1 && Burst(burst, wait)
    ensures !leading ==> fired == [Fire(burst[|burst| - 1].at + TimerDelay(wait), burst[|burst| - 1].args)]
    ensures leading ==> fired == [burst[0]]
  {
    var g := new Debounce(f, wait, leading);
    g.Call(burst[0].at, burst[0].args);
    for i := 1 to |burst|
      invariant g.f == f && g.wait == wait && g.leading == leading
      invariant g.timeout == Some(Timer(burst[i - 1].at + TimerDelay(wait), burst[i - 1].args))
      invariant g.calls == if leading then [burst[0]] else []
    {
      // The pending timer is not yet due, so the host cannot have run it.
      assert burst[i].at < g.timeout.value.due;
      g.Call(burst[i].at, burst[i].args);
    }
    g.FireTimer(g.timeout.value.due);
    fired := g.calls;
  }

  /** The package's debounce test: calls at 10, 50, 100, 200, 300, 350 and
      530 to a 200 ms debounce without `leading` make `fn` run once, at 730. */
  method DebounceScenario<A, R>(f: A -> R, a: A) returns (fired: seq<Fire<A>>)
    ensures fired == [Fire(730, a)]
  {
    var burst := [Fire(10, a), Fire(50, a), Fire(100, a), Fire(200, a),
                  Fire(300, a), Fire(350, a), Fire(530, a)];
    fired := DebounceBurst(f, 200, false, burst);
  }
}
