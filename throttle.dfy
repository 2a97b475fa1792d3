/** `throttle(fn, wait)`: at most one synchronous forward per window of
    `wait` milliseconds, plus one trailing forward, run by a timer, for calls
    that arrived while the window was closed. */
module Throttling {
  import opened Common

  /** How long a call at clock reading `now` must wait before it may reach
      `fn`, when the last forward ran at `last`. */
  function NextWait(wait: int, last: int, now: int): (w: int)
    requires wait > 0
    ensures 0 <= w <= wait
    ensures w == 0 <==> now - last >= wait
    ensures 0 < w && last <= now ==> now + w == last + wait
  {
    Min(wait, Max(wait - (now - last), 0))
  }

  /** Consecutive invocations in `log` are at least `wait` apart. */
  ghost predicate Spaced<A>(log: seq<Fire<A>>, wait: int)
  {
    forall i :: 0 < i < |log| ==> log[i].at - log[i - 1].at >= wait
  }

  class Throttle<A, R> {
    const f: A -> R
    const wait: int
    /** The clock reading when the wrapper was created. */
    ghost const start: int
    /** Receiver and arguments of the latest call. */
    var args: Option<A>
    /** When the pending trailing timer is due, if one is pending. */
    var timeout: Option<int>
    /** When `fn` last ran (one window before creation at first). */
    var last: int
    /** What the latest synchronous forward returned. */
    var result: Option<R>
    /** The invocations of `fn` made so far. */
    var calls: seq<Fire<A>>
    /** The latest clock reading the wrapper has seen. */
    ghost var clock: int

    ghost predicate Valid()
      reads this
    {
      && wait > 0
      && start <= clock
      && last <= clock
      && (forall i :: 0 <= i < |calls| ==> calls[i].at <= last)
      && (calls == [] ==> last == start - wait && timeout == None && result == None)
      && (calls != [] ==> last == calls[|calls| - 1].at && result.Some?)
      && (timeout.Some? ==> args.Some? && timeout.value <= last + wait)
    }

    /** The pending trailing timer is due exactly one window after the
        latest forward. It stays so while the host runs every timer by the
        time it is due. */
    ghost predicate OnSchedule()
      reads this
    {
      timeout.Some? ==> timeout.value == last + wait
    }

    constructor (f: A -> R, wait: int, now: int)
      requires wait > 0
      ensures Valid() && OnSchedule() && Spaced(calls, wait)
      ensures this.f == f && this.wait == wait && start == now && clock == now
      ensures last == now - wait && args == None && timeout == None && calls == []
    {
      this.f := f;
      this.wait := wait;
      start := now;
      clock := now;
      args := None;
      timeout := None;
      last := now - wait;
      result := None;
      calls := [];
    }

    /** A call at clock reading `now`. It reaches `fn` at once when a whole
        window has passed since the last forward (always so for the first
        call); otherwise it schedules the trailing timer unless one is
        already pending. Either way it becomes the call the trailing timer
        will use, and it returns the result of the latest synchronous
        forward. */
    method Call(now: int, a: A) returns (r: R)
      requires Valid() && clock <= now
      modifies this
      ensures Valid() && clock == now && args == Some(a)
      ensures old(calls) == [] ==> now - old(last) >= wait
      ensures calls == old(calls) + (if now - old(last) >= wait then [Fire(now, a)] else [])
      ensures last == if now - old(last) >= wait then now else old(last)
      ensures result == if now - old(last) >= wait then Some(f(a)) else old(result)
      ensures timeout == if now - old(last) >= wait || old(timeout).Some? then old(timeout)
                         else Some(old(last) + wait)
      ensures r == result.value
      ensures old(Spaced(calls, wait)) ==> Spaced(calls, wait)
      ensures old(OnSchedule()) && (old(timeout) == None || now < old(timeout).value) ==> OnSchedule()
    {
      clock := now;
      args := Some(a);
      var nextWait := NextWait(wait, last, now);
      if nextWait == 0 {
        result := Some(f(a));
        calls := calls + [Fire(now, a)];
        last := now;
      } else if timeout == None {
        timeout := Some(now + nextWait);
      }
      r := result.value;
    }

    /** The trailing timer runs at clock reading `now`: it clears itself and
        applies `fn` to the latest call's receiver and arguments. What `fn`
        returns here is lost: the wrapper's result does not change. */
    method FireTimer(now: int)
      requires Valid() && clock <= now
      requires timeout.Some? && timeout.value <= now
      modifies this
      ensures Valid() && clock == now
      ensures calls == old(calls) + [Fire(now, old(args).value)]
      ensures last == now && timeout == None && OnSchedule()
      ensures args == old(args) && result == old(result)
      ensures old(OnSchedule()) ==> now - old(last) >= wait
      ensures old(OnSchedule()) && old(Spaced(calls, wait)) ==> Spaced(calls, wait)
    {
      clock := now;
      timeout := None;
      calls := calls + [Fire(now, args.value)];
      last := now;
    }

    /** Calls that all arrive within one window, the first of them at least
        a window after the last forward and with no timer pending: the first
        reaches `fn` at once, the rest collapse into one trailing forward a
        window later with the latest call's arguments, run when the timer is
        due, and every call returns the first call's result. */
    method Window(burst: seq<Fire<A>>) returns (results: seq<R>)
      requires Valid() && timeout == None && |burst| >= 1 && clock <= burst[0].at
      requires burst[0].at - last >= wait && Chronological(burst)
      requires forall i :: 0 <= i < |burst| ==> burst[i].at < burst[0].at + wait
      modifies this
      ensures Valid() && timeout == None && clock == last
      ensures calls == old(calls) + [burst[0]] +
        if |burst| == 1 then [] else [Fire(burst[0].at + wait, burst[|burst| - 1].args)]
      ensures last == if |burst| == 1 then burst[0].at else burst[0].at + wait
      ensures result == Some(f(burst[0].args))
      ensures |results| == |burst|
      ensures forall i :: 0 <= i < |burst| ==> results[i] == f(burst[0].args)
    {
      var r := Call(burst[0].at, burst[0].args);
      results := [r];
      ghost var before := calls;
      for i := 1 to |burst|
        invariant Valid() && clock == burst[i - 1].at
        invariant calls == before && last == burst[0].at
        invariant result == Some(f(burst[0].args))
        invariant args == Some(burst[i - 1].args)
        invariant timeout == if i == 1 then None else Some(burst[0].at + wait)
        invariant |results| == i
        invariant forall j :: 0 <= j < i ==> results[j] == f(burst[0].args)
      {
        r := Call(burst[i].at, burst[i].args);
        results := results + [r];
      }
      if |burst| > 1 {
        FireTimer(burst[0].at + wait);
      }
    }

    /** A call at `now` while the window is still closed and no timer is
        pending, followed by the trailing timer it sets, run when due: `fn`
        runs with this call's arguments exactly when the window reopens, and
        the call returns the latest synchronous result. */
    method Late(now: int, a: A) returns (r: R)
      requires Valid() && timeout == None && clock <= now && now - last < wait
      modifies this
      ensures Valid() && timeout == None && clock == last
      ensures calls == old(calls) + [Fire(old(last) + wait, a)]
      ensures last == old(last) + wait && result == old(result)
      ensures r == result.value
    {
      r := Call(now, a);
      FireTimer(last + wait);
    }
  }

  /** Calls that all arrive within one window of the first call to a fresh
      throttle: the first reaches `fn` at once, the rest collapse into one
      trailing forward a window later with the latest call's arguments, and
      every call returns the first call's result. */
  method ThrottleWindow<A, R>(f: A -> R, wait: int, t0: int, burst: seq<Fire<A>>)
    returns (fired: seq<Fire<A>>, results: seq<R>)
    requires wait > 0 && |burst| >= 1 && t0 <= burst[0].at
    requires Chronological(burst)
    requires forall i :: 0 <= i < |burst| ==> burst[i].at < burst[0].at + wait
    ensures fired == [burst[0]] + if |burst| == 1 then [] else [Fire(burst[0].at + wait, burst[|burst| - 1].args)]
    ensures |results| == |burst|
    ensures forall i :: 0 <= i < |burst| ==> results[i] == f(burst[0].args)
  {
    var g := new Throttle(f, wait, t0);
    results := g.Window(burst);
    fired := g.calls;
  }

  /** The schedule of the package's throttle test: a 100 ms throttle created
      at 0, called three times at 0 and then at 190, 210 and 420, with the
      host running each timer when it is due. `fn` runs at 0, 100, 200, 300
      and 420, each time with the latest call's arguments (ScenarioCounts
      turns this into the counts the test checks). */
  method ThrottleScenario<A, R>(f: A -> R, a0: A, a1: A, a2: A, a3: A, a4: A, a5: A)
    returns (fired: seq<Fire<A>>)
    ensures fired == [Fire(0, a0), Fire(100, a2), Fire(200, a3), Fire(300, a4), Fire(420, a5)]
  {
    var g := new Throttle(f, 100, 0);
    var results := g.Window([Fire(0, a0), Fire(0, a1), Fire(0, a2)]);
    var r := g.Late(190, a3);
    r := g.Late(210, a4);
    r := g.Call(420, a5);
    fired := g.calls;
  }

  /** Forwards at 0, 100, 200, 300 and 420, counted at the throttle test's
      six check points 10, 110, 210, 310, 410 and 430, give 1, 2, 3, 4, 4, 5. */
  lemma ScenarioCounts<A>(log: seq<Fire<A>>)
    requires Times(log) == [0, 100, 200, 300, 420]
    ensures FiredBy(log, 10) == 1 && FiredBy(log, 110) == 2 && FiredBy(log, 210) == 3
    ensures FiredBy(log, 310) == 4 && FiredBy(log, 410) == 4 && FiredBy(log, 430) == 5
  {
    FiredByChronological(log, 10, 1);
    FiredByChronological(log, 110, 2);
    FiredByChronological(log, 210, 3);
    FiredByChronological(log, 310, 4);
    FiredByChronological(log, 410, 4);
    FiredByChronological(log, 430, 5);
  }
}
