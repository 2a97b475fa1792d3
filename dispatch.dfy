/** The timed dispatchers `delay`, `defer` and `repeat`: each call of the
    wrapper sets host timers of its own, and `fn` runs only from them. The
    wrappers keep no state of their own; the model keeps the host timers
    each wrapper has set, keyed by the order of the call that set them. */
module Dispatch {
  import opened Common

  /** `delay(fn, delay)`: every call sets one timer, `delay` ahead, that
      applies `fn` to that call's receiver and arguments. */
  class Delay<A, R> {
    const f: A -> R
    const delay: int
    /** The timers set by calls and not yet run, by call number. */
    var timers: map<nat, Timer<A>>
    /** How many calls the wrapper has had: the number the next call gets. */
    var count: nat
    /** Every call of the wrapper so far. */
    ghost var received: seq<Fire<A>>
    /** The invocations of `fn` made so far. */
    var calls: seq<Fire<A>>
    /** For each invocation of `fn`, the number of the call that caused it. */
    ghost var origin: seq<nat>

    /** Every call is either waiting on its timer or has run `fn` exactly
        once, no earlier than `delay` after the call, with its arguments. */
    ghost predicate Valid()
      reads this
    {
      && count == |received|
      && (forall h :: h in timers ==>
            h < |received| && timers[h] == Timer(received[h].at + TimerDelay(delay), received[h].args))
      && |origin| == |calls|
      && (forall j :: 0 <= j < |calls| ==>
            && origin[j] < |received| && origin[j] !in timers
            && calls[j].args == received[origin[j]].args
            && calls[j].at >= received[origin[j]].at + TimerDelay(delay))
      && (forall j, k :: 0 <= j < k < |origin| ==> origin[j] != origin[k])
      && (forall h :: 0 <= h < |received| ==> h in timers || h in origin)
    }

    constructor (f: A -> R, delay: int)
      ensures Valid() && this.f == f && this.delay == delay
      ensures timers == map[] && received == [] && calls == []
    {
      this.f := f;
      this.delay := delay;
      timers := map[];
      count := 0;
      received := [];
      calls := [];
      origin := [];
    }

    /** A call at clock reading `now`: nothing runs now; one timer is set,
        due `delay` later, for this call. */
    method Call(now: int, a: A)
      requires Valid()
      modifies this
      ensures Valid() && received == old(received) + [Fire(now, a)]
      ensures calls == old(calls)
      ensures timers == old(timers)[|old(received)| := Timer(now + TimerDelay(delay), a)]
    {
      timers := timers[count := Timer(now + TimerDelay(delay), a)];
      count := count + 1;
      received := received + [Fire(now, a)];
    }

    /** Timer `h` runs at clock reading `now`: `fn` is applied to the
        receiver and arguments of the call that set it. */
    method FireTimer(h: nat, now: int)
      requires Valid() && h in timers && timers[h].due <= now
      modifies this
      ensures Valid() && received == old(received)
      ensures timers == old(timers) - {h}
      ensures calls == old(calls) + [Fire(now, old(timers)[h].args)]
    {
      var t := timers[h];
      timers := timers - {h};
      calls := calls + [Fire(now, t.args)];
      origin := origin + [h];
    }
  }

  /** `defer(fn)` is `delay(fn, 0)`. */
  method Defer<A, R>(f: A -> R) returns (g: Delay<A, R>)
    ensures fresh(g) && g.Valid() && g.f == f && g.delay == 0
    ensures g.timers == map[] && g.received == [] && g.calls == []
  {
    g := new Delay(f, 0);
  }

  /** The package's delay test: a 100 ms delay called at 110 has not run
      `fn` when the call returns, and runs it once, at 210, when the timer
      is due. */
  method DelayScenario<A, R>(f: A -> R, a: A) returns (atCall: seq<Fire<A>>, fired: seq<Fire<A>>)
    ensures atCall == []
    ensures fired == [Fire(210, a)]
  {
    var g := new Delay(f, 100);
    g.Call(110, a);
    atCall := g.calls;
    g.FireTimer(0, 210);
    fired := g.calls;
  }

  /** The package's defer test: a deferred call has not run `fn` when it
      returns, and has run it once the zero-delay timer has run. */
  method DeferScenario<A, R>(f: A -> R, a: A) returns (atCall: seq<Fire<A>>, fired: seq<Fire<A>>)
    ensures atCall == []
    ensures fired == [Fire(0, a)]
  {
    var g := Defer(f);
    g.Call(0, a);
    atCall := g.calls;
    g.FireTimer(0, 0);
    fired := g.calls;
  }

  /** How many times a `repeat` series runs `fn`: its tick count is
      incremented and compared with `times` before `fn` runs, so the tick
      that stops the series still runs `fn`, and a series always runs `fn`
      at least once. */
  function Ticks(times: int): (n: nat)
    ensures n >= 1 && n >= times
    ensures times >= 1 ==> n == times
    ensures times < 1 ==> n == 1
  {
    if times >= 1 then times else 1
  }

  /** The clock reading `k` periods of `d` after `s`. */
  function Later(s: int, d: nat, k: nat): int
  {
    if k == 0 then s else Later(s, d, k - 1) + d
  }

  /** `k` periods of `d` after `s` is `s + k * d`. */
  lemma {:induction false} LaterIsLinear(s: int, d: nat, k: nat)
    ensures Later(s, d, k) == s + k * d
  {
    if k > 0 {
      LaterIsLinear(s, d, k - 1);
      assert (k - 1) * d + d == k * d;
    }
  }

  /** `k` invocations with receiver and arguments `a`, one every `d` from `s` on. */
  function Periodic<A>(s: int, d: nat, k: nat, a: A): (log: seq<Fire<A>>)
    ensures |log| == k
  {
    if k == 0 then [] else Periodic(s, d, k - 1, a) + [Fire(Later(s, d, k - 1), a)]
  }

  /** The j-th invocation of a periodic run starting at `s` is at `s + j * d`. */
  lemma {:induction false} PeriodicAt<A>(s: int, d: nat, k: nat, a: A, j: nat)
    requires j < k
    ensures Periodic(s, d, k, a)[j] == Fire(s + j * d, a)
  {
    if j == k - 1 {
      LaterIsLinear(s, d, j);
    } else {
      PeriodicAt(s, d, k - 1, a, j);
    }
  }

  /** A periodic run is its first invocation followed by a periodic run
      starting one period later. */
  lemma {:induction false} PeriodicCons<A>(s: int, d: nat, n: nat, a: A)
    ensures Periodic(s, d, n + 1, a) == [Fire(s, a)] + Periodic(s + d, d, n, a)
  {
    if n > 0 {
      PeriodicCons(s, d, n - 1, a);
      LaterIsLinear(s, d, n);
      LaterIsLinear(s + d, d, n - 1);
      assert (n - 1) * d + d == n * d;
    }
  }

  /** How many entries of `origin` are `h`: how many times the series of
      call `h` has run `fn`. */
  ghost function Runs(origin: seq<nat>, h: nat): nat
  {
    if origin == [] then 0
    else Runs(origin[..|origin| - 1], h) + (if origin[|origin| - 1] == h then 1 else 0)
  }

  /** Appending `x` adds one run to series `x` and none to any other. */
  lemma RunsAppend(origin: seq<nat>, x: nat)
    ensures forall h :: Runs(origin + [x], h) == Runs(origin, h) + (if x == h then 1 else 0)
  {
    assert (origin + [x])[..|origin|] == origin;
  }

  /** A series whose call number is not in `origin` has not run. */
  lemma {:induction false} RunsAbsent(origin: seq<nat>, h: nat)
    requires forall j :: 0 <= j < |origin| ==> origin[j] != h
    ensures Runs(origin, h) == 0
  {
    if origin != [] {
      RunsAbsent(origin[..|origin| - 1], h);
    }
  }

  /** One running `repeat` series: the call's receiver and arguments, how
      many ticks it has had and when its next tick is due. */
  datatype Series<A> = Series(args: A, count: int, due: int)

  /** `repeat(fn, times, wait)`: every call starts an interval of its own,
      with its own tick count, that runs `fn` every `wait` until it has run
      it `times` times. */
  class Repeat<A, R> {
    const f: A -> R
    const times: int
    const wait: int
    /** The intervals still running, by call number. */
    var series: map<nat, Series<A>>
    /** How many calls the wrapper has had: the number the next call gets. */
    var started: nat
    /** Every call of the wrapper so far. */
    ghost var received: seq<Fire<A>>
    /** The invocations of `fn` made so far. */
    var calls: seq<Fire<A>>
    /** For each invocation of `fn`, the number of the call whose series ran it. */
    ghost var origin: seq<nat>

    /** Each series has run `fn` as often as its tick count says, with its
        call's arguments; a series that has stopped has run it `Ticks(times)`
        times. */
    ghost predicate Valid()
      reads this
    {
      && started == |received|
      && |origin| == |calls|
      && (forall j :: 0 <= j < |calls| ==>
            origin[j] < |received| && calls[j].args == received[origin[j]].args)
      && (forall h :: h in series ==>
            && h < |received| && series[h].args == received[h].args
            && 0 <= series[h].count < Ticks(times)
            && Runs(origin, h) == series[h].count)
      && (forall h :: 0 <= h < |received| && h !in series ==> Runs(origin, h) == Ticks(times))
    }

    constructor (f: A -> R, times: int, wait: int)
      ensures Valid() && this.f == f && this.times == times && this.wait == wait
      ensures series == map[] && received == [] && calls == []
    {
      this.f := f;
      this.times := times;
      this.wait := wait;
      series := map[];
      started := 0;
      received := [];
      calls := [];
      origin := [];
    }

    /** A call at clock reading `now`: nothing runs now; a new series starts,
        with no ticks yet and its first tick due `wait` later. */
    method Call(now: int, a: A)
      requires Valid()
      modifies this
      ensures Valid() && received == old(received) + [Fire(now, a)]
      ensures calls == old(calls)
      ensures series == old(series)[|old(received)| := Series(a, 0, now + TimerDelay(wait))]
    {
      RunsAbsent(origin, started);
      series := series[started := Series(a, 0, now + TimerDelay(wait))];
      started := started + 1;
      received := received + [Fire(now, a)];
    }

    /** Series `h` ticks at clock reading `now`: its count goes up, the
        series stops if the count has reached `times`, and then `fn` runs
        with the series' receiver and arguments. */
    method Tick(h: nat, now: int)
      requires Valid() && h in series && series[h].due <= now
      modifies this
      ensures Valid() && received == old(received)
      ensures calls == old(calls) + [Fire(now, old(series)[h].args)]
      ensures var s := old(series)[h];
        series == if s.count + 1 >= times then old(series) - {h}
                  else old(series)[h := s.(count := s.count + 1, due := now + TimerDelay(wait))]
    {
      var s := series[h];
      var count := s.count + 1;
      if count >= times {
        series := series - {h};
      } else {
        series := series[h := s.(count := count, due := now + TimerDelay(wait))];
      }
      calls := calls + [Fire(now, s.args)];
      RunsAppend(origin, h);
      origin := origin + [h];
    }

    /** Runs series `h` tick by tick, each tick when it is due, until it
        stops: its remaining ticks run `fn` one period apart from the one
        now due, with its call's arguments, and every other series is left
        as it was. */
    method Drain(h: nat)
      requires Valid() && h in series
      modifies this
      ensures Valid() && received == old(received) && series == old(series) - {h}
      ensures var s := old(series)[h];
        calls == old(calls) + Periodic(s.due, TimerDelay(wait), Ticks(times) - s.count, s.args)
      decreases Ticks(times) - series[h].count
    {
      var s := series[h];
      ghost var others := series - {h};
      Tick(h, s.due);
      if h in series {
        assert series - {h} == others;
        Drain(h);
        PeriodicCons(s.due, TimerDelay(wait), Ticks(times) - s.count - 1, s.args);
      }
    }

    /** A call at clock reading `now`, followed by every tick of the series
        it starts, whatever other series are running: the new series runs
        `fn` `Ticks(times)` times, one period apart from `wait` after the
        call, and leaves the other series as they were. */
    method CallThrough(now: int, a: A)
      requires Valid()
      modifies this
      ensures Valid() && series == old(series) && received == old(received) + [Fire(now, a)]
      ensures calls == old(calls) + Periodic(now + TimerDelay(wait), TimerDelay(wait), Ticks(times), a)
    {
      Call(now, a);
      Drain(started - 1);
    }
  }

  /** One call, at `t0`, of a fresh `repeat(fn, times, wait)` whose ticks the
      host runs when due: `fn` runs `times` times (once if `times` < 1), at
      t0 + wait, t0 + 2 * wait, ..., each time with the call's arguments. */
  method RepeatSeries<A, R>(f: A -> R, times: int, wait: int, t0: int, a: A) returns (fired: seq<Fire<A>>)
    ensures |fired| == Ticks(times)
    ensures forall k :: 0 <= k < |fired| ==> fired[k] == Fire(t0 + (k + 1) * TimerDelay(wait), a)
  {
    var g := new Repeat(f, times, wait);
    g.CallThrough(t0, a);
    fired := g.calls;
    forall k | 0 <= k < |fired|
      ensures fired[k] == Fire(t0 + (k + 1) * TimerDelay(wait), a)
    {
      PeriodicAt(t0 + TimerDelay(wait), TimerDelay(wait), Ticks(times), a, k);
      assert TimerDelay(wait) + k * TimerDelay(wait) == (k + 1) * TimerDelay(wait);
    }
  }

  /** The package's repeat test: a wrapper that runs `fn` 5 times every
      200 ms, called at 0 and again at 1200, runs `fn` every 200 ms from 200
      to 1000 with the first call's arguments and from 1400 to 2200 with the
      second's: the two series do not share a count (RepeatCounts turns this
      into the counts the test checks). */
  method RepeatScenario<A, R>(f: A -> R, a: A, b: A) returns (fired: seq<Fire<A>>)
    ensures fired == Periodic(200, 200, 5, a) + Periodic(1400, 200, 5, b)
  {
    var g := new Repeat(f, 5, 200);
    g.CallThrough(0, a);
    g.CallThrough(1200, b);
    fired := g.calls;
  }

  /** Two overlapping series of a wrapper that runs `fn` twice every
      200 ms, called at 0 and at 100: their ticks interleave, each series
      keeps its own count and arguments, and both stop after two runs. */
  method RepeatOverlap<A, R>(f: A -> R, a: A, b: A) returns (fired: seq<Fire<A>>)
    ensures fired == [Fire(200, a), Fire(300, b), Fire(400, a), Fire(500, b)]
  {
    var g := new Repeat(f, 2, 200);
    g.Call(0, a);
    g.Call(100, b);
    g.Tick(0, 200);
    g.Tick(1, 300);
    assert g.calls == [Fire(200, a), Fire(300, b)];
    assert g.series == map[0 := Series(a, 1, 400), 1 := Series(b, 1, 500)];
    FinishOverlap(g, a, b);
    fired := g.calls;
  }

  /** The second half of RepeatOverlap: both series tick for the last time. */
  method FinishOverlap<A, R>(g: Repeat<A, R>, a: A, b: A)
    requires g.Valid() && g.times == 2 && g.wait == 200
    requires g.series == map[0 := Series(a, 1, 400), 1 := Series(b, 1, 500)]
    modifies g
    ensures g.Valid() && g.series == map[]
    ensures g.calls == old(g.calls) + [Fire(400, a), Fire(500, b)]
  {
    g.Tick(0, 400);
    assert g.series == map[1 := Series(b, 1, 500)];
    g.Tick(1, 500);
  }

  /** Two five-tick series every 200 ms, from 200 and from 1400, have run 5
      times by 1200 and 10 times by 2400, the repeat test's two checks. */
  lemma RepeatCounts<A>(log: seq<Fire<A>>, a: A, b: A)
    requires log == Periodic(200, 200, 5, a) + Periodic(1400, 200, 5, b)
    ensures FiredBy(log, 1200) == 5 && FiredBy(log, 2400) == 10
  {
    forall j | 0 <= j < 10
      ensures log[j].at == if j < 5 then 200 + j * 200 else 1400 + (j - 5) * 200
    {
      if j < 5 {
        PeriodicAt(200, 200, 5, a, j);
      } else {
        PeriodicAt(1400, 200, 5, b, j - 5);
      }
    }
    FiredByChronological(log, 1200, 5);
    FiredByChronological(log, 2400, 10);
  }
}
