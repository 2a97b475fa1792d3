# wrappers — a Dafny model of the function-wrapper combinators

This project models the `wrappers` package. Each combinator takes a function
`fn` and returns a closure that decides when `fn` runs, with what, and what
the call returns. Both revisions of the package are covered:

- `lib/wrappers.js`: `once`, `allow`, `after`, `throttle`, `repeat`, `delay`,
  `defer`, `debounce`, `trace`, `intercept`, `memoize` and `wrap`;
- the earlier root `wrappers.js`: `memoize`, `once`, `trace`, `traceBy` and
  `wrap`.

`fn` is a pure function `f: A -> R`. The receiver and the arguments of a
call are folded into one value of type `A`. A closure's private state
becomes a class with fields, and the closure body becomes its `Call` method.
Every class keeps `calls`, the invocations of `fn` made so far, because
running `fn` is the only thing the wrapper does that can be observed.

Time is an explicit clock reading `now`, passed to every call. A host timer
is a pending deadline, and its callback is a `FireTimer` (or `Tick`) method
that may run once the deadline has passed. Scenario methods replay the
package's tests (`test/basic.js`) on fresh wrappers and state the resulting
invocation logs exactly. Lemmas turn those logs into the counts the tests
check.

Modules:

- `Common` (common.dfy): shared datatypes and host timer delays.
- `Limiters` (limiters.dfy): `once`, `allow` and `after`.
- `Throttling` (throttle.dfy): `throttle`.
- `Debouncing` (debounce.dfy): `debounce`.
- `Dispatch` (dispatch.dfy): `delay`, `defer` and `repeat`.
- `Memoization` (memoize.dfy): the later revision's `memoize`.
- `Legacy` (legacy.dfy): the earlier revision's `memoize`.
- `Forwarding` (forwarding.dfy): `trace`, `intercept` and `wrap` of both
  revisions, and `traceBy`.

The earlier revision's `once` and `wrap` are the same code as the later
ones. They are modelled by the same members, `Limiters.OnceRun` and `Forwarding.WrapperArgs`.

## Model

| member | source | states |
|---|---|---|
| Limiters.Once.Call | lib/wrappers.js:14-20 | `fn` runs only on the first call, the flag stays set, and every call returns `fn` of the first call's arguments |
| Limiters.OnceRun | lib/wrappers.js:12-21 | over any sequence of calls, `fn` is invoked exactly once, on the first call, and every call returns the first call's result; the earlier revision's `once` (wrappers.js:21-30) is the same code |
| Limiters.Allow.Call | lib/wrappers.js:24-29 | the k-th call reaches `fn` iff k <= times, and then returns `fn`'s result; otherwise it returns `undefined`; a counter starting at or above 0 never drops below 0 |
| Limiters.AllowRun | lib/wrappers.js:23-30 | `fn` receives exactly the first `times` calls (none when `times` <= 0), and call i returns `fn`'s result iff i < times |
| Limiters.After.Call | lib/wrappers.js:33-38 | every call decrements the counter, and the k-th call reaches `fn` iff k >= times |
| Limiters.AfterRun | lib/wrappers.js:32-39 | `fn` receives exactly the calls from the `times`-th on, and call i returns `fn`'s result iff i + 1 >= times |
| Throttling.NextWait | lib/wrappers.js:49 | the wait lies in [0, wait]; it is 0 iff a whole window has passed since the last forward; otherwise the call's wait ends exactly one window after the last forward |
| Throttling.Throttle.constructor | lib/wrappers.js:43-44 | the last forward is set one window before creation, with no timer pending |
| Throttling.Throttle.Call | lib/wrappers.js:46-61 | every call stores its arguments; it reaches `fn` iff a window has passed since the last forward (always for the first call), which also sets `last`; otherwise it schedules the trailing timer only when none is pending; it returns the latest synchronous result; forwards stay a window apart |
| Throttling.Throttle.FireTimer | lib/wrappers.js:54-58 | the trailing timer clears itself and runs `fn` on the latest call's arguments, setting `last`; the wrapper's result is unchanged; when the timer runs on time, forwards stay a window apart |
| Throttling.Throttle.Window | lib/wrappers.js:46-61 | calls within one window collapse into the first call's forward plus one trailing forward a window later with the last call's arguments, and all return the first result |
| Throttling.Throttle.Late | lib/wrappers.js:53-58 | a call while the window is closed runs `fn` with its arguments exactly when the window reopens |
| Throttling.ThrottleWindow | lib/wrappers.js:42-62 | on a fresh throttle, a burst within one window forwards the first call at once and the last call's arguments one window later, and every call returns the first result |
| Throttling.ThrottleScenario | test/basic.js:78-84 | a 100 ms throttle called at 0, 0, 0, 190, 210 and 420 runs `fn` at 0, 100, 200, 300 and 420, each time with the latest call's arguments |
| Throttling.ScenarioCounts | test/basic.js:95-100 | those forwards make the counts 1, 2, 3, 4, 4, 5 at 10, 110, 210, 310, 410 and 430 ms |
| Debouncing.Debounce.Call | lib/wrappers.js:97-110 | with `leading` and no pending timer the call runs `fn` at once; in every case the pending timer is replaced by one a full `wait` ahead for this call |
| Debouncing.Debounce.FireTimer | lib/wrappers.js:104-109 | the timer clears itself and runs `fn` on its call's arguments only without `leading` |
| Debouncing.DebounceBurst | lib/wrappers.js:95-111 | calls spaced less than `wait` apart run `fn` once: without `leading`, `wait` after the last call with its arguments; with `leading`, at the first call and never from the timer |
| Debouncing.DebounceScenario | test/basic.js:168-187 | a 200 ms debounce called at 10, 50, 100, 200, 300, 350 and 530 runs `fn` once, at 730 |
| Dispatch.Delay.Call | lib/wrappers.js:81-87 | a call runs nothing at once and sets one timer, `delay` ahead, for its own arguments |
| Dispatch.Delay.FireTimer | lib/wrappers.js:84-86 | a due timer runs `fn` once on the arguments of the call that set it; every call is pending or has run `fn` exactly once, no earlier than `delay` after it |
| Dispatch.Defer | lib/wrappers.js:91-93 | `defer` is `delay` with a delay of 0 |
| Dispatch.DelayScenario | test/basic.js:107-118 | a 100 ms delay called at 110 has not run `fn` when the call returns and runs it once, at 210 |
| Dispatch.DeferScenario | test/basic.js:122-131 | a deferred call has not run `fn` when it returns, and has run it once its zero-delay timer has run |
| Dispatch.Ticks | lib/wrappers.js:71-75 | a series runs `fn` `times` times when `times` >= 1, and exactly once otherwise, because the stop check precedes the forward |
| Dispatch.Repeat.Call | lib/wrappers.js:65-77 | each call starts its own series, with its own count at 0 and its first tick `wait` ahead; nothing runs at once |
| Dispatch.Repeat.Tick | lib/wrappers.js:70-76 | a tick increments its series' count, stops the series when the count reaches `times`, and still runs `fn` on the series' arguments; a stopped series has run `fn` exactly `Ticks(times)` times |
| Dispatch.Repeat.Drain | lib/wrappers.js:70-76 | a series left to tick runs `fn` once per period, with its call's arguments, until it has run `Ticks(times)` times, and then stops; every other running series is left as it was |
| Dispatch.Repeat.CallThrough | lib/wrappers.js:64-78 | a call followed by all its series' ticks runs `fn` `Ticks(times)` times, one period apart from `wait` after the call, whatever other series are running, and leaves those series as they were |
| Dispatch.RepeatSeries | lib/wrappers.js:64-78 | one call at t0 runs `fn` at t0 + k * wait for k = 1..times, with the call's arguments |
| Dispatch.RepeatScenario | test/basic.js:137-143 | a 5-times, 200 ms repeat called at 0 and at 1200 runs `fn` every 200 ms from 200 to 1000 and from 1400 to 2200, and the series do not share a count |
| Dispatch.RepeatOverlap | lib/wrappers.js:64-78 | two calls 100 ms apart on a twice-every-200-ms repeat give interleaved series, each with its own count and arguments: `fn` runs at 200 and 400 with the first call's arguments and at 300 and 500 with the second's |
| Dispatch.RepeatCounts | test/basic.js:140-148 | those runs make the counts 5 at 1200 ms and 10 at 2400 ms |
| Memoization.FirstWithIsEarliest | lib/wrappers.js:135-139 | the entry for a key comes from the first call with that key |
| Memoization.FirstWithStable | lib/wrappers.js:136-138 | later calls never change an entry: nothing is overwritten or evicted |
| Memoization.FirstsOncePerKey | lib/wrappers.js:136-138 | `fn` runs at most once per key, whatever it returned |
| Memoization.FirstsCoverKeys | lib/wrappers.js:136-138 | every key that was called has had `fn` run once for it |
| Memoization.CacheHoldsFirsts | lib/wrappers.js:131-141 | the cache holds a key iff some call had it, with `fn`'s result for the first such call |
| Memoization.Memoize.Call | lib/wrappers.js:134-140 | a call returns the stored entry for its key; `fn` runs and is stored only when the key is absent; a repeated key gets `fn` of the key's first call even when `fn` would now give another value |
| Memoization.MemoizeRun | lib/wrappers.js:131-141 | over any calls, `fn` receives exactly the first call of each key, and calls with equal keys return equal results |
| Legacy.TruthyMemoize.Call | wrappers.js:12-18 | a truthy entry under the key is returned as it is; a missing or falsy entry makes `fn` run and overwrite it; a falsy answer is always fresh |
| Legacy.TruthyMemoizeRun | wrappers.js:9-19 | `fn` receives exactly the calls that miss, and every call returns a fresh result or a truthy cached one |
| Legacy.FalsyAlwaysRecomputed | wrappers.js:14-16 | when `fn` returns only falsy results, every call reaches `fn` |
| Legacy.TruthySettles | wrappers.js:14-17 | once a key holds a truthy result, its entry never changes and no later call with that key reaches `fn` |
| Legacy.TruthyAgreesWithMemoize | wrappers.js:9-19 | when every result is truthy, the earlier revision has the later revision's cache and runs `fn` for the same calls |
| Legacy.FalsyCalledTwice | wrappers.js:14 | two calls with the same arguments and a falsy result run `fn` twice, where the later revision runs it once |
| Forwarding.Trace | lib/wrappers.js:114-121 | `fn` runs exactly once, on the call's arguments; then `log` receives one line, the arguments joined by ", " in parentheses, " -> " and the result as a string; `fn`'s result is returned |
| Forwarding.TraceLineParts | lib/wrappers.js:118 | the line opens with the argument list, whose closing parenthesis is the line's first one when no argument contains one, and ends with the shown result |
| Forwarding.TraceTest | test/basic.js:190-205 | `fn` returning "hi" for 1 and "woo" makes `log` receive "(1, woo) -> hi" |
| Forwarding.OldTrace | wrappers.js:34-41 | the earlier `trace` runs `fn` once, then passes `log` the prefix ending in " -> " and, separately, the result; `fn`'s result is returned |
| Forwarding.TraceBy | wrappers.js:43-49 | `fn` runs once, then `via` receives the argument array and the result; `fn`'s result is returned |
| Forwarding.Intercept | lib/wrappers.js:123-128 | the interceptor runs first on the same arguments, its result is dropped, then `fn` runs once and its result is returned |
| Forwarding.WrapperArgs | lib/wrappers.js:143-147 | the wrapper receives `fn` first, then the call's arguments in order; the earlier revision's `wrap` (wrappers.js:53-57) is the same code |
| Forwarding.WrapPassOnTransparent | test/basic.js:151-166 | wrapping with a wrapper that passes its arguments on gives `fn` exactly the call's arguments and returns `fn`'s result |

## Left out

- Host timers are deadlines that a `FireTimer`/`Tick` method may run once due. The event loop, timer jitter, the ordering of timers due at the same instant, and a clock that goes backwards are not modelled.
- Common.TimerDelay: the model takes a timer set for `ms` to wait `max(ms, 0)`. This is an assumption about the host, not code of the package. Node waits at least 1 ms (a delay below 1 ms, `defer`'s 0 included, becomes 1 ms), so for such delays the model's timers are due up to 1 ms earlier than Node's.
- Throttling.Throttle.Call: requires `wait` > 0. With `wait` == 0, `nextWait` is always 0, so every call forwards synchronously and sets `last`. With `wait` < 0, `nextWait` is negative, which JavaScript treats as truthy, so no call forwards synchronously and every forward goes through the trailing timer. Neither case is modelled.
- Throttling.Throttle.FireTimer: a trailing timer run later than it was due still sets `last` to the time it ran, and `OnSchedule` holds again afterwards. The spacing `Spaced` is lost only when a call forwards synchronously while an overdue timer is still pending: that forward and the late timer's forward can then be less than a window apart. `Call` states that it keeps `OnSchedule` only when no timer is overdue.
- `allow` and `after` with non-integer counts, and JavaScript coercion of `times`, are not modelled: counts are integers.
- Dispatch.Ticks: `repeat`'s `times` and every millisecond value are integers here. In JavaScript they are numbers, and `count >= times` with a fractional `times` stops a series after the ceiling of `times` runs (3 runs for 2.5). Fractional delays and coercion of non-numbers are not modelled either.
- `fn` runs in zero time. The throttle's `last` is set from `Date.now()` read again after `fn` returns, so in the package `last` is when `fn` finished. The model sets it to the clock reading of the call or of the timer, as if `fn` took no time.
- Exceptions thrown by `fn`, the hasher, the logger or the interceptor, and reentrant calls from `fn` into its own wrapper, are not modelled. The code has no handling for either.
- `fn` is pure. A stateful `fn` (the memoize test's `onceReturn`) is represented by its invocation log, not by its own state.
- JavaScript argument plumbing is folded into one value per call: `this`, `arguments`, `apply` and `Array.prototype.slice`.
- String conversion is left to parameters. The arguments of `trace` are given already converted to strings. The conversion of the result is the parameter `show`.
- Memo keys are a generic type with equality. JavaScript's conversion of keys to property names (so `1` and `'1'` collide) is not modelled.
- Memoization.Memoize.Call: the default hasher `id` (the first argument) is one instance of the `hash` parameter and is not singled out.
- The earlier revision's default hasher `$.id` is never defined in `wrappers.js`, so that path throws. Legacy.TruthyMemoize is modelled only with an explicit hasher.
- `console.log`, the default logger of both `trace`s, is I/O. Logging is modelled as `Logged`/`LoggedWith` events.
- The commented-out `guard`/`either` block of `wrappers.js` is dead code.
- `intercept`'s interceptor result is dropped by the source. The model records only that the interceptor ran, and on which arguments.
- Forwarding.Wrap: the wrapper is any partial function of its arguments. What a particular wrapper does is outside `wrap`; only the pass-on wrapper of the tests is analysed.

## Findings

| source | as written | input that shows it | evidently intended | confidence | as-written member | corrected member |
|---|---|---|---|---|---|---|
| wrappers.js:14 | the cache is consulted with `!memo[key]`, so a stored falsy result counts as a miss and `fn` runs again | `memoize(fn, h)` with `fn(x)` falsy (`0`, `''`, `null`, `false`, `undefined`), called twice with `x`: `fn` runs twice | test key presence (`key in memo`), as lib/wrappers.js:136 does, so `fn` runs once per key whatever it returned | high (not executed) | Legacy.FalsyCalledTwice | Memoization.FirstsOncePerKey |
