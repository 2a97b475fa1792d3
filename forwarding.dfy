/** The forwarding wrappers `trace`, `intercept` and `wrap` of both
    revisions, and the earlier revision's `traceBy`. None keeps state: a call
    of the wrapper is one invocation of `fn` with the call's arguments,
    together with what the wrapper does around it. The outcome of a call is
    the value it returns and what it does, in order. */
module Forwarding {

  /** One observable step of a wrapper call. */
  datatype Event<A, R> =
    | Intercepted(args: A)              // the interceptor ran on `args`
    | Invoked(args: A)                  // `fn` ran on `args`
    | Logged(line: string)              // the logger received one string
    | LoggedWith(prefix: string, result: R)  // the logger received a string and the result
    | Observed(args: A, result: R)      // `via` received the arguments and the result

  /** What a wrapper call returns and the steps it took, in order. */
  datatype Outcome<A, R> = Outcome(value: R, events: seq<Event<A, R>>)

  /** The arguments `fn` was invoked on, in order. */
  function Invocations<A, R>(events: seq<Event<A, R>>): seq<A>
  {
    if events == [] then []
    else (if events[0].Invoked? then [events[0].args] else []) + Invocations(events[1..])
  }

  /** The invocations among two steps. */
  lemma InvocationsOfTwo<A, R>(e0: Event<A, R>, e1: Event<A, R>)
    ensures Invocations([e0, e1]) ==
      (if e0.Invoked? then [e0.args] else []) + (if e1.Invoked? then [e1.args] else [])
  {
    assert [e0, e1][1..] == [e1];
    assert [e1][1..] == [];
    assert Invocations([e1]) == (if e1.Invoked? then [e1.args] else []) + Invocations([e1][1..]);
    assert Invocations<A, R>([]) == [];
  }

  /** The wrapper returns what `fn` returned for the call's arguments, and
      invoked `fn` exactly once, on those arguments. */
  ghost predicate Forwards<A, R>(o: Outcome<A, R>, f: A -> R, args: A)
  {
    o.value == f(args) && Invocations(o.events) == [args]
  }

  /** Array.prototype.join over strings: the parts with `sep` between
      consecutive ones. */
  function Join(parts: seq<string>, sep: string): string
  {
    if |parts| == 0 then ""
    else if |parts| == 1 then parts[0]
    else Join(parts[..|parts| - 1], sep) + sep + parts[|parts| - 1]
  }

  /** Every character of a join comes from a part or from a separator: a
      join of parts and a separator that all avoid a character avoids it. */
  lemma {:induction false} JoinAvoids(parts: seq<string>, sep: string, c: char)
    requires c !in sep
    requires forall i :: 0 <= i < |parts| ==> c !in parts[i]
    ensures c !in Join(parts, sep)
  {
    if |parts| > 1 {
      var init := parts[..|parts| - 1];
      assert forall i :: 0 <= i < |init| ==> init[i] == parts[i];
      JoinAvoids(init, sep, c);
    }
  }

  /** The line the later revision's `trace` logs: the arguments joined by
      ", " in parentheses, then " -> " and the result as a string. */
  function TraceLine(args: seq<string>, shown: string): string
  {
    "(" + Join(args, ", ") + ") -> " + shown
  }

  /** The later revision's `trace(fn, log)`: `fn` runs, then `log` receives
      one line built from the arguments and the result, shown by `show`
      (JavaScript's conversion of the result to a string); the result is
      returned. */
  function Trace<R>(f: seq<string> -> R, show: R -> string, args: seq<string>): (o: Outcome<seq<string>, R>)
    ensures Forwards(o, f, args)
    ensures |o.events| == 2 && o.events[0] == Invoked(args)
    ensures o.events[1] == Logged(TraceLine(args, show(o.value)))
  {
    var events := [Invoked(args), Logged(TraceLine(args, show(f(args))))];
    InvocationsOfTwo(events[0], events[1]);
    Outcome(f(args), events)
  }

  /** The logged line starts with the parenthesised arguments and ends with
      the shown result; when no argument contains a ')', the first ')' of
      the line closes the argument list, whatever the shown result holds. */
  lemma TraceLineParts(args: seq<string>, shown: string)
    requires forall i :: 0 <= i < |args| ==> ')' !in args[i]
    ensures var line := TraceLine(args, shown);
      var n := |Join(args, ", ")|;
      && line[0] == '(' && line[n + 1] == ')'
      && (forall j :: 0 <= j <= n ==> line[j] != ')')
      && line[n + 6..] == shown
  {
    JoinAvoids(args, ", ", ')');
    var line := TraceLine(args, shown);
    var n := |Join(args, ", ")|;
    assert forall j :: 1 <= j <= n ==> line[j] == Join(args, ", ")[j - 1];
  }

  /** The package's trace test: `fn` returning "hi" for the arguments 1 and
      "woo" makes `log` receive "(1, woo) -> hi". */
  lemma TraceTest(f: seq<string> -> string)
    requires f(["1", "woo"]) == "hi"
    ensures Trace(f, s => s, ["1", "woo"]).events[1] == Logged("(1, woo) -> hi")
  {
    assert ["1", "woo"][..1] == ["1"];
  }

  /** The earlier revision's `trace(fn, log)`: `fn` runs, then `log`
      receives the parenthesised arguments followed by " -> " as its first
      argument and the result itself as its second; the result is
      returned. */
  function OldTrace<R>(f: seq<string> -> R, args: seq<string>): (o: Outcome<seq<string>, R>)
    ensures Forwards(o, f, args)
    ensures |o.events| == 2 && o.events[0] == Invoked(args)
    ensures o.events[1] == LoggedWith("(" + Join(args, ", ") + ") -> ", o.value)
  {
    var events := [Invoked(args), LoggedWith("(" + Join(args, ", ") + ") -> ", f(args))];
    InvocationsOfTwo(events[0], events[1]);
    Outcome(f(args), events)
  }

  /** The earlier revision's `traceBy(fn, via)`: `fn` runs, then `via`
      receives the argument array and the result, once; the result is
      returned. */
  function TraceBy<A, R>(f: A -> R, args: A): (o: Outcome<A, R>)
    ensures Forwards(o, f, args)
    ensures |o.events| == 2 && o.events[0] == Invoked(args)
    ensures o.events[1] == Observed(args, o.value)
  {
    var events := [Invoked(args), Observed(args, f(args))];
    InvocationsOfTwo(events[0], events[1]);
    Outcome(f(args), events)
  }

  /** `intercept(fn, interceptor)`: the interceptor runs first on the same
      receiver and arguments, and what it returns is dropped; then `fn` runs
      and its result is returned. */
  function Intercept<A, R>(f: A -> R, args: A): (o: Outcome<A, R>)
    ensures Forwards(o, f, args)
    ensures |o.events| == 2 && o.events[0] == Intercepted(args) && o.events[1] == Invoked(args)
  {
    var events := [Intercepted(args), Invoked(args)];
    InvocationsOfTwo(events[0], events[1]);
    Outcome(f(args), events)
  }

  /** One argument `wrap` passes to the wrapper: the wrapped function, or
      one of the call's own arguments. */
  datatype Arg<!V, R> = Callee(fn: seq<V> -> R) | Plain(v: V)

  /** The arguments of the wrapper: `fn` first, then the call's arguments,
      in order. */
  function WrapperArgs<V, R>(f: seq<V> -> R, args: seq<V>): (xs: seq<Arg<V, R>>)
    ensures |xs| == |args| + 1 && xs[0] == Callee(f)
    ensures forall i :: 0 <= i < |args| ==> xs[i + 1] == Plain(args[i])
  {
    [Callee(f)] + seq(|args|, i requires 0 <= i < |args| => Plain(args[i]))
  }

  /** The values of plain arguments, in order. */
  function Values<V, R>(xs: seq<Arg<V, R>>): (vs: seq<V>)
    requires forall i :: 0 <= i < |xs| ==> xs[i].Plain?
    ensures |vs| == |xs|
    ensures forall i :: 0 <= i < |xs| ==> vs[i] == xs[i].v
  {
    seq(|xs|, i requires 0 <= i < |xs| && xs[i].Plain? => xs[i].v)
  }

  /** `wrap(fn, wrapper)`: the wrapper receives `fn` followed by the call's
      arguments, and whatever it returns is returned; `wrap` adds nothing
      of its own. */
  function Wrap<V, R>(f: seq<V> -> R, wrapper: seq<Arg<V, R>> --> R, args: seq<V>): R
    requires wrapper.requires(WrapperArgs(f, args))
  {
    wrapper(WrapperArgs(f, args))
  }

  /** The wrapper that passes its arguments on to the function it is given,
      as the package's wrap test does. */
  function PassOn<V, R>(xs: seq<Arg<V, R>>): R
    requires |xs| >= 1 && xs[0].Callee?
    requires forall i :: 1 <= i < |xs| ==> xs[i].Plain?
  {
    xs[0].fn(Values(xs[1..]))
  }

  /** Wrapping with a wrapper that passes its arguments on is invisible:
      `fn` receives exactly the call's arguments and its result comes back. */
  lemma WrapPassOnTransparent<V, R>(f: seq<V> -> R, args: seq<V>)
    ensures PassOn.requires(WrapperArgs(f, args))
    ensures Wrap(f, PassOn, args) == f(args)
  {
    var xs := WrapperArgs(f, args);
    assert Values(xs[1..]) == args;
  }
}
