/** Values shared by the wrapper models: optional values, host timers and
    the record of one invocation of the wrapped function. */
module Common {

  /** A value or JavaScript's `undefined`. */
  datatype Option<T> = None | Some(value: T)

  /** One invocation of the wrapped function: the host clock reading at
      which it ran and the receiver and arguments it was applied to. */
  datatype Fire<A> = Fire(at: int, args: A)

  /** A one-shot host timer: when it becomes due and the receiver and
      arguments its callback closed over. */
  datatype Timer<A> = Timer(due: int, args: A)

  function Min(x: int, y: int): int { if x <= y then x else y }

  function Max(x: int, y: int): int { if x >= y then x else y }

  /** How long the model takes a host timer set for `ms` milliseconds to
      wait: a negative delay behaves as no delay, and a non-negative one is
      kept as it is. This is an assumption about the host, not something the
      wrappers compute. */
  function TimerDelay(ms: int): (d: nat)
    ensures ms <= d
    ensures ms >= 0 ==> d == ms
    ensures ms < 0 ==> d == 0
  {
    if ms < 0 then 0 else ms
  }

  /** The invocations in `log` happen in clock order. */
  ghost predicate Chronological<A>(log: seq<Fire<A>>)
  {
    forall i, j :: 0 <= i < j < |log| ==> log[i].at <= log[j].at
  }

  /** How many invocations of `log` had run when the clock read `t`. */
  function FiredBy<A>(log: seq<Fire<A>>, t: int): (n: nat)
    ensures n <= |log|
    ensures (forall i :: 0 <= i < |log| ==> log[i].at <= t) ==> n == |log|
    ensures (forall i :: 0 <= i < |log| ==> log[i].at > t) ==> n == 0
  {
    if log == [] then 0
    else FiredBy(log[..|log| - 1], t) + (if log[|log| - 1].at <= t then 1 else 0)
  }

  /** The clock readings of the invocations in `log`, in order. */
  function Times<A>(log: seq<Fire<A>>): (ts: seq<int>)
    ensures |ts| == |log|
    ensures forall i :: 0 <= i < |log| ==> ts[i] == log[i].at
  {
    seq(|log|, i requires 0 <= i < |log| => log[i].at)
  }

  /** When the first `k` invocations of `log` had run by `t` and the others
      had not, `k` of them had run by `t`. */
  lemma {:induction false} FiredByChronological<A>(log: seq<Fire<A>>, t: int, k: nat)
    requires k <= |log|
    requires forall i :: 0 <= i < k ==> log[i].at <= t
    requires forall i :: k <= i < |log| ==> log[i].at > t
    ensures FiredBy(log, t) == k
  {
    if log != [] {
      var init := log[..|log| - 1];
      if k == |log| {
        FiredByChronological(init, t, k - 1);
      } else {
        FiredByChronological(init, t, k);
      }
    }
  }
}
