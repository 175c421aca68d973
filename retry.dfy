/**
  The retry decorator `retry_when_exception(*exceptions, max_tries=3)`.

  The wrapped call is an oracle: `func(args, i)` is the outcome of the call
  made on attempt `i` (the attempt index stands for whatever the remote side
  does differently from one call to the next).  Which raised errors are
  "listed" is the predicate `caught`, i.e. the `except exceptions:` test.
 */
module Retry {

  /** How one call of the wrapped function ends: it returns a value or raises an error. */
  datatype Outcome<+T, +E> = Ok(value: T) | Err(error: E)

  /** How the wrapper ends: it returns, re-raises, or raises `RuntimeError("Unreachable")`. */
  datatype CallResult<+T, +E> = Return(value: T) | Raise(error: E) | Unreachable

  /** What the wrapper produced and how many calls of the wrapped function it made. */
  datatype Trace<+T, +E> = Trace(result: CallResult<T, E>, calls: nat)

  /** The default `max_tries`. */
  const DefaultMaxTries: int := 3

  /** An attempt that raised a listed error, which the wrapper swallows unless it was the last. */
  predicate Swallowed<T, E>(caught: E -> bool, o: Outcome<T, E>)
  {
    o.Err? && caught(o.error)
  }

  /** What the wrapper would return for an outcome if it passed it straight on. */
  function Lift<T, E>(o: Outcome<T, E>): CallResult<T, E>
  {
    match o
    case Ok(v) => Return(v)
    case Err(e) => Raise(e)
  }

  /**
    Reference semantics of the wrapper from attempt `i` on: a success is
    returned, an unlisted error propagates, a listed error is re-raised on the
    last attempt and swallowed otherwise.  With no attempts left the wrapper
    falls out of the loop into `RuntimeError("Unreachable")`.
   */
  function Run<A, T, E>(caught: E -> bool, maxTries: int, func: (A, nat) -> Outcome<T, E>, args: A, i: nat): Trace<T, E>
    decreases maxTries - i
  {
    if maxTries <= i then Trace(Unreachable, i)
    else match func(args, i)
      case Ok(v) => Trace(Return(v), i + 1)
      case Err(e) =>
        if !caught(e) || i == maxTries - 1 then Trace(Raise(e), i + 1)
        else Run(caught, maxTries, func, args, i + 1)
  }

  /**
    The inner `wrapper`: a `for i in range(max_tries)` loop around the call.
    `log` records the arguments handed to each call made, so `|log|` is the
    number of calls.
   */
  method RetryWhenException<A, T, E>(caught: E -> bool, maxTries: int, func: (A, nat) -> Outcome<T, E>, args: A)
    returns (r: CallResult<T, E>, log: seq<A>)
    ensures Trace(r, |log|) == Run(caught, maxTries, func, args, 0)
    ensures forall j | 0 <= j < |log| :: log[j] == args
  {
    log := [];
    var i := 0;
    while i < maxTries
      invariant 0 <= i && |log| == i
      invariant forall j | 0 <= j < i :: log[j] == args
      invariant Run(caught, maxTries, func, args, 0) == Run(caught, maxTries, func, args, i)
      decreases maxTries - i
    {
      var outcome := func(args, i);
      log := log + [args];
      match outcome
      case Ok(v) =>
        r := Return(v);
        return;
      case Err(e) =>
        if !caught(e) || i == maxTries - 1 {
          r := Raise(e);
          return;
        }
      i := i + 1;
    }
    r := Unreachable;
  }

  // ---------------------------------------------------------------------
  // Properties of the reference semantics
  // ---------------------------------------------------------------------

  /** Attempts that raised listed errors, other than the last one, are skipped over. */
  lemma {:induction false} RunSkipsSwallowed<A, T, E>(caught: E -> bool, maxTries: int, func: (A, nat) -> Outcome<T, E>, args: A, i: nat, k: nat)
    requires i <= k < maxTries
    requires forall j | i <= j < k :: Swallowed(caught, func(args, j))
    ensures Run(caught, maxTries, func, args, i) == Run(caught, maxTries, func, args, k)
    decreases k - i
  {
    if i < k {
      RunSkipsSwallowed(caught, maxTries, func, args, i + 1, k);
    }
  }

  /** The wrapped function is called at most `max_tries` times, and at least once when `max_tries > 0`. */
  lemma {:induction false} RunCallsBounded<A, T, E>(caught: E -> bool, maxTries: int, func: (A, nat) -> Outcome<T, E>, args: A, i: nat)
    ensures var t := Run(caught, maxTries, func, args, i);
      if i < maxTries then i < t.calls <= maxTries && !t.result.Unreachable?
      else t == Trace(Unreachable, i)
    decreases maxTries - i
  {
    if i < maxTries && func(args, i).Err? && caught(func(args, i).error) && i != maxTries - 1 {
      RunCallsBounded(caught, maxTries, func, args, i + 1);
    }
  }

  /** With `max_tries <= 0` the function is never called and `RuntimeError("Unreachable")` is raised. */
  lemma NonPositiveMaxTries<A, T, E>(caught: E -> bool, maxTries: int, func: (A, nat) -> Outcome<T, E>, args: A)
    requires maxTries <= 0
    ensures Run(caught, maxTries, func, args, 0) == Trace(Unreachable, 0)
  {
  }

  /** The first successful attempt's value is returned and no further attempt is made. */
  lemma FirstSuccessReturned<A, T, E>(caught: E -> bool, maxTries: int, func: (A, nat) -> Outcome<T, E>, args: A, k: nat, v: T)
    requires k < maxTries
    requires forall j | 0 <= j < k :: Swallowed(caught, func(args, j))
    requires func(args, k) == Ok(v)
    ensures Run(caught, maxTries, func, args, 0) == Trace(Return(v), k + 1)
  {
    RunSkipsSwallowed(caught, maxTries, func, args, 0, k);
  }

  /** An error that is not listed propagates on its first occurrence, without a retry. */
  lemma UnlistedErrorPropagates<A, T, E>(caught: E -> bool, maxTries: int, func: (A, nat) -> Outcome<T, E>, args: A, k: nat, e: E)
    requires k < maxTries
    requires forall j | 0 <= j < k :: Swallowed(caught, func(args, j))
    requires func(args, k) == Err(e) && !caught(e)
    ensures Run(caught, maxTries, func, args, 0) == Trace(Raise(e), k + 1)
  {
    RunSkipsSwallowed(caught, maxTries, func, args, 0, k);
  }

  /** After `max_tries` consecutive listed errors the last one is re-raised; the earlier ones are swallowed. */
  lemma ExhaustedReraisesLast<A, T, E>(caught: E -> bool, maxTries: int, func: (A, nat) -> Outcome<T, E>, args: A)
    requires 0 < maxTries
    requires forall j | 0 <= j < maxTries :: Swallowed(caught, func(args, j))
    ensures Run(caught, maxTries, func, args, 0).result.Raise?
    ensures Run(caught, maxTries, func, args, 0) == Trace(Lift(func(args, maxTries - 1)), maxTries)
  {
    RunSkipsSwallowed(caught, maxTries, func, args, 0, maxTries - 1);
  }

  /**
    The converse: whatever the wrapper ends with, every call before the last
    one raised a listed error, the wrapper's result is the last call's
    outcome, and it stopped early only on a success or an unlisted error.
   */
  lemma {:induction false} RunCharacterized<A, T, E>(caught: E -> bool, maxTries: int, func: (A, nat) -> Outcome<T, E>, args: A, i: nat)
    requires i < maxTries
    ensures var t := Run(caught, maxTries, func, args, i);
      && i < t.calls <= maxTries
      && (forall j | i <= j < t.calls - 1 :: Swallowed(caught, func(args, j)))
      && t.result == Lift(func(args, t.calls - 1))
      && (t.calls < maxTries ==> !Swallowed(caught, func(args, t.calls - 1)))
    decreases maxTries - i
  {
    if func(args, i).Err? && caught(func(args, i).error) && i != maxTries - 1 {
      RunCharacterized(caught, maxTries, func, args, i + 1);
    }
  }
}
