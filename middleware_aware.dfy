/**
  The middleware pipeline a collection runs a class lookup through.

  A middleware receives the class being resolved and a continuation `next`
  ("the rest of the chain") and returns the class config; it may call `next`,
  transform what it returns, or not call it at all.  The chain for
  `[M1, ..., Mn]` ending in `last` is `M1(c, c1 => M2(c1, ... Mn(cn, last)))`:
  the first registered middleware is the outermost one.
*/
module MiddlewareAware {
  import opened Php

  type Middleware = (string, string -> Value) -> Value

  /** The continuation that hands the request to `m`, with `inner` as its `next`. */
  function Wrap(m: Middleware, inner: string -> Value): (r: string -> Value)
    ensures forall c :: r(c) == m(c, inner)
  {
    c => m(c, inner)
  }

  /** The continuation for the whole list: a right fold of Wrap over `ms`. */
  function Chain(ms: seq<Middleware>, last: string -> Value): string -> Value
  {
    if ms == [] then last else Wrap(ms[0], Chain(ms[1..], last))
  }

  /**
    Builds the chain from back to front, as the source does by walking the
    reversed list, and calls it with `className`.
  */
  method CallMiddleware(ms: seq<Middleware>, className: string, last: string -> Value)
    returns (r: Value)
    ensures r == Chain(ms, last)(className)
    ensures ms == [] ==> r == last(className)
    ensures ms != [] ==> r == ms[0](className, Chain(ms[1..], last))
  {
    var next := last;
    var i := |ms|;
    while i > 0
      invariant 0 <= i <= |ms|
      invariant next == Chain(ms[i..], last)
    {
      i := i - 1;
      assert ms[i..][1..] == ms[i + 1..];
      next := Wrap(ms[i], next);
    }
    r := next(className);
  }

  /** `$this->middlewares[] = $middleware` */
  function AddMiddleware(ms: seq<Middleware>, m: Middleware): (r: seq<Middleware>)
    ensures |r| == |ms| + 1 && r[..|ms|] == ms && r[|ms|] == m
  {
    ms + [m]
  }

  /**
    The continuation middleware `i` receives is the chain of the middlewares
    after it: middleware i+1 for every i before the last one, and `last` for
    the last one.
  */
  lemma {:induction false} NextOfPosition(ms: seq<Middleware>, i: nat, last: string -> Value)
    requires i < |ms|
    ensures Chain(ms[i..], last) == Wrap(ms[i], Chain(ms[i + 1..], last))
    ensures i + 1 < |ms| ==> Chain(ms[i + 1..], last) == Wrap(ms[i + 1], Chain(ms[i + 2..], last))
    ensures i + 1 == |ms| ==> Chain(ms[i + 1..], last) == last
  {
    assert ms[i..][1..] == ms[i + 1..];
    if i + 1 < |ms| {
      assert ms[i + 1..][1..] == ms[i + 2..];
    } else {
      assert ms[i + 1..] == [];
    }
  }

  /** Splitting the list splits the chain: the first part wraps the second. */
  lemma {:induction false} ChainConcat(a: seq<Middleware>, b: seq<Middleware>, last: string -> Value)
    ensures Chain(a + b, last) == Chain(a, Chain(b, last))
  {
    if a == [] {
      assert a + b == b;
    } else {
      assert (a + b)[1..] == a[1..] + b;
      ChainConcat(a[1..], b, last);
    }
  }

  /**
    addMiddleware makes the new middleware the innermost one: it wraps `last`
    directly, and every earlier middleware keeps its place around it.
  */
  lemma AddedMiddlewareIsInnermost(ms: seq<Middleware>, m: Middleware, last: string -> Value)
    ensures Chain(AddMiddleware(ms, m), last) == Chain(ms, Wrap(m, last))
  {
    ChainConcat(ms, [m], last);
    assert Chain([m], last) == Wrap(m, Chain([], last));
  }

  /**
    Every continuation forwards the class it is called with: if every
    middleware hands its own class on, the terminal resolver sees the class
    of the original request.
  */
  ghost predicate Forwards(m: Middleware)
  {
    forall c, next :: m(c, next) == next(c)
  }

  lemma {:induction false} ForwardingChainReachesLast(ms: seq<Middleware>, last: string -> Value, c: string)
    requires forall i | 0 <= i < |ms| :: Forwards(ms[i])
    ensures Chain(ms, last)(c) == last(c)
  {
    if ms != [] {
      assert Forwards(ms[0]);
      ForwardingChainReachesLast(ms[1..], last, c);
    }
  }

  /** A middleware that never consults `next`. */
  ghost predicate ShortCircuits(m: Middleware)
  {
    forall c, n1, n2 :: m(c, n1) == m(c, n2)
  }

  /**
    Short-circuit: once the request reaches a middleware that ignores `next`,
    neither the middlewares after it nor `last` have any say in the result.
  */
  lemma ShortCircuitHidesInner(m: Middleware, c: string,
      after1: seq<Middleware>, last1: string -> Value,
      after2: seq<Middleware>, last2: string -> Value)
    requires ShortCircuits(m)
    ensures Chain([m] + after1, last1)(c) == Chain([m] + after2, last2)(c)
  {
    assert ([m] + after1)[1..] == after1;
    assert ([m] + after2)[1..] == after2;
  }

  /**
    The order of the pipeline for two middlewares: M1 sees the request first,
    and what M2 gets from its own `next` is the terminal value, not M1's.
  */
  lemma TwoMiddlewareOrder(m1: Middleware, m2: Middleware, last: string -> Value, c: string)
    ensures Chain([m1, m2], last)(c) == m1(c, Wrap(m2, last))
    ensures Wrap(m2, last)(c) == m2(c, last)
  {
    assert [m1, m2][1..] == [m2];
    assert [m2][1..] == [];
    assert Chain([m2], last) == Wrap(m2, last);
  }

  /**
    A `$next` continuation as a stateful middleware sees it: it resolves a
    class with `resolve` and counts how often it was invoked.
  */
  class Continuation {
    const resolve: string -> Value
    var calls: nat

    constructor(resolve: string -> Value)
      ensures this.resolve == resolve && calls == 0
    {
      this.resolve := resolve;
      calls := 0;
    }

    method Call(className: string) returns (r: Value)
      modifies this
      ensures r == resolve(className)
      ensures calls == old(calls) + 1
    {
      r := resolve(className);
      calls := calls + 1;
    }
  }
}
