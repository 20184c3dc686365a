/**
 * A loop that applies a fallible step to every element in order and leaves
 * with the first error (`?` inside a `for`), as a function on the whole
 * input, with the facts the loops that follow it rely on.
 */
module Batch {
  import opened Wrappers

  /** The outcome of applying `f` to `xs` in order, stopping at the first failure. */
  function Traverse<A, T, E>(f: A -> Result<T, E>, xs: seq<A>): Result<seq<T>, E>
  {
    if xs == [] then Success([])
    else
      match Traverse(f, xs[..|xs| - 1])
      case Failure(e) => Failure(e)
      case Success(ts) =>
        match f(xs[|xs| - 1])
        case Failure(e) => Failure(e)
        case Success(t) => Success(ts + [t])
  }

  /** The batch succeeds exactly when every step does, and then holds every step's value in order. */
  lemma {:induction false} TraverseSuccess<A, T, E>(f: A -> Result<T, E>, xs: seq<A>)
    ensures Traverse(f, xs).Success? <==> forall i :: 0 <= i < |xs| ==> f(xs[i]).Success?
    ensures Traverse(f, xs).Success? ==>
              |Traverse(f, xs).value| == |xs| &&
              forall i :: 0 <= i < |xs| ==> Traverse(f, xs).value[i] == f(xs[i]).value
  {
    if xs != [] {
      var init := xs[..|xs| - 1];
      TraverseSuccess(f, init);
      assert forall i :: 0 <= i < |init| ==> init[i] == xs[i];
    }
  }

  /** A failed batch reports the error of its first failing step. */
  lemma {:induction false} TraverseFirstFailure<A, T, E>(f: A -> Result<T, E>, xs: seq<A>)
    requires Traverse(f, xs).Failure?
    ensures exists i :: 0 <= i < |xs| && f(xs[i]).Failure? && Traverse(f, xs).error == f(xs[i]).error &&
              forall j :: 0 <= j < i ==> f(xs[j]).Success?
  {
    var init := xs[..|xs| - 1];
    assert forall i :: 0 <= i < |init| ==> init[i] == xs[i];
    if Traverse(f, init).Failure? {
      TraverseFirstFailure(f, init);
      var i :| 0 <= i < |init| && f(init[i]).Failure? && Traverse(f, init).error == f(init[i]).error &&
               forall j :: 0 <= j < i ==> f(init[j]).Success?;
      assert f(xs[i]).Failure? && Traverse(f, xs).error == f(xs[i]).error;
    } else {
      TraverseSuccess(f, init);
      assert f(xs[|xs| - 1]).Failure? && Traverse(f, xs).error == f(xs[|xs| - 1]).error;
    }
  }

  /** One more step of the loop. */
  lemma TraverseSnoc<A, T, E>(f: A -> Result<T, E>, xs: seq<A>, i: nat)
    requires i < |xs|
    ensures Traverse(f, xs[..i + 1]) ==
              match Traverse(f, xs[..i])
              case Failure(e) => Failure(e)
              case Success(ts) =>
                match f(xs[i])
                case Failure(e) => Failure(e)
                case Success(t) => Success(ts + [t])
  {
    assert xs[..i + 1][..i] == xs[..i];
  }

  /** Once a prefix has failed, the whole batch fails with the same error. */
  lemma {:induction false} TraversePrefixFailure<A, T, E>(f: A -> Result<T, E>, xs: seq<A>, k: nat)
    requires k <= |xs|
    requires Traverse(f, xs[..k]).Failure?
    ensures Traverse(f, xs) == Traverse(f, xs[..k])
    decreases |xs| - k
  {
    if k == |xs| {
      assert xs[..k] == xs;
    } else {
      TraverseSnoc(f, xs, k);
      TraversePrefixFailure(f, xs, k + 1);
    }
  }
}
