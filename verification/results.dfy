/** A value-or-error type, used for Go's `(value, error)` return pairs. */
module Results {

  datatype Result<+T, +E> = Success(value: T) | Failure(error: E) {

    predicate IsFailure() {
      Failure?
    }

    function PropagateFailure<U>(): Result<U, E>
      requires Failure?
    {
      Failure(error)
    }

    function Extract(): T
      requires Success?
    {
      value
    }
  }

  /**
   * `f` applied to each element in order, stopping at the first failure: the
   * shape of a Go loop that appends results and returns `nil, err` on the
   * first error.
   */
  function MapAll<A, B, E>(xs: seq<A>, f: A -> Result<B, E>): Result<seq<B>, E>
  {
    if xs == [] then Success([])
    else
      var done :- MapAll(xs[..|xs| - 1], f);
      var y :- f(xs[|xs| - 1]);
      Success(done + [y])
  }

  /** All or nothing: success exactly when every element succeeds. */
  lemma {:induction false} MapAllSpec<A, B, E>(xs: seq<A>, f: A -> Result<B, E>)
    ensures MapAll(xs, f).Success? <==> forall k | 0 <= k < |xs| :: f(xs[k]).Success?
    ensures MapAll(xs, f).Success? ==>
      && |MapAll(xs, f).value| == |xs|
      && forall k | 0 <= k < |xs| :: f(xs[k]) == Success(MapAll(xs, f).value[k])
    ensures MapAll(xs, f).Failure? ==> exists k | 0 <= k < |xs| ::
      && f(xs[k]) == Failure(MapAll(xs, f).error)
      && forall j | 0 <= j < k :: f(xs[j]).Success?
  {
    if xs != [] {
      var n := |xs| - 1;
      var prefix := xs[..n];
      MapAllSpec(prefix, f);
      assert forall k | 0 <= k < n :: prefix[k] == xs[k];
      if MapAll(prefix, f).Success? {
        var done := MapAll(prefix, f).value;
        if f(xs[n]).Success? {
          var all := done + [f(xs[n]).value];
          assert MapAll(xs, f) == Success(all);
          forall k | 0 <= k < |xs|
            ensures f(xs[k]) == Success(all[k])
          {
            if k < n {
              assert all[k] == done[k];
            }
          }
        } else {
          assert MapAll(xs, f) == Failure(f(xs[n]).error);
        }
      } else {
        var k :| 0 <= k < n && f(prefix[k]) == Failure(MapAll(prefix, f).error)
          && forall j | 0 <= j < k :: f(prefix[j]).Success?;
        assert f(xs[k]) == Failure(MapAll(xs, f).error);
      }
    }
  }

  /** One more element after elements that all succeed. */
  lemma MapAllAppend<A, B, E>(xs: seq<A>, x: A, f: A -> Result<B, E>)
    requires MapAll(xs, f).Success?
    ensures MapAll(xs + [x], f) ==
      match f(x)
      case Success(y) => Success(MapAll(xs, f).value + [y])
      case Failure(e) => Failure(e)
  {
    assert (xs + [x])[..|xs|] == xs;
  }

  /** Once a prefix fails, the whole sequence fails with the same error. */
  lemma {:induction false} MapAllFailureExtends<A, B, E>(xs: seq<A>, n: nat, f: A -> Result<B, E>)
    requires n <= |xs|
    requires MapAll(xs[..n], f).Failure?
    ensures MapAll(xs, f) == MapAll(xs[..n], f)
    decreases |xs| - n
  {
    if n < |xs| {
      assert xs[..n + 1][..n] == xs[..n];
      MapAllFailureExtends(xs, n + 1, f);
    } else {
      assert xs[..n] == xs;
    }
  }
}
