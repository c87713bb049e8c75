/** Optional values, success/failure results and sequence filtering shared by every module. */
module Common {

  /** A value that may be absent: JavaScript's `null`/`undefined`, Python's `None`, Swift's `nil`. */
  datatype Option<+T> = None | Some(value: T)

  /** The outcome of an operation that can fail or throw: `Failure` carries the message. */
  datatype Result<+T, +E> = Success(value: T) | Failure(error: E)

  /** The elements satisfying `p`, in order (`Array.prototype.filter`, a list comprehension with `if`). */
  function Filter<T>(xs: seq<T>, p: T -> bool): (r: seq<T>)
    ensures |r| <= |xs|
    ensures forall k :: 0 <= k < |r| ==> p(r[k]) && r[k] in xs
    ensures forall x :: x in xs && p(x) ==> x in r
  {
    if xs == [] then [] else (if p(xs[0]) then [xs[0]] else []) + Filter(xs[1..], p)
  }

  /** Filtering keeps the order: it distributes over concatenation. */
  lemma {:induction false} FilterAppend<T>(a: seq<T>, b: seq<T>, p: T -> bool)
    ensures Filter(a + b, p) == Filter(a, p) + Filter(b, p)
  {
    if a != [] {
      assert (a + b)[1..] == a[1..] + b;
      FilterAppend(a[1..], b, p);
    } else {
      assert a + b == b;
    }
  }

  /** Filtering a sequence whose every element passes changes nothing. */
  lemma {:induction false} FilterAll<T>(xs: seq<T>, p: T -> bool)
    requires forall k :: 0 <= k < |xs| ==> p(xs[k])
    ensures Filter(xs, p) == xs
  {
    if xs != [] {
      FilterAll(xs[1..], p);
    }
  }

  /**
    * A loop over the first `n` elements that skips those `keep` rejects,
    * collects `f` of the others and stops at the first failure.
    */
  function KeptResults<A, B, E>(xs: seq<A>, n: nat, keep: A -> bool, f: A -> Result<B, E>): Result<seq<B>, E>
    requires n <= |xs|
  {
    if n == 0 then Success([])
    else
      match KeptResults(xs, n - 1, keep, f)
      case Failure(e) => Failure(e)
      case Success(bs) =>
        if !keep(xs[n - 1]) then Success(bs)
        else
          match f(xs[n - 1])
          case Failure(e) => Failure(e)
          case Success(b) => Success(bs + [b])
  }

  /** Once a prefix fails, every longer prefix fails the same way. */
  lemma {:induction false} KeptResultsFailureSticks<A, B, E>(xs: seq<A>, i: nat, n: nat, keep: A -> bool, f: A -> Result<B, E>)
    requires i <= n <= |xs| && KeptResults(xs, i, keep, f).Failure?
    ensures KeptResults(xs, n, keep, f) == KeptResults(xs, i, keep, f)
    decreases n
  {
    if n > i {
      KeptResultsFailureSticks(xs, i, n - 1, keep, f);
    }
  }

  /**
    * The loop succeeds exactly when `f` succeeds on every kept element, and
    * then yields `f` of the kept elements in order; otherwise it fails with
    * the error of the first kept element on which `f` fails.
    */
  lemma {:induction false} KeptResultsMeaning<A, B, E>(xs: seq<A>, n: nat, keep: A -> bool, f: A -> Result<B, E>)
    requires n <= |xs|
    ensures KeptResults(xs, n, keep, f).Success? <==> forall k :: 0 <= k < n && keep(xs[k]) ==> f(xs[k]).Success?
    ensures KeptResults(xs, n, keep, f).Failure? ==>
      exists k :: 0 <= k < n && keep(xs[k]) && f(xs[k]) == Failure(KeptResults(xs, n, keep, f).error)
    ensures KeptResults(xs, n, keep, f).Success? ==>
      var bs := KeptResults(xs, n, keep, f).value;
      var kept := Filter(xs[..n], keep);
      |bs| == |kept| && forall k :: 0 <= k < |bs| ==> f(kept[k]) == Success(bs[k])
  {
    if n > 0 {
      KeptResultsMeaning(xs, n - 1, keep, f);
      var x := xs[n - 1];
      var prev := KeptResults(xs, n - 1, keep, f);
      var kept := Filter(xs[..n - 1], keep);
      assert Filter(xs[..n], keep) == kept + (if keep(x) then [x] else []) by {
        assert xs[..n] == xs[..n - 1] + [x];
        FilterAppend(xs[..n - 1], [x], keep);
        assert [x][1..] == [];
      }
      if prev.Success? && keep(x) && f(x).Success? {
        var bs := prev.value + [f(x).value];
        assert KeptResults(xs, n, keep, f) == Success(bs);
        forall k | 0 <= k < |bs|
          ensures f((kept + [x])[k]) == Success(bs[k])
        {
          if k < |prev.value| {
            assert (kept + [x])[k] == kept[k];
          }
        }
      }
    }
  }
}
