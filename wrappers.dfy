/** Optional values and success-or-error results, used for Python's `None` and for the
    exceptions the modelled code raises. */
module Wrappers {

  datatype Option<T> = None | Some(value: T) {
    function GetOr(default: T): T
    {
      match this
      case Some(v) => v
      case None => default
    }
  }

  datatype Result<T, E> = Ok(value: T) | Err(error: E)

  lemma AppendAssoc<T>(x: seq<T>, y: seq<T>, z: seq<T>)
    ensures (x + y) + z == x + (y + z)
  {
  }

  /** The position of the first element satisfying `p`, if any. */
  function FirstMatch<T>(xs: seq<T>, p: T -> bool): (r: Option<nat>)
    ensures r.Some? ==> r.value < |xs| && p(xs[r.value]) && forall j {:trigger p(xs[j])} :: 0 <= j < r.value ==> !p(xs[j])
    ensures r.None? ==> forall j {:trigger p(xs[j])} :: 0 <= j < |xs| ==> !p(xs[j])
    decreases |xs|
  {
    if xs == [] then None
    else if p(xs[0]) then Some(0)
    else match FirstMatch(xs[1..], p)
      case Some(k) => Some(k + 1)
      case None => None
  }

  /** Conversely, the first element satisfying `p` is the one found. */
  lemma {:induction false} FirstMatchIs<T>(xs: seq<T>, p: T -> bool, k: nat)
    requires k < |xs| && p(xs[k]) && forall j {:trigger p(xs[j])} :: 0 <= j < k ==> !p(xs[j])
    ensures FirstMatch(xs, p) == Some(k)
    decreases k
  {
    if k > 0 {
      FirstMatchIs(xs[1..], p, k - 1);
    }
  }

  /** The loop that stops at the first element satisfying `p`. */
  method ScanFirst<T>(xs: seq<T>, p: T -> bool) returns (r: Option<nat>)
    ensures r == FirstMatch(xs, p)
  {
    var i := 0;
    while i < |xs|
      invariant i <= |xs|
      invariant forall j {:trigger p(xs[j])} :: 0 <= j < i ==> !p(xs[j])
    {
      if p(xs[i]) {
        FirstMatchIs(xs, p, i);
        return Some(i);
      }
      i := i + 1;
    }
    r := None;
  }

  /** The slice up to the length is the whole sequence. */
  lemma WholeSlice<T>(xs: seq<T>)
    ensures xs[..|xs|] == xs
  {
  }

  /** A property of every element carries over to a concatenation. */
  lemma AllAppend<T>(a: seq<T>, b: seq<T>, p: T -> bool)
    requires forall k {:trigger p(a[k])} :: 0 <= k < |a| ==> p(a[k])
    requires forall k {:trigger p(b[k])} :: 0 <= k < |b| ==> p(b[k])
    ensures forall k {:trigger p((a + b)[k])} :: 0 <= k < |a + b| ==> p((a + b)[k])
  {
    forall k | 0 <= k < |a + b|
      ensures p((a + b)[k])
    {
      if k >= |a| {
        assert (a + b)[k] == b[k - |a|];
      }
    }
  }

  /** A non-empty sequence is its front and its last element. */
  lemma LastSplit<T>(xs: seq<T>)
    requires xs != []
    ensures xs[..|xs| - 1] + [xs[|xs| - 1]] == xs
  {
  }

  /** A non-empty sequence is its first element and its rest. */
  lemma HeadSplit<T>(xs: seq<T>)
    requires xs != []
    ensures [xs[0]] + xs[1..] == xs
  {
  }

  /** `f` applied to each of `xs` in order, stopping at the first error: a loop whose body may
      raise. */
  function Traverse<A, T, E>(xs: seq<A>, f: A -> Result<T, E>): Result<seq<T>, E>
    decreases |xs|
  {
    if xs == [] then Ok([])
    else
      match Traverse(xs[..|xs| - 1], f)
      case Err(e) => Err(e)
      case Ok(ts) =>
        match f(xs[|xs| - 1])
        case Err(e) => Err(e)
        case Ok(t) => Ok(ts + [t])
  }

  /** One more step of the loop, on a prefix that succeeded. */
  lemma TraverseSnoc<A, T, E>(xs: seq<A>, i: nat, f: A -> Result<T, E>)
    requires i < |xs| && Traverse(xs[..i], f).Ok?
    ensures f(xs[i]).Ok? ==> Traverse(xs[..i + 1], f) == Ok(Traverse(xs[..i], f).value + [f(xs[i]).value])
    ensures f(xs[i]).Err? ==> Traverse(xs[..i + 1], f) == Err(f(xs[i]).error)
  {
    assert xs[..i + 1][..i] == xs[..i];
  }

  /** Once a prefix fails, the whole loop fails with the same error: it stops there. */
  lemma {:induction false} TraverseStops<A, T, E>(xs: seq<A>, i: nat, f: A -> Result<T, E>)
    requires i <= |xs| && Traverse(xs[..i], f).Err?
    ensures Traverse(xs, f) == Traverse(xs[..i], f)
    decreases |xs| - i
  {
    if i == |xs| {
      WholeSlice(xs);
    } else {
      var front := xs[..|xs| - 1];
      assert front[..i] == xs[..i];
      TraverseStops(front, i, f);
    }
  }

  /** The loop succeeds exactly when every step does, with the steps' values in order; when it
      fails, the error is that of the first failing step. */
  lemma {:induction false} TraverseAll<A, T, E>(xs: seq<A>, f: A -> Result<T, E>)
    ensures Traverse(xs, f).Ok? <==> forall k :: 0 <= k < |xs| ==> f(xs[k]).Ok?
    ensures Traverse(xs, f).Ok? ==> |Traverse(xs, f).value| == |xs|
    ensures Traverse(xs, f).Ok? ==> forall k :: 0 <= k < |xs| ==> Traverse(xs, f).value[k] == f(xs[k]).value
    ensures Traverse(xs, f).Err? ==>
              exists k :: 0 <= k < |xs| && f(xs[k]) == Err(Traverse(xs, f).error) && forall j :: 0 <= j < k ==> f(xs[j]).Ok?
    decreases |xs|
  {
    if xs != [] {
      var n := |xs| - 1;
      var front := xs[..n];
      TraverseAll(front, f);
      assert forall k :: 0 <= k < n ==> front[k] == xs[k];
    }
  }
}
