/** Left folds over a list and the facts the bot's loops rely on: a field that every element
    either overwrites or leaves alone ends with the last overwrite, a list every element appends
    to ends as the concatenation of the contributions, and a filter keeps exactly the elements
    that pass. */
module Folds {
  import opened Text

  /** `for x in xs: state = step(state, x)` */
  function Walk<S, X>(init: S, xs: seq<X>, step: (S, X) -> S): S {
    if xs == [] then init else step(Walk(init, xs[..|xs| - 1], step), xs[|xs| - 1])
  }

  /** The contributions `f(x)` of every element, concatenated in order. */
  function Gather<X, Y>(xs: seq<X>, f: X -> seq<Y>): seq<Y> {
    if xs == [] then [] else Gather(xs[..|xs| - 1], f) + f(xs[|xs| - 1])
  }

  /** `[f(x) for x in xs if keep(x)]` */
  function Select<X, Y>(xs: seq<X>, keep: X -> bool, f: X -> Y): seq<Y> {
    if xs == [] then []
    else Select(xs[..|xs| - 1], keep, f) + (if keep(xs[|xs| - 1]) then [f(xs[|xs| - 1])] else [])
  }

  /** When each element either writes `value(x)` into a field or leaves it alone, the field ends
      with the value written by the last writing element. */
  lemma {:induction false} LastWriteWins<S, X, T>(init: S, xs: seq<X>, step: (S, X) -> S,
                                                  get: S -> T, writes: X -> bool, value: X -> T, i: nat)
    requires forall st, x :: get(step(st, x)) == if writes(x) then value(x) else get(st)
    requires i < |xs| && writes(xs[i])
    requires forall j :: i < j < |xs| ==> !writes(xs[j])
    ensures get(Walk(init, xs, step)) == value(xs[i])
  {
    var n := |xs| - 1;
    if i < n {
      var prefix := xs[..n];
      assert prefix[i] == xs[i];
      assert forall j :: i < j < n ==> prefix[j] == xs[j];
      LastWriteWins(init, prefix, step, get, writes, value, i);
      assert !writes(xs[n]);
    }
  }

  /** ... and with its initial value when no element writes. */
  lemma {:induction false} NoWriteKeeps<S, X, T>(init: S, xs: seq<X>, step: (S, X) -> S,
                                                 get: S -> T, writes: X -> bool, value: X -> T)
    requires forall st, x :: get(step(st, x)) == if writes(x) then value(x) else get(st)
    requires forall i :: 0 <= i < |xs| ==> !writes(xs[i])
    ensures get(Walk(init, xs, step)) == get(init)
  {
    if xs != [] {
      var n := |xs| - 1;
      var prefix := xs[..n];
      assert forall j :: 0 <= j < n ==> prefix[j] == xs[j];
      NoWriteKeeps(init, prefix, step, get, writes, value);
      assert !writes(xs[n]);
    }
  }

  /** When each element appends `f(x)` to a list field, the field ends as its initial value
      followed by every element's contribution in order. */
  lemma {:induction false} AppendsGather<S, X, Y>(init: S, xs: seq<X>, step: (S, X) -> S,
                                                  get: S -> seq<Y>, f: X -> seq<Y>)
    requires forall st, x :: get(step(st, x)) == get(st) + f(x)
    ensures get(Walk(init, xs, step)) == get(init) + Gather(xs, f)
  {
    if xs != [] {
      AppendsGather(init, xs[..|xs| - 1], step, get, f);
    }
  }

  /** A filter keeps every passing element, only passing elements, and never grows the list. */
  lemma {:induction false} SelectKeeps<X, Y>(xs: seq<X>, keep: X -> bool, f: X -> Y)
    ensures |Select(xs, keep, f)| <= |xs|
    ensures forall k :: 0 <= k < |xs| && keep(xs[k]) ==> f(xs[k]) in Select(xs, keep, f)
    ensures forall y :: y in Select(xs, keep, f) ==> exists k :: 0 <= k < |xs| && keep(xs[k]) && y == f(xs[k])
  {
    if xs != [] {
      var prefix := xs[..|xs| - 1];
      SelectKeeps(prefix, keep, f);
      assert forall k :: 0 <= k < |prefix| ==> prefix[k] == xs[k];
    }
  }

  /** What holds of every passing element's result holds of every element of the filtered list. */
  lemma {:induction false} SelectAll<X, Y>(xs: seq<X>, keep: X -> bool, f: X -> Y, ok: Y -> bool)
    requires forall k :: 0 <= k < |xs| && keep(xs[k]) ==> ok(f(xs[k]))
    ensures forall k :: 0 <= k < |Select(xs, keep, f)| ==> ok(Select(xs, keep, f)[k])
  {
    if xs != [] {
      var n := |xs| - 1;
      assert forall k :: 0 <= k < n ==> xs[..n][k] == xs[k];
      SelectAll(xs[..n], keep, f, ok);
    }
  }

  /** Extending the list by one element extends the filtered list by that element's result, if it
      passes. */
  lemma SelectStep<X, Y>(xs: seq<X>, keep: X -> bool, f: X -> Y, j: nat)
    requires j < |xs|
    ensures Select(xs[..j + 1], keep, f) == Select(xs[..j], keep, f) + (if keep(xs[j]) then [f(xs[j])] else [])
  {
    assert xs[..j + 1][..j] == xs[..j];
  }

  /** Two passing elements give at least two results, even when they are equal. */
  lemma {:induction false} SelectTwo<X, Y>(xs: seq<X>, keep: X -> bool, f: X -> Y, i: nat, j: nat)
    requires i < j < |xs| && keep(xs[i]) && keep(xs[j])
    ensures |Select(xs, keep, f)| >= 2
  {
    var prefix := xs[..|xs| - 1];
    assert prefix[i] == xs[i];
    if j == |xs| - 1 {
      SelectKeeps(prefix, keep, f);
    } else {
      assert prefix[j] == xs[j];
      SelectTwo(prefix, keep, f, i, j);
    }
  }

  /** From any passing element, there is a last passing one at or after it. */
  lemma {:induction false} LastPassing<X>(xs: seq<X>, p: X -> bool, k: nat) returns (i: nat)
    requires k < |xs| && p(xs[k])
    ensures k <= i < |xs| && p(xs[i])
    ensures forall j :: i < j < |xs| ==> !p(xs[j])
    decreases |xs| - k
  {
    if forall j :: k < j < |xs| ==> !p(xs[j]) {
      i := k;
    } else {
      var m :| k < m < |xs| && p(xs[m]);
      i := LastPassing(xs, p, m);
    }
  }

  /** Applying a step that can fail to every element: all the results in order, or `None` as
      soon as one step fails. */
  function AllOf<X, Y>(xs: seq<X>, f: X -> Option<Y>): Option<seq<Y>> {
    if xs == [] then Some([])
    else
      match AllOf(xs[..|xs| - 1], f)
      case None => None
      case Some(ys) =>
        match f(xs[|xs| - 1])
        case None => None
        case Some(y) => Some(ys + [y])
  }

  /** The traversal succeeds exactly when every step does, and then holds each step's result. */
  lemma {:induction false} AllOfSpec<X, Y>(xs: seq<X>, f: X -> Option<Y>)
    ensures AllOf(xs, f).Some? <==> forall k :: 0 <= k < |xs| ==> f(xs[k]).Some?
    ensures AllOf(xs, f).Some? ==>
      |AllOf(xs, f).value| == |xs| && forall k :: 0 <= k < |xs| ==> Some(AllOf(xs, f).value[k]) == f(xs[k])
  {
    if xs != [] {
      var n := |xs| - 1;
      AllOfSpec(xs[..n], f);
      assert forall k :: 0 <= k < n ==> xs[..n][k] == xs[k];
    }
  }

  /** One more successful step appends its result. */
  lemma AllOfStep<X, Y>(xs: seq<X>, f: X -> Option<Y>, i: nat)
    requires i < |xs| && AllOf(xs[..i], f).Some? && f(xs[i]).Some?
    ensures AllOf(xs[..i + 1], f) == Some(AllOf(xs[..i], f).value + [f(xs[i]).value])
  {
    assert xs[..i + 1][..i] == xs[..i];
  }

  /** Once a prefix fails, the whole traversal fails. */
  lemma {:induction false} AllOfFails<X, Y>(xs: seq<X>, f: X -> Option<Y>, n: nat)
    requires n <= |xs| && AllOf(xs[..n], f).None?
    ensures AllOf(xs, f).None?
    decreases |xs| - n
  {
    if n < |xs| {
      assert xs[..n + 1][..n] == xs[..n];
      AllOfFails(xs, f, n + 1);
    } else {
      assert xs[..n] == xs;
    }
  }
}
