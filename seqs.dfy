/** `Array.prototype.filter`, and the `map`-then-drop-`null` pattern, over sequences. */
module Seqs {
  import opened Js

  /** `a` is `b` with some elements left out, the rest in their order. */
  predicate IsSubsequence<T(==)>(a: seq<T>, b: seq<T>)
    decreases |b|
  {
    a == [] ||
    (b != [] &&
      ((a[|a| - 1] == b[|b| - 1] && IsSubsequence(a[..|a| - 1], b[..|b| - 1]))
       || IsSubsequence(a, b[..|b| - 1])))
  }

  /** `xs.filter(p)`: exactly the elements satisfying `p`, each as often as `xs` holds it, as a
      subsequence of `xs`. */
  function Filter<T(==,!new)>(xs: seq<T>, p: T -> bool): (r: seq<T>)
    ensures forall i :: 0 <= i < |r| ==> p(r[i]) && r[i] in xs
    ensures forall i :: 0 <= i < |xs| && p(xs[i]) ==> xs[i] in r
    ensures IsSubsequence(r, xs)
    ensures multiset(r) <= multiset(xs)
    ensures forall x :: multiset(r)[x] == if p(x) then multiset(xs)[x] else 0
  {
    if xs == [] then []
    else
      var init, last := xs[..|xs| - 1], xs[|xs| - 1];
      var rest := Filter(init, p);
      var r := if p(last) then rest + [last] else rest;
      FilterStepMembers(init, last, rest, p, xs, r);
      FilterStepOrder(init, last, rest, p, xs, r);
      FilterStepCounts(init, last, rest, p, xs, r);
      r
  }

  /** One step of `Filter`, for its membership clauses. */
  lemma FilterStepMembers<T(!new)>(init: seq<T>, last: T, rest: seq<T>, p: T -> bool, xs: seq<T>, r: seq<T>)
    requires xs == init + [last] && r == if p(last) then rest + [last] else rest
    requires forall i :: 0 <= i < |rest| ==> p(rest[i]) && rest[i] in init
    requires forall i :: 0 <= i < |init| && p(init[i]) ==> init[i] in rest
    ensures forall i :: 0 <= i < |r| ==> p(r[i]) && r[i] in xs
    ensures forall i :: 0 <= i < |xs| && p(xs[i]) ==> xs[i] in r
  {
  }

  /** One step of `Filter`, for its order clause. */
  lemma FilterStepOrder<T>(init: seq<T>, last: T, rest: seq<T>, p: T -> bool, xs: seq<T>, r: seq<T>)
    requires xs == init + [last] && r == if p(last) then rest + [last] else rest
    requires IsSubsequence(rest, init)
    ensures IsSubsequence(r, xs)
  {
    assert xs[..|xs| - 1] == init;
    if p(last) {
      assert r[..|r| - 1] == rest;
    }
  }

  /** One step of `Filter`, for its counting clauses. */
  lemma FilterStepCounts<T(!new)>(init: seq<T>, last: T, rest: seq<T>, p: T -> bool, xs: seq<T>, r: seq<T>)
    requires xs == init + [last] && r == if p(last) then rest + [last] else rest
    requires multiset(rest) <= multiset(init)
    requires forall x :: multiset(rest)[x] == if p(x) then multiset(init)[x] else 0
    ensures multiset(r) <= multiset(xs)
    ensures forall x :: multiset(r)[x] == if p(x) then multiset(xs)[x] else 0
  {
    assert multiset(xs) == multiset(init) + multiset{last};
    if p(last) {
      assert multiset(r) == multiset(rest) + multiset{last};
    }
  }

  /** Filtering with a predicate every element satisfies changes nothing. */
  lemma {:induction false} FilterAll<T(!new)>(xs: seq<T>, p: T -> bool)
    requires forall i :: 0 <= i < |xs| ==> p(xs[i])
    ensures Filter(xs, p) == xs
  {
    if xs != [] {
      var init, last := xs[..|xs| - 1], xs[|xs| - 1];
      assert init + [last] == xs;
      FilterAll(init, p);
      FilterSnoc(init, last, p);
    }
  }

  /** Filtering a list with one more element at the end. */
  lemma FilterSnoc<T(!new)>(init: seq<T>, last: T, p: T -> bool)
    ensures Filter(init + [last], p) == if p(last) then Filter(init, p) + [last] else Filter(init, p)
  {
    var xs := init + [last];
    assert xs[..|xs| - 1] == init;
  }

  /** The present values of `xs`, in order: what `xs.filter(item => item !== null)` keeps. */
  function Somes<T>(xs: seq<Option<T>>): (r: seq<T>)
    ensures |r| <= |xs|
  {
    if xs == [] then []
    else
      var rest := Somes(xs[..|xs| - 1]);
      match xs[|xs| - 1]
      case Some(v) => rest + [v]
      case None => rest
  }

  /** Where in `xs` each element of `Somes(xs)` came from: strictly increasing positions, one for
      every present value and nothing else. */
  ghost function SomeIndices<T>(xs: seq<Option<T>>): (ks: seq<nat>)
    ensures |ks| == |Somes(xs)|
    ensures forall i :: 0 <= i < |ks| ==> ks[i] < |xs| && xs[ks[i]] == Some(Somes(xs)[i])
    ensures forall i, j :: 0 <= i < j < |ks| ==> ks[i] < ks[j]
    ensures forall k :: 0 <= k < |xs| && xs[k].Some? ==> k in ks
  {
    if xs == [] then []
    else
      var ks := SomeIndices(xs[..|xs| - 1]);
      if xs[|xs| - 1].Some? then ks + [|xs| - 1] else ks
  }

  /** Two sequences with their values present at the same positions, and alike under `f`
      position by position, keep the same number of values, alike under `f` in order. */
  lemma {:induction false} SomesAgree<T, U>(xs: seq<Option<T>>, ys: seq<Option<T>>, f: T -> U)
    requires |xs| == |ys|
    requires forall k :: 0 <= k < |xs| ==> xs[k].Some? == ys[k].Some?
    requires forall k :: 0 <= k < |xs| && xs[k].Some? ==> f(xs[k].value) == f(ys[k].value)
    ensures |Somes(xs)| == |Somes(ys)|
    ensures forall i :: 0 <= i < |Somes(xs)| ==> f(Somes(xs)[i]) == f(Somes(ys)[i])
  {
    if xs != [] {
      SomesAgree(xs[..|xs| - 1], ys[..|ys| - 1], f);
    }
  }
}
