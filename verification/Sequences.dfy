/** Searching and counting in sequences. */
module Sequences {
  /** The position of the first element that satisfies p; the length when none does. */
  function FirstIndex<T>(xs: seq<T>, p: T -> bool): (k: nat)
    ensures k <= |xs| && (k < |xs| ==> p(xs[k]))
  {
    if xs == [] || p(xs[0]) then 0 else FirstIndex(xs[1..], p) + 1
  }

  lemma {:induction false} NoneBefore<T>(xs: seq<T>, p: T -> bool)
    ensures forall j :: 0 <= j < FirstIndex(xs, p) ==> !p(xs[j])
  {
    if xs != [] && !p(xs[0]) { NoneBefore(xs[1..], p); }
  }

  /** How many elements satisfy p. */
  function CountWhere<T>(xs: seq<T>, p: T -> bool): nat {
    if xs == [] then 0 else CountWhere(xs[..|xs|-1], p) + if p(xs[|xs|-1]) then 1 else 0
  }

  lemma {:induction false} CountAfterUpdate<T>(xs: seq<T>, p: T -> bool, k: nat, x: T)
    requires k < |xs|
    ensures CountWhere(xs[k := x], p) == CountWhere(xs, p) - (if p(xs[k]) then 1 else 0) + (if p(x) then 1 else 0)
  {
    if k < |xs| - 1 {
      CountAfterUpdate(xs[..|xs|-1], p, k, x);
      assert xs[k := x][..|xs|-1] == xs[..|xs|-1][k := x];
    } else {
      assert xs[k := x][..|xs|-1] == xs[..|xs|-1];
    }
  }

  lemma {:induction false} CountBounds<T>(xs: seq<T>, p: T -> bool)
    ensures CountWhere(xs, p) <= |xs|
    ensures CountWhere(xs, p) == 0 <==> forall k :: 0 <= k < |xs| ==> !p(xs[k])
    ensures CountWhere(xs, p) == |xs| <==> forall k :: 0 <= k < |xs| ==> p(xs[k])
  {
    if xs != [] {
      var init := xs[..|xs|-1];
      CountBounds(init, p);
      assert forall k :: 0 <= k < |init| ==> init[k] == xs[k];
    }
  }

  lemma CountMore<T>(xs: seq<T>, p: T -> bool, x: T)
    ensures CountWhere(xs + [x], p) == CountWhere(xs, p) + if p(x) then 1 else 0
  {
    assert (xs + [x])[..|xs|] == xs;
  }

  lemma {:induction false} CountConcat<T>(xs: seq<T>, ys: seq<T>, p: T -> bool)
    ensures CountWhere(xs + ys, p) == CountWhere(xs, p) + CountWhere(ys, p)
  {
    if ys == [] {
      assert xs + ys == xs;
    } else {
      assert (xs + ys)[..|xs + ys|-1] == xs + ys[..|ys|-1];
      CountConcat(xs, ys[..|ys|-1], p);
    }
  }

  /** No element occurs twice. */
  predicate Distinct<T(==)>(xs: seq<T>) {
    xs == [] || (Distinct(xs[..|xs|-1]) && xs[|xs|-1] !in xs[..|xs|-1])
  }

  lemma {:induction false} DistinctAt<T>(xs: seq<T>)
    ensures Distinct(xs) <==> forall i, j :: 0 <= i < j < |xs| ==> xs[i] != xs[j]
  {
    if xs != [] {
      DistinctAt(xs[..|xs|-1]);
      var init := xs[..|xs|-1];
      assert forall i :: 0 <= i < |init| ==> init[i] == xs[i] && xs[i] in init;
    }
  }
}
