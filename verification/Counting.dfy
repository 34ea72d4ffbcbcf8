/** Counting the elements of a sequence that satisfy a predicate, and padding a sequence. */
module Counting {
  function Count<T>(xs: seq<T>, p: T -> bool): nat {
    if xs == [] then 0
    else Count(xs[..|xs| - 1], p) + (if p(xs[|xs| - 1]) then 1 else 0)
  }

  /** xs, extended with `filler` to n elements if it is shorter. */
  function Pad<T>(xs: seq<T>, n: nat, filler: T): seq<T> {
    xs + seq(if n >= |xs| then n - |xs| else 0, _ => filler)
  }

  lemma {:induction false} CountUpdate<T>(xs: seq<T>, i: nat, y: T, p: T -> bool)
    requires i < |xs|
    ensures Count(xs[i := y], p) == Count(xs, p) - (if p(xs[i]) then 1 else 0) + (if p(y) then 1 else 0)
  {
    var n := |xs| - 1;
    if i == n {
      assert xs[i := y][..n] == xs[..n];
    } else {
      CountUpdate(xs[..n], i, y, p);
      assert xs[i := y][..n] == xs[..n][i := y];
    }
  }

  lemma {:induction false} CountZero<T>(xs: seq<T>, p: T -> bool)
    ensures Count(xs, p) == 0 <==> forall i :: 0 <= i < |xs| ==> !p(xs[i])
  {
    if xs != [] {
      CountZero(xs[..|xs| - 1], p);
      assert forall i :: 0 <= i < |xs| - 1 ==> xs[..|xs| - 1][i] == xs[i];
    }
  }

  lemma {:induction false} CountAtMost<T>(xs: seq<T>, p: T -> bool)
    ensures Count(xs, p) <= |xs|
  {
    if xs != [] {
      CountAtMost(xs[..|xs| - 1], p);
    }
  }

  lemma {:induction false} CountSplit<T>(xs: seq<T>, m: nat, p: T -> bool)
    requires m <= |xs|
    ensures Count(xs, p) == Count(xs[..m], p) + Count(xs[m..], p)
  {
    if m == |xs| {
      assert xs[..m] == xs && xs[m..] == [];
    } else {
      var n := |xs| - 1;
      CountSplit(xs[..n], m, p);
      assert xs[..n][..m] == xs[..m] && xs[..n][m..] == xs[m..][..n - m] && xs[m..][n - m] == xs[n];
    }
  }
}
