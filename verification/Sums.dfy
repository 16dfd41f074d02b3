/** Sums of sequences of naturals. */
module Sums {

  function Sum(xs: seq<nat>): nat {
    if |xs| == 0 then 0 else Sum(xs[..|xs| - 1]) + xs[|xs| - 1]
  }

  lemma SumPrefix(xs: seq<nat>, i: nat)
    requires i < |xs|
    ensures Sum(xs[..i + 1]) == Sum(xs[..i]) + xs[i]
  {
    assert xs[..i + 1][..i] == xs[..i];
  }

  lemma {:induction false} SumUpdate(xs: seq<nat>, i: nat, x: nat)
    requires i < |xs|
    ensures Sum(xs[i := x]) == Sum(xs) - xs[i] + x
  {
    var n := |xs| - 1;
    if i == n {
      assert xs[i := x][..n] == xs[..n];
    } else {
      SumUpdate(xs[..n], i, x);
      assert xs[i := x][..n] == xs[..n][i := x];
    }
  }

  lemma {:induction false} SumBound(xs: seq<nat>, k: nat)
    requires forall i | 0 <= i < |xs| :: xs[i] <= k
    ensures Sum(xs) <= |xs| * k
  {
    if |xs| > 0 {
      SumBound(xs[..|xs| - 1], k);
      assert |xs| * k == (|xs| - 1) * k + k;
    }
  }
}
