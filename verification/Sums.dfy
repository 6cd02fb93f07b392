/** Sums of per-CPU values. */
module Sums {
  function Sum(xs: seq<nat>): nat {
    if xs == [] then 0 else Sum(xs[..|xs| - 1]) + xs[|xs| - 1]
  }

  lemma {:induction false} SumAdds(xs: seq<nat>, ys: seq<nat>, zs: seq<nat>)
    requires |xs| == |ys| == |zs| && forall i :: 0 <= i < |xs| ==> xs[i] + ys[i] == zs[i]
    ensures Sum(xs) + Sum(ys) == Sum(zs)
  {
    if xs != [] {
      SumAdds(xs[..|xs| - 1], ys[..|ys| - 1], zs[..|zs| - 1]);
    }
  }

  /** A vector of zeros and ones with a zero somewhere sums to less than its length. */
  lemma {:induction false} SumBelowLength(xs: seq<nat>, hole: nat)
    requires hole < |xs| ==> xs[hole] == 0
    requires forall i :: 0 <= i < |xs| ==> xs[i] <= 1
    ensures Sum(xs) <= |xs| && (hole < |xs| ==> Sum(xs) < |xs|)
  {
    if xs != [] {
      SumBelowLength(xs[..|xs| - 1], hole);
    }
  }

  lemma {:induction false} SumUpdated(xs: seq<nat>, i: nat, v: nat)
    requires i < |xs|
    ensures Sum(xs[i := v]) == Sum(xs) - xs[i] + v
  {
    var ys := xs[i := v];
    if i == |xs| - 1 {
      assert ys[..|xs| - 1] == xs[..|xs| - 1];
    } else {
      SumUpdated(xs[..|xs| - 1], i, v);
      assert ys[..|xs| - 1] == xs[..|xs| - 1][i := v];
    }
  }

  lemma {:induction false} TermAtMostSum(xs: seq<nat>, i: nat)
    requires i < |xs|
    ensures xs[i] <= Sum(xs)
  {
    if i < |xs| - 1 {
      TermAtMostSum(xs[..|xs| - 1], i);
    }
  }

  lemma {:induction false} AllZero(xs: seq<nat>)
    requires forall i :: 0 <= i < |xs| ==> xs[i] == 0
    ensures Sum(xs) == 0
  {
    if xs != [] {
      AllZero(xs[..|xs| - 1]);
    }
  }
}
