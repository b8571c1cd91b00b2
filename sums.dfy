/** Running sums over a sequence of reals, accumulated left to right as
    the source's loops and if-chains accumulate them. */
module Sums {

  function Sum(s: seq<real>): real
  {
    if s == [] then 0.0 else Sum(s[..|s| - 1]) + s[|s| - 1]
  }

  /** The sum of the first k elements. */
  function Prefix(s: seq<real>, k: nat): real
    requires k <= |s|
  {
    Sum(s[..k])
  }

  lemma PrefixStep(s: seq<real>, k: nat)
    requires k < |s|
    ensures Prefix(s, k + 1) == Prefix(s, k) + s[k]
  {
    assert s[..k + 1][..k] == s[..k];
  }

  lemma PrefixAll(s: seq<real>)
    ensures Prefix(s, |s|) == Sum(s)
  {
    assert s[..|s|] == s;
  }

  /** A sum of non-negative terms grows with the number of terms. */
  lemma {:induction false} PrefixMonotone(s: seq<real>, j: nat, k: nat)
    requires j <= k <= |s|
    requires forall i :: 0 <= i < |s| ==> s[i] >= 0.0
    ensures Prefix(s, j) <= Prefix(s, k)
    decreases k - j
  {
    if j < k {
      PrefixMonotone(s, j, k - 1);
      PrefixStep(s, k - 1);
    }
  }

  /** A non-empty sum of positive terms is positive. */
  lemma {:induction false} SumPositive(s: seq<real>)
    requires |s| >= 1
    requires forall i :: 0 <= i < |s| ==> s[i] > 0.0
    ensures Sum(s) > 0.0
    decreases |s|
  {
    if |s| > 1 {
      SumPositive(s[..|s| - 1]);
    }
  }

  /** A sum of non-negative terms is non-negative. */
  lemma {:induction false} SumNonNegative(s: seq<real>)
    requires forall i :: 0 <= i < |s| ==> s[i] >= 0.0
    ensures Sum(s) >= 0.0
    decreases |s|
  {
    if |s| > 0 {
      SumNonNegative(s[..|s| - 1]);
    }
  }
}
