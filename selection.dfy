/** The component choice of the species entry points (CrElectron, CrGamma):
    weights accumulated in insertion order, then the first component whose
    cumulative weight is at least `flat * total`. When no component
    qualifies the scan runs off the end of the list, which the source then
    dereferences; the index |w| stands for that end iterator here. */
module Selection {
  import opened Sums
  import opened Engine

  /** The cumulative weight of components 0..k reaches the threshold. */
  predicate Covers(w: seq<real>, t: real, k: nat)
    requires k < |w|
  {
    Prefix(w, k + 1) >= t
  }

  /** The first component from k on whose cumulative weight reaches t, or
      |w| when none does. */
  function FirstCovering(w: seq<real>, t: real, k: nat): (j: nat)
    requires k <= |w|
    ensures k <= j <= |w|
    ensures j < |w| ==> Covers(w, t, j)
    ensures forall i :: k <= i < j ==> !Covers(w, t, i)
    decreases |w| - k
  {
    if k == |w| then |w|
    else if Covers(w, t, k) then k
    else FirstCovering(w, t, k + 1)
  }

  /** `flat * total`, the cumulative weight the scan looks for. */
  function Threshold(w: seq<real>, u: real): real
  {
    u * Sum(w)
  }

  /** The index the scan picks for a draw u: the first whose cumulative
      weight reaches the threshold, or the end. */
  function Select(w: seq<real>, u: real): (j: nat)
    ensures j <= |w|
    ensures j < |w| ==> Covers(w, Threshold(w, u), j)
    ensures forall i :: 0 <= i < j ==> !Covers(w, Threshold(w, u), i)
  {
    var t := Threshold(w, u);
    var j := FirstCovering(w, t, 0);
    assert forall i :: 0 <= i < j ==> !Covers(w, t, i);
    j
  }

  /** Any index that covers the threshold with no earlier index covering it
      is the one FirstCovering finds. */
  lemma {:induction false} FirstCoveringUnique(w: seq<real>, t: real, k: nat, j: nat)
    requires k <= j <= |w|
    requires j < |w| ==> Covers(w, t, j)
    requires forall i :: k <= i < j ==> !Covers(w, t, i)
    ensures FirstCovering(w, t, k) == j
    decreases |w| - k
  {
    if k < j {
      assert !Covers(w, t, k);
      FirstCoveringUnique(w, t, k + 1, j);
    }
  }

  /** `selectComponent`'s two loops: the first accumulates the running total
      and stores each component's cumulative weight, the second stops at
      the first cumulative weight `>= flat * total`. */
  method ScanCumulative(w: seq<real>, u: real) returns (k: nat)
    ensures k == Select(w, u)
  {
    var total := 0.0;
    var integ: seq<real> := [];
    var i := 0;
    while i < |w|
      invariant 0 <= i <= |w|
      invariant total == Prefix(w, i)
      invariant |integ| == i
      invariant forall j :: 0 <= j < i ==> integ[j] == Prefix(w, j + 1)
    {
      PrefixStep(w, i);
      total := total + w[i];
      integ := integ + [total];
      i := i + 1;
    }
    PrefixAll(w);
    var rnum := u * total;
    assert rnum == u * Sum(w);
    k := 0;
    while k < |w| && integ[k] < rnum
      invariant 0 <= k <= |w|
      invariant forall j :: 0 <= j < k ==> !Covers(w, rnum, j)
    {
      k := k + 1;
    }
    FirstCoveringUnique(w, rnum, 0, k);
  }

  /** With non-negative weights, at least one component and a draw in
      [0, 1), the scan stops inside the list; with no component it is the
      end iterator. */
  lemma SelectInRange(w: seq<real>, u: real)
    requires forall i :: 0 <= i < |w| ==> w[i] >= 0.0
    requires IsFlat(u)
    ensures |w| >= 1 ==> Select(w, u) < |w|
    ensures |w| == 0 ==> Select(w, u) == 0
  {
    if |w| >= 1 {
      SumNonNegative(w);
      PrefixAll(w);
      AtMostWhole(u, Sum(w));
      assert Covers(w, u * Sum(w), |w| - 1);
    }
  }

  lemma AtMostWhole(u: real, s: real)
    requires 0.0 <= u <= 1.0 && s >= 0.0
    ensures u * s <= s
  {
    assert (1.0 - u) * s >= 0.0;
  }

  /** With non-negative weights component k is chosen exactly when the
      threshold lies in its cumulative window (W_k, W_k+1], the first
      window being closed below. */
  lemma SelectWindow(w: seq<real>, t: real, k: nat)
    requires forall i :: 0 <= i < |w| ==> w[i] >= 0.0
    requires k < |w|
    ensures FirstCovering(w, t, 0) == k <==> Prefix(w, k + 1) >= t && (k == 0 || Prefix(w, k) < t)
  {
    if Prefix(w, k + 1) >= t && (k == 0 || Prefix(w, k) < t) {
      forall i | 0 <= i < k
        ensures !Covers(w, t, i)
      {
        PrefixMonotone(w, i + 1, k);
      }
      FirstCoveringUnique(w, t, 0, k);
    }
    if FirstCovering(w, t, 0) == k && k > 0 {
      assert !Covers(w, t, k - 1);
    }
  }
}
