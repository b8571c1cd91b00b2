/** The latitude-bin resolver shared by CrElectronReentrant,
    CrPositronReentrant, CrPositronSplash and CrProtonReentrant. Bin k is
    centred at c[k] (radians of geomagnetic latitude). Below the first
    centre only the first bin is used and at or above the last centre only
    the last; between two adjacent centres a coin weighted by the distances
    r1 (to the lower centre) and r2 (to the upper) picks one of the two bins
    for the energy, and the flux is their distance-weighted blend. */
module LatitudeBins {
  import opened Transcendental
  import opened Engine

  predicate Ascending(c: seq<real>)
  {
    forall i, j :: 0 <= i < j < |c| ==> c[i] < c[j]
  }

  function Abs(x: real): real
  {
    if x < 0.0 then -x else x
  }

  /** |theta_M| in radians, from the geomagnetic latitude in degrees:
      `fabs(m_geomagneticLatitude)*M_PI/180.0`. */
  function ThetaM(lat: real): (t: real)
    ensures t >= 0.0
  {
    Abs(lat) * Pi / 180.0
  }

  /** Northern and southern latitudes of the same size resolve alike. */
  lemma ThetaMIgnoresSign(lat: real)
    ensures ThetaM(-lat) == ThetaM(lat)
  {
  }

  /** One bin, or a pair of adjacent bins with the distances of theta to
      their centres. */
  datatype Resolution =
    | Single(bin: nat)
    | Between(lower: nat, r1: real, r2: real)

  /** The `else if` clauses `theta >= c[i] && theta < c[i+1]`, tried for
      i, i+1, ...; the final `else` is the last bin. */
  function ResolveFrom(c: seq<real>, theta: real, i: nat): (res: Resolution)
    requires i < |c|
    ensures res.Single? ==> res.bin == |c| - 1
    ensures res.Single? ==> forall j :: i <= j < |c| - 1 ==> !(c[j] <= theta < c[j + 1])
    ensures res.Between? ==>
              && i <= res.lower < |c| - 1
              && c[res.lower] <= theta < c[res.lower + 1]
              && res.r1 == theta - c[res.lower] && res.r2 == c[res.lower + 1] - theta
              && forall j :: i <= j < res.lower ==> !(c[j] <= theta < c[j + 1])
    decreases |c| - i
  {
    if i == |c| - 1 then Single(|c| - 1)
    else if c[i] <= theta && theta < c[i + 1] then Between(i, theta - c[i], c[i + 1] - theta)
    else ResolveFrom(c, theta, i + 1)
  }

  /** The if-chain of `energySrc` and `flux`. */
  function Resolve(c: seq<real>, theta: real): (res: Resolution)
    requires |c| >= 2
    ensures res.Single? ==> res.bin == 0 || res.bin == |c| - 1
    ensures res.Between? ==>
              && res.lower < |c| - 1
              && c[res.lower] <= theta < c[res.lower + 1]
              && res.r1 == theta - c[res.lower] && res.r2 == c[res.lower + 1] - theta
              && res.r1 >= 0.0 && res.r2 > 0.0
  {
    if theta < c[0] then Single(0) else ResolveFrom(c, theta, 0)
  }

  /** With ascending centres the resolution is exactly: the first bin below
      the first centre, the last bin at or above the last centre, and the
      pair (i, i+1) whenever c[i] <= theta < c[i+1]. */
  lemma ResolveCharacterised(c: seq<real>, theta: real)
    requires |c| >= 2 && Ascending(c)
    ensures Resolve(c, theta) == Single(0) <==> theta < c[0]
    ensures Resolve(c, theta) == Single(|c| - 1) <==> theta >= c[|c| - 1]
    ensures forall i :: 0 <= i < |c| - 1 && c[i] <= theta < c[i + 1] ==>
              Resolve(c, theta) == Between(i, theta - c[i], c[i + 1] - theta)
  {
    var res := Resolve(c, theta);
    forall i | 0 <= i < |c| - 1 && c[i] <= theta < c[i + 1]
      ensures res == Between(i, theta - c[i], c[i + 1] - theta)
    {
      assert theta >= c[0];
    }
    if theta >= c[0] && res.Single? {
      AboveAllIntervals(c, theta, 0);
    }
  }

  /** Ascending centres: a theta at or above c[i] that lies in none of the
      intervals from i on is at or above the last centre. */
  lemma {:induction false} AboveAllIntervals(c: seq<real>, theta: real, i: nat)
    requires i < |c| && Ascending(c) && c[i] <= theta
    requires forall j :: i <= j < |c| - 1 ==> !(c[j] <= theta < c[j + 1])
    ensures theta >= c[|c| - 1]
    decreases |c| - i
  {
    if i < |c| - 1 {
      assert !(c[i] <= theta < c[i + 1]);
      AboveAllIntervals(c, theta, i + 1);
    }
  }

  /** The coin between two adjacent bins: `flat*(r1+r2) < r2` picks the
      lower. Only a Between resolution draws. */
  function ChooseBin(res: Resolution, draws: seq<real>): (r: (nat, seq<real>))
    requires res.Between? ==> |draws| >= 1
    ensures res.Single? ==> r == (res.bin, draws)
    ensures res.Between? ==> r.1 == draws[1..] && (r.0 == res.lower <==> draws[0] * (res.r1 + res.r2) < res.r2)
    ensures res.Between? ==> r.0 == res.lower || r.0 == res.lower + 1
  {
    match res
    case Single(b) => (b, draws)
    case Between(i, r1, r2) =>
      if draws[0] * (r1 + r2) < r2 then (i, draws[1..]) else (i + 1, draws[1..])
  }

  /** The coin picks the lower bin exactly when the draw falls below
      r2 / (r1 + r2), the share that grows as theta nears the lower centre;
      at the lower centre itself (r1 = 0) every draw in [0,1) picks it. */
  lemma CoinThreshold(r1: real, r2: real, u: real)
    requires r1 >= 0.0 && r2 > 0.0
    ensures u * (r1 + r2) < r2 <==> u < r2 / (r1 + r2)
    ensures r1 == 0.0 && IsFlat(u) ==> u * (r1 + r2) < r2
  {
    var s := r1 + r2;
    var q := r2 / s;
    QuotientTimes(r2, s);
    ScaleStrict(u, q, s);
  }

  lemma QuotientTimes(a: real, s: real)
    requires s > 0.0
    ensures a / s * s == a
  {
  }

  lemma ScaleStrict(x: real, y: real, s: real)
    requires s > 0.0
    ensures x < y <==> x * s < y * s
  {
    if x < y {
      assert (y - x) * s > 0.0;
    }
    if x >= y {
      assert (x - y) * s >= 0.0;
    }
  }

  /** `energySrc`: the bin whose energy() is called, and the draws left for
      it. */
  function EnergyBin(c: seq<real>, theta: real, draws: seq<real>): (r: (nat, seq<real>))
    requires |c| >= 2
    requires Resolve(c, theta).Between? ==> |draws| >= 1
    ensures r.0 < |c|
    ensures r.1 == draws || (|draws| >= 1 && r.1 == draws[1..])
  {
    ChooseBin(Resolve(c, theta), draws)
  }

  /** `energySrc` below the first centre: the first bin, no coin. */
  lemma EnergyBinBelow(c: seq<real>, theta: real, draws: seq<real>)
    requires |c| >= 2 && theta < c[0]
    ensures EnergyBin(c, theta, draws) == (0, draws)
  {
  }

  /** `energySrc` at or above the last centre: the last bin, no coin. */
  lemma EnergyBinAbove(c: seq<real>, theta: real, draws: seq<real>)
    requires |c| >= 2 && Ascending(c) && theta >= c[|c| - 1]
    ensures EnergyBin(c, theta, draws) == (|c| - 1, draws)
  {
    ResolveCharacterised(c, theta);
  }

  /** `energySrc` between c[i] and c[i+1]: one draw decides, the lower bin
      iff `flat*(r1+r2) < r2`. */
  lemma EnergyBinAt(c: seq<real>, theta: real, i: nat, draws: seq<real>)
    requires |c| >= 2 && Ascending(c) && i < |c| - 1 && c[i] <= theta < c[i + 1]
    requires |draws| >= 1
    ensures EnergyBin(c, theta, draws) ==
              (if draws[0] * ((theta - c[i]) + (c[i + 1] - theta)) < c[i + 1] - theta then i else i + 1,
               draws[1..])
  {
    ResolveCharacterised(c, theta);
  }

  /** `( r2*F_lo + r1*F_hi )/(r1+r2)` between two bins, the bin's own flux
      otherwise. */
  function Blend(res: Resolution, fluxes: seq<real>): real
    requires res.Single? ==> res.bin < |fluxes|
    requires res.Between? ==> res.lower + 1 < |fluxes| && res.r1 + res.r2 != 0.0
  {
    match res
    case Single(b) => fluxes[b]
    case Between(i, r1, r2) => WeightedMean(fluxes[i], fluxes[i + 1], r1, r2)
  }

  /** f0 and f1 weighted by the distance to the other centre. */
  function WeightedMean(f0: real, f1: real, r1: real, r2: real): real
    requires r1 + r2 != 0.0
  {
    (r2 * f0 + r1 * f1) / (r1 + r2)
  }

  /** The blend is a convex combination of the two bin fluxes: it lies
      between them and equals the lower one at the lower centre. */
  lemma BlendIsConvex(f0: real, f1: real, r1: real, r2: real)
    requires r1 >= 0.0 && r2 > 0.0
    ensures var b := WeightedMean(f0, f1, r1, r2);
            (f0 <= f1 ==> f0 <= b <= f1) && (f1 <= f0 ==> f1 <= b <= f0) && (r1 == 0.0 ==> b == f0)
  {
    var s := r1 + r2;
    var b := (r2 * f0 + r1 * f1) / s;
    QuotientTimes(r2 * f0 + r1 * f1, s);
    assert f0 * s == f0 * r1 + f0 * r2;
    assert f1 * s == f1 * r1 + f1 * r2;
    assert b * s - f0 * s == r1 * (f1 - f0);
    assert f1 * s - b * s == r2 * (f1 - f0);
    ScaleStrict(b, f0, s);
    ScaleStrict(f0, b, s);
    ScaleStrict(b, f1, s);
    ScaleStrict(f1, b, s);
    if f0 <= f1 {
      assert r1 * (f1 - f0) >= 0.0 && r2 * (f1 - f0) >= 0.0;
    } else {
      assert r1 * (f0 - f1) >= 0.0 && r2 * (f0 - f1) >= 0.0;
    }
  }

  /** `flux`: m_normalization times the blended downward flux. */
  function Flux(c: seq<real>, theta: real, normalization: real, fluxes: seq<real>): (r: real)
    requires |c| >= 2 && |fluxes| == |c|
    ensures Resolve(c, theta).Single? ==> r == normalization * fluxes[Resolve(c, theta).bin]
  {
    normalization * Blend(Resolve(c, theta), fluxes)
  }

  /** `flux` below the first centre: the first bin's flux. */
  lemma FluxBelow(c: seq<real>, theta: real, normalization: real, fluxes: seq<real>)
    requires |c| >= 2 && |fluxes| == |c| && theta < c[0]
    ensures Flux(c, theta, normalization, fluxes) == normalization * fluxes[0]
  {
  }

  /** `flux` at or above the last centre: the last bin's flux. */
  lemma FluxAbove(c: seq<real>, theta: real, normalization: real, fluxes: seq<real>)
    requires |c| >= 2 && Ascending(c) && |fluxes| == |c| && theta >= c[|c| - 1]
    ensures Flux(c, theta, normalization, fluxes) == normalization * fluxes[|c| - 1]
  {
    ResolveCharacterised(c, theta);
  }

  /** `flux` between c[i] and c[i+1]: the r2/r1-weighted blend. */
  lemma FluxAt(c: seq<real>, theta: real, i: nat, normalization: real, fluxes: seq<real>)
    requires |c| >= 2 && Ascending(c) && |fluxes| == |c|
    requires i < |c| - 1 && c[i] <= theta < c[i + 1]
    ensures Flux(c, theta, normalization, fluxes) ==
              normalization * (((c[i + 1] - theta) * fluxes[i] + (theta - c[i]) * fluxes[i + 1])
                               / ((theta - c[i]) + (c[i + 1] - theta)))
  {
    ResolveCharacterised(c, theta);
  }

  /** Between two centres the flux lies between the two bins' fluxes (times
      the normalization), and at the lower centre it is that bin's flux. */
  lemma FluxBetweenBins(c: seq<real>, theta: real, i: nat, normalization: real, fluxes: seq<real>)
    requires |c| >= 2 && Ascending(c) && |fluxes| == |c| && normalization >= 0.0
    requires i < |c| - 1 && c[i] <= theta < c[i + 1]
    ensures var f := Flux(c, theta, normalization, fluxes);
            && (fluxes[i] <= fluxes[i + 1] ==> normalization * fluxes[i] <= f <= normalization * fluxes[i + 1])
            && (fluxes[i + 1] <= fluxes[i] ==> normalization * fluxes[i + 1] <= f <= normalization * fluxes[i])
            && (theta == c[i] ==> f == normalization * fluxes[i])
  {
    ResolveCharacterised(c, theta);
    var res := Resolve(c, theta);
    assert res == Between(i, theta - c[i], c[i + 1] - theta);
    var r1, r2 := theta - c[i], c[i + 1] - theta;
    var f0, f1 := fluxes[i], fluxes[i + 1];
    BlendIsConvex(f0, f1, r1, r2);
    var b := Blend(res, fluxes);
    if f0 <= f1 {
      ScaleBetween(normalization, f0, b, f1);
    }
    if f1 <= f0 {
      ScaleBetween(normalization, f1, b, f0);
    }
  }

  lemma ScaleBetween(k: real, lo: real, x: real, hi: real)
    requires k >= 0.0 && lo <= x <= hi
    ensures k * lo <= k * x <= k * hi
  {
  }
}
