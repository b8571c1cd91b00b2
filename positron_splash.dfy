/** CrPositronSplash: the splash (upward) secondary positrons at a geomagnetic latitude,
    resolved over seven latitude bins. */
module PositronSplash {
  import opened Transcendental
  import opened LatitudeBins
  import opened Directions

  /** Centres of bins 0001, 0102, 0203, 0304, 0405, 0506, 0611, in radians
      of |theta_M|. */
  const Centres: seq<real> := [0.05, 0.15, 0.25, 0.35, 0.45, 0.55, 0.65]

  lemma CentresAscending()
    ensures |Centres| == 7 && Ascending(Centres)
  {
  }

  /** `energySrc`: the energy of the bin sampler the resolver picks,
      `binEnergy(k, rest)` standing for bin k's `energy` on the draws left
      after the coin. Outside the centres there is no coin. */
  function EnergySrc(lat: real, binEnergy: (nat, seq<real>) -> real, draws: seq<real>): (e: real)
    requires Resolve(Centres, ThetaM(lat)).Between? ==> |draws| >= 1
    ensures ThetaM(lat) < 0.05 ==> e == binEnergy(0, draws)
    ensures ThetaM(lat) >= 0.65 ==> e == binEnergy(6, draws)
  {
    CentresAscending();
    var theta := ThetaM(lat);
    if theta < 0.05 then
      EnergyBinBelow(Centres, theta, draws);
      binEnergy(0, draws)
    else if theta >= 0.65 then
      EnergyBinAbove(Centres, theta, draws);
      binEnergy(6, draws)
    else
      var (bin, rest) := EnergyBin(Centres, theta, draws);
      binEnergy(bin, rest)
  }

  /** Between centres i and i+1 one draw picks the bin: the lower iff
      `flat*(r1+r2) < r2`, with r1 and r2 the distances of |theta_M| to the
      two centres; the bin samples from the draws after it. */
  lemma EnergySrcBetween(lat: real, i: nat, binEnergy: (nat, seq<real>) -> real, draws: seq<real>)
    requires i < 6 && Centres[i] <= ThetaM(lat) < Centres[i + 1] && |draws| >= 1
    ensures var r1 := ThetaM(lat) - Centres[i];
            var r2 := Centres[i + 1] - ThetaM(lat);
            EnergySrc(lat, binEnergy, draws) == binEnergy(if draws[0] * (r1 + r2) < r2 then i else i + 1, draws[1..])
  {
    CentresAscending();
    EnergyBinAt(Centres, ThetaM(lat), i, draws);
  }

  /** `flux`: m_normalization times the downward flux of the bin, or the
      r2/r1-weighted blend of the two bins around |theta_M|; `fluxes[k]` is
      bin k's `downwardFlux`. */
  function Flux(lat: real, normalization: real, fluxes: seq<real>): (r: real)
    requires |fluxes| == 7
    ensures ThetaM(lat) < 0.05 ==> r == normalization * fluxes[0]
    ensures ThetaM(lat) >= 0.65 ==> r == normalization * fluxes[6]
  {
    CentresAscending();
    var theta := ThetaM(lat);
    if theta < 0.05 then
      FluxBelow(Centres, theta, normalization, fluxes);
      LatitudeBins.Flux(Centres, theta, normalization, fluxes)
    else if theta >= 0.65 then
      FluxAbove(Centres, theta, normalization, fluxes);
      LatitudeBins.Flux(Centres, theta, normalization, fluxes)
    else
      LatitudeBins.Flux(Centres, theta, normalization, fluxes)
  }

  /** Between centres i and i+1 the flux is the blend
      `(r2*F_lo + r1*F_hi)/(r1+r2)`. */
  lemma FluxBetween(lat: real, i: nat, normalization: real, fluxes: seq<real>)
    requires |fluxes| == 7
    requires i < 6 && Centres[i] <= ThetaM(lat) < Centres[i + 1]
    ensures var r1 := ThetaM(lat) - Centres[i];
            var r2 := Centres[i + 1] - ThetaM(lat);
            Flux(lat, normalization, fluxes) == normalization * ((r2 * fluxes[i] + r1 * fluxes[i + 1]) / (r1 + r2))
  {
    CentresAscending();
    FluxAt(Centres, ThetaM(lat), i, normalization, fluxes);
  }

  /** The blend lies between the two bin fluxes, and at a centre it is that
      bin's flux. */
  lemma FluxWithinBins(lat: real, i: nat, normalization: real, fluxes: seq<real>)
    requires |fluxes| == 7 && normalization >= 0.0
    requires i < 6 && Centres[i] <= ThetaM(lat) < Centres[i + 1]
    ensures fluxes[i] <= fluxes[i + 1] ==>
              normalization * fluxes[i] <= Flux(lat, normalization, fluxes) <= normalization * fluxes[i + 1]
    ensures fluxes[i + 1] <= fluxes[i] ==>
              normalization * fluxes[i + 1] <= Flux(lat, normalization, fluxes) <= normalization * fluxes[i]
    ensures ThetaM(lat) == Centres[i] ==> Flux(lat, normalization, fluxes) == normalization * fluxes[i]
  {
    CentresAscending();
    FluxBetweenBins(Centres, ThetaM(lat), i, normalization, fluxes);
  }

  /** Energy and flux depend on the latitude only through its size. */
  lemma HemispheresAlike(lat: real, binEnergy: (nat, seq<real>) -> real, draws: seq<real>,
                         normalization: real, fluxes: seq<real>)
    requires |draws| >= 1 && |fluxes| == 7
    ensures EnergySrc(-lat, binEnergy, draws) == EnergySrc(lat, binEnergy, draws)
    ensures Flux(-lat, normalization, fluxes) == Flux(lat, normalization, fluxes)
  {
    ThetaMIgnoresSign(lat);
  }

  /** `dir`: theta = pi - acos(flat), then phi = 2 pi flat; the particle comes from the lower hemisphere. */
  function Dir(m: Math, draws: seq<real>): (r: (Direction, seq<real>))
    requires |draws| >= 2
    ensures r.1 == draws[2..]
    ensures CosAcos(m) && IsFlatPair(draws) ==> -1.0 < r.0.cosTheta <= 0.0 && 0.0 <= r.0.phi < 2.0 * Pi
  {
    Upward(m, draws)
  }

  predicate IsFlatPair(draws: seq<real>)
    requires |draws| >= 2
  {
    0.0 <= draws[0] < 1.0 && 0.0 <= draws[1] < 1.0
  }

  /** `solidAngle`: the lower hemisphere. */
  function SolidAngle(): (r: real)
    ensures r == 2.0 * Pi
  {
    HemisphereSolidAngle()
  }

  /** `particleName`. */
  function ParticleName(): (r: string)
    ensures r == "e+"
  {
    "e+"
  }
}
