/** CrProtonReentrant: the reentrant (downward) secondary protons at a
    geomagnetic latitude, resolved over nine latitude bins. Unlike the
    electron and positron components, the zenith angle too comes from the
    latitude bins. */
module ProtonReentrant {
  import opened Transcendental
  import opened LatitudeBins
  import opened Directions

  /** Centres of bins 0002, 0203, 0304, 0405, 0506, 0607, 0708, 0809, 0910,
      in radians of |theta_M|. */
  const Centres: seq<real> := [0.15, 0.25, 0.35, 0.45, 0.55, 0.65, 0.75, 0.85, 0.95]

  lemma CentresAscending()
    ensures |Centres| == 9 && Ascending(Centres)
  {
  }

  /** `energySrc`: the energy of the bin sampler the resolver picks,
      `binEnergy(k, rest)` standing for bin k's `energy` on the draws left
      after the coin. Outside the centres there is no coin. */
  function EnergySrc(lat: real, binEnergy: (nat, seq<real>) -> real, draws: seq<real>): (e: real)
    requires Resolve(Centres, ThetaM(lat)).Between? ==> |draws| >= 1
    ensures ThetaM(lat) < 0.15 ==> e == binEnergy(0, draws)
    ensures ThetaM(lat) >= 0.95 ==> e == binEnergy(8, draws)
  {
    CentresAscending();
    var theta := ThetaM(lat);
    if theta < 0.15 then
      EnergyBinBelow(Centres, theta, draws);
      binEnergy(0, draws)
    else if theta >= 0.95 then
      EnergyBinAbove(Centres, theta, draws);
      binEnergy(8, draws)
    else
      var (bin, rest) := EnergyBin(Centres, theta, draws);
      binEnergy(bin, rest)
  }

  /** Between centres i and i+1 one draw picks the bin: the lower iff
      `flat*(r1+r2) < r2`, with r1 and r2 the distances of |theta_M| to the
      two centres; the bin samples from the draws after it. */
  lemma EnergySrcBetween(lat: real, i: nat, binEnergy: (nat, seq<real>) -> real, draws: seq<real>)
    requires i < 8 && Centres[i] <= ThetaM(lat) < Centres[i + 1] && |draws| >= 1
    ensures var r1 := ThetaM(lat) - Centres[i];
            var r2 := Centres[i + 1] - ThetaM(lat);
            EnergySrc(lat, binEnergy, draws) == binEnergy(if draws[0] * (r1 + r2) < r2 then i else i + 1, draws[1..])
  {
    CentresAscending();
    EnergyBinAt(Centres, ThetaM(lat), i, draws);
  }

  /** `flux`: m_normalization times the downward flux of the bin, or the
      r2/r1-weighted blend of the two bins around |theta_M|; `fluxes[k]` is
      bin k's `downwardFlux`. */
  function Flux(lat: real, normalization: real, fluxes: seq<real>): (r: real)
    requires |fluxes| == 9
    ensures ThetaM(lat) < 0.15 ==> r == normalization * fluxes[0]
    ensures ThetaM(lat) >= 0.95 ==> r == normalization * fluxes[8]
  {
    CentresAscending();
    var theta := ThetaM(lat);
    if theta < 0.15 then
      FluxBelow(Centres, theta, normalization, fluxes);
      LatitudeBins.Flux(Centres, theta, normalization, fluxes)
    else if theta >= 0.95 then
      FluxAbove(Centres, theta, normalization, fluxes);
      LatitudeBins.Flux(Centres, theta, normalization, fluxes)
    else
      LatitudeBins.Flux(Centres, theta, normalization, fluxes)
  }

  /** Between centres i and i+1 the flux is the blend
      `(r2*F_lo + r1*F_hi)/(r1+r2)`. */
  lemma FluxBetween(lat: real, i: nat, normalization: real, fluxes: seq<real>)
    requires |fluxes| == 9
    requires i < 8 && Centres[i] <= ThetaM(lat) < Centres[i + 1]
    ensures var r1 := ThetaM(lat) - Centres[i];
            var r2 := Centres[i + 1] - ThetaM(lat);
            Flux(lat, normalization, fluxes) == normalization * ((r2 * fluxes[i] + r1 * fluxes[i + 1]) / (r1 + r2))
  {
    CentresAscending();
    FluxAt(Centres, ThetaM(lat), i, normalization, fluxes);
  }

  /** The blend lies between the two bin fluxes, and at a centre it is that
      bin's flux. */
  lemma FluxWithinBins(lat: real, i: nat, normalization: real, fluxes: seq<real>)
    requires |fluxes| == 9 && normalization >= 0.0
    requires i < 8 && Centres[i] <= ThetaM(lat) < Centres[i + 1]
    ensures fluxes[i] <= fluxes[i + 1] ==>
              normalization * fluxes[i] <= Flux(lat, normalization, fluxes) <= normalization * fluxes[i + 1]
    ensures fluxes[i + 1] <= fluxes[i] ==>
              normalization * fluxes[i + 1] <= Flux(lat, normalization, fluxes) <= normalization * fluxes[i]
    ensures ThetaM(lat) == Centres[i] ==> Flux(lat, normalization, fluxes) == normalization * fluxes[i]
  {
    CentresAscending();
    FluxBetweenBins(Centres, ThetaM(lat), i, normalization, fluxes);
  }

  /** `dir`: phi from the first draw; a second draw feeds an `acos` whose
      value is overwritten; then the resolver picks a bin, with a coin draw
      between two centres, and the bin's `theta` sampler, `binTheta(k,
      rest)`, gives the zenith angle. */
  function Dir(m: Math, lat: real, binTheta: (nat, seq<real>) -> real, draws: seq<real>): (r: Direction)
    requires |draws| >= 2
    requires Resolve(Centres, ThetaM(lat)).Between? ==> |draws| >= 3
    ensures r.phi == Azimuth(draws[0])
    ensures ThetaM(lat) < 0.15 ==> r.cosTheta == m.cos(binTheta(0, draws[2..]))
    ensures ThetaM(lat) >= 0.95 ==> r.cosTheta == m.cos(binTheta(8, draws[2..]))
  {
    CentresAscending();
    var phi := Azimuth(draws[0]);
    var theta := ThetaM(lat);
    if theta < 0.15 then
      EnergyBinBelow(Centres, theta, draws[2..]);
      Direction(m.cos(binTheta(0, draws[2..])), phi)
    else if theta >= 0.95 then
      EnergyBinAbove(Centres, theta, draws[2..]);
      Direction(m.cos(binTheta(8, draws[2..])), phi)
    else
      var (bin, rest) := EnergyBin(Centres, theta, draws[2..]);
      Direction(m.cos(binTheta(bin, rest)), phi)
  }

  /** `dir` resolves the bin as `energySrc` does: on the draws after its own
      two, it picks the same bin with the same coin, and leaves the same
      draws to the bin's sampler. */
  lemma DirUsesEnergyBin(m: Math, lat: real, binTheta: (nat, seq<real>) -> real,
                         binEnergy: (nat, seq<real>) -> real, draws: seq<real>)
    requires |draws| >= 3
    ensures var (k, rest) := EnergyBin(Centres, ThetaM(lat), draws[2..]);
            && Dir(m, lat, binTheta, draws).cosTheta == m.cos(binTheta(k, rest))
            && EnergySrc(lat, binEnergy, draws[2..]) == binEnergy(k, rest)
  {
    CentresAscending();
    var theta := ThetaM(lat);
    if theta < 0.15 {
      EnergyBinBelow(Centres, theta, draws[2..]);
    } else if theta >= 0.95 {
      EnergyBinAbove(Centres, theta, draws[2..]);
    }
  }

  /** The draw that feeds the overwritten `acos(flat)` has no effect on the
      direction. */
  lemma DirIgnoresSecondDraw(m: Math, lat: real, binTheta: (nat, seq<real>) -> real,
                             draws: seq<real>, u: real)
    requires |draws| >= 3
    ensures Dir(m, lat, binTheta, draws[1 := u]) == Dir(m, lat, binTheta, draws)
  {
    assert draws[1 := u][2..] == draws[2..];
  }

  /** Energy and flux depend on the latitude only through its size. */
  lemma HemispheresAlike(lat: real, binEnergy: (nat, seq<real>) -> real, draws: seq<real>,
                         normalization: real, fluxes: seq<real>)
    requires |draws| >= 1 && |fluxes| == 9
    ensures EnergySrc(-lat, binEnergy, draws) == EnergySrc(lat, binEnergy, draws)
    ensures Flux(-lat, normalization, fluxes) == Flux(lat, normalization, fluxes)
  {
    ThetaMIgnoresSign(lat);
  }

  /** `solidAngle`: the upper hemisphere. */
  function SolidAngle(): (r: real)
    ensures r == 2.0 * Pi
  {
    HemisphereSolidAngle()
  }

  /** `particleName`. */
  function ParticleName(): (r: string)
    ensures r == "proton"
  {
    "proton"
  }
}
