/** CrProtonPrimary: the primary (galactic) cosmic-ray protons. The energy
    limits of the generator are namespace globals that the constructor and
    every position or rigidity update recompute from the cutoff rigidity;
    the energy is drawn by a rejection loop over two envelopes (a chord below
    the cutoff energy, a power law above it); the flux is a clamped bilinear
    lookup in a 16 x 7 table of energy-integrated vertical fluxes indexed by
    cutoff rigidity and solar modulation potential. */
module ProtonPrimary {
  import opened Transcendental
  import opened Engine
  import opened Wrappers
  import opened Params
  import opened Directions
  import Spectrum
  import opened Interpolation

  /** Rest energy of the proton (GeV). */
  const RestE: real := 0.938
  /** Normalization and spectral index of the incident spectrum. */
  const APrimary: real := 23.9
  const AlphaPrimary: real := 2.83
  /** The upper energy limit every update sets (GeV). */
  const HighE: real := 100.0

  // ---------------------------------------------------------------------
  // Rigidity and kinetic energy

  /** `rigidity`: sqrt((E + m)^2 - m^2), in GV for E in GeV. */
  function Rigidity(m: Math, e: real): real
  {
    m.sqrt((e + RestE) * (e + RestE) - RestE * RestE)
  }

  /** `energy`: the kinetic energy for a rigidity, sqrt(R^2 + m^2) - m. */
  function KineticEnergy(m: Math, rigidity: real): real
  {
    m.sqrt(rigidity * rigidity + RestE * RestE) - RestE
  }

  /** sqrt(x * x) == x for x >= 0. */
  lemma SqrtOfSquare(m: Math, x: real)
    requires SqrtSquared(m) && SqrtIncreasing(m) && x >= 0.0
    ensures m.sqrt(x * x) == x
  {
    assert x * x >= 0.0;
    var s := m.sqrt(x * x);
    assert s >= 0.0 && s * s == x * x;
    if s < x {
      SquareStrict(s, x);
    } else if s > x {
      SquareStrict(x, s);
    }
  }

  lemma SquareStrict(a: real, b: real)
    requires 0.0 <= a < b
    ensures a * a < b * b
  {
    var p := a * a;
    var q := a * b;
    var r := b * b;
    assert p <= q;
    assert q < r;
  }

  /** `energy` undoes `rigidity` on non-negative kinetic energies. */
  lemma EnergyOfRigidity(m: Math, e: real)
    requires SqrtSquared(m) && SqrtIncreasing(m) && e >= 0.0
    ensures KineticEnergy(m, Rigidity(m, e)) == e
  {
    var y := (e + RestE) * (e + RestE) - RestE * RestE;
    assert y == e * (e + 2.0 * RestE) >= 0.0;
    var r := m.sqrt(y);
    assert r * r == y;
    assert r * r + RestE * RestE == (e + RestE) * (e + RestE);
    SqrtOfSquare(m, e + RestE);
  }

  /** A positive rigidity has a positive kinetic energy, growing with the
      rigidity. */
  lemma KineticEnergyIncreasing(m: Math, x: real, y: real)
    requires SqrtSquared(m) && SqrtIncreasing(m) && 0.0 <= x < y
    ensures 0.0 <= KineticEnergy(m, x) < KineticEnergy(m, y)
  {
    SqrtOfSquare(m, RestE);
    SquareStrict(x, y);
    assert x * x >= 0.0;
    assert RestE * RestE <= x * x + RestE * RestE < y * y + RestE * RestE;
  }

  // ---------------------------------------------------------------------
  // The energy limits (the namespace globals lowE_primary, highE_primary,
  // cutE_primary)

  datatype Bounds = Bounds(lowE: real, highE: real, cutE: real)

  /** The limits every update sets for a cutoff rigidity: from the energy
      of 0.4 times the rigidity, where the flux is taken as vanishing, to
      100 GeV, with the cutoff energy in between. */
  function BoundsFor(m: Math, cor: real): Bounds
  {
    Bounds(KineticEnergy(m, cor / 2.5), HighE, KineticEnergy(m, cor))
  }

  /** For a positive rigidity the lower envelope's interval is not empty,
      and for a rigidity up to 100 GV it lies below the upper limit. */
  lemma BoundsOrdered(m: Math, cor: real)
    requires SqrtSquared(m) && SqrtIncreasing(m) && cor > 0.0
    ensures var b := BoundsFor(m, cor);
            0.0 < b.lowE < b.cutE && b.highE == 100.0
    ensures cor <= 100.0 ==> BoundsFor(m, cor).cutE < BoundsFor(m, cor).highE
  {
    KineticEnergyIncreasing(m, 0.0, cor / 2.5);
    KineticEnergyIncreasing(m, cor / 2.5, cor);
    assert KineticEnergy(m, 0.0) == 0.0 by {
      SqrtOfSquare(m, RestE);
      assert 0.0 * 0.0 + RestE * RestE == RestE * RestE;
    }
    if cor <= 100.0 {
      var top := HighE + RestE;
      assert cor * cor <= 100.0 * cor <= 10000.0;
      assert cor * cor + RestE * RestE < top * top;
      SqrtOfSquare(m, top);
    }
  }

  // ---------------------------------------------------------------------
  // The spectrum

  /** Rigidity is positive for a positive kinetic energy. */
  lemma RigidityPositive(m: Math, e: real)
    requires SqrtIncreasing(m) && e > 0.0
    ensures Rigidity(m, e) > 0.0
  {
    var y := (e + RestE) * (e + RestE) - RestE * RestE;
    assert y == e * (e + 2.0 * RestE) > 0.0;
    assert m.sqrt(0.0) >= 0.0;
  }

  /** `geomag_cut`: 1 / (1 + (R(E) / cor)^-12). */
  function GeomagCut(m: Math, e: real, cor: real): real
    requires PowPositive(m) && SqrtIncreasing(m) && e > 0.0 && cor > 0.0
  {
    RigidityPositive(m, e);
    1.0 / (1.0 + m.pow(Rigidity(m, e) / cor, -12.0))
  }

  /** `org_spec`: A * R(E)^-a. */
  function OrgSpec(m: Math, e: real): real
  {
    APrimary * m.pow(Rigidity(m, e), -AlphaPrimary)
  }

  /** `mod_spec`: the force-field solar modulation of the unmodulated
      spectrum by the potential phi (MV). */
  function ModSpec(m: Math, e: real, phi: real): real
    requires e > 0.0 && phi >= 0.0
  {
    var shifted := e + RestE + phi * 0.001;
    assert shifted * shifted - RestE * RestE == (shifted - RestE) * (shifted + RestE) > 0.0;
    OrgSpec(m, e + phi * 0.001) * ((e + RestE) * (e + RestE) - RestE * RestE)
      / (shifted * shifted - RestE * RestE)
  }

  /** `primaryCRspec`: the modulated spectrum times the geomagnetic cutoff. */
  function PrimarySpec(m: Math, e: real, cor: real, phi: real): real
    requires PowPositive(m) && SqrtIncreasing(m) && e > 0.0 && cor > 0.0 && phi >= 0.0
  {
    ModSpec(m, e, phi) * GeomagCut(m, e, cor)
  }

  /** The cutoff factor is a suppression: strictly between 0 and 1. */
  lemma GeomagCutInUnit(m: Math, e: real, cor: real)
    requires PowPositive(m) && SqrtIncreasing(m) && e > 0.0 && cor > 0.0
    ensures 0.0 < GeomagCut(m, e, cor) < 1.0
  {
    RigidityPositive(m, e);
    var p := m.pow(Rigidity(m, e) / cor, -12.0);
    assert p > 0.0;
    assert GeomagCut(m, e, cor) == 1.0 / (1.0 + p);
  }

  /** The spectrum is positive and below the uncut modulated spectrum. */
  lemma PrimarySpecBelowModSpec(m: Math, e: real, cor: real, phi: real)
    requires PowPositive(m) && SqrtIncreasing(m) && e > 0.0 && cor > 0.0 && phi >= 0.0
    ensures 0.0 < PrimarySpec(m, e, cor, phi) < ModSpec(m, e, phi)
  {
    GeomagCutInUnit(m, e, cor);
    ModSpecPositive(m, e, phi);
    var s := ModSpec(m, e, phi);
    var g := GeomagCut(m, e, cor);
    var p := PrimarySpec(m, e, cor, phi);
    assert p == s * g;
    ShrinkBy(p, s, g);
  }

  /** The modulated spectrum is positive. */
  lemma ModSpecPositive(m: Math, e: real, phi: real)
    requires PowPositive(m) && SqrtIncreasing(m) && e > 0.0 && phi >= 0.0
    ensures ModSpec(m, e, phi) > 0.0
  {
    var shifted := e + RestE + phi * 0.001;
    var num := (e + RestE) * (e + RestE) - RestE * RestE;
    var den := shifted * shifted - RestE * RestE;
    assert num == e * (e + 2.0 * RestE) > 0.0;
    assert den == (shifted - RestE) * (shifted + RestE) > 0.0;
    var o := OrgSpec(m, e + phi * 0.001);
    OrgSpecPositive(m, e + phi * 0.001);
    assert ModSpec(m, e, phi) == o * num / den;
    PositiveQuotient(o, num, den);
  }

  /** The unmodulated spectrum is positive. */
  lemma OrgSpecPositive(m: Math, e: real)
    requires PowPositive(m) && SqrtIncreasing(m) && e > 0.0
    ensures OrgSpec(m, e) > 0.0
  {
    RigidityPositive(m, e);
  }

  lemma PositiveQuotient(a: real, b: real, d: real)
    requires a > 0.0 && b > 0.0 && d > 0.0
    ensures a * b / d > 0.0
  {
    assert a * b > 0.0;
  }

  lemma ShrinkBy(p: real, s: real, g: real)
    requires p == s * g && s > 0.0 && 0.0 < g < 1.0
    ensures 0.0 < p < s
  {
    ProductPositive(p, s, g);
    ProductBelow(p, s, g);
  }

  lemma ProductPositive(p: real, s: real, g: real)
    requires p == s * g && s > 0.0 && g > 0.0
    ensures 0.0 < p
  {
  }

  lemma ProductBelow(p: real, s: real, g: real)
    requires p == s * g && s > 0.0 && g < 1.0
    ensures p < s
  {
    MulLessLeft(s, g, 1.0);
  }

  /** The spectrum the sampler is handed is `primaryCRspec` at the current
      rigidity and potential. */
  ghost predicate SpecIs(m: Math, spec: real -> real, cor: real, phi: real)
  {
    PowPositive(m) && SqrtIncreasing(m) && cor > 0.0 && phi >= 0.0 &&
    forall e :: e > 0.0 ==> spec(e) == PrimarySpec(m, e, cor, phi)
  }

  // ---------------------------------------------------------------------
  // The two envelopes

  /** The slope of the chord through the spectrum at lowE and cutE. */
  function Coeff(b: Bounds, spec: real -> real): real
    requires b.cutE != b.lowE
  {
    (spec(b.cutE) - spec(b.lowE)) / (b.cutE - b.lowE)
  }

  /** `primaryCRenvelope1`: the chord, below the cutoff energy. */
  function Envelope1(b: Bounds, spec: real -> real, e: real): real
    requires b.cutE != b.lowE
  {
    Coeff(b, spec) * (e - b.lowE) + spec(b.lowE)
  }

  /** `primaryCRenvelope1_integral`, measured from lowE. */
  function Envelope1Integral(b: Bounds, spec: real -> real, e: real): real
    requires b.cutE != b.lowE
  {
    0.5 * Coeff(b, spec) * (e - b.lowE) * (e - b.lowE) + spec(b.lowE) * (e - b.lowE)
  }

  /** The lower envelope meets the spectrum at both ends of its interval,
      and its area is the trapezoid under that chord. */
  lemma EnvelopeOneIsChord(b: Bounds, spec: real -> real)
    requires b.cutE != b.lowE
    ensures Envelope1(b, spec, b.lowE) == spec(b.lowE)
    ensures Envelope1(b, spec, b.cutE) == spec(b.cutE)
    ensures Envelope1Integral(b, spec, b.lowE) == 0.0
    ensures Envelope1Integral(b, spec, b.cutE)
         == 0.5 * (spec(b.lowE) + spec(b.cutE)) * (b.cutE - b.lowE)
  {
    var w := b.cutE - b.lowE;
    var c := Coeff(b, spec);
    assert c * w == spec(b.cutE) - spec(b.lowE);
    assert 0.5 * c * w * w == 0.5 * (c * w) * w;
  }

  /** `primaryCRenvelope2`: A * E^-a, above the cutoff energy. */
  function Envelope2(m: Math, e: real): real
  {
    Spectrum.PowSpec(m, APrimary, AlphaPrimary, e)
  }

  /** `primaryCRenvelope2_integral`: A / (1 - a) * E^(1 - a). */
  function Envelope2Integral(m: Math, e: real): real
  {
    Spectrum.PowSpecIntegral(m, APrimary, AlphaPrimary, e)
  }

  /** `primaryCRenvelope2_integral_inv`: ((1 - a) / A * v)^(1 / (1 - a)). */
  function Envelope2IntegralInv(m: Math, v: real): real
  {
    m.pow((-AlphaPrimary + 1.0) / APrimary * v, 1.0 / (-AlphaPrimary + 1.0))
  }

  /** The inverse undoes the integral on positive energies. */
  lemma EnvelopeTwoRoundTrip(m: Math, e: real)
    requires ExpLog(m) && PowInverse(m) && e > 0.0
    ensures Envelope2IntegralInv(m, Envelope2Integral(m, e)) == e
  {
    var v := Envelope2Integral(m, e);
    Spectrum.PowSpecRoundTrip(m, APrimary, AlphaPrimary, e);
    Spectrum.PowSpecIntegralInvAt(m, APrimary, AlphaPrimary, v,
                         (-AlphaPrimary + 1.0) * v / APrimary, -1.0 / (AlphaPrimary - 1.0));
    assert (-AlphaPrimary + 1.0) / APrimary * v == (-AlphaPrimary + 1.0) * v / APrimary;
    assert 1.0 / (-AlphaPrimary + 1.0) == -1.0 / (AlphaPrimary - 1.0);
  }

  /** The upper envelope has a positive area over [cutE, highE]. */
  lemma EnvelopeTwoAreaPositive(m: Math, b: Bounds)
    requires PowMonotone(m) && LogIncreasing(m) && 0.0 < b.cutE < b.highE
    ensures Envelope2Integral(m, b.highE) - Envelope2Integral(m, b.cutE) > 0.0
  {
    Spectrum.PowerLawAreaPositive(m, APrimary, AlphaPrimary, b.cutE, b.highE);
  }

  // ---------------------------------------------------------------------
  // The rejection loop of primaryCRenergy

  /** `flat * (hi - lo) + lo`: a draw carried onto the interval from lo
      towards hi. */
  function Uniform(lo: real, hi: real, u: real): real
  {
    u * (hi - lo) + lo
  }

  /** The lower branch's proposal: the larger of two uniform energies in
      [lowE, cutE], so that its density rises linearly like the chord. */
  function LowerProposal(b: Bounds, u1: real, u2: real): real
  {
    var e1 := Uniform(b.lowE, b.cutE, u1);
    var e2 := Uniform(b.lowE, b.cutE, u2);
    if e1 > e2 then e1 else e2
  }

  lemma LowerProposalInRange(b: Bounds, u1: real, u2: real)
    requires IsFlat(u1) && IsFlat(u2) && b.lowE < b.cutE
    ensures b.lowE <= LowerProposal(b, u1, u2) < b.cutE
  {
    UniformInInterval(b.lowE, b.cutE, u1);
    UniformInInterval(b.lowE, b.cutE, u2);
  }

  /** A uniform energy lies in [lo, hi). */
  lemma UniformInInterval(lo: real, hi: real, u: real)
    requires IsFlat(u) && lo < hi
    ensures lo <= Uniform(lo, hi, u) < hi
  {
    var x := Uniform(lo, hi, u);
    UniformAboveLow(lo, hi, u);
    UniformBelowHigh(lo, hi, u);
    assert x == u * (hi - lo) + lo;
  }

  lemma UniformAboveLow(lo: real, hi: real, u: real)
    requires IsFlat(u) && lo < hi
    ensures lo <= u * (hi - lo) + lo
  {
    MulNonNegative(u, hi - lo);
  }

  lemma UniformBelowHigh(lo: real, hi: real, u: real)
    requires IsFlat(u) && lo < hi
    ensures u * (hi - lo) + lo < hi
  {
    MulLess(u, 1.0, hi - lo);
  }

  /** A draw carried from hi down towards lo lies in (lo, hi]. */
  lemma UniformFromTop(lo: real, hi: real, u: real)
    requires IsFlat(u) && lo < hi
    ensures lo < Uniform(hi, lo, u) <= hi
  {
    UniformBelowHigh(lo, hi, u);
    UniformAboveLow(lo, hi, u);
    MulReversed(u, lo, hi);
    var t := u * (hi - lo);
    assert 0.0 <= t < hi - lo;
    assert Uniform(hi, lo, u) == hi - t;
  }

  lemma MulReversed(u: real, lo: real, hi: real)
    ensures u * (lo - hi) == -(u * (hi - lo))
  {
  }

  lemma MulLess(u: real, v: real, w: real)
    requires u < v && w > 0.0
    ensures u * w < v * w
  {
  }

  lemma MulLessLeft(w: real, u: real, v: real)
    requires u < v && w > 0.0
    ensures w * u < w * v
  {
  }

  lemma MulNonNegative(u: real, w: real)
    requires u >= 0.0 && w >= 0.0
    ensures u * w >= 0.0
  {
  }

  /** The upper branch's proposal: the inverse integral of the power-law
      envelope at a uniform point between its values at cutE and highE. */
  function UpperProposal(m: Math, b: Bounds, u: real): real
  {
    Envelope2IntegralInv(m, Uniform(Envelope2Integral(m, b.cutE), Envelope2Integral(m, b.highE), u))
  }

  /** One pass of the `while(1)` of primaryCRenergy: a draw for the branch
      (lower with probability area1 / (area1 + area2)), the proposal, and a
      draw for the acceptance test spec(E) / envelope(E). */
  function TryOnce(m: Math, b: Bounds, spec: real -> real, draws: seq<real>): (a: Attempt)
    requires b.cutE != b.lowE
    ensures a.Accepted? || a.Rejected? ==> |a.rest| < |draws| && a.rest == draws[|draws| - |a.rest|..]
    ensures a.Accepted? ==>
              (|draws| >= 4 && a.value == LowerProposal(b, draws[1], draws[2])) ||
              (|draws| >= 3 && a.value == UpperProposal(m, b, draws[1]))
  {
    var area1 := Envelope1Integral(b, spec, b.cutE) - Envelope1Integral(b, spec, b.lowE);
    var area2 := Envelope2Integral(m, b.highE) - Envelope2Integral(m, b.cutE);
    if |draws| < 1 then Exhausted
    else if area1 + area2 == 0.0 then Undefined
    else if draws[0] <= area1 / (area1 + area2) then
      if |draws| < 4 then Exhausted
      else
        var e := LowerProposal(b, draws[1], draws[2]);
        var env := Envelope1(b, spec, e);
        if env == 0.0 then Undefined
        else if draws[3] <= spec(e) / env then Accepted(e, draws[4..])
        else Rejected(draws[4..])
    else
      if |draws| < 3 then Exhausted
      else
        var e := UpperProposal(m, b, draws[1]);
        var env := Envelope2(m, e);
        if env == 0.0 then Undefined
        else if draws[2] <= spec(e) / env then Accepted(e, draws[3..])
        else Rejected(draws[3..])
  }

  /** Passes repeat until one is accepted; None when the draws run out or a
      pass would divide by zero. */
  function Attempts(m: Math, b: Bounds, spec: real -> real, draws: seq<real>): (r: Option<(real, seq<real>)>)
    requires b.cutE != b.lowE
    ensures r.Some? ==> |r.value.1| < |draws| && r.value.1 == draws[|draws| - |r.value.1|..]
    decreases |draws|
  {
    match TryOnce(m, b, spec, draws)
    case Accepted(e, rest) => Some((e, rest))
    case Rejected(rest) =>
      var r := Attempts(m, b, spec, rest);
      assert r.Some? ==> r.value.1 == draws[|draws| - |r.value.1|..] by {
        if r.Some? {
          var left := r.value.1;
          assert left == rest[|rest| - |left|..];
          assert rest == draws[|draws| - |rest|..];
        }
      }
      r
    case Exhausted => None
    case Undefined => None
  }

  /** `primaryCRenergy`: the chord's slope divides by cutE - lowE before
      the loop starts. */
  function Sample(m: Math, b: Bounds, spec: real -> real, draws: seq<real>): (r: Option<(real, seq<real>)>)
    ensures r.Some? ==> |r.value.1| < |draws| && r.value.1 == draws[|draws| - |r.value.1|..]
  {
    if b.cutE == b.lowE then None else Attempts(m, b, spec, draws)
  }

  /** `primaryCRenergy` as the loop the source runs. */
  method PrimaryCREnergy(m: Math, b: Bounds, spec: real -> real, draws: seq<real>)
    returns (res: Option<(real, seq<real>)>)
    ensures res == Sample(m, b, spec, draws)
  {
    if b.cutE == b.lowE {
      return None;
    }
    var d := draws;
    while true
      invariant Attempts(m, b, spec, d) == Attempts(m, b, spec, draws)
      decreases |d|
    {
      var t := TryOnce(m, b, spec, d);
      match t {
        case Accepted(e, rest) =>
          return Some((e, rest));
        case Rejected(rest) =>
          d := rest;
        case Exhausted =>
          return None;
        case Undefined =>
          return None;
      }
    }
  }

  /** An energy is one of the two envelopes' proposals: from the lower
      interval [lowE, cutE), or the inverse integral of the upper envelope
      at a uniform draw. */
  ghost predicate Proposed(m: Math, b: Bounds, e: real)
  {
    (b.lowE <= e < b.cutE) || exists u :: IsFlat(u) && e == UpperProposal(m, b, u)
  }

  /** The upper proposal in closed form: with p = 1 - a, the draw's point
      between cutE^p and highE^p raised to 1 / p. */
  lemma UpperProposalForm(m: Math, b: Bounds, u: real)
    ensures var p := -AlphaPrimary + 1.0;
            UpperProposal(m, b, u) == m.pow(Uniform(m.pow(b.cutE, p), m.pow(b.highE, p), u), 1.0 / p)
  {
    var p := -AlphaPrimary + 1.0;
    var lo := Envelope2Integral(m, b.cutE);
    var hi := Envelope2Integral(m, b.highE);
    var v := Uniform(lo, hi, u);
    var xc := m.pow(b.cutE, p);
    var xh := m.pow(b.highE, p);
    assert UpperProposal(m, b, u) == Envelope2IntegralInv(m, v);
    EnvelopeTwoFactors(m, b.cutE, v);
    EnvelopeTwoFactors(m, b.highE, v);
    EnvelopeTwoFactorsCancel();
    ScaledBack(p / APrimary, APrimary / p, xc, xh, lo, hi, u);
    assert Envelope2IntegralInv(m, v) == m.pow(p / APrimary * v, 1.0 / p);
    assert p / APrimary * v == Uniform(xc, xh, u);
    assert m.pow(p / APrimary * v, 1.0 / p) == m.pow(Uniform(xc, xh, u), 1.0 / p);
    assert UpperProposal(m, b, u) == m.pow(Uniform(xc, xh, u), 1.0 / p);
  }

  /** The integral and its inverse as a factor A / p and its reciprocal,
      with p = 1 - a. */
  lemma EnvelopeTwoFactors(m: Math, e: real, v: real)
    ensures Envelope2Integral(m, e) == APrimary / (-AlphaPrimary + 1.0) * m.pow(e, -AlphaPrimary + 1.0)
    ensures Envelope2IntegralInv(m, v) == m.pow((-AlphaPrimary + 1.0) / APrimary * v, 1.0 / (-AlphaPrimary + 1.0))
  {
  }

  lemma EnvelopeTwoFactorsCancel()
    ensures (-AlphaPrimary + 1.0) / APrimary * (APrimary / (-AlphaPrimary + 1.0)) == 1.0
  {
  }

  /** Undoing a factor c: with k c = 1, k times the draw's point between
      c xc and c xh is its point between xc and xh. */
  lemma ScaledBack(k: real, c: real, xc: real, xh: real, lo: real, hi: real, u: real)
    requires k * c == 1.0 && lo == c * xc && hi == c * xh
    ensures k * Uniform(lo, hi, u) == Uniform(xc, xh, u)
  {
    var d := xc - xh;
    assert Uniform(lo, hi, u) == c * (xc - u * d);
    assert k * (c * (xc - u * d)) == (k * c) * (xc - u * d);
  }

  /** The upper proposal lies in [cutE, highE): the inverse reverses the
      order of the falling E^(1 - a), so the draw's point between the
      integrals at cutE and highE comes back between the two energies. */
  lemma UpperProposalInRange(m: Math, b: Bounds, u: real)
    requires PowPositive(m) && PowMonotone(m) && PowInverse(m)
    requires IsFlat(u) && 0.0 < b.cutE < b.highE
    ensures b.cutE <= UpperProposal(m, b, u) < b.highE
  {
    var p := -AlphaPrimary + 1.0;
    var q := 1.0 / p;
    assert p * q == 1.0;
    var xc := m.pow(b.cutE, p);
    var xh := m.pow(b.highE, p);
    assert 0.0 < xh < xc;
    UpperProposalForm(m, b, u);
    var y := Uniform(xc, xh, u);
    UniformFromTop(xh, xc, u);
    assert m.pow(xc, q) == b.cutE;
    assert m.pow(xh, q) == b.highE;
    assert m.pow(y, q) < m.pow(xh, q);
    if y < xc {
      assert m.pow(y, q) > m.pow(xc, q);
    }
  }

  /** Whatever the loop returns is a proposal of the pass that accepted it,
      and what is left of the draws is a suffix of them. */
  lemma {:induction false} AttemptsReturnProposal(m: Math, b: Bounds, spec: real -> real, draws: seq<real>)
    requires b.lowE < b.cutE && AllFlat(draws)
    requires Attempts(m, b, spec, draws).Some?
    ensures Proposed(m, b, Attempts(m, b, spec, draws).value.0)
    ensures var rest := Attempts(m, b, spec, draws).value.1;
            |rest| < |draws| && rest == draws[|draws| - |rest|..]
    decreases |draws|
  {
    var t := TryOnce(m, b, spec, draws);
    match t {
      case Accepted(e, rest) =>
        if |draws| >= 4 && e == LowerProposal(b, draws[1], draws[2]) {
          LowerProposalInRange(b, draws[1], draws[2]);
        } else {
          assert IsFlat(draws[1]) && e == UpperProposal(m, b, draws[1]);
        }
      case Rejected(rest) =>
        assert AllFlat(rest) by {
          forall i | 0 <= i < |rest|
            ensures IsFlat(rest[i])
          {
            assert rest[i] == draws[|draws| - |rest| + i];
          }
        }
        AttemptsReturnProposal(m, b, spec, rest);
        var rest' := Attempts(m, b, spec, rest).value.1;
        assert rest' == draws[|draws| - |rest'|..];
    }
  }

  /** The energy the sampler returns for the limits of a positive rigidity
      is a proposal of one of the two envelopes. */
  lemma SampleReturnsProposal(m: Math, cor: real, spec: real -> real, draws: seq<real>)
    requires SqrtSquared(m) && SqrtIncreasing(m) && cor > 0.0 && AllFlat(draws)
    ensures Sample(m, BoundsFor(m, cor), spec, draws).Some? ==>
              Proposed(m, BoundsFor(m, cor), Sample(m, BoundsFor(m, cor), spec, draws).value.0)
  {
    BoundsOrdered(m, cor);
    if Sample(m, BoundsFor(m, cor), spec, draws).Some? {
      AttemptsReturnProposal(m, BoundsFor(m, cor), spec, draws);
    }
  }

  /** For a cutoff rigidity up to 100 GV every sampled energy lies between
      the lower and the upper limit. */
  lemma SampleWithinLimits(m: Math, cor: real, spec: real -> real, draws: seq<real>)
    requires SqrtSquared(m) && SqrtIncreasing(m) && PowPositive(m) && PowMonotone(m) && PowInverse(m)
    requires 0.0 < cor <= 100.0 && AllFlat(draws)
    ensures var b := BoundsFor(m, cor);
            Sample(m, b, spec, draws).Some? ==>
              b.lowE <= Sample(m, b, spec, draws).value.0 < b.highE
  {
    var b := BoundsFor(m, cor);
    BoundsOrdered(m, cor);
    SampleReturnsProposal(m, cor, spec, draws);
    if Sample(m, b, spec, draws).Some? {
      var e := Sample(m, b, spec, draws).value.0;
      if !(b.lowE <= e < b.cutE) {
        var u :| IsFlat(u) && e == UpperProposal(m, b, u);
        UpperProposalInRange(m, b, u);
      }
    }
  }

  // ---------------------------------------------------------------------
  // The flux table

  /** `integral_array[16][7]` in row-major order: rows for a cutoff rigidity
      of 0.5, 1, 2, ..., 15 GV, columns for a solar potential of 500, 600,
      ..., 1100 MV; vertical flux integrated over [lowE, highE]
      (c/s/m^2/sr). */
  const Table: seq<real> := [
    3817.0, 3083.0, 2549.0, 2147.0, 1836.0, 1589.0, 1390.0,
    3077.0, 2575.0, 2188.0, 1883.0, 1638.0, 1438.0, 1272.0,
    1744.0, 1546.0, 1380.0, 1239.0, 1118.0, 1013.0, 922.2,
    1069.0, 978.3, 898.3, 827.4, 764.3, 707.9, 657.3,
    717.6, 669.1, 625.1, 585.2, 548.7, 515.5, 485.0,
    515.1, 486.1, 459.4, 434.8, 411.9, 390.8, 371.1,
    388.2, 369.5, 352.0, 335.7, 320.5, 306.2, 292.8,
    303.4, 290.6, 278.6, 267.3, 256.5, 246.4, 236.9,
    243.9, 234.8, 226.1, 217.9, 210.1, 202.7, 195.6,
    200.5, 193.8, 187.3, 181.2, 175.3, 169.7, 164.3,
    167.9, 162.7, 157.8, 153.1, 148.5, 144.2, 140.0,
    142.7, 138.6, 134.8, 131.1, 127.5, 124.0, 120.7,
    122.8, 119.6, 116.5, 113.5, 110.6, 107.9, 105.2,
    106.8, 104.2, 101.7, 99.3, 96.9, 94.6, 92.5,
    93.7, 91.6, 89.5, 87.5, 85.6, 83.7, 81.9,
    82.9, 81.2, 79.4, 77.8, 76.2, 74.6, 73.1]

  const Rows: nat := 16
  const Columns: nat := 7

  /** A row-major table of the shape of `integral_array`. The lookup and
      its lemmas hold for any such table; `Table` is one. */
  predicate Shaped(tab: seq<real>)
  {
    |tab| == Rows * Columns
  }

  lemma TableShaped()
    ensures Shaped(Table)
  {
  }

  /** `integral_array[row][col]`. */
  function Entry(tab: seq<real>, row: nat, col: nat): real
    requires Shaped(tab) && row < Rows && col < Columns
  {
    tab[Columns * row + col]
  }

  /** The source's two sequential `if` overrides. */
  function Clamp(x: real, lo: real, hi: real): (r: real)
    requires lo <= hi
    ensures lo <= r <= hi
    ensures lo <= x <= hi ==> r == x
  {
    if x < lo then lo else if x > hi then hi else x
  }

  /** The rigidity the lookup uses: clamped to [0.5, 14.9] GV. */
  function ClampedCor(cor: real): real
  {
    Clamp(cor, 0.5, 14.9)
  }

  /** The column coordinate: the potential clamped to [500, 1100] MV, then
      `phi / 100 - 5`, so that 500 MV is column 0 and 1100 MV column 6. */
  function ColumnCoordinate(phi: real): (p: real)
    ensures 0.0 <= p <= 6.0
    ensures p == 6.0 <==> phi >= 1100.0
  {
    Clamp(phi, 500.0, 1100.0) / 100.0 - 5.0
  }

  /** The lower row and the weight of the row above it: `int(cor)` and
      `cor - int(cor)` from 1 GV up, row 0 and `2 cor - 1` below 1 GV (row
      0 is 0.5 GV, row 1 is 1 GV). */
  function RowWeight(c: real): (r: (nat, real))
    requires 0.5 <= c <= 14.9
    ensures r.0 <= 14 && 0.0 <= r.1 < 1.0
    ensures c >= 1.0 ==> r.0 >= 1 && r.0 as real + r.1 == c
    ensures c < 1.0 ==> r.0 == 0 && r.1 == 2.0 * c - 1.0
  {
    if c >= 1.0 then (Trunc(c) as nat, c - Trunc(c) as real) else (0, 2.0 * c - 1.0)
  }

  /** The column and weight as written: `int(phi)` and `phi - int(phi)`. */
  function ColumnWeightAsWritten(p: real): (r: (nat, real))
    requires 0.0 <= p <= 6.0
    ensures r.0 <= 6 && 0.0 <= r.1 < 1.0 && r.0 as real + r.1 == p
    ensures r.0 == 6 <==> p == 6.0
  {
    (Trunc(p) as nat, p - Trunc(p) as real)
  }

  /** The corrected column: the last cell starts at column 5, so that the
      top of the range is column 6 with weight 1. */
  function ColumnWeight(p: real): (r: (nat, real))
    requires 0.0 <= p <= 6.0
    ensures r.0 <= 5 && 0.0 <= r.1 <= 1.0 && r.0 as real + r.1 == p
    ensures p < 6.0 ==> r == ColumnWeightAsWritten(p)
  {
    var (j, s) := ColumnWeightAsWritten(p);
    if j == 6 then (5, 1.0) else (j, s)
  }

  /** Bilinear interpolation in the cell with lower corner (i, j). */
  function Cell(tab: seq<real>, i: nat, j: nat, t: real, s: real): real
    requires Shaped(tab) && i + 1 < Rows && j + 1 < Columns
  {
    Lerp(Lerp(Entry(tab, i, j), Entry(tab, i + 1, j), t),
         Lerp(Entry(tab, i, j + 1), Entry(tab, i + 1, j + 1), t), s)
  }

  /** `flux()` as written: at the clamp value 1100 MV the second column is
      `int(phi) + 1 == 7`, past the end of a 7-column row; the model gives
      None for that read. */
  function FluxAsWritten(tab: seq<real>, cor: real, phi: real): (r: Option<real>)
    requires Shaped(tab)
    ensures r.None? <==> phi >= 1100.0
  {
    var (i, t) := RowWeight(ClampedCor(cor));
    var (j, s) := ColumnWeightAsWritten(ColumnCoordinate(phi));
    if j + 1 >= Columns then None
    else Some(0.5 * Cell(tab, i, j, t, s))
  }

  /** `flux()` with the column index kept inside the table: half the
      interpolated energy integral (the upper hemisphere over 4 pi). */
  function Flux(tab: seq<real>, cor: real, phi: real): (r: real)
    requires Shaped(tab)
    ensures FluxAsWritten(tab, cor, phi).Some? ==> r == FluxAsWritten(tab, cor, phi).value
  {
    var (i, t) := RowWeight(ClampedCor(cor));
    var (j, s) := ColumnWeight(ColumnCoordinate(phi));
    0.5 * Cell(tab, i, j, t, s)
  }

  /** Every potential at or above 1100 MV reads column 7. */
  lemma ColumnSevenRead(tab: seq<real>, cor: real, phi: real)
    requires Shaped(tab) && phi >= 1100.0
    ensures ColumnWeightAsWritten(ColumnCoordinate(phi)).0 + 1 == 7
    ensures FluxAsWritten(tab, cor, phi) == None
  {
  }

  /** Below 1100 MV the corrected lookup is the one written. */
  lemma FluxAgreesBelowTop(tab: seq<real>, cor: real, phi: real)
    requires Shaped(tab) && phi < 1100.0
    ensures FluxAsWritten(tab, cor, phi) == Some(Flux(tab, cor, phi))
  {
  }

  /** At 1100 MV and above the corrected lookup takes column 6 alone,
      which is what the written code's weight of 0 on column 7 means. */
  lemma FluxAtTopColumn(tab: seq<real>, cor: real, phi: real)
    requires Shaped(tab) && phi >= 1100.0
    ensures var (i, t) := RowWeight(ClampedCor(cor));
            Flux(tab, cor, phi) == 0.5 * Lerp(Entry(tab, i, 6), Entry(tab, i + 1, 6), t)
  {
    var (i, t) := RowWeight(ClampedCor(cor));
    LerpBetween(Lerp(Entry(tab, i, 5), Entry(tab, i + 1, 5), t),
                Lerp(Entry(tab, i, 6), Entry(tab, i + 1, 6), t), 1.0);
  }

  /** Out-of-range rigidities and potentials read the table at the clamp
      values. */
  lemma FluxClamps(tab: seq<real>, cor: real, phi: real)
    requires Shaped(tab)
    ensures cor < 0.5 ==> Flux(tab, cor, phi) == Flux(tab, 0.5, phi)
    ensures cor > 14.9 ==> Flux(tab, cor, phi) == Flux(tab, 14.9, phi)
    ensures phi < 500.0 ==> Flux(tab, cor, phi) == Flux(tab, cor, 500.0)
    ensures phi > 1100.0 ==> Flux(tab, cor, phi) == Flux(tab, cor, 1100.0)
  {
  }

  /** On a grid column the column weight selects that column alone. */
  lemma GridColumn(tab: seq<real>, i: nat, t: real, col: nat)
    requires Shaped(tab) && i + 1 < Rows && col < Columns
    ensures var (j, s) := ColumnWeight(col as real);
            Cell(tab, i, j, t, s) == Lerp(Entry(tab, i, col), Entry(tab, i + 1, col), t)
  {
    var (j, s) := ColumnWeight(col as real);
    var a := Lerp(Entry(tab, i, j), Entry(tab, i + 1, j), t);
    var b := Lerp(Entry(tab, i, j + 1), Entry(tab, i + 1, j + 1), t);
    if col == 6 {
      assert j == 5 && s == 1.0;
      LerpBetween(a, b, 1.0);
    } else {
      assert j == col && s == 0.0;
      LerpBetween(a, b, 0.0);
    }
  }

  /** The potential 500 + 100 col MV is column col. */
  lemma GridPotential(col: nat)
    requires col < Columns
    ensures ColumnCoordinate(500.0 + 100.0 * col as real) == col as real
  {
  }

  /** On the grid, 1 to 14 GV and 500 to 1100 MV in steps of 100, the flux
      is half the table entry. */
  lemma FluxAtGrid(tab: seq<real>, row: nat, col: nat)
    requires Shaped(tab) && 1 <= row <= 14 && col < Columns
    ensures Flux(tab, row as real, 500.0 + 100.0 * col as real) == 0.5 * Entry(tab, row, col)
  {
    GridPotential(col);
    assert RowWeight(ClampedCor(row as real)) == (row, 0.0);
    GridColumn(tab, row, 0.0, col);
    LerpBetween(Entry(tab, row, col), Entry(tab, row + 1, col), 0.0);
  }

  /** At 0.5 GV and below the flux is half the first row's entries on the
      potential grid. */
  lemma FluxAtFirstRow(tab: seq<real>, cor: real, col: nat)
    requires Shaped(tab) && cor <= 0.5 && col < Columns
    ensures Flux(tab, cor, 500.0 + 100.0 * col as real) == 0.5 * Entry(tab, 0, col)
  {
    GridPotential(col);
    assert RowWeight(ClampedCor(cor)) == (0, 0.0);
    GridColumn(tab, 0, 0.0, col);
    LerpBetween(Entry(tab, 0, col), Entry(tab, 1, col), 0.0);
  }

  /** The flux lies between half the smallest and half the largest of the
      four table entries around the clamped point. */
  lemma FluxWithinCell(tab: seq<real>, cor: real, phi: real)
    requires Shaped(tab)
    ensures var (i, t) := RowWeight(ClampedCor(cor));
            var (j, s) := ColumnWeight(ColumnCoordinate(phi));
            var lo := Min(Min(Entry(tab, i, j), Entry(tab, i + 1, j)), Min(Entry(tab, i, j + 1), Entry(tab, i + 1, j + 1)));
            var hi := Max(Max(Entry(tab, i, j), Entry(tab, i + 1, j)), Max(Entry(tab, i, j + 1), Entry(tab, i + 1, j + 1)));
            0.5 * lo <= Flux(tab, cor, phi) <= 0.5 * hi
  {
    var (i, t) := RowWeight(ClampedCor(cor));
    var (j, s) := ColumnWeight(ColumnCoordinate(phi));
    var a := Lerp(Entry(tab, i, j), Entry(tab, i + 1, j), t);
    var b := Lerp(Entry(tab, i, j + 1), Entry(tab, i + 1, j + 1), t);
    LerpBetween(Entry(tab, i, j), Entry(tab, i + 1, j), t);
    LerpBetween(Entry(tab, i, j + 1), Entry(tab, i + 1, j + 1), t);
    LerpBetween(a, b, s);
  }

  // ---------------------------------------------------------------------
  // The generator object

  /** The namespace globals lowE_primary, highE_primary and cutE_primary:
      one set shared by every CrProtonPrimary. */
  class EnergyLimits {
    var lowE: real
    var highE: real
    var cutE: real

    /** Static storage starts at zero. */
    constructor ()
      ensures lowE == 0.0 && highE == 0.0 && cutE == 0.0
    {
      lowE := 0.0;
      highE := 0.0;
      cutE := 0.0;
    }

    function Current(): Bounds
      reads this
    {
      Bounds(lowE, highE, cutE)
    }

    /** The assignments every update makes. */
    method Recompute(m: Math, cor: real)
      modifies this
      ensures Current() == BoundsFor(m, cor)
    {
      lowE := KineticEnergy(m, cor / 2.5);
      highE := HighE;
      cutE := KineticEnergy(m, cor);
    }
  }

  class ProtonPrimary {
    /** m_cutOffRigidity (GV), kept by the CrSpectrum base. */
    var cutOffRigidity: real
    /** m_solarWindPotential (MV), kept by the CrSpectrum base. */
    var solarWindPotential: real
    /** The shared globals. */
    const limits: EnergyLimits

    /** The constructor: the base has set the rigidity and potential; the
        limits are recomputed from the rigidity. */
    constructor (m: Math, limits: EnergyLimits, cor: real, phi: real)
      modifies limits
      ensures this.limits == limits
      ensures cutOffRigidity == cor && solarWindPotential == phi
      ensures limits.Current() == BoundsFor(m, cor)
    {
      this.limits := limits;
      cutOffRigidity := cor;
      solarWindPotential := phi;
      new;
      limits.Recompute(m, cor);
    }

    /** `setCutOffRigidity`: the rigidity, then the limits. */
    method SetCutOffRigidity(m: Math, cor: real)
      modifies this, limits
      ensures cutOffRigidity == cor && solarWindPotential == old(solarWindPotential)
      ensures limits.Current() == BoundsFor(m, cor)
    {
      cutOffRigidity := cor;
      limits.Recompute(m, cor);
    }

    /** `setPosition` (each of its three overloads): the base computes the
        rigidity at the position, here the function `corAt`; then the
        limits follow it. */
    method SetPosition(m: Math, corAt: (real, real) -> real, latitude: real, longitude: real)
      modifies this, limits
      ensures cutOffRigidity == corAt(latitude, longitude)
      ensures solarWindPotential == old(solarWindPotential)
      ensures limits.Current() == BoundsFor(m, cutOffRigidity)
    {
      cutOffRigidity := corAt(latitude, longitude);
      limits.Recompute(m, cutOffRigidity);
    }

    /** `energySrc`: primaryCRenergy at the current limits and spectrum. */
    method EnergySrc(m: Math, spec: real -> real, draws: seq<real>) returns (res: Option<(real, seq<real>)>)
      requires SpecIs(m, spec, cutOffRigidity, solarWindPotential)
      ensures res == Sample(m, limits.Current(), spec, draws)
    {
      res := PrimaryCREnergy(m, limits.Current(), spec, draws);
    }

    /** `dir`: theta = acos(flat), phi = 2 pi flat, downward. */
    function Dir(m: Math, draws: seq<real>): (r: (Direction, seq<real>))
      requires |draws| >= 2
      ensures CosAcos(m) && IsFlat(draws[0]) ==> 0.0 <= r.0.cosTheta < 1.0 && r.0.cosTheta == draws[0]
      ensures IsFlat(draws[1]) ==> 0.0 <= r.0.phi < 2.0 * Pi
      ensures r.1 == draws[2..]
    {
      Downward(m, draws)
    }

    /** `flux()`. */
    function FluxNow(): (r: real)
      reads this
      ensures r == Flux(Table, cutOffRigidity, solarWindPotential)
    {
      TableShaped();
      Flux(Table, cutOffRigidity, solarWindPotential)
    }

    /** `solidAngle`: the upper hemisphere. */
    function SolidAngle(): (r: real)
      ensures r == 2.0 * Pi
    {
      HemisphereSolidAngle()
    }
  }
}
