/** The spectral shapes and the piecewise inverse-transform sampler that
    the per-latitude-bin generators of CrElectronSubSplash.cxx and
    CrPositronSubReentrant.cxx are built from. Both files carry the same
    helper functions in an anonymous namespace; they are defined once here.
    A bin is a sequence of segments in ascending energy; `energy` chooses a
    segment by its share of the total area, inverts the segment's integral
    at a second draw and, for a cutoff power law drawn from its power-law
    envelope, accepts or rejects with a third draw. */
module Spectrum {
  import opened Transcendental
  import opened Engine
  import opened Sums
  import opened Wrappers

  // ---------------------------------------------------------------------
  // Spectral helpers. envelopeCutOffPowSpec, envelopeCutOffPowSpec_integral
  // and envelopeCutOffPowSpec_integral_inv have the same bodies as powSpec,
  // powSpec_integral and powSpec_integral_inv and are not repeated.

  /** powSpec: norm * E^-index. */
  function PowSpec(m: Math, norm: real, index: real, e: real): (r: real)
    ensures PowPositive(m) && norm > 0.0 && e > 0.0 ==> r > 0.0
  {
    norm * m.pow(e, -index)
  }

  /** powSpec_integral: the antiderivative of powSpec, with the log branch
      for index 1. */
  function PowSpecIntegral(m: Math, norm: real, index: real, e: real): real
  {
    if index == 1.0 then norm * m.log(e)
    else norm / (-index + 1.0) * m.pow(e, -index + 1.0)
  }

  /** powSpec_integral_inv: the inverse of powSpec_integral, with the exp
      branch for index 1. */
  function PowSpecIntegralInv(m: Math, norm: real, index: real, value: real): real
    requires norm != 0.0
  {
    if index == 1.0 then m.exp(value / norm)
    else m.pow((-index + 1.0) * value / norm, -1.0 / (index - 1.0))
  }

  /** cutOffPowSpec: norm * E^-index * exp(-E/cutOff). */
  function CutOffPowSpec(m: Math, norm: real, index: real, cutOff: real, e: real): real
    requires cutOff != 0.0
  {
    norm * m.pow(e, -index) * m.exp(-e / cutOff)
  }

  /** cutOffPowSpec2: norm * E^-index * exp(-(E/cutOff)^(1-index)). */
  function CutOffPowSpec2(m: Math, norm: real, index: real, cutOff: real, e: real): real
    requires cutOff != 0.0
  {
    norm * m.pow(e, -index) * m.exp(-m.pow(e / cutOff, -index + 1.0))
  }

  /** cutOffPowSpec2_integral. */
  function CutOffPowSpec2Integral(m: Math, norm: real, index: real, cutOff: real, e: real): real
    requires cutOff != 0.0 && index != 1.0
  {
    norm / (index - 1.0) * m.pow(cutOff, -index + 1.0) * m.exp(-m.pow(e / cutOff, -index + 1.0))
  }

  /** cutOffPowSpec2_integral_inv. */
  function CutOffPowSpec2IntegralInv(m: Math, norm: real, index: real, cutOff: real, value: real): real
    requires index != 1.0 && norm != 0.0 && m.pow(cutOff, -index + 1.0) != 0.0
  {
    cutOff * m.pow(-m.log((index - 1.0) * value / norm / m.pow(cutOff, -index + 1.0)),
                   1.0 / (-index + 1.0))
  }

  /** The power-law integral and its inverse are inverse to each other on
      positive energies, in both branches. */
  lemma PowSpecRoundTrip(m: Math, norm: real, index: real, e: real)
    requires ExpLog(m) && PowInverse(m)
    requires norm != 0.0 && e > 0.0
    ensures PowSpecIntegralInv(m, norm, index, PowSpecIntegral(m, norm, index, e)) == e
  {
    if index == 1.0 {
      var l := m.log(e);
      var v := norm * l;
      assert PowSpecIntegral(m, norm, index, e) == v;
      assert v / norm == l;
      assert m.exp(l) == e;
    } else {
      var p := -index + 1.0;
      var x := m.pow(e, p);
      var v := norm / p * x;
      var q := -1.0 / (index - 1.0);
      assert PowSpecIntegral(m, norm, index, e) == v;
      ScaleCancel(norm, p, x, v);
      PowSpecIntegralInvAt(m, norm, index, v, x, q);
      assert p * q == 1.0;
      assert m.pow(x, q) == e;
    }
  }

  /** p * v / norm == x when v == norm / p * x. */
  lemma ScaleCancel(norm: real, p: real, x: real, v: real)
    requires norm != 0.0 && p != 0.0 && v == norm / p * x
    ensures p * v / norm == x
  {
    assert p * v == norm * x;
  }

  /** powSpec_integral_inv at v in its power branch, with its argument w and
      exponent q named. */
  lemma PowSpecIntegralInvAt(m: Math, norm: real, index: real, v: real, w: real, q: real)
    requires norm != 0.0 && index != 1.0
    requires w == (-index + 1.0) * v / norm && q == -1.0 / (index - 1.0)
    ensures PowSpecIntegralInv(m, norm, index, v) == m.pow(w, q)
  {
  }

  /** The closed-form integral of cutOffPowSpec2 and its inverse are inverse
      to each other. */
  lemma CutOffPowSpec2RoundTrip(m: Math, norm: real, index: real, cutOff: real, e: real)
    requires PowInverse(m) && PowPositive(m) && LogExp(m)
    requires norm != 0.0 && index != 1.0 && cutOff > 0.0 && e > 0.0
    ensures m.pow(cutOff, -index + 1.0) != 0.0
    ensures CutOffPowSpec2IntegralInv(m, norm, index, cutOff,
              CutOffPowSpec2Integral(m, norm, index, cutOff, e)) == e
  {
    var c := m.pow(cutOff, -index + 1.0);
    assert c > 0.0;
    var y := m.pow(e / cutOff, -index + 1.0);
    var x := m.exp(-y);
    var i := CutOffPowSpec2Integral(m, norm, index, cutOff, e);
    assert i == norm / (index - 1.0) * c * x;
    CutOff2Cancel(norm, index, c, x, i);
    var q := 1.0 / (-index + 1.0);
    CutOffPowSpec2IntegralInvAt(m, norm, index, cutOff, i);
    assert -m.log(x) == y;
    assert (-index + 1.0) * q == 1.0;
    assert m.pow(y, q) == e / cutOff;
    assert cutOff * (e / cutOff) == e;
  }

  /** (index - 1) * i / norm / c == x when i == norm / (index - 1) * c * x. */
    lemma CutOff2Cancel(norm: real, index: real, c: real, x: real, i: real)
    requires norm != 0.0 && index != 1.0 && c != 0.0
    requires i == norm / (index - 1.0) * c * x
    ensures (index - 1.0) * i / norm / c == x
  {
    var d := norm / (index - 1.0);
    assert (index - 1.0) * d == norm;
  }

  lemma CutOffPowSpec2IntegralInvAt(m: Math, norm: real, index: real, cutOff: real, v: real)
    requires index != 1.0 && norm != 0.0 && m.pow(cutOff, -index + 1.0) != 0.0
    ensures CutOffPowSpec2IntegralInv(m, norm, index, cutOff, v)
         == cutOff * m.pow(-m.log((index - 1.0) * v / norm / m.pow(cutOff, -index + 1.0)), 1.0 / (-index + 1.0))
  {
  }

  /** The cutoff power law never exceeds its power-law envelope, which is
      what makes rejection against the envelope a valid sampler. */
  lemma CutOffBelowEnvelope(m: Math, norm: real, index: real, cutOff: real, e: real)
    requires PowPositive(m) && ExpAtMostOne(m)
    requires norm > 0.0 && e > 0.0 && cutOff > 0.0
    ensures 0.0 < CutOffPowSpec(m, norm, index, cutOff, e) <= PowSpec(m, norm, index, e)
  {
    var p := m.pow(e, -index);
    assert -e / cutOff <= 0.0;
    var x := m.exp(-e / cutOff);
    assert 0.0 < x <= 1.0;
    assert norm * p > 0.0;
    assert norm * p * x <= norm * p * 1.0;
  }

  /** A power-law segment over an energy interval of positive width has a
      positive area, in both branches of the integral. */
  lemma PowerLawAreaPositive(m: Math, norm: real, index: real, lo: real, hi: real)
    requires PowMonotone(m) && LogIncreasing(m)
    requires norm > 0.0 && 0.0 < lo < hi
    ensures PowSpecIntegral(m, norm, index, hi) - PowSpecIntegral(m, norm, index, lo) > 0.0
  {
    if index == 1.0 {
      assert m.log(lo) < m.log(hi);
      assert norm * m.log(hi) - norm * m.log(lo) == norm * (m.log(hi) - m.log(lo));
    } else {
      var p := -index + 1.0;
      var d := m.pow(hi, p) - m.pow(lo, p);
      assert norm * m.pow(hi, p) / p - norm * m.pow(lo, p) / p == norm * (d / p);
      if p > 0.0 {
        assert d > 0.0;
      } else {
        assert d < 0.0;
      }
      assert d / p > 0.0;
    }
  }

  /** A cutoff power law of the second kind with index below 1 has a
      positive area over an energy interval of positive width. */
  lemma CutOff2AreaPositive(m: Math, norm: real, index: real, cutOff: real, lo: real, hi: real)
    requires PowMonotone(m) && PowPositive(m) && ExpIncreasing(m)
    requires norm > 0.0 && index < 1.0 && cutOff > 0.0 && 0.0 < lo < hi
    ensures CutOffPowSpec2Integral(m, norm, index, cutOff, hi)
          - CutOffPowSpec2Integral(m, norm, index, cutOff, lo) > 0.0
  {
    var c := m.pow(cutOff, -index + 1.0);
    assert c > 0.0;
    DivideMonotoneStrict(lo, hi, cutOff);
    var yl := m.pow(lo / cutOff, -index + 1.0);
    var yh := m.pow(hi / cutOff, -index + 1.0);
    PowIncreasing(m, lo / cutOff, hi / cutOff, -index + 1.0);
    var xl := m.exp(-yl);
    var xh := m.exp(-yh);
    ExpDecreasingInMinus(m, yl, yh);
    CutOffPowSpec2IntegralAt(m, norm, index, cutOff, lo);
    CutOffPowSpec2IntegralAt(m, norm, index, cutOff, hi);
    NegativeScaleReverses(norm, index, c, xl, xh);
  }

  lemma PowIncreasing(m: Math, x: real, y: real, p: real)
    requires PowMonotone(m) && 0.0 < x < y && p > 0.0
    ensures m.pow(x, p) < m.pow(y, p)
  {
  }

  lemma ExpDecreasingInMinus(m: Math, x: real, y: real)
    requires ExpIncreasing(m) && x < y
    ensures m.exp(-y) < m.exp(-x)
  {
  }

  lemma DivideMonotoneStrict(x: real, y: real, s: real)
    requires x < y && s > 0.0
    ensures x / s < y / s
  {
  }

  lemma CutOffPowSpec2IntegralAt(m: Math, norm: real, index: real, cutOff: real, e: real)
    requires index != 1.0 && cutOff != 0.0
    ensures CutOffPowSpec2Integral(m, norm, index, cutOff, e)
         == norm / (index - 1.0) * m.pow(cutOff, -index + 1.0) * m.exp(-m.pow(e / cutOff, -index + 1.0))
  {
  }

  /** The coefficient norm / (index - 1) * c is negative for index < 1, so
      it reverses the order of xl > xh. */
  lemma NegativeScaleReverses(norm: real, index: real, c: real, xl: real, xh: real)
    requires norm > 0.0 && index < 1.0 && c > 0.0 && xh < xl
    ensures norm / (index - 1.0) * c * xh - norm / (index - 1.0) * c * xl > 0.0
  {
    DivideByNegative(norm, index - 1.0);
    NegativeFactorReverses(norm / (index - 1.0), c, xl, xh);
  }

  lemma NegativeFactorReverses(d: real, c: real, xl: real, xh: real)
    requires d < 0.0 && c > 0.0 && xh < xl
    ensures d * c * xh - d * c * xl > 0.0
  {
    assert d * c < 0.0;
    assert d * c * xh - d * c * xl == d * c * (xh - xl);
  }

  // ---------------------------------------------------------------------
  // Segments and their areas

  datatype Shape =
    | PowerLaw(norm: real, index: real)
      // powSpec, inverted in closed form
    | EnvelopedCutOff(norm: real, index: real, cutOff: real)
      // cutOffPowSpec, drawn from its power-law envelope, then accepted or rejected
    | CutOff2(norm: real, index: real, cutOff: real)
      // cutOffPowSpec2, inverted in closed form

  /** A segment covers the energies [lo, hi] (GeV). */
  datatype Segment = Segment(shape: Shape, lo: real, hi: real)

  /** Every division the segment's integral and inverse make is by a
      non-zero number. */
  predicate ShapeDefined(m: Math, s: Shape)
  {
    match s
    case PowerLaw(n, _) => n != 0.0
    case EnvelopedCutOff(n, _, c) => n != 0.0 && c != 0.0
    case CutOff2(n, a, c) => a != 1.0 && c != 0.0 && n != 0.0 && m.pow(c, -a + 1.0) != 0.0
  }

  /** The integral the segment's area and inversion use: the envelope's for
      an enveloped cutoff power law. */
  function Integral(m: Math, s: Shape, e: real): real
    requires ShapeDefined(m, s)
  {
    match s
    case PowerLaw(n, a) => PowSpecIntegral(m, n, a, e)
    case EnvelopedCutOff(n, a, _) => PowSpecIntegral(m, n, a, e)
    case CutOff2(n, a, c) => CutOffPowSpec2Integral(m, n, a, c, e)
  }

  function Inverse(m: Math, s: Shape, value: real): real
    requires ShapeDefined(m, s)
  {
    match s
    case PowerLaw(n, a) => PowSpecIntegralInv(m, n, a, value)
    case EnvelopedCutOff(n, a, _) => PowSpecIntegralInv(m, n, a, value)
    case CutOff2(n, a, c) => CutOffPowSpec2IntegralInv(m, n, a, c, value)
  }

  /** rand_min and rand_max of a segment. */
  function RandMin(m: Math, seg: Segment): real
    requires ShapeDefined(m, seg.shape)
  {
    Integral(m, seg.shape, seg.lo)
  }

  function RandMax(m: Math, seg: Segment): real
    requires ShapeDefined(m, seg.shape)
  {
    Integral(m, seg.shape, seg.hi)
  }

  function Area(m: Math, seg: Segment): real
    requires ShapeDefined(m, seg.shape)
  {
    RandMax(m, seg) - RandMin(m, seg)
  }

  predicate AllDefined(m: Math, segs: seq<Segment>)
  {
    forall i :: 0 <= i < |segs| ==> ShapeDefined(m, segs[i].shape)
  }

  /** spec_area's terms, one per segment in ascending energy. */
  function Areas(m: Math, segs: seq<Segment>): (areas: seq<real>)
    requires AllDefined(m, segs)
    ensures |areas| == |segs|
    ensures forall i :: 0 <= i < |segs| ==> areas[i] == Area(m, segs[i])
  {
    seq(|segs|, i requires 0 <= i < |segs| => Area(m, segs[i]))
  }

  /** What every bin guarantees by its hard-coded constants: at least one
      segment, every integral defined and a positive total area. */
  predicate Sampleable(m: Math, segs: seq<Segment>)
  {
    |segs| >= 1 && AllDefined(m, segs) && Sum(Areas(m, segs)) > 0.0
  }

  // ---------------------------------------------------------------------
  // Segment choice

  /** `rnd <= (A_1 + ... + A_k+1) / spec_area`: the draw falls at or below
      the cumulative fraction of the first k+1 segments. */
  predicate Reaches(areas: seq<real>, rnd: real, k: nat)
    requires k < |areas| && Sum(areas) > 0.0
  {
    rnd <= Prefix(areas, k + 1) / Sum(areas)
  }

  /** The if-chain of `energy`, tried in ascending energy; the last segment
      is the fallback. */
  function ChooseFrom(areas: seq<real>, rnd: real, k: nat): (j: nat)
    requires k < |areas| && Sum(areas) > 0.0
    ensures k <= j < |areas|
    ensures j < |areas| - 1 ==> Reaches(areas, rnd, j)
    ensures forall i :: k <= i < j ==> !Reaches(areas, rnd, i)
    decreases |areas| - k
  {
    if k == |areas| - 1 || Reaches(areas, rnd, k) then k
    else ChooseFrom(areas, rnd, k + 1)
  }

  function ChooseSegment(areas: seq<real>, rnd: real): nat
    requires |areas| >= 1 && Sum(areas) > 0.0
  {
    ChooseFrom(areas, rnd, 0)
  }

  /** The first segment whose inclusive cumulative fraction reaches the
      draw, or the last when none does. */
  predicate IsFirstReaching(areas: seq<real>, rnd: real, j: nat)
    requires |areas| >= 1 && Sum(areas) > 0.0
  {
    && j < |areas|
    && (j < |areas| - 1 ==> Reaches(areas, rnd, j))
    && (forall i :: 0 <= i < j ==> !Reaches(areas, rnd, i))
  }

  lemma ChooseSegmentIsFirstReaching(areas: seq<real>, rnd: real, j: nat)
    requires |areas| >= 1 && Sum(areas) > 0.0
    ensures IsFirstReaching(areas, rnd, j) <==> j == ChooseSegment(areas, rnd)
  {
  }

  /** With non-negative areas the segment chosen is k exactly when the draw
      lies in k's cumulative interval
      ((A_1 + ... + A_k) / spec_area, (A_1 + ... + A_k+1) / spec_area], the
      first segment also taking everything below and the last everything
      above. */
  lemma ChooseSegmentInterval(areas: seq<real>, rnd: real, k: nat)
    requires |areas| >= 1 && Sum(areas) > 0.0
    requires forall i :: 0 <= i < |areas| ==> areas[i] >= 0.0
    requires k < |areas|
    ensures ChooseSegment(areas, rnd) == k <==>
              (k == 0 || !Reaches(areas, rnd, k - 1)) &&
              (k == |areas| - 1 || Reaches(areas, rnd, k))
  {
    var s := Sum(areas);
    if (k == 0 || !Reaches(areas, rnd, k - 1)) && (k == |areas| - 1 || Reaches(areas, rnd, k)) {
      forall i | 0 <= i < k
        ensures !Reaches(areas, rnd, i)
      {
        PrefixMonotone(areas, i + 1, k);
        DivideMonotone(Prefix(areas, i + 1), Prefix(areas, k), s);
      }
      ChooseSegmentIsFirstReaching(areas, rnd, k);
    }
  }

  lemma DivideByNegative(x: real, y: real)
    requires x > 0.0 && y < 0.0
    ensures x / y < 0.0
  {
    assert (x / y) * y == x;
  }

  lemma DivideMonotone(x: real, y: real, s: real)
    requires x <= y && s > 0.0
    ensures x / s <= y / s
  {
  }

  // ---------------------------------------------------------------------
  // Drawing an energy

  /** The energy proposed in a segment for a second draw v:
      `r = v * (rand_max - rand_min) + rand_min`, then the inverse. */
  function Propose(m: Math, seg: Segment, v: real): real
    requires ShapeDefined(m, seg.shape)
  {
    Inverse(m, seg.shape, v * Area(m, seg) + RandMin(m, seg))
  }

  /** Inverting a segment's integral gives back the energy, for every
      shape. */
  lemma InverseIntegral(m: Math, s: Shape, e: real)
    requires ExpLog(m) && LogExp(m) && PowInverse(m) && PowPositive(m)
    requires ShapeDefined(m, s) && e > 0.0
    requires s.CutOff2? ==> s.cutOff > 0.0
    ensures Inverse(m, s, Integral(m, s, e)) == e
  {
    match s
    case PowerLaw(n, a) => PowSpecRoundTrip(m, n, a, e);
    case EnvelopedCutOff(n, a, _) => PowSpecRoundTrip(m, n, a, e);
    case CutOff2(n, a, c) => CutOffPowSpec2RoundTrip(m, n, a, c, e);
  }

  /** The draw 0 proposes the segment's lower edge and the draw 1 its upper
      edge: the proposal maps the unit interval onto the segment. */
  lemma ProposeEndpoints(m: Math, seg: Segment)
    requires ExpLog(m) && LogExp(m) && PowInverse(m) && PowPositive(m)
    requires ShapeDefined(m, seg.shape) && seg.lo > 0.0 && seg.hi > 0.0
    requires seg.shape.CutOff2? ==> seg.shape.cutOff > 0.0
    ensures Propose(m, seg, 0.0) == seg.lo
    ensures Propose(m, seg, 1.0) == seg.hi
  {
    assert 0.0 * Area(m, seg) + RandMin(m, seg) == RandMin(m, seg);
    assert 1.0 * Area(m, seg) + RandMin(m, seg) == RandMax(m, seg);
    InverseIntegral(m, seg.shape, seg.lo);
    InverseIntegral(m, seg.shape, seg.hi);
  }

  /** The segment the first draw of a pass selects. */
  function Chosen(m: Math, segs: seq<Segment>, rnd: real): (seg: Segment)
    requires Sampleable(m, segs)
    ensures seg in segs
  {
    segs[ChooseSegment(Areas(m, segs), rnd)]
  }

  /** The acceptance test `flat * envelope(E) < cutOffPowSpec(E)` of an
      enveloped segment. */
  predicate PassesEnvelope(m: Math, s: Shape, e: real, u: real)
    requires s.EnvelopedCutOff? && ShapeDefined(m, s)
  {
    u * PowSpec(m, s.norm, s.index, e) < CutOffPowSpec(m, s.norm, s.index, s.cutOff, e)
  }

  /** One pass of the body of `energy`: segment choice, inversion and, for
      an enveloped cutoff power law, the envelope test. */
  function TryOnce(m: Math, segs: seq<Segment>, draws: seq<real>): (a: Attempt)
    requires Sampleable(m, segs)
    ensures !a.Undefined?
    ensures a.Exhausted? <==>
              |draws| < 2 || (|draws| < 3 && Chosen(m, segs, draws[0]).shape.EnvelopedCutOff?)
    ensures a.Rejected? ==> Chosen(m, segs, draws[0]).shape.EnvelopedCutOff?
  {
    if |draws| < 2 then Exhausted
    else
      var seg := Chosen(m, segs, draws[0]);
      var e := Propose(m, seg, draws[1]);
      if seg.shape.EnvelopedCutOff? then
        if |draws| < 3 then Exhausted
        else if PassesEnvelope(m, seg.shape, e, draws[2]) then Accepted(e, draws[3..])
        else Rejected(draws[3..])
      else Accepted(e, draws[2..])
  }

  /** The `while(1)` of `energy`: passes repeat until one is accepted;
      None when the draw prefix runs out first. */
  function Sample(m: Math, segs: seq<Segment>, draws: seq<real>): Option<(real, seq<real>)>
    requires Sampleable(m, segs)
    decreases |draws|
  {
    match TryOnce(m, segs, draws)
    case Accepted(e, rest) => Some((e, rest))
    case Rejected(rest) => Sample(m, segs, rest)
    case Exhausted => None
    case Undefined => None
  }

  /** `energy` of a bin, as the loop the source runs. */
  method SampleEnergy(m: Math, segs: seq<Segment>, draws: seq<real>) returns (res: Option<(real, seq<real>)>)
    requires Sampleable(m, segs)
    ensures res == Sample(m, segs, draws)
  {
    var d := draws;
    while true
      invariant Sample(m, segs, d) == Sample(m, segs, draws)
      decreases |d|
    {
      var t := TryOnce(m, segs, d);
      match t {
        case Accepted(e, rest) =>
          return Some((e, rest));
        case Rejected(rest) =>
          d := rest;
        case Exhausted =>
          return None;
        case Undefined =>
          return None;
      }
    }
  }

  /** A bin without an enveloped segment never rejects: its energy is the
      first pass's proposal and it uses exactly two draws. */
  lemma NoEnvelopeTwoDraws(m: Math, segs: seq<Segment>, draws: seq<real>)
    requires Sampleable(m, segs)
    requires forall i :: 0 <= i < |segs| ==> !segs[i].shape.EnvelopedCutOff?
    requires |draws| >= 2
    ensures Sample(m, segs, draws) == Some((Propose(m, Chosen(m, segs, draws[0]), draws[1]), draws[2..]))
  {
    assert !Chosen(m, segs, draws[0]).shape.EnvelopedCutOff?;
  }

  /** A pass through an enveloped segment is accepted iff its third draw
      passes the envelope test; a rejected pass restarts from the segment
      choice on the following draws. */
  lemma EnvelopedPass(m: Math, segs: seq<Segment>, draws: seq<real>)
    requires Sampleable(m, segs)
    requires |draws| >= 3
    requires Chosen(m, segs, draws[0]).shape.EnvelopedCutOff?
    ensures var seg := Chosen(m, segs, draws[0]);
            var e := Propose(m, seg, draws[1]);
            Sample(m, segs, draws) ==
              if PassesEnvelope(m, seg.shape, e, draws[2]) then Some((e, draws[3..]))
              else Sample(m, segs, draws[3..])
  {
  }

  /** Whatever energy the loop returns, it consumed a prefix of the draws:
      what is left is a suffix. */
  lemma {:induction false} SampleConsumesPrefix(m: Math, segs: seq<Segment>, draws: seq<real>)
    requires Sampleable(m, segs)
    requires Sample(m, segs, draws).Some?
    ensures var rest := Sample(m, segs, draws).value.1;
            |rest| <= |draws| - 2 && rest == draws[|draws| - |rest|..]
    decreases |draws|
  {
    var t := TryOnce(m, segs, draws);
    if t.Rejected? {
      SampleConsumesPrefix(m, segs, t.rest);
    }
  }
}
