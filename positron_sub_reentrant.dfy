/** The six latitude bins of the reentrant (downward) positron spectrum,
    CrPositronReentrant_0003 ... CrPositronReentrant_1011, over [0.01, 20]
    GeV. Every bin starts with an E^-1 piece below 100 MeV; above it come
    power laws, cutoff power laws drawn by rejection from their power-law
    envelope, or closed-form cutoff power laws of the second kind. */
module PositronSubReentrant {
  import opened Transcendental
  import opened Sums
  import opened Spectrum
  import opened Wrappers

  /** lowE_reent and highE_reent, GeV. */
  const LowE: real := 0.01
  const HighE: real := 20.0

  datatype Bin = Bin0003 | Bin0306 | Bin0608 | Bin0809 | Bin0910 | Bin1011

  /** The segments `energy` chooses among, in the order of its if-chain. In
      bins 0608 and 0809 the last two segments cover the same energies: the
      spectrum above 100 MeV is the sum of the two components. */
  function Segments(bin: Bin): (segs: seq<Segment>)
    ensures 2 <= |segs| <= 3
    ensures segs[0] == Segment(segs[0].shape, LowE, 0.1)
    ensures segs[0].shape.PowerLaw? && segs[0].shape.index == 1.0 && segs[0].shape.norm > 0.0
    ensures segs[|segs| - 1].hi == HighE
  {
    match bin
    case Bin0003 => [Segment(PowerLaw(9.8e-2, 1.0), LowE, 0.1),
                     Segment(EnvelopedCutOff(1.02e-2, 2.0, 2.5), 0.1, HighE)]
    case Bin0306 => [Segment(PowerLaw(5.03e-2, 1.0), LowE, 0.1),
                     Segment(PowerLaw(1.18e-3, 2.63), 0.1, HighE)]
    case Bin0608 => [Segment(PowerLaw(2.61e-2, 1.0), LowE, 0.1),
                     Segment(PowerLaw(2.12e-4, 3.09), 0.1, HighE),
                     Segment(CutOff2(3.0e-4, -1.0, 2.0), 0.1, HighE)]
    case Bin0809 => [Segment(PowerLaw(2.59e-2, 1.0), LowE, 0.1),
                     Segment(PowerLaw(1.33e-4, 3.29), 0.1, HighE),
                     Segment(CutOff2(1.6e-3, -2.0, 1.6), 0.1, HighE)]
    case Bin0910 => [Segment(PowerLaw(4.09e-2, 1.0), LowE, 0.1),
                     Segment(PowerLaw(3.82e-4, 3.03), 0.1, 0.3),
                     Segment(EnvelopedCutOff(5.55e-3, 1.0, 1.3), 0.3, HighE)]
    case Bin1011 => [Segment(PowerLaw(6.60e-2, 1.0), LowE, 0.1),
                     Segment(PowerLaw(9.11e-4, 2.86), 0.1, HighE)]
  }

  /** Every segment has a positive norm and a positive cutoff, a lower edge
      above zero and below its upper edge, and a second-kind cutoff power
      law has an index below 1. */
  predicate WellShaped(seg: Segment)
  {
    && 0.0 < seg.lo < seg.hi
    && seg.shape.norm > 0.0
    && (seg.shape.EnvelopedCutOff? ==> seg.shape.cutOff > 0.0)
    && (seg.shape.CutOff2? ==> seg.shape.cutOff > 0.0 && seg.shape.index < 1.0)
  }

  lemma SegmentsWellShaped(bin: Bin)
    ensures forall i :: 0 <= i < |Segments(bin)| ==> WellShaped(Segments(bin)[i])
  {
  }

  /** The first segment of every bin is an E^-1 power law, so its integral
      takes the log branch and its inverse the exp branch. */
  lemma FirstSegmentUsesLogBranch(m: Math, bin: Bin, e: real, v: real)
    ensures var s := Segments(bin)[0].shape;
            Integral(m, s, e) == s.norm * m.log(e) && Inverse(m, s, v) == m.exp(v / s.norm)
  {
  }

  /** Under the usual properties of pow, exp and log every bin has defined
      integrals and a positive total area. */
  lemma BinSampleable(m: Math, bin: Bin)
    requires PowPositive(m) && PowMonotone(m) && LogIncreasing(m) && ExpIncreasing(m)
    ensures Sampleable(m, Segments(bin))
    ensures forall i :: 0 <= i < |Segments(bin)| ==> Area(m, Segments(bin)[i]) > 0.0
  {
    var segs := Segments(bin);
    SegmentsWellShaped(bin);
    forall i | 0 <= i < |segs|
      ensures ShapeDefined(m, segs[i].shape) && Area(m, segs[i]) > 0.0
    {
      var seg := segs[i];
      assert WellShaped(seg);
      match seg.shape
      case PowerLaw(n, a) =>
        PowerLawAreaPositive(m, n, a, seg.lo, seg.hi);
      case EnvelopedCutOff(n, a, _) =>
        PowerLawAreaPositive(m, n, a, seg.lo, seg.hi);
      case CutOff2(n, a, c) =>
        assert m.pow(c, -a + 1.0) > 0.0;
        CutOff2AreaPositive(m, n, a, c, seg.lo, seg.hi);
    }
    SumPositive(Areas(m, segs));
  }

  /** `energy`: the `while(1)` loop of the bin. */
  method Energy(m: Math, bin: Bin, draws: seq<real>) returns (res: Option<(real, seq<real>)>)
    requires Sampleable(m, Segments(bin))
    ensures res == Sample(m, Segments(bin), draws)
  {
    res := SampleEnergy(m, Segments(bin), draws);
  }

  /** Only bins 0003 and 0910 can reject, and each only in its last
      segment. */
  lemma OnlyLastSegmentsReject(bin: Bin, i: nat)
    requires i < |Segments(bin)|
    ensures Segments(bin)[i].shape.EnvelopedCutOff? <==>
              (bin == Bin0003 && i == 1) || (bin == Bin0910 && i == 2)
  {
  }

  /** Bins 0306, 0608, 0809 and 1011 leave their loop on the first pass:
      their energy is the first proposal and they use exactly two draws. */
  lemma NonRejectingBinsUseTwoDraws(m: Math, bin: Bin, draws: seq<real>)
    requires bin != Bin0003 && bin != Bin0910
    requires Sampleable(m, Segments(bin)) && |draws| >= 2
    ensures Sample(m, Segments(bin), draws)
         == Some((Propose(m, Chosen(m, Segments(bin), draws[0]), draws[1]), draws[2..]))
  {
    forall i | 0 <= i < |Segments(bin)|
      ensures !Segments(bin)[i].shape.EnvelopedCutOff?
    {
      OnlyLastSegmentsReject(bin, i);
    }
    NoEnvelopeTwoDraws(m, Segments(bin), draws);
  }

  /** Bins 0608 and 0809: the third segment is the cutoff power law of the
      second kind, inverted in closed form. */
  lemma ThirdSegmentClosedForm(bin: Bin)
    requires bin == Bin0608 || bin == Bin0809
    ensures |Segments(bin)| == 3 && Segments(bin)[2].shape.CutOff2?
  {
  }

  /** Bin 0003: a pass that chooses segment A is accepted at once after two
      draws; a pass that chooses segment B is accepted iff the third draw
      passes the envelope test, and otherwise the loop starts over with the
      segment choice. */
  lemma Bin0003Pass(m: Math, draws: seq<real>)
    requires Sampleable(m, Segments(Bin0003)) && |draws| >= 3
    ensures var segs := Segments(Bin0003);
            var k := ChooseSegment(Areas(m, segs), draws[0]);
            var e := Propose(m, segs[k], draws[1]);
            Sample(m, segs, draws) ==
              if k == 0 then Some((e, draws[2..]))
              else if PassesEnvelope(m, segs[1].shape, e, draws[2]) then Some((e, draws[3..]))
              else Sample(m, segs, draws[3..])
  {
    var segs := Segments(Bin0003);
    var k := ChooseSegment(Areas(m, segs), draws[0]);
    if k == 0 {
      assert !Chosen(m, segs, draws[0]).shape.EnvelopedCutOff?;
    } else {
      assert Chosen(m, segs, draws[0]) == segs[1];
      EnvelopedPass(m, segs, draws);
    }
  }

  /** `downwardFlux`: a hard-coded constant per bin, in c/s/m^2/sr, that does
      not depend on the spectral parameters. */
  function DownwardFlux(bin: Bin): (r: real)
    ensures r > 0.0
  {
    match bin
    case Bin0003 => 311.0
    case Bin0306 => 146.69
    case Bin0608 => 73.15
    case Bin0809 => 73.13
    case Bin0910 => 120.73
    case Bin1011 => 187.45
  }
}
