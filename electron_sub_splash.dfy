/** The seven latitude bins of the splash (upward) secondary electron
    spectrum, CrElectronSplash_0001 ... CrElectronSplash_0611. Each bin is a
    broken power law over [0.01, 10] GeV in three or four pieces; `energy`
    is the two-draw piecewise sampler and `downwardFlux` the flux integrated
    over the same pieces. */
module ElectronSubSplash {
  import opened Transcendental
  import opened Sums
  import opened Spectrum
  import opened Wrappers

  /** lowE_splash and highE_splash, GeV. */
  const LowE: real := 0.01
  const HighE: real := 10.0

  /** The bins, named by their theta_M range in tenths of a radian. */
  datatype Bin = Bin0001 | Bin0102 | Bin0203 | Bin0304 | Bin0405 | Bin0506 | Bin0611

  /** PosToEle_XXXX: the e+/e- ratio of the secondary flux in the bin. */
  function PosToEle(bin: Bin): (r: real)
    ensures r >= 1.0
  {
    match bin
    case Bin0001 => 4.8
    case Bin0102 => 4.2
    case Bin0203 => 3.8
    case Bin0304 => 2.6
    case Bin0405 => 1.8
    case Bin0506 => 1.0
    case Bin0611 => 1.0
  }

  /** One piece of the broken power law as the constructor writes it:
      coef * (E / ref MeV)^-index per MeV. */
  datatype Piece = Piece(coef: real, ref: real, index: real)

  /** The pieces of each bin, in ascending energy. */
  function Pieces(bin: Bin): (ps: seq<Piece>)
    ensures 3 <= |ps| <= 4
    ensures forall i :: 0 <= i < |ps| ==> ps[i].coef > 0.0 && ps[i].ref > 0.0
  {
    match bin
    case Bin0001 => [Piece(0.45, 100.0, 2.0), Piece(0.45, 100.0, 1.5),
                     Piece(0.056, 400.0, 2.5), Piece(3.65e-4, 3000.0, 3.6)]
    case Bin0102 => [Piece(0.45, 100.0, 2.0), Piece(0.45, 100.0, 1.5),
                     Piece(0.056, 400.0, 2.5), Piece(0.0056, 1000.0, 2.9)]
    case Bin0203 => [Piece(0.45, 100.0, 2.0), Piece(0.45, 100.0, 1.5),
                     Piece(0.086, 300.0, 1.8), Piece(0.051, 400.0, 2.8)]
    case Bin0304 => [Piece(0.45, 100.0, 2.0), Piece(0.45, 100.0, 1.6),
                     Piece(0.078, 300.0, 2.5), Piece(0.0137, 600.0, 2.8)]
    case Bin0405 => [Piece(0.5, 100.0, 2.0), Piece(0.5, 100.0, 1.7),
                     Piece(0.077, 300.0, 2.8)]
    case Bin0506 => [Piece(0.6, 100.0, 2.0), Piece(0.6, 100.0, 1.9),
                     Piece(0.074, 300.0, 3.0), Piece(0.00059, 1500.0, 2.3)]
    case Bin0611 => [Piece(0.65, 100.0, 2.0), Piece(0.65, 100.0, 1.9),
                     Piece(0.08, 300.0, 3.2), Piece(9e-4, 1200.0, 1.8)]
  }

  /** The break energies (lowE_break, midE_break, highE_break), GeV. */
  function Breaks(bin: Bin): (bs: seq<real>)
    ensures |bs| == |Pieces(bin)| - 1
  {
    match bin
    case Bin0001 => [0.1, 0.4, 3.0]
    case Bin0102 => [0.1, 0.4, 1.0]
    case Bin0203 => [0.1, 0.3, 0.4]
    case Bin0304 => [0.1, 0.3, 0.6]
    case Bin0405 => [0.1, 0.3]
    case Bin0506 => [0.1, 0.3, 1.5]
    case Bin0611 => [0.1, 0.3, 1.2]
  }

  predicate StrictlyAscending(s: seq<real>)
  {
    forall i :: 0 <= i < |s| - 1 ==> s[i] < s[i + 1]
  }

  /** The piece edges: lowE_splash, the breaks, highE_splash. Every bin spans
      [0.01, 10] GeV and its edges strictly ascend. */
  function Edges(bin: Bin): (es: seq<real>)
    ensures |es| == |Pieces(bin)| + 1
    ensures es[0] == LowE && es[|es| - 1] == HighE
    ensures StrictlyAscending(es)
  {
    [LowE] + Breaks(bin) + [HighE]
  }

  /** The normalization the constructor stores: the piece rescaled from
      per-MeV at `ref` to per-GeV at 1 GeV, and divided by (1 + PosToEle) to
      keep the electron share. */
  function Norm(m: Math, bin: Bin, p: Piece): real
    requires p.ref > 0.0
  {
    p.coef * m.pow(1000.0 / p.ref, -p.index) / (1.0 + PosToEle(bin))
  }

  /** Electron and positron shares add up to the whole secondary piece: the
      norm plus PosToEle times the norm gives back the undivided piece. */
  lemma NormIsElectronShare(m: Math, bin: Bin, p: Piece)
    requires p.ref > 0.0
    ensures Norm(m, bin, p) + PosToEle(bin) * Norm(m, bin, p) == p.coef * m.pow(1000.0 / p.ref, -p.index)
  {
    var k := PosToEle(bin);
    var c := p.coef * m.pow(1000.0 / p.ref, -p.index);
    assert Norm(m, bin, p) == c / (1.0 + k);
    ShareSum(c, k);
  }

  lemma ShareSum(c: real, k: real)
    requires k >= 1.0
    ensures c / (1.0 + k) + k * (c / (1.0 + k)) == c
  {
    var d := c / (1.0 + k);
    assert d * (1.0 + k) == c;
  }

  /** The bin as segments of the piecewise sampler, every one a power law. */
  function Segments(m: Math, bin: Bin): (segs: seq<Segment>)
    ensures |segs| == |Pieces(bin)|
    ensures forall i :: 0 <= i < |segs| ==>
              segs[i] == Segment(PowerLaw(Norm(m, bin, Pieces(bin)[i]), Pieces(bin)[i].index),
                                 Edges(bin)[i], Edges(bin)[i + 1])
  {
    var ps := Pieces(bin);
    var es := Edges(bin);
    seq(|ps|, i requires 0 <= i < |ps| =>
      Segment(PowerLaw(Norm(m, bin, ps[i]), ps[i].index), es[i], es[i + 1]))
  }

  /** Bin 0405 has three pieces, broken at 0.1 and 0.3 GeV. */
  lemma Bin0405HasThreePieces(m: Math)
    ensures |Segments(m, Bin0405)| == 3
    ensures Edges(Bin0405) == [0.01, 0.1, 0.3, 10.0]
  {
  }

  /** Under the usual properties of pow and log every bin has defined
      integrals and a positive total area, so `energy` never divides by
      zero. */
  lemma BinSampleable(m: Math, bin: Bin)
    requires PowPositive(m) && PowMonotone(m) && LogIncreasing(m)
    ensures Sampleable(m, Segments(m, bin))
    ensures forall i :: 0 <= i < |Segments(m, bin)| ==> Area(m, Segments(m, bin)[i]) > 0.0
  {
    var segs := Segments(m, bin);
    var ps := Pieces(bin);
    var es := Edges(bin);
    forall i | 0 <= i < |segs|
      ensures ShapeDefined(m, segs[i].shape) && Area(m, segs[i]) > 0.0
    {
      NormPositive(m, bin, ps[i]);
      assert es[i] < es[i + 1];
      PowerLawAreaPositive(m, Norm(m, bin, ps[i]), ps[i].index, es[i], es[i + 1]);
    }
    SumPositive(Areas(m, segs));
  }

  lemma NormPositive(m: Math, bin: Bin, p: Piece)
    requires PowPositive(m) && p.coef > 0.0 && p.ref > 0.0
    ensures Norm(m, bin, p) > 0.0
  {
    var x := m.pow(1000.0 / p.ref, -p.index);
    assert x > 0.0;
    PositiveRatio(p.coef, x, 1.0 + PosToEle(bin));
  }

  lemma PositiveRatio(a: real, x: real, d: real)
    requires a > 0.0 && x > 0.0 && d > 0.0
    ensures a * x / d > 0.0
  {
    assert a * x > 0.0;
  }

  /** `energy`: one draw chooses the piece, a second inverts its integral.
      The generic rejection sampler never rejects here, so it returns this
      same energy after exactly two draws. */
  function Energy(m: Math, bin: Bin, draws: seq<real>): (r: (real, seq<real>))
    requires Sampleable(m, Segments(m, bin)) && |draws| >= 2
    ensures Sample(m, Segments(m, bin), draws) == Some(r)
    ensures r.1 == draws[2..]
  {
    var segs := Segments(m, bin);
    NoEnvelopeTwoDraws(m, segs, draws);
    (Propose(m, Chosen(m, segs, draws[0]), draws[1]), draws[2..])
  }

  /** `downwardFlux`: the areas of the pieces summed, times 1000 because the
      pieces are per MeV while energies are in GeV. */
  function DownwardFlux(m: Math, bin: Bin): (r: real)
    requires AllDefined(m, Segments(m, bin))
    ensures Sampleable(m, Segments(m, bin)) ==> r > 0.0
  {
    1000.0 * Sum(Areas(m, Segments(m, bin)))
  }

  /** The flux and the sampler use the same areas: the share of the flux that
      piece k carries is exactly the width of the draw window in which
      `energy` chooses piece k. */
  lemma FluxShareIsChoiceWindow(m: Math, bin: Bin, k: nat)
    requires Sampleable(m, Segments(m, bin))
    requires k < |Segments(m, bin)|
    ensures DownwardFlux(m, bin) > 0.0
    ensures Prefix(Areas(m, Segments(m, bin)), k + 1) / Sum(Areas(m, Segments(m, bin)))
          - Prefix(Areas(m, Segments(m, bin)), k) / Sum(Areas(m, Segments(m, bin)))
         == 1000.0 * Area(m, Segments(m, bin)[k]) / DownwardFlux(m, bin)
  {
    ShareIsWindow(m, Segments(m, bin), k, DownwardFlux(m, bin));
  }

  /** The same for any sampleable pieces whose flux is 1000 times their
      total area. */
  lemma ShareIsWindow(m: Math, segs: seq<Segment>, k: nat, flux: real)
    requires Sampleable(m, segs) && k < |segs|
    requires flux == 1000.0 * Sum(Areas(m, segs))
    ensures flux > 0.0
    ensures Prefix(Areas(m, segs), k + 1) / Sum(Areas(m, segs)) - Prefix(Areas(m, segs), k) / Sum(Areas(m, segs))
         == 1000.0 * Area(m, segs[k]) / flux
  {
    var areas := Areas(m, segs);
    PrefixStep(areas, k);
    WindowWidth(Prefix(areas, k), areas[k], Sum(areas), flux);
  }

  lemma WindowWidth(p: real, a: real, total: real, flux: real)
    requires total > 0.0 && flux == 1000.0 * total
    ensures (p + a) / total - p / total == 1000.0 * a / flux
  {
    assert (p + a) / total - p / total == a / total;
  }
}
