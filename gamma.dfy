/** CrGamma: the entry point for cosmic-ray gammas, with primary, secondary
    upward and secondary downward components. It selects by flux alone,
    whatever the number of components, and reports the whole sphere as its
    solid angle. */
module Gamma {
  import opened Transcendental
  import opened Sums
  import opened Engine
  import opened Wrappers
  import opened Params
  import opened Selection

  datatype Kind = Primary | SecondaryUpward | SecondaryDownward

  /** Slot 0 (bit 1) primary, slot 1 (bit 2) secondary upward, slot 2 (bit 4)
      secondary downward. */
  function KindOf(slot: nat): Kind
    requires slot < 3
  {
    if slot == 0 then Primary else if slot == 1 then SecondaryUpward else SecondaryDownward
  }

  /** `energySrc(engine)` and `dir(energy, engine)` of each sub-component:
      each takes the draws it needs from the front and hands back the rest;
      `dir` gives (cos theta, phi). */
  datatype Samplers = Samplers(
    energySrc: (Kind, seq<real>) -> (real, seq<real>),
    dir: (Kind, real, seq<real>) -> (real, real, seq<real>))

  /** One `push_back`, made only when its bit is set. */
  function PushIf(on: bool, k: Kind): seq<Kind>
  {
    if on then [k] else []
  }

  /** The component list the constructor builds for a flag; no parameter
      after the bit field is read. */
  function Components(flag: int): (cs: seq<Kind>)
    ensures |cs| == |Present(flag)|
    ensures forall i :: 0 <= i < |cs| ==> cs[i] == KindOf(Present(flag)[i])
  {
    PushIf(Bit(flag, 1), Primary) + PushIf(Bit(flag, 2), SecondaryUpward) + PushIf(Bit(flag, 4), SecondaryDownward)
  }

  /** The slot, and so the bit, of a kind. */
  function SlotOf(k: Kind): (slot: nat)
    ensures slot < 3 && KindOf(slot) == k
  {
    match k
    case Primary => 0
    case SecondaryUpward => 1
    case SecondaryDownward => 2
  }

  /** Kinds appear in bit order, none twice, and each exactly when its bit
      is set. */
  lemma ComponentsInBitOrder(flag: int, k: Kind)
    ensures var cs := Components(flag);
            forall i, j :: 0 <= i < j < |cs| ==> SlotOf(cs[i]) < SlotOf(cs[j])
    ensures k in Components(flag) <==> Bit(flag, SlotBit(SlotOf(k)))
  {
    var cs := Components(flag);
    var slots := Present(flag);
    forall i, j | 0 <= i < j < |cs|
      ensures SlotOf(cs[i]) < SlotOf(cs[j])
    {
      assert slots[i] < slots[j];
      assert SlotOf(cs[i]) == slots[i];
      assert SlotOf(cs[j]) == slots[j];
    }
    var slot := SlotOf(k);
    assert slot in slots <==> Bit(flag, SlotBit(slot));
    if slot in slots {
      var i :| 0 <= i < |slots| && slots[i] == slot;
      assert cs[i] == k;
    }
    if k in cs {
      var i :| 0 <= i < |cs| && cs[i] == k;
      assert SlotOf(cs[i]) == slots[i];
      assert slots[i] in slots;
    }
  }

  /** The constructor's three `push_back`s, in bit order. */
  method PushComponents(flag: int) returns (cs: seq<Kind>)
    ensures cs == Components(flag)
  {
    cs := [];
    if Bit(flag, 1) { cs := cs + [Primary]; }
    if Bit(flag, 2) { cs := cs + [SecondaryUpward]; }
    if Bit(flag, 4) { cs := cs + [SecondaryDownward]; }
  }

  /** The selection weights: the component fluxes, never scaled by solid
      angle. */
  function Weights(cs: seq<Kind>, flux: Kind -> real): (w: seq<real>)
    ensures |w| == |cs|
    ensures forall i :: 0 <= i < |cs| ==> w[i] == flux(cs[i])
  {
    seq(|cs|, i requires 0 <= i < |cs| => flux(cs[i]))
  }

  /** Each component is chosen with its share of the flux `flux()`
      reports: for a draw u, component k is chosen exactly when u lies in
      the window after the shares of the components before it, and that
      window is flux(k) / total wide. */
  lemma SelectionShare(cs: seq<Kind>, flux: Kind -> real, u: real, k: nat)
    requires forall i :: 0 <= i < |cs| ==> flux(cs[i]) >= 0.0
    requires k < |cs| && Sum(Weights(cs, flux)) > 0.0
    ensures var w := Weights(cs, flux);
            Select(w, u) == k <==>
              u <= Prefix(w, k + 1) / Sum(w) && (k == 0 || Prefix(w, k) / Sum(w) < u)
    ensures var w := Weights(cs, flux);
            Prefix(w, k + 1) / Sum(w) - Prefix(w, k) / Sum(w) == flux(cs[k]) / Sum(w)
  {
    var w := Weights(cs, flux);
    var total := Sum(w);
    SelectWindow(w, Threshold(w, u), k);
    ScaleByTotal(Prefix(w, k + 1), u, total);
    ScaleByTotal(Prefix(w, k), u, total);
    PrefixStep(w, k);
  }

  /** Comparing with `u * total` is comparing the share with u. */
  lemma ScaleByTotal(a: real, u: real, total: real)
    requires total > 0.0
    ensures a >= u * total <==> a / total >= u
  {
    var q := a / total;
    assert a == q * total;
    assert a - u * total == (q - u) * total;
    if q >= u {
      assert (q - u) * total >= 0.0;
    } else {
      assert (q - u) * total < 0.0;
    }
  }

  /** A first parameter of 8 builds no gamma component either; the scan
      then stops at the end of the empty list. */
  lemma EmptyMaskSelectsEnd(flux: Kind -> real, u: real)
    ensures var cs := Components(Flag([8.0]));
            cs == [] && Select(Weights(cs, flux), u) == |cs|
  {
    EmptyMaskInputs();
  }

  class Gamma {
    /** m_subComponents */
    var components: seq<Kind>
    /** m_component, as an index into the list; None before any component is selected. */
    var cached: Option<nat>

    ghost predicate Valid()
      reads this
    {
      |components| >= 1 && (cached.Some? ==> cached.value < |components|)
    }

    /** The constructor: the components of the bit field, in bit order. The
        bit field falls back to all on when it names no component. */
    constructor (atof: string -> real, paramString: string)
      ensures var params := ParsedValues(atof, paramString);
              components == Components(EffectiveFlag(params))
      ensures cached == None
      ensures Valid()
    {
      var params := ParseParamList(atof, paramString);
      var flag := EffectiveFlag(params);
      var cs := PushComponents(flag);
      components := cs;
      cached := None;
    }

    /** `selectComponent`: the first component whose cumulative flux
        reaches `flat * total`, remembered in m_component. */
    method SelectComponent(flux: Kind -> real, u: real) returns (k: nat)
      requires Valid() && IsFlat(u)
      requires forall i :: 0 <= i < |components| ==> flux(components[i]) >= 0.0
      modifies this
      ensures components == old(components)
      ensures k == Select(Weights(components, flux), u) && k < |components|
      ensures cached == Some(k)
      ensures Valid()
    {
      SelectInRange(Weights(components, flux), u);
      k := ScanCumulative(Weights(components, flux), u);
      cached := Some(k);
    }

    /** `energy`: always selects anew, with one draw; the chosen component's
        `energySrc` then samples from the draws that are left. */
    method Energy(flux: Kind -> real, sub: Samplers, draws: seq<real>) returns (e: real, rest: seq<real>)
      requires Valid() && |draws| >= 1 && IsFlat(draws[0])
      requires forall i :: 0 <= i < |components| ==> flux(components[i]) >= 0.0
      modifies this
      ensures components == old(components) && Valid()
      ensures var k := Select(Weights(components, flux), draws[0]);
              k < |components| && cached == Some(k) &&
              (e, rest) == sub.energySrc(components[k], draws[1..])
    {
      var k := SelectComponent(flux, draws[0]);
      var r := sub.energySrc(components[k], draws[1..]);
      e, rest := r.0, r.1;
    }

    /** `dir`: selects, with one draw, only when no component is
        remembered; that component's `dir` then draws the direction. */
    method Dir(flux: Kind -> real, sub: Samplers, energy: real, draws: seq<real>)
      returns (cosTheta: real, phi: real, rest: seq<real>)
      requires Valid()
      requires forall i :: 0 <= i < |components| ==> flux(components[i]) >= 0.0
      requires cached.None? ==> |draws| >= 1 && IsFlat(draws[0])
      modifies this
      ensures components == old(components) && Valid()
      ensures old(cached).Some? ==>
                cached == old(cached) &&
                (cosTheta, phi, rest) == sub.dir(components[old(cached).value], energy, draws)
      ensures old(cached).None? ==>
                var k := Select(Weights(components, flux), draws[0]);
                k < |components| && cached == Some(k) &&
                (cosTheta, phi, rest) == sub.dir(components[k], energy, draws[1..])
    {
      var k: nat;
      var left: seq<real>;
      if cached.None? {
        k := SelectComponent(flux, draws[0]);
        left := draws[1..];
      } else {
        k := cached.value;
        left := draws;
      }
      var r := sub.dir(components[k], energy, left);
      cosTheta, phi, rest := r.0, r.1, r.2;
    }

    /** `flux`: the plain sum of the component fluxes. */
    method Flux(flux: Kind -> real) returns (r: real)
      ensures r == Sum(Weights(components, flux))
    {
      var w := Weights(components, flux);
      r := 0.0;
      var i := 0;
      while i < |components|
        invariant 0 <= i <= |components|
        invariant r == Prefix(w, i)
      {
        PrefixStep(w, i);
        r := r + flux(components[i]);
        i := i + 1;
      }
      PrefixAll(w);
    }

    /** `solidAngle`: the whole sphere. */
    function SolidAngle(): (r: real)
      ensures r == 4.0 * Pi
    {
      4.0 * Pi
    }

    /** `interval`: always -1. */
    function Interval(time: real): (r: real)
      ensures r == -1.0
    {
      -1.0
    }
  }
}
