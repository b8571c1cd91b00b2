/** CrElectron: the entry point for cosmic-ray electrons. It owns an ordered
    list of sub-components (primary, reentrant, splash) built from the bit
    field of its parameter string, chooses one in proportion to its rate,
    and remembers the choice for the following `dir`. The sub-components'
    own flux, solid angle, energy and direction are inputs here. */
module Electron {
  import opened Transcendental
  import opened Sums
  import opened Engine
  import opened Wrappers
  import opened Params
  import opened Selection

  datatype Kind = Primary | Reentrant | Splash

  /** A sub-component: its kind and the normalization the constructor set
      on it, if it set one. */
  datatype Component = Component(kind: Kind, normalization: Option<real>)

  /** `flux()` and `solidAngle()` of each sub-component. */
  datatype Rates = Rates(flux: Component -> real, solidAngle: Component -> real)

  /** `energySrc(engine)` and `dir(energy, engine)` of each sub-component:
      each takes the draws it needs from the front and hands back the rest;
      `dir` gives (cos theta, phi). */
  datatype Samplers = Samplers(
    energySrc: (Component, seq<real>) -> (real, seq<real>),
    dir: (Component, real, seq<real>) -> (real, real, seq<real>))

  predicate NonNegative(rates: Rates, cs: seq<Component>)
  {
    forall i :: 0 <= i < |cs| ==> rates.flux(cs[i]) >= 0.0 && rates.solidAngle(cs[i]) >= 0.0
  }

  /** Slot 0 (bit 1) is the primary, slot 1 (bit 2) the reentrant, slot 2
      (bit 4) the splash component. */
  function KindOf(slot: nat): Kind
    requires slot < 3
  {
    if slot == 0 then Primary else if slot == 1 then Reentrant else Splash
  }

  /** `params.size()>1 && params[1]>0`: the second parameter, when positive,
      is set as every component's normalization. */
  function Normalization(params: seq<real>): (n: Option<real>)
    ensures n.Some? <==> |params| > 1 && params[1] > 0.0
    ensures n.Some? ==> n.value == params[1] && n.value > 0.0
  {
    if |params| > 1 && params[1] > 0.0 then Some(params[1]) else None
  }

  /** One `push_back`, made only when its bit is set. */
  function PushIf(on: bool, c: Component): seq<Component>
  {
    if on then [c] else []
  }

  /** The component list the constructor builds for a flag. */
  function Components(flag: int, params: seq<real>): (cs: seq<Component>)
    ensures |cs| == |Present(flag)|
    ensures forall i :: 0 <= i < |cs| ==> cs[i] == Component(KindOf(Present(flag)[i]), Normalization(params))
  {
    var n := Normalization(params);
    PushIf(Bit(flag, 1), Component(Primary, n)) + PushIf(Bit(flag, 2), Component(Reentrant, n))
      + PushIf(Bit(flag, 4), Component(Splash, n))
  }

  /** No kind is listed twice, and the kinds appear in bit order. */
  lemma ComponentsInBitOrder(flag: int, params: seq<real>)
    ensures var cs := Components(flag, params);
            forall i, j :: 0 <= i < j < |cs| ==> SlotOf(cs[i].kind) < SlotOf(cs[j].kind)
  {
    var cs := Components(flag, params);
    var slots := Present(flag);
    forall i, j | 0 <= i < j < |cs|
      ensures SlotOf(cs[i].kind) < SlotOf(cs[j].kind)
    {
      assert slots[i] < slots[j];
      assert SlotOf(cs[i].kind) == slots[i];
      assert SlotOf(cs[j].kind) == slots[j];
    }
  }

  /** The slot, and so the bit, of a kind. */
  function SlotOf(k: Kind): (slot: nat)
    ensures slot < 3 && KindOf(slot) == k
  {
    match k
    case Primary => 0
    case Reentrant => 1
    case Splash => 2
  }

  /** A kind is listed exactly when its bit is set. */
  lemma ComponentPresentIffBit(flag: int, params: seq<real>, k: Kind)
    ensures var cs := Components(flag, params);
            (exists i :: 0 <= i < |cs| && cs[i].kind == k) <==> Bit(flag, SlotBit(SlotOf(k)))
  {
    var cs := Components(flag, params);
    var slots := Present(flag);
    var slot := SlotOf(k);
    assert slot in slots <==> Bit(flag, SlotBit(slot));
    if slot in slots {
      var i :| 0 <= i < |slots| && slots[i] == slot;
      assert cs[i].kind == k;
    }
    if i :| 0 <= i < |cs| && cs[i].kind == k {
      assert SlotOf(cs[i].kind) == slots[i];
      assert slots[i] in slots;
    }
  }

  /** The constructor's three `push_back`s, in bit order, before any
      normalization is set. */
  method PushComponents(flag: int) returns (cs: seq<Component>)
    ensures cs == Components(flag, [])
  {
    cs := [];
    if Bit(flag, 1) { cs := cs + [Component(Primary, None)]; }
    if Bit(flag, 2) { cs := cs + [Component(Reentrant, None)]; }
    if Bit(flag, 4) { cs := cs + [Component(Splash, None)]; }
  }

  /** The constructor's loop calling `setNormalization` on every component. */
  method SetNormalization(cs: seq<Component>, n: real) returns (r: seq<Component>)
    ensures |r| == |cs|
    ensures forall i :: 0 <= i < |r| ==> r[i] == cs[i].(normalization := Some(n))
  {
    r := cs;
    var i := 0;
    while i < |r|
      invariant 0 <= i <= |r| == |cs|
      invariant forall j :: 0 <= j < i ==> r[j] == cs[j].(normalization := Some(n))
      invariant forall j :: i <= j < |r| ==> r[j] == cs[j]
    {
      r := r[i := r[i].(normalization := Some(n))];
      i := i + 1;
    }
  }

  /** The selection weights: solidAngle * flux when there is more than one
      component, flux alone when there is one. */
  function Weights(cs: seq<Component>, rates: Rates): (w: seq<real>)
    ensures |w| == |cs|
    ensures |cs| > 1 ==> forall i :: 0 <= i < |cs| ==> w[i] == rates.solidAngle(cs[i]) * rates.flux(cs[i])
    ensures |cs| <= 1 ==> forall i :: 0 <= i < |cs| ==> w[i] == rates.flux(cs[i])
  {
    if |cs| > 1 then seq(|cs|, i requires 0 <= i < |cs| => rates.solidAngle(cs[i]) * rates.flux(cs[i]))
    else seq(|cs|, i requires 0 <= i < |cs| => rates.flux(cs[i]))
  }

  lemma WeightsNonNegative(cs: seq<Component>, rates: Rates)
    requires NonNegative(rates, cs)
    ensures forall i :: 0 <= i < |cs| ==> Weights(cs, rates)[i] >= 0.0
  {
    var w := Weights(cs, rates);
    forall i | 0 <= i < |cs|
      ensures w[i] >= 0.0
    {
      if |cs| > 1 {
        NonNegativeProduct(rates.solidAngle(cs[i]), rates.flux(cs[i]));
      }
    }
  }

  lemma NonNegativeProduct(a: real, b: real)
    requires a >= 0.0 && b >= 0.0
    ensures a * b >= 0.0
  {
  }

  /** The species flux: the solid-angle-weighted sum over 4 pi for several
      components, the plain sum for one. */
  function SpeciesFlux(cs: seq<Component>, rates: Rates): (r: real)
    ensures NonNegative(rates, cs) ==> r >= 0.0
  {
    var total := Sum(Weights(cs, rates));
    assert NonNegative(rates, cs) ==> total >= 0.0 by {
      if NonNegative(rates, cs) {
        WeightsNonNegative(cs, rates);
        SumNonNegative(Weights(cs, rates));
      }
    }
    if |cs| > 1 then total / (4.0 * Pi) else total
  }

  /** The species solid angle: the component's own for one component, 4 pi
      otherwise. */
  function SpeciesSolidAngle(cs: seq<Component>, rates: Rates): (r: real)
    ensures |cs| != 1 ==> r == 4.0 * Pi
  {
    if |cs| == 1 then rates.solidAngle(cs[0]) else 4.0 * Pi
  }

  /** Flux and selection agree: for several components flux times solid
      angle is the total selection weight; for one, the flux is. */
  lemma FluxMatchesWeights(cs: seq<Component>, rates: Rates)
    ensures |cs| > 1 ==> SpeciesFlux(cs, rates) * SpeciesSolidAngle(cs, rates) == Sum(Weights(cs, rates))
    ensures |cs| == 1 ==> SpeciesFlux(cs, rates) == rates.flux(cs[0])
  {
    if |cs| == 1 {
      var w := Weights(cs, rates);
      assert w[..0] == [];
      assert Sum(w) == Sum(w[..0]) + w[0];
    }
  }

  /** A first parameter of 8 builds no component, and the scan then stops
      at the end of the empty list, the position `selectComponent`
      dereferences. */
  lemma EmptyMaskSelectsEnd(rates: Rates, u: real)
    ensures var cs := Components(Flag([8.0]), [8.0]);
            cs == [] && Select(Weights(cs, rates), u) == |cs|
  {
    EmptyMaskInputs();
  }

  class Electron {
    /** m_subComponents */
    var components: seq<Component>
    /** m_component, as an index into the list; None before any component is selected. */
    var cached: Option<nat>

    ghost predicate Valid()
      reads this
    {
      |components| >= 1 && (cached.Some? ==> cached.value < |components|)
    }

    /** The constructor: the components of the bit field, in bit order,
        with the normalization set on every one when the second parameter is
        positive. The bit field falls back to all on when it names no
        component. */
    constructor (atof: string -> real, paramString: string)
      ensures var params := ParsedValues(atof, paramString);
              components == Components(EffectiveFlag(params), params)
      ensures cached == None
      ensures Valid()
    {
      var params := ParseParamList(atof, paramString);
      var flag := EffectiveFlag(params);
      var cs := PushComponents(flag);
      if |params| > 1 && params[1] > 0.0 {
        cs := SetNormalization(cs, params[1]);
      }
      assert forall i :: 0 <= i < |cs| ==> cs[i] == Components(flag, params)[i];
      components := cs;
      cached := None;
    }

    /** `selectComponent`: the first component whose cumulative weight
        reaches `flat * total`, remembered in m_component. */
    method SelectComponent(rates: Rates, u: real) returns (k: nat)
      requires Valid() && NonNegative(rates, components) && IsFlat(u)
      modifies this
      ensures components == old(components)
      ensures k == Select(Weights(components, rates), u) && k < |components|
      ensures cached == Some(k)
      ensures Valid()
    {
      WeightsNonNegative(components, rates);
      SelectInRange(Weights(components, rates), u);
      k := ScanCumulative(Weights(components, rates), u);
      cached := Some(k);
    }

    /** `energy`: always selects anew, with one draw; the chosen component's
        `energySrc` then samples from the draws that are left. */
    method Energy(rates: Rates, sub: Samplers, draws: seq<real>) returns (e: real, rest: seq<real>)
      requires Valid() && NonNegative(rates, components) && |draws| >= 1 && IsFlat(draws[0])
      modifies this
      ensures components == old(components) && Valid()
      ensures var k := Select(Weights(components, rates), draws[0]);
              k < |components| && cached == Some(k) &&
              (e, rest) == sub.energySrc(components[k], draws[1..])
    {
      var k := SelectComponent(rates, draws[0]);
      var r := sub.energySrc(components[k], draws[1..]);
      e, rest := r.0, r.1;
    }

    /** `dir`: reuses the remembered component, and selects one, with one
        draw, only when none is remembered; that component's `dir` then
        draws the direction. */
    method Dir(rates: Rates, sub: Samplers, energy: real, draws: seq<real>)
      returns (cosTheta: real, phi: real, rest: seq<real>)
      requires Valid() && NonNegative(rates, components)
      requires cached.None? ==> |draws| >= 1 && IsFlat(draws[0])
      modifies this
      ensures components == old(components) && Valid()
      ensures old(cached).Some? ==>
                cached == old(cached) &&
                (cosTheta, phi, rest) == sub.dir(components[old(cached).value], energy, draws)
      ensures old(cached).None? ==>
                var k := Select(Weights(components, rates), draws[0]);
                k < |components| && cached == Some(k) &&
                (cosTheta, phi, rest) == sub.dir(components[k], energy, draws[1..])
    {
      var k: nat;
      var left: seq<real>;
      if cached.None? {
        k := SelectComponent(rates, draws[0]);
        left := draws[1..];
      } else {
        k := cached.value;
        left := draws;
      }
      var r := sub.dir(components[k], energy, left);
      cosTheta, phi, rest := r.0, r.1, r.2;
    }

    /** `flux`: the loop over the components. */
    method Flux(rates: Rates) returns (r: real)
      ensures r == SpeciesFlux(components, rates)
    {
      var total := 0.0;
      var i := 0;
      var w := Weights(components, rates);
      while i < |components|
        invariant 0 <= i <= |components|
        invariant total == Prefix(w, i)
      {
        PrefixStep(w, i);
        if |components| > 1 {
          total := total + rates.solidAngle(components[i]) * rates.flux(components[i]);
        } else {
          total := total + rates.flux(components[i]);
        }
        i := i + 1;
      }
      PrefixAll(w);
      if |components| > 1 {
        r := total / (4.0 * Pi);
      } else {
        r := total;
      }
    }

    /** `solidAngle`. */
    function SolidAngle(rates: Rates): (r: real)
      reads this
      ensures |components| != 1 ==> r == 4.0 * Pi
      ensures |components| == 1 ==> r == rates.solidAngle(components[0])
    {
      SpeciesSolidAngle(components, rates)
    }

    /** `interval`: always -1, leaving the arrival time to the flux. */
    function Interval(time: real): (r: real)
      ensures r == -1.0
    {
      -1.0
    }
  }
}
