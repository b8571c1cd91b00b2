/** The arrival directions of the reentrant and splash components: cos(theta)
    and phi drawn from the engine, theta measured from the downward
    vertical. */
module Directions {
  import opened Transcendental
  import opened Engine

  /** `std::pair(cos(theta), phi)`. */
  datatype Direction = Direction(cosTheta: real, phi: real)

  /** `engine->flat() * 2 * M_PI`: a uniform azimuth in [0, 2 pi). */
  function Azimuth(u: real): (phi: real)
    ensures IsFlat(u) ==> 0.0 <= phi < 2.0 * Pi
    ensures phi / (2.0 * Pi) == u
  {
    u * 2.0 * Pi
  }

  /** Downward hemisphere: theta = acos(flat) from the first draw, phi from
      the second, so cos(theta) is the first draw itself, in [0, 1). */
  function Downward(m: Math, draws: seq<real>): (r: (Direction, seq<real>))
    requires |draws| >= 2
    ensures r.1 == draws[2..]
    ensures CosAcos(m) && IsFlat(draws[0]) ==> r.0.cosTheta == draws[0] && 0.0 <= r.0.cosTheta < 1.0
    ensures r.0.phi == Azimuth(draws[1])
  {
    (Direction(m.cos(m.acos(draws[0])), Azimuth(draws[1])), draws[2..])
  }

  /** Upward hemisphere: theta = pi - acos(flat), so cos(theta) is minus the
      first draw, in (-1, 0]; phi from the second draw. */
  function Upward(m: Math, draws: seq<real>): (r: (Direction, seq<real>))
    requires |draws| >= 2
    ensures r.1 == draws[2..]
    ensures CosAcos(m) && IsFlat(draws[0]) ==> r.0.cosTheta == -draws[0] && -1.0 < r.0.cosTheta <= 0.0
    ensures r.0.phi == Azimuth(draws[1])
  {
    (Direction(m.cos(Pi - m.acos(draws[0])), Azimuth(draws[1])), draws[2..])
  }

  /** The splash direction mirrors the reentrant one through the horizontal
      plane on the same draws. */
  lemma UpwardMirrorsDownward(m: Math, draws: seq<real>)
    requires |draws| >= 2 && CosAcos(m) && IsFlat(draws[0])
    ensures Upward(m, draws).0.cosTheta == -Downward(m, draws).0.cosTheta
    ensures Upward(m, draws).0.phi == Downward(m, draws).0.phi
  {
  }

  /** `solidAngle` of every reentrant and splash component: one hemisphere. */
  function HemisphereSolidAngle(): (r: real)
    ensures r == 2.0 * Pi && r > 0.0
  {
    2.0 * Pi
  }
}
