/** The C math library functions the generators call, taken as given
    functions on real numbers. Nothing is assumed about them except what a
    lemma names in its requires clause, through the predicates below. */
module Transcendental {

  /** M_PI (and the equal-valued `pi` constants of the source files). */
  const Pi: real := 3.14159265358979323846

  datatype Math = Math(
    pow: (real, real) -> real,
    exp: real -> real,
    log: real -> real,
    sqrt: real -> real,
    sin: real -> real,
    cos: real -> real,
    asin: real -> real,
    acos: real -> real)

  /** pow(x, p) > 0 for a positive base. */
  ghost predicate PowPositive(m: Math) {
    forall x, p :: x > 0.0 ==> m.pow(x, p) > 0.0
  }

  /** For a positive base, x^p is increasing in x when p > 0 and
      decreasing when p < 0. */
  ghost predicate PowMonotone(m: Math) {
    forall x, y, p {:trigger m.pow(x, p), m.pow(y, p)} ::
      0.0 < x < y ==>
        (p > 0.0 ==> m.pow(x, p) < m.pow(y, p)) &&
        (p < 0.0 ==> m.pow(x, p) > m.pow(y, p))
  }

  /** (x^p)^q == x when p*q == 1 and x > 0. */
  ghost predicate PowInverse(m: Math) {
    forall x, p, q :: x > 0.0 && p * q == 1.0 ==> m.pow(m.pow(x, p), q) == x
  }

  /** exp undoes log on positive numbers. */
  ghost predicate ExpLog(m: Math) {
    forall x :: x > 0.0 ==> m.exp(m.log(x)) == x
  }

  /** log undoes exp. */
  ghost predicate LogExp(m: Math) {
    forall y :: m.log(m.exp(y)) == y
  }

  /** 0 < exp(x) <= 1 for x <= 0. */
  ghost predicate ExpAtMostOne(m: Math) {
    forall x :: x <= 0.0 ==> 0.0 < m.exp(x) <= 1.0
  }

  /** exp is positive and strictly increasing. */
  ghost predicate ExpIncreasing(m: Math) {
    (forall x :: m.exp(x) > 0.0) &&
    forall x, y {:trigger m.exp(x), m.exp(y)} :: x < y ==> m.exp(x) < m.exp(y)
  }

  /** log is strictly increasing on positive numbers. */
  ghost predicate LogIncreasing(m: Math) {
    forall x, y {:trigger m.log(x), m.log(y)} :: 0.0 < x < y ==> m.log(x) < m.log(y)
  }

  /** sqrt is non-negative and strictly increasing on non-negative numbers. */
  ghost predicate SqrtIncreasing(m: Math) {
    (forall x :: x >= 0.0 ==> m.sqrt(x) >= 0.0) &&
    forall x, y {:trigger m.sqrt(x), m.sqrt(y)} :: 0.0 <= x < y ==> m.sqrt(x) < m.sqrt(y)
  }

  /** sqrt(y) * sqrt(y) == y for y >= 0. */
  ghost predicate SqrtSquared(m: Math) {
    forall y :: y >= 0.0 ==> m.sqrt(y) * m.sqrt(y) == y
  }

  /** cos(acos(u)) == u and cos(pi - acos(u)) == -u on [-1, 1]. */
  ghost predicate CosAcos(m: Math) {
    forall u :: -1.0 <= u <= 1.0 ==>
      m.cos(m.acos(u)) == u && m.cos(Pi - m.acos(u)) == -u
  }

  /** asin takes its values in [-pi/2, pi/2]. */
  ghost predicate AsinRange(m: Math) {
    forall u :: -Pi / 2.0 <= m.asin(u) <= Pi / 2.0
  }

  /** acos takes its values in [0, pi]. */
  ghost predicate AcosRange(m: Math) {
    forall u :: 0.0 <= m.acos(u) <= Pi
  }
}
