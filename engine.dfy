/** The CLHEP random engine, seen as the finite prefix of its stream of
    uniform draws that an operation consumes, left to right. */
module Engine {

  /** What HepRandomEngine::flat() returns: a uniform number in [0,1). */
  predicate IsFlat(u: real) {
    0.0 <= u < 1.0
  }

  predicate AllFlat(draws: seq<real>) {
    forall i :: 0 <= i < |draws| ==> IsFlat(draws[i])
  }

  /** `rest` is what is left of `draws` after exactly `n` draws. */
  predicate Consumed(draws: seq<real>, rest: seq<real>, n: nat) {
    n <= |draws| && rest == draws[n..]
  }

  /** The outcome of one pass through the body of a rejection loop. */
  datatype Attempt =
    | Accepted(value: real, rest: seq<real>)
    | Rejected(rest: seq<real>)
    | Exhausted   // the prefix ran out before the pass could finish
    | Undefined   // the source would divide by zero on this pass
}
