/** The parameters shared by every source: the benign and scanning hypotheses, the error
    rates, and the warm-up a new source is granted. */
module Calibration {
  import opened Numerics
  import opened SequentialTest

  datatype Params = Params(
    theta1: real,
    theta0Prefix: real,
    theta0Range: real,
    theta0c: real,
    theta1c: real,
    theta0u: real,
    alpha: real,
    beta: real,
    priorMean: real,
    priorStrength: real,
    decay: real,
    fireBits: real,
    warmupSecs: nat,
    warmupCalls: nat)
  {
    /** Every hypothesis pair is ordered, unroutable answers are no likelier than failures,
        and the prior is a proper one of bounded weight. */
    predicate Valid() {
      && ValidRates(theta0Prefix, theta1, alpha, beta)
      && ValidRates(theta0Range, theta1, alpha, beta)
      && ValidRates(theta0c, theta1c, alpha, beta)
      && 0.0 < theta0u <= theta0c
      && 0.0 < priorMean && 0.0 < priorStrength <= 50.0
      && decay == 0.98
      && 0.0 < fireBits
    }

    /** The parts calibration never moves: the scanning hypotheses, the error rates and the
        warm-up. */
    predicate Standard() {
      theta1 == 0.70 && theta1c == 0.85 && alpha == 0.0001 && beta == 0.01 && warmupSecs == 24 * 3600 && warmupCalls == 20
    }
  }

  /** The cold-start defaults. */
  function Defaults(num: Primitives): Params {
    Params(0.70, 0.05, 0.15, 0.20, 0.85, 0.05, 0.0001, 0.01, 2.0, 1.0, 0.98,
           num.ln((1.0 - 0.01) / 0.0001), 24 * 3600, 20)
  }

  lemma DefaultsAreValid(num: Primitives)
    ensures Defaults(num).Valid() && Defaults(num).Standard()
  {
    LogSign(num, 1.0 - 0.01, 0.0001);
  }

  /** The step of a `403` or no-such-number answer: never weaker than a generic failure. */
  function UnroutableStep(num: Primitives, p: Params): real
    requires p.theta0u != 0.0 && p.theta0c != 0.0
  {
    Max(num.ln(p.theta1c / p.theta0u), num.ln(p.theta1c / p.theta0c))
  }

  /** With `theta0u <= theta0c` the maximum is always the unroutable ratio itself. */
  lemma UnroutableStepIsItsOwnRatio(num: Primitives, p: Params)
    requires p.Valid()
    ensures UnroutableStep(num, p) == num.ln(p.theta1c / p.theta0u) >= StepHit(num, p.theta0c, p.theta1c) > 0.0
  {
    RatioMonotone(p.theta1c, p.theta0u, p.theta0c);
    LogMonotone(num, p.theta1c / p.theta0c, p.theta1c / p.theta0u);
    StepSigns(num, p.theta0c, p.theta1c, p.alpha, p.beta);
  }
}
