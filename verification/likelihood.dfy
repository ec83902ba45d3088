/** What the steps and the bounds of the test mean: the evidence of a list of trials is the logarithm
    of how much likelier scanning makes them than the benign hypothesis. */
module Likelihood {
  import opened Numerics
  import opened SequentialTest
  import opened Calibration

  predicate Adds(num: Primitives, x: real, y: real) {
    num.ln(x * y) == num.ln(x) + num.ln(y)
  }

  /** The logarithm of a product is the sum of the logarithms. */
  ghost predicate Additive(num: Primitives) {
    forall x, y :: x > 0.0 && y > 0.0 ==> Adds(num, x, y)
  }

  /** How likely one more trial leaves what was this likely before it. */
  function Then(before: real, contact: bool, theta: real): real {
    before * (if contact then theta else 1.0 - theta)
  }

  /** How likely these first contacts are when each trial is one with this probability. */
  function Likelihood(contacts: seq<bool>, theta: real): real {
    if contacts == [] then 1.0 else Then(Likelihood(contacts[..|contacts| - 1], theta), contacts[|contacts| - 1], theta)
  }

  lemma {:induction false} LikelihoodIsPositive(contacts: seq<bool>, theta: real)
    requires 0.0 < theta < 1.0
    ensures Likelihood(contacts, theta) > 0.0
  {
    hide Then;
    if contacts != [] {
      LikelihoodIsPositive(contacts[..|contacts| - 1], theta);
      ThenIsPositive(Likelihood(contacts[..|contacts| - 1], theta), contacts[|contacts| - 1], theta);
    }
  }

  lemma ThenIsPositive(before: real, contact: bool, theta: real)
    requires before > 0.0 && 0.0 < theta < 1.0
    ensures Then(before, contact, theta) > 0.0
  {
  }

  /** The trials as a walk that never waits meets them. */
  function Samples(num: Primitives, contacts: seq<bool>, theta0: real, theta1: real): (samples: seq<Sample>)
    requires theta0 != 0.0 && theta0 != 1.0
    ensures |samples| == |contacts|
  {
    seq(|contacts|, i requires 0 <= i < |contacts| =>
      Sample(1.0, if contacts[i] then StepHit(num, theta0, theta1) else StepMiss(num, theta0, theta1)))
  }

  lemma QuotientTimes(x: real, y: real)
    requires y != 0.0
    ensures (x / y) * y == x
  {
  }

  lemma LogOfFactor(num: Primitives, q: real, y: real, x: real)
    requires q * y == x && Adds(num, q, y)
    ensures num.ln(q) == num.ln(x) - num.ln(y)
  {
  }

  lemma LogOfRatio(num: Primitives, x: real, y: real)
    requires Additive(num) && x > 0.0 && y > 0.0
    ensures x / y > 0.0 && num.ln(x / y) == num.ln(x) - num.ln(y)
  {
    hide Adds;
    RatioSign(x, y);
    QuotientTimes(x, y);
    LogOfFactor(num, x / y, y, x);
  }

  lemma LogOfProduct(num: Primitives, x: real, y: real)
    requires Additive(num) && x > 0.0 && y > 0.0
    ensures x * y > 0.0 && num.ln(x * y) == num.ln(x) + num.ln(y)
  {
    assert Adds(num, x, y);
  }

  lemma {:induction false} PrefixCounts(samples: seq<Sample>, m: nat, start: real, n: nat)
    requires n <= m <= |samples|
    ensures Discounted(start, samples[..m], 0, n) == Discounted(start, samples, 0, n)
  {
    hide Carried;
    if n > 0 {
      PrefixCounts(samples, m, start, n - 1);
    }
  }

  lemma SamplesOnce(num: Primitives, contacts: seq<bool>, theta0: real, theta1: real)
    requires contacts != [] && theta0 != 0.0 && theta0 != 1.0
    ensures var n, last := |contacts| - 1, contacts[|contacts| - 1];
            Discounted(0.0, Samples(num, contacts, theta0, theta1), 0, |contacts|)
            == Discounted(0.0, Samples(num, contacts[..n], theta0, theta1), 0, n)
               + if last then StepHit(num, theta0, theta1) else StepMiss(num, theta0, theta1)
  {
    hide StepHit, StepMiss, Carried;
    var n := |contacts| - 1;
    var samples := Samples(num, contacts, theta0, theta1);
    assert samples[..n] == Samples(num, contacts[..n], theta0, theta1);
    PrefixCounts(samples, n, 0.0, n);
    CarriedIs(Discounted(0.0, samples, 0, n), samples[n]);
  }

  /** The sum of the steps is the log-likelihood ratio. */
  lemma {:induction false} EvidenceIsTheLogRatio(num: Primitives, contacts: seq<bool>, theta0: real, theta1: real)
    requires Additive(num) && 0.0 < theta0 < 1.0 && 0.0 < theta1 < 1.0
    ensures Discounted(0.0, Samples(num, contacts, theta0, theta1), 0, |contacts|)
         == num.ln(Likelihood(contacts, theta1)) - num.ln(Likelihood(contacts, theta0))
  {
    hide Additive, Samples, Likelihood, Discounted;
    if contacts == [] {
      NoTrials(num, contacts, theta0, theta1);
    } else {
      var n, last := |contacts| - 1, contacts[|contacts| - 1];
      EvidenceIsTheLogRatio(num, contacts[..n], theta0, theta1);
      SamplesOnce(num, contacts, theta0, theta1);
      LikelihoodOnce(num, contacts, theta0);
      LikelihoodOnce(num, contacts, theta1);
      LogOfRatio(num, theta1, theta0);
      LogOfRatio(num, 1.0 - theta1, 1.0 - theta0);
    }
  }

  lemma NoTrials(num: Primitives, contacts: seq<bool>, theta0: real, theta1: real)
    requires contacts == [] && theta0 != 0.0 && theta0 != 1.0
    ensures Discounted(0.0, Samples(num, contacts, theta0, theta1), 0, 0) == 0.0
    ensures Likelihood(contacts, theta0) == Likelihood(contacts, theta1)
  {
  }

  lemma LikelihoodOnce(num: Primitives, contacts: seq<bool>, theta: real)
    requires Additive(num) && 0.0 < theta < 1.0 && contacts != []
    ensures var last := contacts[|contacts| - 1];
            num.ln(Likelihood(contacts, theta))
            == num.ln(Likelihood(contacts[..|contacts| - 1], theta)) + if last then num.ln(theta) else num.ln(1.0 - theta)
  {
    hide Additive, Then;
    var before := Likelihood(contacts[..|contacts| - 1], theta);
    LikelihoodIsPositive(contacts[..|contacts| - 1], theta);
    LogOfThen(num, before, contacts[|contacts| - 1], theta);
  }

  lemma LogOfThen(num: Primitives, before: real, contact: bool, theta: real)
    requires Additive(num) && before > 0.0 && 0.0 < theta < 1.0
    ensures num.ln(Then(before, contact, theta)) == num.ln(before) + if contact then num.ln(theta) else num.ln(1.0 - theta)
  {
    hide Additive;
    if contact {
      LogOfProduct(num, before, theta);
    } else {
      LogOfProduct(num, before, 1.0 - theta);
    }
  }

  lemma LogOrders(num: Primitives, x: real, y: real)
    requires x > 0.0 && y > 0.0
    ensures num.ln(x) >= num.ln(y) <==> x >= y
  {
  }

  lemma CrossRatios(a: real, b: real, c: real, d: real)
    requires a > 0.0 && b > 0.0 && c > 0.0 && d > 0.0
    ensures a / b > 0.0 && c / d > 0.0 && (a / b >= c / d <==> a * d >= c * b)
  {
    RatioSign(a, b);
    RatioSign(c, d);
    QuotientTimes(a, b);
    QuotientTimes(c, d);
    ProductsCompare(a / b, c / d, b, d);
  }

  lemma ProductsCompare(p: real, q: real, b: real, d: real)
    requires b > 0.0 && d > 0.0
    ensures p >= q <==> (p * b) * d >= (q * d) * b
  {
    var k := b * d;
    assert k > 0.0;
    assert (p * b) * d == p * k && (q * d) * b == q * k;
    if p >= q {
      MulMono(q, p, k);
    } else {
      StrictlyLess(p, q, k);
    }
  }

  lemma StrictlyLess(p: real, q: real, k: real)
    requires p < q && k > 0.0
    ensures p * k < q * k
  {
  }

  /** The sequential probability ratio test: the evidence of the trials reaches the upper bound exactly
      when scanning makes them (1 - beta) / alpha times likelier than the benign hypothesis, and is down
      to the floor exactly when it makes them at most beta / (1 - alpha) times as likely. */
  lemma BoundsAreLikelihoods(num: Primitives, contacts: seq<bool>, theta0: real, theta1: real, alpha: real, beta: real)
    requires Additive(num) && ValidRates(theta0, theta1, alpha, beta)
    ensures var evidence := Discounted(0.0, Samples(num, contacts, theta0, theta1), 0, |contacts|);
            var benign, scanning := Likelihood(contacts, theta0), Likelihood(contacts, theta1);
            && (evidence >= UpperBound(num, alpha, beta) <==> alpha * scanning >= (1.0 - beta) * benign)
            && (evidence <= LowerBound(num, alpha, beta) <==> (1.0 - alpha) * scanning <= beta * benign)
  {
    hide Additive, Samples, Likelihood, Discounted;
    EvidenceIsTheLogRatio(num, contacts, theta0, theta1);
    LikelihoodIsPositive(contacts, theta0);
    LikelihoodIsPositive(contacts, theta1);
    RatiosReach(num, Likelihood(contacts, theta0), Likelihood(contacts, theta1), alpha, beta);
  }

  lemma RatiosReach(num: Primitives, benign: real, scanning: real, alpha: real, beta: real)
    requires Additive(num) && benign > 0.0 && scanning > 0.0 && 0.0 < alpha && 0.0 < beta && alpha + beta < 1.0
    ensures var evidence := num.ln(scanning) - num.ln(benign);
            && (evidence >= UpperBound(num, alpha, beta) <==> alpha * scanning >= (1.0 - beta) * benign)
            && (evidence <= LowerBound(num, alpha, beta) <==> (1.0 - alpha) * scanning <= beta * benign)
  {
    hide Additive;
    LogOfRatio(num, scanning, benign);
    CrossRatios(scanning, benign, 1.0 - beta, alpha);
    CrossRatios(beta, 1.0 - alpha, scanning, benign);
    LogOrders(num, scanning / benign, (1.0 - beta) / alpha);
    LogOrders(num, beta / (1.0 - alpha), scanning / benign);
  }

  /** The completion arm tests failures the same way, but for an unroutable answer, which counts as one
      of the rarer event. */
  lemma UnroutableIsALikelihood(num: Primitives, p: Params)
    requires Additive(num) && p.Valid()
    ensures UnroutableStep(num, p) == num.ln(p.theta1c) - num.ln(p.theta0u)
  {
    UnroutableStepIsItsOwnRatio(num, p);
    LogOfRatio(num, p.theta1c, p.theta0u);
  }
}
