/** What a recalibration fits, told from the counters and the learned rates it meets, and that
    nothing else moves the parameters. */
module EngineCalibration {
  import opened Numerics
  import opened Calibration
  import opened EngineModel
  import opened EngineRuns
  import EngineBlock
  import EngineCounters
  import EngineEffects
  import Detectors
  import Sums

  /** The rate is the share of a part in a whole where that lies between the bounds, and otherwise
      the bound nearer to it. */
  predicate Estimates(rate: real, part: real, whole: real, lo: real, hi: real) {
    && (lo * whole <= part <= hi * whole ==> rate * whole == part)
    && (part < lo * whole ==> rate == lo)
    && (part > hi * whole ==> rate == hi)
  }

  lemma ClampEstimates(part: real, whole: real, lo: real, hi: real)
    requires whole > 0.0 && lo <= hi
    ensures Estimates(Clamp(part / whole, lo, hi), part, whole, lo, hi)
  {
    var share := part / whole;
    assert share * whole == part;
    assert (share - lo) * whole == part - lo * whole && (hi - share) * whole == hi * whole - part;
    SignOfProduct(share - lo, whole);
    SignOfProduct(hi - share, whole);
  }

  lemma SignOfProduct(x: real, d: real)
    requires d > 0.0
    ensures x * d >= 0.0 <==> x >= 0.0
    ensures x * d == 0.0 <==> x == 0.0
  {
  }

  // ---- the hypotheses ----

  /** The hypotheses after a recalibration. */
  predicate HypothesesFit(p: Params, q: Params, c: CallStats) {
    && (if c.completed + c.failed < 200 then q.theta0c == p.theta0c && q.theta0u == p.theta0u
        else var finals := (c.completed + c.failed) as real;
             Estimates(q.theta0c, c.failed as real, finals, 0.05, 0.7)
             && Estimates(q.theta0u, c.unroutable as real, finals, 0.005, 0.3))
    && (if c.international < 500 then q.theta0Prefix == p.theta0Prefix && q.theta0Range == p.theta0Range
        else var calls := c.international as real;
             Estimates(q.theta0Prefix, c.prefixNovel as real, calls, 0.005, 0.3)
             && Estimates(q.theta0Range, c.rangeNovel as real, calls, 0.02, 0.4))
  }

  /** Unroutable answers are among the failures, so the cap on their rate never binds. */
  lemma CapNeverBinds(c: CallStats)
    requires c.unroutable <= c.failed && c.completed + c.failed > 0
    ensures var finals := (c.completed + c.failed) as real;
            Clamp(c.unroutable as real / finals, 0.005, 0.3) <= Clamp(c.failed as real / finals, 0.05, 0.7)
  {
    EngineCounters.RatioOfParts(c.unroutable, c.failed, c.completed + c.failed);
  }

  lemma CountersFit(p: Params, c: CallStats)
    requires c.unroutable <= c.failed
    ensures var q := FitCounters(p, c);
            && HypothesesFit(p, q, c)
            && q == p.(theta0c := q.theta0c, theta0u := q.theta0u, theta0Prefix := q.theta0Prefix, theta0Range := q.theta0Range)
  {
    hide Estimates, Clamp;
    if c.completed + c.failed >= 200 {
      var finals := (c.completed + c.failed) as real;
      ClampEstimates(c.failed as real, finals, 0.05, 0.7);
      ClampEstimates(c.unroutable as real, finals, 0.005, 0.3);
      CapNeverBinds(c);
    }
    if c.international >= 500 {
      ClampEstimates(c.prefixNovel as real, c.international as real, 0.005, 0.3);
      ClampEstimates(c.rangeNovel as real, c.international as real, 0.02, 0.4);
    }
  }

  // ---- the prior ----

  /** How far each rate is from a mean, squared. */
  function Distances(rates: map<Ip, real>, mean: real): map<Ip, real> {
    map s | s in rates :: (rates[s] - mean) * (rates[s] - mean)
  }

  predicate AllAlike(rates: map<Ip, real>) {
    forall s, t :: s in rates && t in rates ==> rates[s] == rates[t]
  }

  /** The prior after a recalibration: the mean of the rates, and the mean over their variance as
      its weight, once there are twenty sources and two of them differ. */
  ghost predicate PriorFits(p: Params, q: Params, rates: map<Ip, real>) {
    if |rates| < 20 || AllAlike(rates) then
      q.priorMean == p.priorMean && q.priorStrength == p.priorStrength
    else
      var total := Sums.SumR(rates);
      && q.priorMean * |rates| as real == total
      && Estimates(q.priorStrength, total, Sums.SumR(Distances(rates, q.priorMean)), 0.1, 50.0)
  }

  lemma {:induction false} SumOfNonNegatives(m: map<Ip, real>)
    requires forall s :: s in m ==> m[s] >= 0.0
    ensures Sums.SumR(m) >= 0.0
    ensures Sums.SumR(m) == 0.0 <==> forall s :: s in m ==> m[s] == 0.0
    decreases |m|
  {
    if m != map[] {
      var s :| s in m;
      Sums.SumRRemove(m, s);
      SumOfNonNegatives(m - {s});
      if forall t :: t in m - {s} ==> (m - {s})[t] == 0.0 {
        forall t | t in m && t != s ensures m[t] == 0.0 {
          assert t in m - {s};
        }
      }
    }
  }

  lemma OneMoreTimes(x: real, n: nat)
    requires n > 0
    ensures x * n as real == x + x * (n - 1) as real
  {
    assert n as real == 1.0 + (n - 1) as real;
  }

  lemma {:induction false} SumOfEquals(m: map<Ip, real>, x: real)
    requires forall s :: s in m ==> m[s] == x
    ensures Sums.SumR(m) == x * |m| as real
    decreases |m|
  {
    hide Sums.SumR;
    if m == map[] {
      EmptySum(m, x);
    } else {
      var s :| s in m;
      Sums.SumRRemove(m, s);
      SumOfEquals(m - {s}, x);
      OneMoreTimes(x, |m|);
    }
  }

  lemma EmptySum(m: map<Ip, real>, x: real)
    requires m == map[]
    ensures Sums.SumR(m) == x * |m| as real
  {
  }

  lemma SquareOf(x: real)
    ensures x * x >= 0.0 && (x * x == 0.0 <==> x == 0.0)
  {
    if x > 0.0 {
      SignOfProduct(x, x);
    } else if x < 0.0 {
      SignOfProduct(x, -x);
      assert x * x == -(x * -x);
    }
  }

  lemma DistanceOf(rates: map<Ip, real>, mean: real, s: Ip)
    requires s in rates
    ensures s in Distances(rates, mean) && Distances(rates, mean)[s] >= 0.0
    ensures Distances(rates, mean)[s] == 0.0 <==> rates[s] == mean
  {
    SquareOf(rates[s] - mean);
  }

  /** The rates spread exactly when two of them differ. */
  lemma SpreadOfDifferent(rates: map<Ip, real>, mean: real)
    requires |rates| > 0 && mean * |rates| as real == Sums.SumR(rates)
    ensures Sums.SumR(Distances(rates, mean)) >= 0.0
    ensures Sums.SumR(Distances(rates, mean)) == 0.0 <==> AllAlike(rates)
  {
    hide Distances, Sums.SumR;
    var squares := Distances(rates, mean);
    DistancesOfAll(rates, mean);
    SumOfNonNegatives(squares);
    if AllAlike(rates) {
      var s :| s in rates;
      SumOfEquals(rates, rates[s]);
      SameProduct(rates[s], mean, |rates| as real);
    }
  }

  lemma DistancesOfAll(rates: map<Ip, real>, mean: real)
    ensures Distances(rates, mean).Keys == rates.Keys
    ensures forall s :: s in rates ==>
              Distances(rates, mean)[s] >= 0.0 && (Distances(rates, mean)[s] == 0.0 <==> rates[s] == mean)
  {
    forall s | s in rates ensures Distances(rates, mean)[s] >= 0.0 && (Distances(rates, mean)[s] == 0.0 <==> rates[s] == mean) {
      DistanceOf(rates, mean, s);
    }
  }

  lemma SameProduct(x: real, y: real, d: real)
    requires d > 0.0 && x * d == y * d
    ensures x == y
  {
    assert (x - y) * d == 0.0;
    SignOfProduct(x - y, d);
  }

  lemma QuotientTimes(x: real, d: real)
    requires d > 0.0
    ensures (x / d) * d == x && (x / d > 0.0 <==> x > 0.0)
  {
    SignOfProduct(x / d, d);
  }

  /** The mean and the variance the prior is taken from. */
  lemma MeanAndVariance(rates: map<Ip, real>)
    requires |rates| > 0 && forall s :: s in rates ==> rates[s] > 0.0
    ensures Mean(rates) * |rates| as real == Sums.SumR(rates) && Mean(rates) > 0.0
    ensures |SquaredDistances(rates, Mean(rates))| == |rates|
    ensures Mean(SquaredDistances(rates, Mean(rates))) * |rates| as real == Sums.SumR(Distances(rates, Mean(rates)))
    ensures Mean(SquaredDistances(rates, Mean(rates))) > 0.0 <==> !AllAlike(rates)
  {
    hide Sums.SumR;
    var n := |rates| as real;
    SumOfNonNegatives(rates);
    var some :| some in rates;
    QuotientTimes(Sums.SumR(rates), n);
    var squares := SquaredDistances(rates, Mean(rates));
    assert squares == Distances(rates, Mean(rates));
    assert squares.Keys == rates.Keys;
    QuotientTimes(Sums.SumR(squares), n);
    SpreadOfDifferent(rates, Mean(rates));
  }

  lemma RatesFit(p: Params, rates: map<Ip, real>)
    requires forall s :: s in rates ==> rates[s] > 0.0
    ensures var q := FitRates(p, rates);
            PriorFits(p, q, rates) && q == p.(priorMean := q.priorMean, priorStrength := q.priorStrength)
  {
    hide Estimates, Clamp, Mean, SquaredDistances, Distances, Sums.SumR, AllAlike;
    if |rates| >= 20 {
      MeanAndVariance(rates);
      if !AllAlike(rates) {
        var n, mean, spread := |rates| as real, Mean(rates), Mean(SquaredDistances(rates, Mean(rates)));
        MeanOverVariance(mean, spread, n);
        assert mean / spread == Sums.SumR(rates) / Sums.SumR(Distances(rates, mean));
        ClampEstimates(Sums.SumR(rates), Sums.SumR(Distances(rates, mean)), 0.1, 50.0);
        assert FitRates(p, rates).priorMean == mean;
        assert FitRates(p, rates).priorStrength == Clamp(mean / spread, 0.1, 50.0);
      }
    }
  }

  lemma MeanOverVariance(mean: real, spread: real, n: real)
    requires spread > 0.0 && n > 0.0
    ensures spread * n > 0.0 && mean / spread == (mean * n) / (spread * n)
  {
    var x := mean / spread;
    assert x * spread == mean;
    assert x * (spread * n) == mean * n;
  }

  // ---- over runs ----

  /** The rate each source has learned: calls over hours. */
  ghost function LearnedRates(st: State): map<Ip, real>
    requires st.Valid()
  {
    map s | s in st.peers :: (assert st.peers[s].Valid(); st.peers[s].anomaly.volume.rate.a / st.peers[s].anomaly.volume.rate.b)
  }

  lemma RatesAreLearned(st: State)
    requires st.Valid()
    ensures Rates(st.peers) == LearnedRates(st)
    ensures forall s :: s in LearnedRates(st) ==> LearnedRates(st)[s] > 0.0
  {
    forall s | s in st.peers ensures LearnedRates(st)[s] > 0.0 && Rates(st.peers)[s] == LearnedRates(st)[s] {
      RateIsPositive(st.peers[s]);
    }
  }

  lemma RateIsPositive(ps: PeerState)
    requires ps.Valid()
    ensures ps.anomaly.volume.rate.b > 0.0 && ps.anomaly.volume.rate.a / ps.anomaly.volume.rate.b > 0.0
  {
    RatioSign(ps.anomaly.volume.rate.a, ps.anomaly.volume.rate.b);
  }

  /** In every run, a recalibration sets the failure rate to the share of failures among the final
      answers and the unroutable rate to theirs, from 200 final answers on; the two novelty rates to
      the shares of novel prefixes and ranges among the international calls, from 500 on; each
      within its bounds. It sets the volume prior to the mean of the rates the sources have learned,
      weighted by the mean over the variance, from 20 sources on that are not all alike. Every other
      parameter stays as it was, and every source adopts the result. */
  lemma RecalibrationFits(w: World, mode: Mode, ops: seq<Op>, n: nat)
    requires n < |ops| && AllValid(ops) && Initial(w, mode).Valid() && ops[n].Recalibrate?
    ensures var st, after := Run(w, Initial(w, mode), ops, n), Run(w, Initial(w, mode), ops, n + 1);
            var p, q := st.params, after.params;
            && HypothesesFit(p, q, st.stats.calls)
            && PriorFits(p, q, LearnedRates(st))
            && q == p.(theta0c := q.theta0c, theta0u := q.theta0u, theta0Prefix := q.theta0Prefix, theta0Range := q.theta0Range,
                       priorMean := q.priorMean, priorStrength := q.priorStrength)
            && forall s :: s in st.peers ==>
                 EngineBlock.EventAt(w, Initial(w, mode), ops, n, s) == Some(Detectors.Calibrated(q))
  {
    hide Run, Initial, HypothesesFit, PriorFits, FitCounters, FitRates, Rates, LearnedRates, PeerState.Valid,
         Detectors.Detector.Recalibrated, EngineCounters.AuthsWaiting, EngineCounters.CallsWaiting;
    var st := Run(w, Initial(w, mode), ops, n);
    RunStep(w, Initial(w, mode), ops, n);
    EngineCounters.CountersAreConserved(w, mode, ops, n);
    CountersFit(st.params, st.stats.calls);
    RatesAreLearned(st);
    var counted := FitCounters(st.params, st.stats.calls);
    RatesFit(counted, Rates(st.peers));
    HypothesesOnly(st.params, counted, Fitted(st), st.stats.calls);
    PriorOnly(st.params, counted, Fitted(st), LearnedRates(st));
  }

  lemma HypothesesOnly(p: Params, counted: Params, q: Params, c: CallStats)
    requires HypothesesFit(p, counted, c) && q == counted.(priorMean := q.priorMean, priorStrength := q.priorStrength)
    ensures HypothesesFit(p, q, c)
  {
    hide Estimates;
  }

  lemma PriorOnly(p: Params, counted: Params, q: Params, rates: map<Ip, real>)
    requires PriorFits(counted, q, rates)
    requires counted.priorMean == p.priorMean && counted.priorStrength == p.priorStrength
    ensures PriorFits(p, q, rates)
  {
    hide Estimates;
  }

  lemma OthersKeepParams(w: World, st: State, op: Op)
    requires st.Valid() && op.Valid() && !op.Recalibrate?
    ensures Step(w, st, op).params == st.params
  {
    hide Observe, PeerState.Valid;
    if op.Receive? {
      EngineEffects.PacketEffect(w, st, op, op.p.src);
    }
  }

  /** Until the first recalibration every reachable state has the parameters of a cold start: the
      fire bound is the logarithm of 0.99 over 0.0001, and a source warms up for a day and twenty
      calls. */
  lemma {:induction false} ColdStart(w: World, mode: Mode, ops: seq<Op>, n: nat)
    requires n <= |ops| && AllValid(ops) && Initial(w, mode).Valid()
    requires forall i :: 0 <= i < n ==> !ops[i].Recalibrate?
    ensures var p := Run(w, Initial(w, mode), ops, n).params;
            && p.theta0Prefix == 0.05 && p.theta0Range == 0.15 && p.theta0c == 0.20 && p.theta0u == 0.05
            && p.priorMean == 2.0 && p.priorStrength == 1.0 && p.decay == 0.98
            && p.theta1 == 0.70 && p.theta1c == 0.85 && p.alpha == 0.0001 && p.beta == 0.01
            && p.fireBits == w.num.ln(0.99 / 0.0001) && p.warmupSecs == 86400 && p.warmupCalls == 20
  {
    hide Step;
    if n > 0 {
      ColdStart(w, mode, ops, n - 1);
      RunStep(w, Initial(w, mode), ops, n - 1);
      OthersKeepParams(w, Run(w, Initial(w, mode), ops, n - 1), ops[n - 1]);
    }
  }

  // ---- the steps in force ----

  /** The walks of a detector step by these hypotheses: a first contact, a failure, an unroutable answer
      are worth the logarithm of how much likelier scanning makes them, and so are their opposites. */
  predicate StepsBy(num: Primitives, d: Detectors.Detector, p: Params)
    requires p.Valid()
  {
    && d.prefixScan.stepHit == num.ln(p.theta1 / p.theta0Prefix)
    && d.prefixScan.stepMiss == num.ln((1.0 - p.theta1) / (1.0 - p.theta0Prefix))
    && d.rangeScan.stepHit == num.ln(p.theta1 / p.theta0Range)
    && d.rangeScan.stepMiss == num.ln((1.0 - p.theta1) / (1.0 - p.theta0Range))
    && d.completion.walk.stepHit == num.ln(p.theta1c / p.theta0c)
    && d.completion.walk.stepMiss == num.ln((1.0 - p.theta1c) / (1.0 - p.theta0c))
    && d.completion.unroutable == num.ln(p.theta1c / p.theta0u)
  }

  lemma NewStepsBy(num: Primitives, p: Params)
    requires p.Valid()
    ensures StepsBy(num, Detectors.New(num, p), p)
  {
    UnroutableStepIsItsOwnRatio(num, p);
  }

  lemma RestoredStepsBy(num: Primitives, p: Params, row: Detectors.Snapshot)
    requires p.Valid()
    ensures StepsBy(num, Detectors.FromSnapshot(num, p, row), p)
  {
    UnroutableStepIsItsOwnRatio(num, p);
  }

  lemma RecalibratedStepsBy(num: Primitives, d: Detectors.Detector, p: Params)
    requires p.Valid()
    ensures StepsBy(num, d.Recalibrated(num, p), p)
  {
    UnroutableStepIsItsOwnRatio(num, p);
  }

  lemma EventKeepsSteps(num: Primitives, d: Detectors.Detector, e: Detectors.Event, p: Params)
    requires d.numbers.Valid() && p.Valid() && !e.Calibrated? && StepsBy(num, d, p)
    ensures StepsBy(num, Detectors.After(num, d, e), p)
  {
  }

  /** The source steps by the hypotheses in force, or by those of a cold start, as one whose dial plan
      was declared before any recalibration since does. */
  ghost predicate InForce(w: World, st: State, s: Ip)
    requires st.Valid()
  {
    s in st.peers ==>
      && Defaults(w.num).Valid()
      && (StepsBy(w.num, st.peers[s].anomaly, st.params) || StepsBy(w.num, st.peers[s].anomaly, Defaults(w.num)))
  }

  lemma BaseStepsBy(w: World, st: State, op: Op, s: Ip)
    requires st.Valid() && op.Valid() && InForce(w, st, s)
    ensures Defaults(w.num).Valid() && EngineBlock.Base(w, st, op, s).numbers.Valid()
    ensures var d := EngineBlock.Base(w, st, op, s);
            StepsBy(w.num, d, st.params) || StepsBy(w.num, d, Defaults(w.num))
  {
    hide StepsBy, Detectors.New, Detectors.FromSnapshot, PeerState.Valid, EngineBlock.Newborn;
    DefaultsAreValid(w.num);
    EngineBlock.BaseLaws(w, st, op, s);
    NewStepsBy(w.num, st.params);
    NewStepsBy(w.num, Defaults(w.num));
    if EngineBlock.Restores(st, op, s) {
      RestoredStepsBy(w.num, st.params, op.row);
    }
  }

  lemma StepsStayInForce(w: World, st: State, op: Op, s: Ip)
    requires st.Valid() && op.Valid() && InForce(w, st, s)
    ensures Step(w, st, op).Valid() && InForce(w, Step(w, st, op), s)
  {
    hide StepsBy, Step, PeerState.Valid, EngineBlock.Base, EngineBlock.EventOf, Fitted, Detectors.After, Params.Valid;
    StepKeepsValid(w, st, op);
    DefaultsAreValid(w.num);
    if s in Step(w, st, op).peers {
      BaseStepsBy(w, st, op, s);
      EngineBlock.DetectorStep(w, st, op, s);
      if op.Recalibrate? {
        AdoptsFitted(w, st, s);
      } else {
        OthersKeepParams(w, st, op);
        NotCalibrated(w, st, op, s);
        if EngineBlock.EventOf(w, st, op, s).Some? {
          var e := EngineBlock.EventOf(w, st, op, s).value;
          var d := EngineBlock.Base(w, st, op, s);
          if StepsBy(w.num, d, st.params) {
            EventKeepsSteps(w.num, d, e, st.params);
          } else {
            EventKeepsSteps(w.num, d, e, Defaults(w.num));
          }
        }
      }
    }
  }

  lemma NotCalibrated(w: World, st: State, op: Op, s: Ip)
    requires st.Valid() && !op.Recalibrate?
    ensures var e := EngineBlock.EventOf(w, st, op, s); e.Some? ==> !e.value.Calibrated?
  {
    hide EngineEffects.CallMade, EngineEffects.OutcomeHeard, Claims, PeerState.Valid;
  }

  lemma AdoptsFitted(w: World, st: State, s: Ip)
    requires st.Valid() && s in Step(w, st, Recalibrate).peers
    ensures Step(w, st, Recalibrate).params.Valid()
    ensures StepsBy(w.num, Step(w, st, Recalibrate).peers[s].anomaly, Step(w, st, Recalibrate).params)
  {
    hide StepsBy, Fitted, PeerState.Valid, Detectors.Detector.Recalibrated;
    FittedIsValid(st);
    RecalibratedStepsBy(w.num, st.peers[s].anomaly, Fitted(st));
  }

  /** In every reachable state the walks of every source step by the hypotheses in force, or by those of
      a cold start. */
  lemma {:induction false} StepsFollowTheHypotheses(w: World, mode: Mode, ops: seq<Op>, n: nat, s: Ip)
    requires n <= |ops| && AllValid(ops) && Initial(w, mode).Valid()
    ensures InForce(w, Run(w, Initial(w, mode), ops, n), s)
  {
    hide Step, InForce;
    if n == 0 {
      NoStepsYet(w, mode, ops, s);
    } else {
      StepsFollowTheHypotheses(w, mode, ops, n - 1, s);
      StepsStayInForce(w, Run(w, Initial(w, mode), ops, n - 1), ops[n - 1], s);
    }
  }

  lemma NoStepsYet(w: World, mode: Mode, ops: seq<Op>, s: Ip)
    requires AllValid(ops) && Initial(w, mode).Valid()
    ensures InForce(w, Run(w, Initial(w, mode), ops, 0), s)
  {
  }
}
