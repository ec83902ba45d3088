/** The one-sided sequential probability ratio test behind the scan and completion arms. */
module SequentialTest {
  import opened Numerics

  /** The value of a test: where the walk stands, its two steps and its two bounds. */
  datatype Walk = Walk(llr: real, stepHit: real, stepMiss: real, upper: real, floor: real) {
    predicate Valid() {
      && stepMiss < 0.0 < stepHit
      && floor < 0.0 < upper
      && floor <= llr <= upper + 1.0
    }

    function Stepped(step: real): Walk {
      this.(llr := Clamp(llr + step, floor, upper + 1.0))
    }

    function Observed(firstContact: bool): Walk {
      Stepped(if firstContact then stepHit else stepMiss)
    }

    function Leaked(factor: real): Walk {
      this.(llr := llr * factor)
    }

    function Evidence(): real {
      Max(llr, 0.0)
    }

    predicate Fired() {
      llr >= upper
    }
  }

  /** A usable pair of hypotheses and error rates. */
  predicate ValidRates(theta0: real, theta1: real, alpha: real, beta: real) {
    0.0 < theta0 < theta1 < 1.0 && 0.0 < alpha && 0.0 < beta && alpha + beta < 1.0
  }

  function StepHit(num: Primitives, theta0: real, theta1: real): real
    requires theta0 != 0.0
  {
    num.ln(theta1 / theta0)
  }

  function StepMiss(num: Primitives, theta0: real, theta1: real): real
    requires theta0 != 1.0
  {
    num.ln((1.0 - theta1) / (1.0 - theta0))
  }

  function UpperBound(num: Primitives, alpha: real, beta: real): real
    requires alpha != 0.0
  {
    num.ln((1.0 - beta) / alpha)
  }

  function LowerBound(num: Primitives, alpha: real, beta: real): real
    requires alpha != 1.0
  {
    num.ln(beta / (1.0 - alpha))
  }

  function NewWalk(num: Primitives, theta0: real, theta1: real, alpha: real, beta: real): Walk
    requires ValidRates(theta0, theta1, alpha, beta)
  {
    Walk(0.0, StepHit(num, theta0, theta1), StepMiss(num, theta0, theta1),
         UpperBound(num, alpha, beta), LowerBound(num, alpha, beta))
  }

  function Recalibrated(num: Primitives, w: Walk, theta0: real, theta1: real, alpha: real, beta: real): Walk
    requires ValidRates(theta0, theta1, alpha, beta)
  {
    var lo, up := LowerBound(num, alpha, beta), UpperBound(num, alpha, beta);
    Walk(Clamp(w.llr, lo, up + 1.0), StepHit(num, theta0, theta1), StepMiss(num, theta0, theta1), up, lo)
  }

  /** Ordered hypotheses and error rates give a rising hit step, a falling miss step and
      bounds on either side of zero. */
  lemma StepSigns(num: Primitives, theta0: real, theta1: real, alpha: real, beta: real)
    requires ValidRates(theta0, theta1, alpha, beta)
    ensures StepMiss(num, theta0, theta1) < 0.0 < StepHit(num, theta0, theta1)
    ensures LowerBound(num, alpha, beta) < 0.0 < UpperBound(num, alpha, beta)
  {
    LogSign(num, theta1, theta0);
    LogSign(num, 1.0 - theta1, 1.0 - theta0);
    LogSign(num, 1.0 - beta, alpha);
    LogSign(num, beta, 1.0 - alpha);
  }

  lemma LeakKeepsTheWell(w: Walk, factor: real)
    requires w.Valid() && 0.0 <= factor <= 1.0
    ensures w.Leaked(factor).Valid()
  {
    ShrinkWithin(w.llr, factor, w.floor, w.upper + 1.0);
  }

  // ---- every operation keeps the walk in its well ----

  datatype WalkOp =
    | Trial(firstContact: bool)
    | WeightedTrial(step: real)
    | Wait(factor: real)
    | Refit(theta0: real, theta1: real, alpha: real, beta: real)
  {
    predicate Valid() {
      match this
      case Wait(f) => 0.0 <= f <= 1.0
      case Refit(t0, t1, a, b) => ValidRates(t0, t1, a, b)
      case _ => true
    }
  }

  function Applied(num: Primitives, w: Walk, op: WalkOp): Walk
    requires op.Valid()
  {
    match op
    case Trial(b) => w.Observed(b)
    case WeightedTrial(s) => w.Stepped(s)
    case Wait(f) => w.Leaked(f)
    case Refit(t0, t1, a, b) => Recalibrated(num, w, t0, t1, a, b)
  }

  function AppliedAll(num: Primitives, w: Walk, ops: seq<WalkOp>): Walk
    requires forall op | op in ops :: op.Valid()
  {
    if ops == [] then w
    else Applied(num, AppliedAll(num, w, ops[..|ops| - 1]), ops[|ops| - 1])
  }

  lemma OperationKeepsTheWell(num: Primitives, w: Walk, op: WalkOp)
    requires w.Valid() && op.Valid()
    ensures Applied(num, w, op).Valid()
  {
    match op
    case Wait(f) => LeakKeepsTheWell(w, f);
    case Refit(t0, t1, a, b) => StepSigns(num, t0, t1, a, b);
    case _ =>
  }

  /** Through any run of trials, weighted trials, waits and recalibrations the walk stays
      between the floor and one nat above the bound currently in force. */
  lemma {:induction false} WalkStaysInItsWell(num: Primitives, theta0: real, theta1: real,
                                              alpha: real, beta: real, ops: seq<WalkOp>)
    requires ValidRates(theta0, theta1, alpha, beta)
    requires forall op | op in ops :: op.Valid()
    ensures AppliedAll(num, NewWalk(num, theta0, theta1, alpha, beta), ops).Valid()
  {
    if ops == [] {
      StepSigns(num, theta0, theta1, alpha, beta);
    } else {
      WalkStaysInItsWell(num, theta0, theta1, alpha, beta, ops[..|ops| - 1]);
      OperationKeepsTheWell(num, AppliedAll(num, NewWalk(num, theta0, theta1, alpha, beta), ops[..|ops| - 1]),
                            ops[|ops| - 1]);
    }
  }

  // ---- what a firing walk says about its trials ----

  /** One trial as the walk meets it: the share of the old walk that survived the wait
      before it, and the step its outcome is worth. */
  datatype Sample = Sample(kept: real, step: real)

  predicate Decaying(samples: seq<Sample>) {
    forall i | 0 <= i < |samples| :: 0.0 <= samples[i].kept <= 1.0
  }

  /** The walk after waiting and stepping through the first n samples. */
  function Walked(w: Walk, samples: seq<Sample>, n: nat): Walk
    requires n <= |samples|
  {
    if n == 0 then w
    else Walked(w, samples, n - 1).Leaked(samples[n - 1].kept).Stepped(samples[n - 1].step)
  }

  lemma {:induction false} WalkedKeepsBounds(w: Walk, samples: seq<Sample>, n: nat)
    requires n <= |samples|
    ensures Walked(w, samples, n).(llr := w.llr) == w
  {
    if n > 0 {
      WalkedKeepsBounds(w, samples, n - 1);
    }
  }

  /** What a running sum becomes over one sample. */
  function Carried(x: real, s: Sample): real {
    x * s.kept + s.step
  }

  lemma CarriedIs(x: real, s: Sample)
    ensures Carried(x, s) == x * s.kept + s.step
  {
  }

  /** A start value discounted through samples k to n, plus their discounted steps: the
      evidence an unbounded walk restarted before sample k would hold. */
  function Discounted(start: real, samples: seq<Sample>, k: nat, n: nat): real
    requires k <= n <= |samples|
  {
    if k == n then start
    else Carried(Discounted(start, samples, k, n - 1), samples[n - 1])
  }

  /** After n samples the unclamped evidence reaches the bound, counted from where the walk
      started or from some moment at which it was resting on its floor. */
  predicate SuffixReaches(start: real, samples: seq<Sample>, n: nat, floor: real, upper: real)
    requires n <= |samples|
  {
    || Discounted(start, samples, 0, n) >= upper
    || exists k :: 0 <= k <= n && Discounted(floor, samples, k, n) >= upper
  }

  /** The value `x` is the largest of the discounted sum from the start and the sums restarted
      from the floor, as far as the cap lets the walk show it. */
  predicate IsLargestSuffix(x: real, start: real, samples: seq<Sample>, n: nat, floor: real, cap: real)
    requires n <= |samples|
  {
    && (forall k :: 0 <= k <= n ==> Min(Discounted(floor, samples, k, n), cap) <= x)
    && Min(Discounted(start, samples, 0, n), cap) <= x
    && (|| x == Min(Discounted(start, samples, 0, n), cap)
        || exists k :: 0 <= k <= n && x == Min(Discounted(floor, samples, k, n), cap))
  }

  lemma LinearStep(p: real, q: real, step: real, floor: real, cap: real)
    requires p <= q && floor < cap
    ensures Min(p + step, cap) <= Clamp(q + step, floor, cap)
  {
  }

  /** Leaking and stepping preserves "no suffix is above the walk". */
  lemma OneStepBound(d: real, x: real, cap: real, s: Sample, floor: real)
    requires Min(d, cap) <= x < cap && 0.0 <= s.kept && floor < cap
    ensures Min(Carried(d, s), cap) <= Clamp(Carried(x, s), floor, cap)
  {
    hide Carried;
    assert d <= x;
    CarriedIs(d, s);
    CarriedIs(x, s);
    MulMono(d, x, s.kept);
    LinearStep(d * s.kept, x * s.kept, s.step, floor, cap);
  }

  /** One more sample keeps the walk equal to its largest suffix. */
  lemma LargestSuffixExtends(x: real, start: real, samples: seq<Sample>, n: nat, floor: real, cap: real)
    requires n < |samples| && Decaying(samples) && floor < cap
    requires IsLargestSuffix(x, start, samples, n, floor, cap) && x < cap
    ensures IsLargestSuffix(Clamp(Carried(x, samples[n]), floor, cap), start, samples, n + 1, floor, cap)
  {
    hide Carried;
    var y := Clamp(Carried(x, samples[n]), floor, cap);
    forall k {:trigger Discounted(floor, samples, k, n + 1)} | 0 <= k <= n + 1
      ensures Min(Discounted(floor, samples, k, n + 1), cap) <= y
    {
      if k <= n {
        OneStepBound(Discounted(floor, samples, k, n), x, cap, samples[n], floor);
      }
    }
    OneStepBound(Discounted(start, samples, 0, n), x, cap, samples[n], floor);
    if Carried(x, samples[n]) <= floor {
      assert y == Min(Discounted(floor, samples, n + 1, n + 1), cap);
    } else if x != Min(Discounted(start, samples, 0, n), cap) {
      var k :| 0 <= k <= n && x == Min(Discounted(floor, samples, k, n), cap);
      assert Discounted(floor, samples, k, n + 1) == Carried(x, samples[n]);
      assert y == Min(Discounted(floor, samples, k, n + 1), cap);
    }
  }

  /** Nothing fired on the first n samples. */
  predicate Silent(w: Walk, samples: seq<Sample>, n: nat)
    requires n <= |samples| + 1
  {
    forall m :: 0 <= m < n ==> !Walked(w, samples, m).Fired()
  }

  lemma WalkedStep(w: Walk, samples: seq<Sample>, n: nat)
    requires 0 < n <= |samples|
    ensures Walked(w, samples, n).llr == Clamp(Carried(Walked(w, samples, n - 1).llr, samples[n - 1]), w.floor, w.upper + 1.0)
  {
    hide Carried, Walk.Leaked, Walk.Stepped;
    WalkedKeepsBounds(w, samples, n - 1);
    LeakThenStep(Walked(w, samples, n - 1), samples[n - 1]);
  }

  lemma LeakThenStep(w: Walk, s: Sample)
    ensures w.Leaked(s.kept).Stepped(s.step).llr == Clamp(Carried(w.llr, s), w.floor, w.upper + 1.0)
  {
  }

  /** The exact shape of the walk as long as it has not fired before its last trial. */
  lemma {:induction false} WalkIsLargestSuffix(w: Walk, samples: seq<Sample>, n: nat)
    requires n <= |samples| && w.Valid() && Decaying(samples)
    requires Silent(w, samples, n)
    ensures IsLargestSuffix(Walked(w, samples, n).llr, w.llr, samples, n, w.floor, w.upper + 1.0)
  {
    hide Carried;
    if n > 0 {
      WalkIsLargestSuffix(w, samples, n - 1);
      WalkedKeepsBounds(w, samples, n - 1);
      var x := Walked(w, samples, n - 1).llr;
      LargestSuffixExtends(x, w.llr, samples, n - 1, w.floor, w.upper + 1.0);
      WalkedStep(w, samples, n);
    } else {
      assert Discounted(w.floor, samples, 0, 0) == w.floor;
    }
  }

  /** With nothing fired before, the walk fires now exactly when the suffix evidence
      reaches the bound now. */
  lemma FiresWithTheSuffix(w: Walk, samples: seq<Sample>, n: nat)
    requires n <= |samples| && w.Valid() && Decaying(samples)
    requires Silent(w, samples, n)
    ensures Walked(w, samples, n).Fired() <==> SuffixReaches(w.llr, samples, n, w.floor, w.upper)
  {
    hide Carried;
    WalkIsLargestSuffix(w, samples, n);
    WalkedKeepsBounds(w, samples, n);
  }

  /** No suffix reached the bound on the first n samples. */
  predicate NoneReached(start: real, samples: seq<Sample>, n: nat, floor: real, upper: real)
    requires n <= |samples| + 1
  {
    forall m :: 0 <= m < n ==> !SuffixReaches(start, samples, m, floor, upper)
  }

  lemma {:induction false} QuietTogether(w: Walk, samples: seq<Sample>, n: nat)
    requires w.Valid() && Decaying(samples) && n <= |samples|
    ensures Silent(w, samples, n) <==> NoneReached(w.llr, samples, n, w.floor, w.upper)
  {
    hide Walked, Discounted, SuffixReaches;
    if n > 0 {
      QuietTogether(w, samples, n - 1);
      if Silent(w, samples, n - 1) {
        FiresWithTheSuffix(w, samples, n - 1);
      }
    }
  }

  /** The clamped, leaking walk, wherever it starts, first fires at trial n exactly when n is
      the first trial at which the discounted start plus all discounted trials, or the
      discounted floor at some k plus the discounted trials after k, reaches the bound. */
  lemma FirstFiringIsFirstSuffixCrossing(w: Walk, samples: seq<Sample>, n: nat)
    requires w.Valid() && Decaying(samples) && n <= |samples|
    ensures (Silent(w, samples, n) && Walked(w, samples, n).Fired())
       <==> (NoneReached(w.llr, samples, n, w.floor, w.upper) && SuffixReaches(w.llr, samples, n, w.floor, w.upper))
  {
    hide Walked, Discounted, SuffixReaches;
    QuietTogether(w, samples, n);
    if Silent(w, samples, n) {
      FiresWithTheSuffix(w, samples, n);
    }
  }

  // ---- the same sums in clock time ----

  /** Sample i covers the time from clock[i] to clock[i + 1], and keeps what survives it. */
  predicate Paced(num: Primitives, samples: seq<Sample>, clock: seq<nat>) {
    && |clock| == |samples| + 1
    && (forall i, j :: 0 <= i <= j < |clock| ==> clock[i] <= clock[j])
    && (forall i :: 0 <= i < |samples| ==> samples[i].kept == Leak(num.perSecond, clock[i + 1] - clock[i]))
  }

  /** Steps k to n, each weighted by how much of it is left at instant t. */
  function Aged(num: Primitives, samples: seq<Sample>, clock: seq<nat>, k: nat, n: nat, t: nat): real
    requires k <= n <= |samples| && |clock| == |samples| + 1
  {
    if k == n then 0.0
    else Aged(num, samples, clock, k, n - 1, t) + samples[n - 1].step * Leak(num.perSecond, SatSub(t, clock[n]))
  }

  lemma DistributeLeak(e: real, step: real, a: real, b: real)
    ensures e * b + step * (a * b) == (e + step * a) * b
  {
  }

  lemma NothingAged(num: Primitives, samples: seq<Sample>, clock: seq<nat>, k: nat, t: nat, kept: real)
    requires k <= |samples| && |clock| == |samples| + 1
    ensures Aged(num, samples, clock, k, k, t) == 0.0 == 0.0 * kept
  {
  }

  lemma AgedOnce(num: Primitives, samples: seq<Sample>, clock: seq<nat>, k: nat, n: nat, t: nat)
    requires k < n <= |samples| && |clock| == |samples| + 1 && clock[n] <= t
    ensures Aged(num, samples, clock, k, n, t)
         == Aged(num, samples, clock, k, n - 1, t) + samples[n - 1].step * Leak(num.perSecond, t - clock[n])
  {
    hide Leak;
  }

  lemma {:induction false} AgedLeaks(num: Primitives, samples: seq<Sample>, clock: seq<nat>, k: nat, n: nat, t: nat, u: nat)
    requires k <= n <= |samples| && Paced(num, samples, clock) && clock[n] <= t <= u
    ensures Aged(num, samples, clock, k, n, u) == Aged(num, samples, clock, k, n, t) * Leak(num.perSecond, u - t)
  {
    hide Leak, Aged;
    if k == n {
      NothingAged(num, samples, clock, k, t, Leak(num.perSecond, u - t));
      NothingAged(num, samples, clock, k, u, 1.0);
    } else {
      var at, step := clock[n], samples[n - 1].step;
      AgedLeaks(num, samples, clock, k, n - 1, t, u);
      AgedOnce(num, samples, clock, k, n, t);
      AgedOnce(num, samples, clock, k, n, u);
      LeakAdds(num.perSecond, t - at, u - t);
      assert (t - at) + (u - t) == u - at;
      DistributeLeak(Aged(num, samples, clock, k, n - 1, t), step, Leak(num.perSecond, t - at), Leak(num.perSecond, u - t));
    }
  }

  lemma FreshStep(num: Primitives, step: real, t: nat)
    ensures step * Leak(num.perSecond, t - t) == step
  {
    assert Leak(num.perSecond, t - t) == 1.0;
  }

  lemma StartLeaks(num: Primitives, start: real, a: nat, b: nat, sum: real)
    ensures start * Leak(num.perSecond, a + b) + sum * Leak(num.perSecond, b)
         == (start * Leak(num.perSecond, a) + sum) * Leak(num.perSecond, b)
  {
    hide Leak;
    LeakAdds(num.perSecond, a, b);
    DistributeLeak(sum, start, Leak(num.perSecond, a), Leak(num.perSecond, b));
  }

  /** Discounting step by step, from any start at any sample, is the same as weighting the start
      and every step once by its age. */
  lemma {:induction false} DiscountIsAge(num: Primitives, start: real, samples: seq<Sample>, clock: seq<nat>, k: nat, n: nat)
    requires k <= n <= |samples| && Paced(num, samples, clock)
    ensures Discounted(start, samples, k, n)
         == start * Leak(num.perSecond, clock[n] - clock[k]) + Aged(num, samples, clock, k, n, clock[n])
  {
    hide Leak, Aged, Carried;
    if k == n {
      NothingAged(num, samples, clock, k, clock[n], 1.0);
      FreshStep(num, start, clock[n]);
    } else {
      DiscountIsAge(num, start, samples, clock, k, n - 1);
      AgedLeaks(num, samples, clock, k, n - 1, clock[n - 1], clock[n]);
      AgedOnce(num, samples, clock, k, n, clock[n]);
      FreshStep(num, samples[n - 1].step, clock[n]);
      CarriedIs(Discounted(start, samples, k, n - 1), samples[n - 1]);
      StartLeaks(num, start, clock[n - 1] - clock[k], clock[n] - clock[n - 1], Aged(num, samples, clock, k, n - 1, clock[n - 1]));
      assert (clock[n - 1] - clock[k]) + (clock[n] - clock[n - 1]) == clock[n] - clock[k];
    }
  }

  /** The test as the source keeps it: one object whose methods move the walk. */
  class SeqTest {
    var llr: real
    var stepHit: real
    var stepMiss: real
    var upper: real
    var floor: real

    ghost function Value(): Walk
      reads this
    {
      Walk(llr, stepHit, stepMiss, upper, floor)
    }

    constructor (num: Primitives, theta0: real, theta1: real, alpha: real, beta: real)
      requires ValidRates(theta0, theta1, alpha, beta)
      ensures Value() == NewWalk(num, theta0, theta1, alpha, beta)
      ensures Value().Valid()
    {
      llr := 0.0;
      stepHit := num.ln(theta1 / theta0);
      stepMiss := num.ln((1.0 - theta1) / (1.0 - theta0));
      upper := num.ln((1.0 - beta) / alpha);
      floor := num.ln(beta / (1.0 - alpha));
      StepSigns(num, theta0, theta1, alpha, beta);
    }

    method Observe(firstContact: bool) returns (evidence: real)
      requires floor <= upper + 1.0
      modifies `llr
      ensures Value() == old(Value()).Observed(firstContact)
      ensures floor <= llr <= upper + 1.0
      ensures evidence == Value().Evidence()
    {
      llr := llr + (if firstContact then stepHit else stepMiss);
      llr := Clamp(llr, floor, upper + 1.0);
      evidence := Max(llr, 0.0);
    }

    method ObserveStep(step: real) returns (evidence: real)
      requires floor <= upper + 1.0
      modifies `llr
      ensures Value() == old(Value()).Stepped(step)
      ensures floor <= llr <= upper + 1.0
      ensures evidence == Value().Evidence()
    {
      llr := Clamp(llr + step, floor, upper + 1.0);
      evidence := Max(llr, 0.0);
    }

    method Recalibrate(num: Primitives, theta0: real, theta1: real, alpha: real, beta: real)
      requires ValidRates(theta0, theta1, alpha, beta)
      modifies this
      ensures Value() == Recalibrated(num, old(Value()), theta0, theta1, alpha, beta)
      ensures Value().Valid()
    {
      stepHit := num.ln(theta1 / theta0);
      stepMiss := num.ln((1.0 - theta1) / (1.0 - theta0));
      upper := num.ln((1.0 - beta) / alpha);
      floor := num.ln(beta / (1.0 - alpha));
      StepSigns(num, theta0, theta1, alpha, beta);
      llr := Clamp(llr, floor, upper + 1.0);
    }

    method Decay(factor: real)
      modifies `llr
      ensures Value() == old(Value()).Leaked(factor)
    {
      llr := llr * factor;
    }
  }
}
