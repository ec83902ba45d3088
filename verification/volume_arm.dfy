/** The volume arm: hourly counts of international calls scored against a Gamma posterior of
    the source's own rate. */
module VolumeArm {
  import opened Numerics

  const WINDOW_SECS: nat := 3600
  const MIN_PERIODS: nat := 6

  /** The surprise of a count in bits; an empty period is never surprising. */
  function Score(num: Primitives, a: real, b: real, count: nat): (bits: real)
    ensures 0.0 <= bits <= num.cap
  {
    assert 0.0 <= num.surprise(a, b, count) <= num.cap;
    if count == 0 then 0.0 else num.surprise(a, b, count)
  }

  /** Gamma shape and rate, the forgetting factor, and how many periods were folded in. */
  datatype Posterior = Posterior(a: real, b: real, decay: real, periods: nat) {
    predicate Valid() {
      0.0 < a && 0.0 < b && 0.0 < decay <= 1.0
    }

    /** How surprising a period's count is, scored against the posterior as it stands. */
    function Surprise(num: Primitives, count: nat): real {
      Score(num, a, b, count)
    }

    function Updated(count: nat): Posterior {
      Posterior(a * decay + count as real, b * decay + 1.0, decay, SatInc(periods))
    }

    function Rate(): real
      requires b != 0.0
    {
      a / b
    }
  }

  function Prior(mean: real, strength: real, decay: real): Posterior {
    Posterior(mean * strength, strength, decay, 0)
  }

  /** The model as the source keeps it. */
  class RateModel {
    var a: real
    var b: real
    var decay: real
    var periods: nat

    ghost function Value(): Posterior
      reads this
    {
      Posterior(a, b, decay, periods)
    }

    constructor (priorMean: real, priorStrength: real, decay: real)
      ensures Value() == Prior(priorMean, priorStrength, decay)
    {
      this.a := priorMean * priorStrength;
      this.b := priorStrength;
      this.decay := decay;
      this.periods := 0;
    }

    method SurpriseBits(num: Primitives, count: nat) returns (bits: real)
      ensures bits == Value().Surprise(num, count)
      ensures 0.0 <= bits <= num.cap
    {
      bits := Score(num, a, b, count);
    }

    method Update(count: nat)
      modifies this
      ensures Value() == old(Value()).Updated(count)
    {
      a := a * decay + count as real;
      b := b * decay + 1.0;
      periods := SatInc(periods);
    }
  }

  datatype Arm = Arm(rate: Posterior, windowStart: nat, windowCount: nat, evidence: real) {
    /** Closes the window once it is an hour old: scores its count, folds it in, and halves
        the standing evidence before adding the new score. */
    function Rolled(num: Primitives, at: nat): Arm {
      if windowStart == 0 then this.(windowStart := at)
      else if SatSub(at, windowStart) >= WINDOW_SECS then
        Arm(rate.Updated(windowCount), at, 0, evidence * 0.5 + rate.Surprise(num, windowCount))
      else this
    }

    function Observed(num: Primitives, at: nat): Arm {
      var arm := Rolled(num, at);
      arm.(windowCount := arm.windowCount + 1)
    }

    /** The contribution in nats, gated by the number of closed windows. */
    function Bits(num: Primitives): real {
      if rate.periods >= MIN_PERIODS then evidence * num.ln(2.0) else 0.0
    }
  }

  function New(rate: Posterior): Arm {
    Arm(rate, 0, 0, 0.0)
  }

  /** One event; `None` is an event that is no call. */
  function Next(num: Primitives, arm: Arm, call: Option<nat>): Arm {
    match call
    case None => arm
    case Some(at) => arm.Observed(num, at)
  }

  /** The arm after the first n events. */
  function Run(num: Primitives, rate: Posterior, calls: seq<Option<nat>>, n: nat): Arm
    requires n <= |calls|
  {
    if n == 0 then New(rate) else Next(num, Run(num, rate, calls, n - 1), calls[n - 1])
  }

  // ---- what the arm holds, told from the calls alone ----

  predicate Clocked(calls: seq<Option<nat>>) {
    && (forall i :: 0 <= i < |calls| && calls[i].Some? ==> calls[i].value > 0)
    && (forall i, j :: 0 <= i < j < |calls| && calls[i].Some? && calls[j].Some? ==> calls[i].value <= calls[j].value)
  }

  /** How many calls stand at positions lo to hi. */
  function Calls(calls: seq<Option<nat>>, lo: nat, hi: nat): nat
    requires lo <= hi <= |calls|
  {
    if lo == hi then 0 else Calls(calls, lo, hi - 1) + (if calls[hi - 1].Some? then 1 else 0)
  }

  lemma {:induction false} CallsAdd(calls: seq<Option<nat>>, lo: nat, mid: nat, hi: nat)
    requires lo <= mid <= hi <= |calls|
    ensures Calls(calls, lo, hi) == Calls(calls, lo, mid) + Calls(calls, mid, hi)
  {
    if mid < hi {
      CallsAdd(calls, lo, mid, hi - 1);
    }
  }

  /** Where the window opened by the k-th opening ends, as far as the first n events tell. */
  function End(starts: seq<nat>, k: nat, n: nat): nat
    requires k < |starts|
  {
    if k + 1 < |starts| then starts[k + 1] else n
  }

  /** Every call from the k-th opening to the next is less than an hour after it. */
  predicate WithinTheHour(calls: seq<Option<nat>>, starts: seq<nat>, k: nat, n: nat)
    requires k < |starts| && starts[k] < |calls| && calls[starts[k]].Some? && End(starts, k, n) <= |calls|
  {
    forall i :: starts[k] <= i < End(starts, k, n) && calls[i].Some? ==>
      calls[i].value < calls[starts[k]].value + 3600
  }

  /** `starts` lists the calls that opened a window: the first call of all, and then each
      first call at least an hour after the previous opening. */
  predicate Openings(calls: seq<Option<nat>>, n: nat, starts: seq<nat>)
    requires n <= |calls|
  {
    && (forall k :: 0 <= k < |starts| ==> starts[k] < n && calls[starts[k]].Some?)
    && (forall i :: 0 <= i < (if starts == [] then n else starts[0]) ==> calls[i].None?)
    && (forall k :: 0 <= k < |starts| - 1 ==>
          && starts[k] < starts[k + 1]
          && calls[starts[k]].value + 3600 <= calls[starts[k + 1]].value)
    && (forall k :: 0 <= k < |starts| ==> WithinTheHour(calls, starts, k, n))
  }

  /** The counts of the closed windows: the calls from each opening to the next. */
  function Closed(calls: seq<Option<nat>>, starts: seq<nat>, k: nat): seq<nat>
    requires k < |starts|
    requires forall i :: 0 <= i < |starts| ==> starts[i] < |calls|
    requires forall i :: 0 <= i < |starts| - 1 ==> starts[i] <= starts[i + 1]
  {
    if k == 0 then [] else Closed(calls, starts, k - 1) + [Calls(calls, starts[k - 1], starts[k])]
  }

  /** The posterior after folding in a list of counts, oldest first. */
  function Folded(rate: Posterior, counts: seq<nat>): Posterior {
    if counts == [] then rate else Folded(rate, counts[..|counts| - 1]).Updated(counts[|counts| - 1])
  }

  /** Every count scored against the posterior of the counts before it, each older score
      worth half as much again. */
  function Standing(num: Primitives, rate: Posterior, counts: seq<nat>): real {
    if counts == [] then 0.0
    else
      var before := counts[..|counts| - 1];
      Standing(num, rate, before) * 0.5 + Folded(rate, before).Surprise(num, counts[|counts| - 1])
  }

  function Sum(counts: seq<nat>): nat {
    if counts == [] then 0 else Sum(counts[..|counts| - 1]) + counts[|counts| - 1]
  }

  /** The arm's state is the one its windows give it. */
  predicate HoldsWindows(num: Primitives, rate: Posterior, calls: seq<Option<nat>>, n: nat, starts: seq<nat>, arm: Arm)
    requires n <= |calls| && Openings(calls, n, starts)
  {
    if starts == [] then arm == New(rate)
    else
      var closed := Closed(calls, starts, |starts| - 1);
      && arm.windowStart == calls[starts[|starts| - 1]].value
      && arm.windowCount == Calls(calls, starts[|starts| - 1], n)
      && arm.rate == Folded(rate, closed)
      && arm.evidence == Standing(num, rate, closed)
  }

  lemma {:induction false} ClosedOfLonger(calls: seq<Option<nat>>, starts: seq<nat>, s: nat, k: nat)
    requires k < |starts|
    requires forall i :: 0 <= i < |starts| ==> starts[i] < |calls|
    requires forall i :: 0 <= i < |starts| - 1 ==> starts[i] <= starts[i + 1]
    requires s < |calls| && starts[|starts| - 1] <= s
    ensures Closed(calls, starts + [s], k) == Closed(calls, starts, k)
  {
    if k > 0 {
      ClosedOfLonger(calls, starts, s, k - 1);
    }
  }

  lemma OpenAnother(calls: seq<Option<nat>>, n: nat, starts: seq<nat>)
    requires n < |calls| && Openings(calls, n, starts) && calls[n].Some?
    requires starts != [] ==> calls[starts[|starts| - 1]].value + WINDOW_SECS <= calls[n].value
    ensures Openings(calls, n + 1, starts + [n])
  {
    var longer := starts + [n];
    forall k {:trigger WithinTheHour(calls, longer, k, n + 1)} | 0 <= k < |longer|
      ensures WithinTheHour(calls, longer, k, n + 1) {
      if k < |starts| {
        assert WithinTheHour(calls, starts, k, n);
        assert End(longer, k, n + 1) == End(starts, k, n);
      }
    }
  }

  lemma StayOpen(calls: seq<Option<nat>>, n: nat, starts: seq<nat>)
    requires n < |calls| && Openings(calls, n, starts)
    requires calls[n].Some? ==> starts != [] && calls[n].value < calls[starts[|starts| - 1]].value + WINDOW_SECS
    ensures Openings(calls, n + 1, starts)
  {
    forall k {:trigger WithinTheHour(calls, starts, k, n + 1)} | 0 <= k < |starts|
      ensures WithinTheHour(calls, starts, k, n + 1) {
      assert WithinTheHour(calls, starts, k, n);
    }
  }

  lemma OpeningsAreCalls(calls: seq<Option<nat>>, n: nat, starts: seq<nat>)
    requires n <= |calls| && Clocked(calls) && Openings(calls, n, starts)
    ensures forall k :: 0 <= k < |starts| ==> starts[k] < n && calls[starts[k]].Some? && calls[starts[k]].value > 0
    ensures forall k :: 0 <= k < |starts| - 1 ==> starts[k] <= starts[k + 1]
    ensures n < |calls| && calls[n].Some? && starts != [] ==> calls[starts[|starts| - 1]].value <= calls[n].value
  {
  }

  predicate Opens(calls: seq<Option<nat>>, n: nat, starts: seq<nat>, arm: Arm)
    requires n < |calls|
  {
    calls[n].Some? && (starts == [] || SatSub(calls[n].value, arm.windowStart) >= WINDOW_SECS)
  }

  lemma OpeningStep(num: Primitives, rate: Posterior, calls: seq<Option<nat>>, n: nat, starts: seq<nat>, arm: Arm)
    requires n < |calls| && Clocked(calls) && Openings(calls, n, starts)
    requires HoldsWindows(num, rate, calls, n, starts, arm) && Opens(calls, n, starts, arm)
    ensures Openings(calls, n + 1, starts + [n])
    ensures HoldsWindows(num, rate, calls, n + 1, starts + [n], Next(num, arm, calls[n]))
  {
    hide Posterior.Updated, Posterior.Surprise, Openings;
    OpeningsAreCalls(calls, n, starts);
    OpenAnother(calls, n, starts);
    OpeningsAreCalls(calls, n + 1, starts + [n]);
    assert Calls(calls, n, n) == 0;
    if starts == [] {
      assert Closed(calls, [n], 0) == [];
    } else {
      ClosedOfLonger(calls, starts, n, |starts| - 1);
      var closed := Closed(calls, starts, |starts| - 1);
      var count := Calls(calls, starts[|starts| - 1], n);
      assert (closed + [count])[..|closed|] == closed;
    }
  }

  lemma StayStep(num: Primitives, rate: Posterior, calls: seq<Option<nat>>, n: nat, starts: seq<nat>, arm: Arm)
    requires n < |calls| && Clocked(calls) && Openings(calls, n, starts)
    requires HoldsWindows(num, rate, calls, n, starts, arm) && !Opens(calls, n, starts, arm)
    ensures Openings(calls, n + 1, starts)
    ensures HoldsWindows(num, rate, calls, n + 1, starts, Next(num, arm, calls[n]))
  {
    hide Posterior.Updated, Posterior.Surprise, Openings;
    OpeningsAreCalls(calls, n, starts);
    StayOpen(calls, n, starts);
    OpeningsAreCalls(calls, n + 1, starts);
  }

  /** The whole state of the arm, declared: window openings an hour apart, the open count,
      the posterior of all closed counts, and the standing evidence that scores each count
      before folding it in. */
  lemma {:induction false} ArmHoldsItsWindows(num: Primitives, rate: Posterior, calls: seq<Option<nat>>, n: nat)
    returns (starts: seq<nat>)
    requires n <= |calls| && Clocked(calls)
    ensures Openings(calls, n, starts)
    ensures HoldsWindows(num, rate, calls, n, starts, Run(num, rate, calls, n))
  {
    hide Next, Openings, HoldsWindows, Opens;
    starts := [];
    if n == 0 {
      NoWindows(num, rate, calls);
    } else {
      starts := ArmHoldsItsWindows(num, rate, calls, n - 1);
      var arm := Run(num, rate, calls, n - 1);
      if Opens(calls, n - 1, starts, arm) {
        OpeningStep(num, rate, calls, n - 1, starts, arm);
        starts := starts + [n - 1];
      } else {
        StayStep(num, rate, calls, n - 1, starts, arm);
      }
    }
  }

  lemma NoWindows(num: Primitives, rate: Posterior, calls: seq<Option<nat>>)
    ensures Openings(calls, 0, []) && HoldsWindows(num, rate, calls, 0, [], Run(num, rate, calls, 0))
  {
  }

  lemma {:induction false} ClosedSum(calls: seq<Option<nat>>, starts: seq<nat>, k: nat)
    requires k < |starts|
    requires forall i :: 0 <= i < |starts| ==> starts[i] < |calls|
    requires forall i, j :: 0 <= i <= j < |starts| ==> starts[i] <= starts[j]
    ensures Sum(Closed(calls, starts, k)) == Calls(calls, starts[0], starts[k])
    ensures |Closed(calls, starts, k)| == k
  {
    if k > 0 {
      ClosedSum(calls, starts, k - 1);
      CallsAdd(calls, starts[0], starts[k - 1], starts[k]);
      var before := Closed(calls, starts, k - 1);
      assert (before + [Calls(calls, starts[k - 1], starts[k])])[..|before|] == before;
    }
  }

  lemma {:induction false} NoCalls(calls: seq<Option<nat>>, n: nat)
    requires n <= |calls| && forall i :: 0 <= i < n ==> calls[i].None?
    ensures Calls(calls, 0, n) == 0
  {
    if n > 0 {
      NoCalls(calls, n - 1);
    }
  }

  lemma {:induction false} OpeningsAscend(calls: seq<Option<nat>>, n: nat, starts: seq<nat>, i: nat, j: nat)
    requires n <= |calls| && Openings(calls, n, starts) && i <= j < |starts|
    ensures starts[i] <= starts[j]
    ensures calls[starts[i]].value + (j - i) * WINDOW_SECS <= calls[starts[j]].value
  {
    if i < j {
      OpeningsAscend(calls, n, starts, i, j - 1);
      assert starts[j - 1] < starts[j - 1 + 1];
    }
  }

  /** Nothing is lost between windows: the calls seen are the closed counts plus the open
      one. */
  lemma CallsAreConserved(num: Primitives, rate: Posterior, calls: seq<Option<nat>>, n: nat)
    returns (starts: seq<nat>, closed: seq<nat>)
    requires n <= |calls| && Clocked(calls)
    ensures Openings(calls, n, starts)
    ensures if starts == [] then closed == [] else closed == Closed(calls, starts, |starts| - 1)
    ensures Calls(calls, 0, n) == Sum(closed) + Run(num, rate, calls, n).windowCount
    ensures Run(num, rate, calls, n).rate == Folded(rate, closed)
    ensures Run(num, rate, calls, n).evidence == Standing(num, rate, closed)
  {
    starts := ArmHoldsItsWindows(num, rate, calls, n);
    closed := [];
    if starts == [] {
      NoCalls(calls, n);
    } else {
      var last := |starts| - 1;
      closed := Closed(calls, starts, last);
      forall i, j | 0 <= i <= j < |starts| ensures starts[i] <= starts[j] {
        OpeningsAscend(calls, n, starts, i, j);
      }
      ClosedSum(calls, starts, last);
      NoCalls(calls, starts[0]);
      CallsAdd(calls, 0, starts[0], starts[last]);
      CallsAdd(calls, 0, starts[last], n);
    }
  }

  lemma {:induction false} PeriodsCountFolds(rate: Posterior, counts: seq<nat>)
    ensures Folded(rate, counts).periods <= rate.periods + |counts|
    ensures Folded(rate, counts).decay == rate.decay
  {
    if counts != [] {
      PeriodsCountFolds(rate, counts[..|counts| - 1]);
    }
  }

  /** The arm speaks only after six closed windows: seven calls, each at least an hour after
      the one before. */
  lemma SpeakingNeedsSixHours(num: Primitives, rate: Posterior, calls: seq<Option<nat>>, n: nat) returns (starts: seq<nat>)
    requires n <= |calls| && Clocked(calls) && rate.periods == 0
    requires Run(num, rate, calls, n).rate.periods >= MIN_PERIODS
    ensures Openings(calls, n, starts) && |starts| > MIN_PERIODS
  {
    var closed;
    starts, closed := CallsAreConserved(num, rate, calls, n);
    PeriodsCountFolds(rate, closed);
    if starts != [] {
      forall i, j | 0 <= i <= j < |starts| ensures starts[i] <= starts[j] {
        OpeningsAscend(calls, n, starts, i, j);
      }
      ClosedSum(calls, starts, |starts| - 1);
    }
  }

  // ---- the posterior over whole runs ----

  /** The posterior mean lies between two rates. */
  predicate Between(p: Posterior, lo: real, hi: real) {
    0.0 < p.b && lo * p.b <= p.a <= hi * p.b
  }

  lemma LowerMean(x: real, a: real, b: real, decay: real, count: real)
    requires x * b <= a && 0.0 <= decay && x <= count
    ensures x * (b * decay + 1.0) <= a * decay + count
  {
    MulMono(x * b, a, decay);
    assert x * (b * decay + 1.0) == (x * b) * decay + x;
  }

  lemma UpperMean(x: real, a: real, b: real, decay: real, count: real)
    requires a <= x * b && 0.0 <= decay && count <= x
    ensures a * decay + count <= x * (b * decay + 1.0)
  {
    MulMono(a, x * b, decay);
    assert x * (b * decay + 1.0) == (x * b) * decay + x;
  }

  lemma UpdateKeepsValid(p: Posterior, count: nat)
    requires p.Valid()
    ensures p.Updated(count).Valid()
  {
    assert 0.0 < p.a * p.decay && 0.0 < p.b * p.decay;
  }

  lemma UpdateStaysBetween(p: Posterior, count: nat, lo: real, hi: real)
    requires p.Valid() && Between(p, lo, hi) && lo <= count as real <= hi
    ensures Between(p.Updated(count), lo, hi)
  {
    UpdateKeepsValid(p, count);
    LowerMean(lo, p.a, p.b, p.decay, count as real);
    UpperMean(hi, p.a, p.b, p.decay, count as real);
  }

  lemma SignOfFactor(x: real, b: real)
    requires 0.0 <= x * b && 0.0 < b
    ensures 0.0 <= x
  {
  }

  lemma RateBetween(p: Posterior, lo: real, hi: real)
    requires Between(p, lo, hi)
    ensures lo <= p.Rate() <= hi
  {
    var r := p.Rate();
    assert r * p.b == p.a;
    assert (r - lo) * p.b == p.a - lo * p.b;
    SignOfFactor(r - lo, p.b);
    assert (hi - r) * p.b == hi * p.b - p.a;
    SignOfFactor(hi - r, p.b);
  }

  lemma {:induction false} FoldedStaysBetween(p: Posterior, counts: seq<nat>, lo: real, hi: real)
    requires p.Valid() && Between(p, lo, hi)
    requires forall i :: 0 <= i < |counts| ==> lo <= counts[i] as real <= hi
    ensures Folded(p, counts).Valid() && Between(Folded(p, counts), lo, hi)
  {
    hide Posterior.Updated, Between;
    if counts != [] {
      var before := counts[..|counts| - 1];
      FoldedStaysBetween(p, before, lo, hi);
      UpdateStaysBetween(Folded(p, before), counts[|counts| - 1], lo, hi);
      UpdateKeepsValid(Folded(p, before), counts[|counts| - 1]);
    }
  }

  lemma PriorBetween(mean: real, strength: real, decay: real, lo: real, hi: real)
    requires 0.0 < mean && 0.0 < strength && 0.0 < decay <= 1.0 && lo <= mean <= hi
    ensures Prior(mean, strength, decay).Valid() && Between(Prior(mean, strength, decay), lo, hi)
  {
    MulMono(lo, mean, strength);
    MulMono(mean, hi, strength);
    assert 0.0 < mean * strength;
  }

  /** The learned rate never leaves the range spanned by the prior mean and the counts folded
      in so far. */
  lemma LearnedRateStaysBetween(mean: real, strength: real, decay: real, counts: seq<nat>, lo: real, hi: real)
    requires 0.0 < mean && 0.0 < strength && 0.0 < decay <= 1.0
    requires lo <= mean <= hi
    requires forall i :: 0 <= i < |counts| ==> lo <= counts[i] as real <= hi
    ensures Folded(Prior(mean, strength, decay), counts).b > 0.0
    ensures lo <= Folded(Prior(mean, strength, decay), counts).Rate() <= hi
  {
    hide Prior, Between, Folded;
    PriorBetween(mean, strength, decay, lo, hi);
    FoldedStaysBetween(Prior(mean, strength, decay), counts, lo, hi);
    RateBetween(Folded(Prior(mean, strength, decay), counts), lo, hi);
  }

  // ---- the posterior and the evidence, each window weighted by its age ----

  /** A factor to the power n. */
  function Faded(factor: real, n: nat): real {
    if n == 0 then 1.0 else Faded(factor, n - 1) * factor
  }

  /** The first k of n values, each weighted by how many come after it. */
  function Aged(values: seq<real>, factor: real, k: nat, n: nat): real
    requires k <= |values| && k <= n
  {
    if k == 0 then 0.0 else Aged(values, factor, k - 1, n) + values[k - 1] * Faded(factor, n - k)
  }

  lemma {:induction false} OlderByOne(values: seq<real>, factor: real, k: nat, n: nat)
    requires k <= |values| && k <= n
    ensures Aged(values, factor, k, n + 1) == Aged(values, factor, k, n) * factor
  {
    hide Faded;
    if k > 0 {
      OlderByOne(values, factor, k - 1, n);
      FadedOnce(factor, n - k);
      FadeTogether(Aged(values, factor, k - 1, n), values[k - 1], Faded(factor, n - k), factor);
    }
  }

  lemma FadedOnce(factor: real, n: nat)
    ensures Faded(factor, n + 1) == Faded(factor, n) * factor && Faded(factor, 0) == 1.0
  {
  }

  lemma FadeTogether(x: real, v: real, f: real, factor: real)
    ensures (x + v * f) * factor == x * factor + v * (f * factor)
  {
  }

  lemma {:induction false} AgedOfPrefix(values: seq<real>, m: nat, factor: real, k: nat, n: nat)
    requires k <= m <= |values| && k <= n
    ensures Aged(values[..m], factor, k, n) == Aged(values, factor, k, n)
  {
    hide Faded;
    if k > 0 {
      AgedOfPrefix(values, m, factor, k - 1, n);
    }
  }

  /** One more value fades all before it by one. */
  lemma AgedOnce(values: seq<real>, factor: real)
    requires values != []
    ensures var n := |values|;
            Aged(values, factor, n, n) == Aged(values[..n - 1], factor, n - 1, n - 1) * factor + values[n - 1]
  {
    hide Faded;
    var n := |values|;
    OlderByOne(values, factor, n - 1, n - 1);
    AgedOfPrefix(values, n - 1, factor, n - 1, n - 1);
    FadedOnce(factor, 0);
  }

  function Reals(counts: seq<nat>): (values: seq<real>)
    ensures |values| == |counts|
  {
    seq(|counts|, i requires 0 <= i < |counts| => counts[i] as real)
  }

  function Ones(n: nat): (values: seq<real>)
    ensures |values| == n
  {
    seq(n, i => 1.0)
  }

  lemma StartFades(x: real, f: real, y: real, factor: real, v: real)
    ensures (x * f + y) * factor + v == x * (f * factor) + (y * factor + v)
  {
  }

  lemma FoldedOnce(p: Posterior, counts: seq<nat>)
    requires counts != []
    ensures Folded(p, counts) == Folded(p, counts[..|counts| - 1]).Updated(counts[|counts| - 1])
  {
    hide Posterior.Updated;
  }

  lemma UpdatedIs(p: Posterior, count: nat)
    ensures p.Updated(count).a == p.a * p.decay + count as real && p.Updated(count).b == p.b * p.decay + 1.0
    ensures p.Updated(count).decay == p.decay && p.Updated(count).periods == SatInc(p.periods)
  {
  }

  /** The posterior of a list of counts: the prior faded once for every closed window, and every count
      faded once for every window closed after it, over as many windows weighted alike. */
  lemma {:induction false} PosteriorIsAged(p: Posterior, counts: seq<nat>)
    ensures var q, n := Folded(p, counts), |counts|;
            && q.a == p.a * Faded(p.decay, n) + Aged(Reals(counts), p.decay, n, n)
            && q.b == p.b * Faded(p.decay, n) + Aged(Ones(n), p.decay, n, n)
            && q.decay == p.decay
            && (p.periods + n <= U32_MAX ==> q.periods == p.periods + n)
            && (p.periods <= U32_MAX < p.periods + n ==> q.periods == U32_MAX)
  {
    hide Faded, Aged, Posterior.Updated;
    var n := |counts|;
    FadedOnce(p.decay, 0);
    NothingAged(Reals(counts), p.decay);
    NothingAged(Ones(n), p.decay);
    if n > 0 {
      PosteriorIsAged(p, counts[..n - 1]);
      AgedOnce(Reals(counts), p.decay);
      AgedOnce(Ones(n), p.decay);
      assert Reals(counts)[..n - 1] == Reals(counts[..n - 1]) && Ones(n)[..n - 1] == Ones(n - 1);
      FadedOnce(p.decay, n - 1);
      hide Folded;
      FoldedOnce(p, counts);
      UpdatedIs(Folded(p, counts[..n - 1]), counts[n - 1]);
      StartFades(p.a, Faded(p.decay, n - 1), Aged(Reals(counts[..n - 1]), p.decay, n - 1, n - 1), p.decay, counts[n - 1] as real);
      StartFades(p.b, Faded(p.decay, n - 1), Aged(Ones(n - 1), p.decay, n - 1, n - 1), p.decay, 1.0);
    }
  }

  lemma NothingAged(values: seq<real>, factor: real)
    ensures Aged(values, factor, 0, 0) == 0.0
  {
  }

  /** How surprising each count was to the posterior of those before it; an empty window is not. */
  function Scores(num: Primitives, rate: Posterior, counts: seq<nat>): (scores: seq<real>)
    ensures |scores| == |counts|
  {
    seq(|counts|, i requires 0 <= i < |counts| =>
      if counts[i] == 0 then 0.0 else num.surprise(Folded(rate, counts[..i]).a, Folded(rate, counts[..i]).b, counts[i]))
  }

  lemma ScoresOfPrefix(num: Primitives, rate: Posterior, counts: seq<nat>)
    requires counts != []
    ensures Scores(num, rate, counts)[..|counts| - 1] == Scores(num, rate, counts[..|counts| - 1])
  {
    hide Folded;
    var n := |counts| - 1;
    forall i | 0 <= i < n ensures Scores(num, rate, counts)[i] == Scores(num, rate, counts[..n])[i] {
      assert counts[..n][..i] == counts[..i];
    }
  }

  /** The standing evidence is the scores, each worth half for every window closed after it. */
  lemma {:induction false} StandingIsAged(num: Primitives, rate: Posterior, counts: seq<nat>)
    ensures Standing(num, rate, counts) == Aged(Scores(num, rate, counts), 0.5, |counts|, |counts|)
  {
    hide Aged, Folded, Faded;
    if counts == [] {
      NothingAged(Scores(num, rate, counts), 0.5);
    } else {
      StandingIsAged(num, rate, counts[..|counts| - 1]);
      ScoresOfPrefix(num, rate, counts);
      AgedOnce(Scores(num, rate, counts), 0.5);
    }
  }

  /** At the source's forgetting factor the posterior never weighs more than fifty periods. */
  lemma {:induction false} PosteriorWeightIsBounded(p: Posterior, counts: seq<nat>)
    requires 0.0 < p.b <= 50.0 && p.decay == 0.98
    ensures 0.0 < Folded(p, counts).b <= 50.0 && Folded(p, counts).decay == 0.98
  {
    if counts != [] {
      PosteriorWeightIsBounded(p, counts[..|counts| - 1]);
    }
  }

  /** Standing evidence is never negative and never exceeds twice the largest single score. */
  lemma {:induction false} StandingIsBounded(num: Primitives, rate: Posterior, counts: seq<nat>)
    ensures 0.0 <= Standing(num, rate, counts) <= 2.0 * num.cap
  {
    assert 0.0 <= Score(num, 0.0, 0.0, 0) <= num.cap;
    if counts != [] {
      var before := counts[..|counts| - 1];
      StandingIsBounded(num, rate, before);
    }
  }
}
