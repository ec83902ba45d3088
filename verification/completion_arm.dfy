/** The completion arm: what the final answers to a source's international calls are worth. */
module CompletionArm {
  import opened Numerics
  import opened SequentialTest
  import opened Calibration
  import opened Windows

  const RUN_SECS: nat := 3600
  const MIN_FAILURES: nat := 10

  datatype CallOutcome = Completed | NoSuchNumber | Refused | Unanswered | Failed

  /** Classifies a final status; `None` for what is no call outcome. */
  function FromStatus(status: nat): Option<CallOutcome> {
    if 200 <= status <= 299 then Some(Completed)
    else if status in {401, 407} then None
    else if status in {404, 410, 484, 485, 604} then Some(NoSuchNumber)
    else if status == 403 then Some(Refused)
    else if status in {480, 486, 487, 600, 603} then Some(Unanswered)
    else if 400 <= status <= 699 then Some(Failed)
    else None
  }

  /** What was new about the call being answered. */
  datatype Novelty = Novelty(range: bool, number: bool)

  const NOTHING_NEW := Novelty(false, false)

  /** A failed answer that counts as evidence: to a range not called before, or a number
      that does not exist and was not dialled recently. */
  predicate Counted(outcome: CallOutcome, novel: Novelty) {
    match outcome
    case NoSuchNumber => novel.range || novel.number
    case Refused => novel.range
    case Failed => novel.range
    case Completed => false
    case Unanswered => false
  }

  /** An answer the arm does not react to at all. */
  predicate Ignored(outcome: CallOutcome, novel: Novelty) {
    outcome != Completed && !Counted(outcome, novel)
  }

  /** Counted failures in the current run, when that run began, when the arm last moved, and
      its walk. */
  datatype Arm = Arm(failures: nat, window: nat, last: nat, walk: Walk, unroutable: real) {
    predicate Valid() {
      walk.Valid() && walk.stepHit <= unroutable
    }

    /** Leaks the walk by the time since the arm last moved, on the arm's own clock. */
    function Waited(num: Primitives, at: nat): Arm {
      this.(walk := walk.Leaked(if last == 0 then 1.0 else Leak(num.perSecond, SatSub(at, last))), last := at)
    }

    function StepOf(outcome: CallOutcome): real {
      if outcome == Failed then walk.stepHit else unroutable
    }

    predicate Stale(at: nat) {
      window != 0 && SatSub(at, window) >= RUN_SECS
    }

    /** A completed call ends the failure run; a counted failure joins it, or begins a new
        one when the hour since its first is over. */
    function Judged(outcome: CallOutcome, at: nat): Arm {
      if outcome == Completed then
        this.(failures := 0, window := 0, walk := walk.Observed(false))
      else
        this.(failures := SatInc(if Stale(at) then 0 else failures),
              window := if window == 0 || Stale(at) then at else window,
              walk := walk.Stepped(StepOf(outcome)))
    }

    function Answered(num: Primitives, outcome: CallOutcome, novel: Novelty, at: nat): Arm {
      if Ignored(outcome, novel) then this else Waited(num, at).Judged(outcome, at)
    }

    function Refitted(num: Primitives, p: Params): Arm
      requires p.Valid()
    {
      this.(walk := Recalibrated(num, walk, p.theta0c, p.theta1c, p.alpha, p.beta),
            unroutable := UnroutableStep(num, p))
    }

    /** The evidence the arm contributes, gated by its hard floor. */
    function Bits(): real {
      if failures >= MIN_FAILURES then walk.Evidence() else 0.0
    }
  }

  function New(num: Primitives, p: Params): Arm
    requires p.Valid()
  {
    Arm(0, 0, 0, NewWalk(num, p.theta0c, p.theta1c, p.alpha, p.beta), UnroutableStep(num, p))
  }

  /** What reaches the arm; `Elsewhere` is an event of the source that does not. */
  datatype Input =
    | Answer(outcome: CallOutcome, novel: Novelty, at: nat)
    | Refit(p: Params)
    | Elsewhere
  {
    predicate Valid() {
      Refit? ==> p.Valid()
    }
  }

  predicate AllValid(inputs: seq<Input>) {
    forall i :: 0 <= i < |inputs| ==> inputs[i].Valid()
  }

  function Stepped(num: Primitives, arm: Arm, input: Input): Arm
    requires input.Valid()
  {
    match input
    case Answer(outcome, novel, at) => arm.Answered(num, outcome, novel, at)
    case Refit(p) => arm.Refitted(num, p)
    case Elsewhere => arm
  }

  /** The arm after the first n inputs. */
  function Run(num: Primitives, arm: Arm, inputs: seq<Input>, n: nat): Arm
    requires n <= |inputs| && AllValid(inputs)
  {
    if n == 0 then arm else Stepped(num, Run(num, arm, inputs, n - 1), inputs[n - 1])
  }

  lemma StepKeepsValid(num: Primitives, arm: Arm, input: Input)
    requires arm.Valid() && input.Valid()
    ensures Stepped(num, arm, input).Valid()
  {
    match input
    case Answer(outcome, novel, at) =>
      LeakBounds(num.perSecond, SatSub(at, arm.last));
      LeakKeepsTheWell(arm.walk, if arm.last == 0 then 1.0 else Leak(num.perSecond, SatSub(at, arm.last)));
    case Refit(p) =>
      StepSigns(num, p.theta0c, p.theta1c, p.alpha, p.beta);
      UnroutableStepIsItsOwnRatio(num, p);
    case Elsewhere =>
  }

  lemma {:induction false} RunKeepsValid(num: Primitives, arm: Arm, inputs: seq<Input>, n: nat)
    requires n <= |inputs| && AllValid(inputs) && arm.Valid()
    ensures Run(num, arm, inputs, n).Valid()
  {
    hide Stepped;
    if n > 0 {
      RunKeepsValid(num, arm, inputs, n - 1);
      StepKeepsValid(num, Run(num, arm, inputs, n - 1), inputs[n - 1]);
    }
  }

  // ---- law 1: silence and known-destination failures leave no trace ----

  predicate Moves(input: Input) {
    match input
    case Answer(outcome, novel, _) => !Ignored(outcome, novel)
    case Refit(_) => true
    case Elsewhere => false
  }

  /** The first n inputs without those the arm ignores. */
  function Moving(inputs: seq<Input>, n: nat): (kept: seq<Input>)
    requires n <= |inputs|
    ensures AllValid(inputs) ==> AllValid(kept)
  {
    if n == 0 then []
    else Moving(inputs, n - 1) + (if Moves(inputs[n - 1]) then [inputs[n - 1]] else [])
  }

  lemma {:induction false} RunOfPrefix(num: Primitives, arm: Arm, xs: seq<Input>, ys: seq<Input>, n: nat)
    requires n <= |xs| && AllValid(xs) && AllValid(xs + ys)
    ensures Run(num, arm, xs + ys, n) == Run(num, arm, xs, n)
  {
    hide Stepped;
    if n > 0 {
      RunOfPrefix(num, arm, xs, ys, n - 1);
    }
  }

  /** Erasing every unanswered call and every failure to a destination the source already
      calls, wherever they stand, leaves the arm exactly as it was: its walk, its failure
      run and its clock. */
  lemma {:induction false} IgnoredAnswersLeaveNoTrace(num: Primitives, arm: Arm, inputs: seq<Input>, n: nat)
    requires n <= |inputs| && AllValid(inputs)
    ensures Run(num, arm, Moving(inputs, n), |Moving(inputs, n)|) == Run(num, arm, inputs, n)
  {
    if n > 0 {
      var kept := Moving(inputs, n - 1);
      IgnoredAnswersLeaveNoTrace(num, arm, inputs, n - 1);
      if Moves(inputs[n - 1]) {
        assert AllValid(kept + [inputs[n - 1]]);
        RunOfPrefix(num, arm, kept, [inputs[n - 1]], |kept|);
      } else {
        assert kept + [] == kept;
      }
    }
  }

  // ---- law 2: a more telling answer never lowers the evidence ----

  /** `y` is `x`, or `x` with a generic failure to a new range replaced by an unroutable
      answer at the same instant. */
  predicate Harsher(x: Input, y: Input) {
    || x == y
    || (x.Answer? && y.Answer? && x.outcome == Failed && y.outcome in {NoSuchNumber, Refused}
        && x.novel.range && x.novel == y.novel && x.at == y.at)
  }

  /** Two arms alike in everything but how far the walk has climbed. */
  predicate Above(x: Arm, y: Arm) {
    x.walk.llr <= y.walk.llr && x.(walk := x.walk.(llr := y.walk.llr)) == y
  }

  lemma WaitKeepsOrder(num: Primitives, x: Arm, y: Arm, at: nat)
    requires Above(x, y)
    ensures Above(x.Waited(num, at), y.Waited(num, at))
  {
    LeakBounds(num.perSecond, SatSub(at, x.last));
    MulMono(x.walk.llr, y.walk.llr, if x.last == 0 then 1.0 else Leak(num.perSecond, SatSub(at, x.last)));
  }

  lemma JudgementKeepsOrder(x: Arm, y: Arm, o: CallOutcome, p: CallOutcome, at: nat)
    requires Above(x, y) && x.walk.stepHit <= x.unroutable && x.walk.floor <= x.walk.upper + 1.0
    requires o == p || (o == Failed && p in {NoSuchNumber, Refused})
    ensures Above(x.Judged(o, at), y.Judged(p, at))
  {
  }

  lemma RefitKeepsOrder(num: Primitives, x: Arm, y: Arm, p: Params)
    requires Above(x, y) && p.Valid()
    ensures Above(x.Refitted(num, p), y.Refitted(num, p))
  {
    StepSigns(num, p.theta0c, p.theta1c, p.alpha, p.beta);
  }

  lemma WaitKeepsSteps(num: Primitives, x: Arm, at: nat)
    requires x.Valid()
    ensures var a := x.Waited(num, at); a.walk.stepHit <= a.unroutable && a.walk.floor <= a.walk.upper + 1.0
  {
  }

  lemma HarsherStepKeepsOrder(num: Primitives, x: Arm, y: Arm, i: Input, j: Input)
    requires Above(x, y) && x.Valid() && i.Valid() && j.Valid() && Harsher(i, j)
    ensures Above(Stepped(num, x, i), Stepped(num, y, j))
  {
    hide Arm.Waited, Arm.Judged, Arm.Refitted, Above;
    if i.Refit? {
      RefitKeepsOrder(num, x, y, i.p);
    } else if i.Answer? && Moves(i) {
      WaitKeepsOrder(num, x, y, i.at);
      WaitKeepsSteps(num, x, i.at);
      JudgementKeepsOrder(x.Waited(num, i.at), y.Waited(num, i.at), i.outcome, j.outcome, i.at);
    }
  }

  /** Replacing generic failures to new ranges by unroutable answers, anywhere in a run,
      never lowers what the arm contributes at that or any later point. */
  lemma {:induction false} HarsherAnswersNeverHelp(num: Primitives, arm: Arm, xs: seq<Input>, ys: seq<Input>, n: nat)
    requires arm.Valid() && |xs| == |ys| && n <= |xs| && AllValid(xs) && AllValid(ys)
    requires forall i :: 0 <= i < |xs| ==> Harsher(xs[i], ys[i])
    ensures Above(Run(num, arm, xs, n), Run(num, arm, ys, n))
    ensures Run(num, arm, xs, n).Bits() <= Run(num, arm, ys, n).Bits()
  {
    hide Stepped, Harsher;
    if n > 0 {
      HarsherAnswersNeverHelp(num, arm, xs, ys, n - 1);
      RunKeepsValid(num, arm, xs, n - 1);
      HarsherStepKeepsOrder(num, Run(num, arm, xs, n - 1), Run(num, arm, ys, n - 1), xs[n - 1], ys[n - 1]);
    }
  }

  // ---- law 3: what a failure count is made of ----

  predicate Clocked(inputs: seq<Input>) {
    && (forall i :: 0 <= i < |inputs| && inputs[i].Answer? ==> inputs[i].at > 0)
    && (forall i, j :: 0 <= i < j < |inputs| && inputs[i].Answer? && inputs[j].Answer? ==> inputs[i].at <= inputs[j].at)
  }

  predicate IsCounted(input: Input) {
    input.Answer? && Counted(input.outcome, input.novel)
  }

  predicate IsCompleted(input: Input) {
    input.Answer? && input.outcome == Completed
  }

  /** `where` lists counted failures in order, all inside the hour that began at `start`,
      with no completed call among the first n inputs from the first of them on. */
  predicate FailureRun(inputs: seq<Input>, n: nat, where: seq<nat>, start: nat)
    requires n <= |inputs|
  {
    && (forall k :: 0 <= k < |where| ==>
          && where[k] < n && IsCounted(inputs[where[k]])
          && start <= inputs[where[k]].at < start + RUN_SECS)
    && (forall k, l :: 0 <= k < l < |where| ==> where[k] < where[l])
    && (forall k, i :: 0 <= k < |where| && where[k] <= i < n ==> !IsCompleted(inputs[i]))
  }

  /** One input, exactly: a completed call ends the run; a counted failure joins it or begins a new
      one; nothing else touches it. */
  lemma StepCounts(num: Primitives, arm: Arm, input: Input)
    requires input.Valid()
    ensures var a := Stepped(num, arm, input);
            if IsCompleted(input) then a.failures == a.window == 0
            else if !IsCounted(input) then a.failures == arm.failures && a.window == arm.window
            else if arm.window == 0 then a.failures == SatInc(arm.failures) && a.window == input.at
            else if SatSub(input.at, arm.window) >= 3600 then a.failures == 1 && a.window == input.at
            else a.failures == SatInc(arm.failures) && a.window == arm.window
  {
  }

  lemma {:induction false} RunStartsAtAFailure(num: Primitives, arm: Arm, inputs: seq<Input>, n: nat)
    requires n <= |inputs| && AllValid(inputs) && Clocked(inputs) && arm.failures == 0 && arm.window == 0
    ensures var a := Run(num, arm, inputs, n);
            if a.window == 0 then a.failures == 0
            else exists i :: 0 <= i < n && IsCounted(inputs[i]) && inputs[i].at == a.window
  {
    hide Stepped;
    if n > 0 {
      RunStartsAtAFailure(num, arm, inputs, n - 1);
      StepCounts(num, Run(num, arm, inputs, n - 1), inputs[n - 1]);
      var b, a := Run(num, arm, inputs, n - 1), Run(num, arm, inputs, n);
      if a.window != b.window && a.window != 0 {
        assert IsCounted(inputs[n - 1]) && inputs[n - 1].at == a.window;
      }
    }
  }

  lemma NoFailures(inputs: seq<Input>, n: nat, start: nat)
    requires n <= |inputs|
    ensures FailureRun(inputs, n, [], start)
  {
  }

  lemma RunGoesOn(inputs: seq<Input>, n: nat, where: seq<nat>, start: nat)
    requires n < |inputs| && FailureRun(inputs, n, where, start) && !IsCompleted(inputs[n])
    ensures FailureRun(inputs, n + 1, where, start)
    ensures IsCounted(inputs[n]) && start <= inputs[n].at < start + RUN_SECS
        ==> FailureRun(inputs, n + 1, where + [n], start)
  {
  }

  /** Every unit of the failure count is a counted failure of the current run: inside an
      hour of the run's first, with no completed call since. */
  lemma {:induction false} FailuresAreARun(num: Primitives, arm: Arm, inputs: seq<Input>, n: nat) returns (where: seq<nat>)
    requires n <= |inputs| && AllValid(inputs) && Clocked(inputs) && arm.failures == 0 && arm.window == 0
    ensures |where| >= Run(num, arm, inputs, n).failures
    ensures FailureRun(inputs, n, where, Run(num, arm, inputs, n).window)
  {
    hide Stepped, IsCounted, IsCompleted, FailureRun;
    where := [];
    NoFailures(inputs, n, Run(num, arm, inputs, n).window);
    if n > 0 {
      where := FailuresAreARun(num, arm, inputs, n - 1);
      var x, b, a := inputs[n - 1], Run(num, arm, inputs, n - 1), Run(num, arm, inputs, n);
      RunStartsAtAFailure(num, arm, inputs, n - 1);
      StepCounts(num, b, x);
      if IsCompleted(x) || a.window != b.window {
        where := [];
        NoFailures(inputs, n - 1, a.window);
      }
      if !IsCompleted(x) {
        RunGoesOn(inputs, n - 1, where, a.window);
        if IsCounted(x) {
          CountedFits(inputs, n, b, a);
          where := where + [n - 1];
        }
      }
    }
  }

  lemma CountedFits(inputs: seq<Input>, n: nat, b: Arm, a: Arm)
    requires 0 < n <= |inputs| && Clocked(inputs) && IsCounted(inputs[n - 1])
    requires b.window != 0 ==> exists i :: 0 <= i < n - 1 && IsCounted(inputs[i]) && inputs[i].at == b.window
    requires var x := inputs[n - 1];
             if b.window == 0 then a.window == x.at
             else if SatSub(x.at, b.window) >= RUN_SECS then a.window == x.at
             else a.window == b.window
    ensures a.window <= inputs[n - 1].at < a.window + RUN_SECS
  {
  }

  // ---- the failure count, exactly ----

  /** The counted failure that began the run in force: none after a completed call, and a new one when
      the hour since the last began is over. */
  function RunBegan(inputs: seq<Input>, n: nat): (o: Option<nat>)
    requires n <= |inputs|
    ensures o.Some? ==> o.value < n && IsCounted(inputs[o.value])
  {
    if n == 0 then None
    else
      var x, before := inputs[n - 1], RunBegan(inputs, n - 1);
      if IsCompleted(x) then None
      else if IsCounted(x) && (before.None? || inputs[before.value].at + 3600 <= x.at) then Some(n - 1)
      else before
  }

  function CountedFailures(inputs: seq<Input>, lo: nat, hi: nat): nat
    requires lo <= hi <= |inputs|
  {
    if lo == hi then 0 else CountedFailures(inputs, lo, hi - 1) + (if IsCounted(inputs[hi - 1]) then 1 else 0)
  }

  /** How many counted failures the run in force holds. */
  function FailuresInRun(inputs: seq<Input>, n: nat): nat
    requires n <= |inputs|
  {
    match RunBegan(inputs, n) case None => 0 case Some(o) => CountedFailures(inputs, o, n)
  }

  predicate HoldsRun(arm: Arm, inputs: seq<Input>, n: nat)
    requires n <= |inputs|
  {
    && arm.window == (match RunBegan(inputs, n) case None => 0 case Some(o) => inputs[o].at)
    && arm.failures == Shown(FailuresInRun(inputs, n))
  }

  lemma RunHoldsOnce(num: Primitives, arm: Arm, inputs: seq<Input>, n: nat)
    requires n < |inputs| && AllValid(inputs) && Clocked(inputs) && HoldsRun(arm, inputs, n)
    ensures HoldsRun(Stepped(num, arm, inputs[n]), inputs, n + 1)
  {
    hide Stepped, Counted, Ignored;
    StepCounts(num, arm, inputs[n]);
    ShownOnce(FailuresInRun(inputs, n));
    ShownOnce(0);
    assert CountedFailures(inputs, n, n) == 0;
  }

  /** The failure count is exactly that of the counted failures of the run in force, as far as the
      counter shows it, and the run is dated by the failure that began it. */
  lemma {:induction false} FailuresAreCounted(num: Primitives, arm: Arm, inputs: seq<Input>, n: nat)
    requires n <= |inputs| && AllValid(inputs) && Clocked(inputs) && arm.failures == 0 && arm.window == 0
    ensures HoldsRun(Run(num, arm, inputs, n), inputs, n)
  {
    hide Stepped, HoldsRun;
    if n == 0 {
      NoRunYet(num, arm, inputs);
    } else {
      FailuresAreCounted(num, arm, inputs, n - 1);
      RunHoldsOnce(num, Run(num, arm, inputs, n - 1), inputs, n - 1);
    }
  }

  lemma NoRunYet(num: Primitives, arm: Arm, inputs: seq<Input>)
    requires AllValid(inputs) && arm.failures == 0 && arm.window == 0
    ensures HoldsRun(Run(num, arm, inputs, 0), inputs, 0)
  {
  }

  // ---- what a status is worth ----

  /** Statuses that say nothing about a number: the callee did not answer. */
  const UNANSWERED: set<nat> := {480, 486, 487, 600, 603}

  /** Statuses that say a number does not exist. */
  const NO_SUCH_NUMBER: set<nat> := {404, 410, 484, 485, 604}

  /** The arm after the answer to a call, when it is an outcome. */
  function Heard(num: Primitives, arm: Arm, status: nat, novel: Novelty, at: nat): Arm {
    match FromStatus(status) case None => arm case Some(outcome) => arm.Answered(num, outcome, novel, at)
  }

  /** The failure of a status and a novelty that is evidence: a number that does not exist, to a new
      range or itself new; a refusal, or any other failure of 400 to 699 but a challenge and an
      unanswered call, to a new range. */
  predicate IsEvidence(status: nat, novel: Novelty) {
    || (status in NO_SUCH_NUMBER && (novel.range || novel.number))
    || (400 <= status <= 699 && status !in {401, 407} && status !in UNANSWERED && status !in NO_SUCH_NUMBER && novel.range)
  }

  /** What an answer does to the arm, told from its status: 2xx ends the failure run and steps the walk
      against scanning; a failure that is evidence joins or begins a run and steps the walk towards it,
      by the unroutable step when the number does not exist or the call is refused; everything else,
      redirections, challenges, unanswered calls and known destinations among it, leaves it as it was. */
  lemma StatusIsWorth(num: Primitives, arm: Arm, status: nat, novel: Novelty, at: nat)
    ensures var a, w := Heard(num, arm, status, novel, at), arm.Waited(num, at).walk;
            if 200 <= status <= 299 then
              a.failures == 0 && a.window == 0 && a.last == at && a.walk == w.Stepped(arm.walk.stepMiss)
            else if IsEvidence(status, novel) then
              a.failures == SatInc(if arm.window != 0 && arm.window + 3600 <= at then 0 else arm.failures)
              && a.window == (if arm.window == 0 || arm.window + 3600 <= at then at else arm.window) && a.last == at
              && a.walk == w.Stepped(if status in NO_SUCH_NUMBER || status == 403 then arm.unroutable else arm.walk.stepHit)
            else a == arm
  {
  }
}
