/** What the completion walk of a detector says about the answers themselves. */
module CompletionWalks {
  import opened Numerics
  import opened SequentialTest
  import opened Calibration
  import opened CompletionArm

  // ---- each answer as a trial, read off the answers alone ----

  /** When the latest answer the arm reacts to, before input n, came; 0 when there was none. */
  function LastMove(arm: Arm, inputs: seq<Input>, n: nat): nat
    requires n <= |inputs|
  {
    if n == 0 then arm.last
    else match inputs[n - 1]
      case Answer(outcome, novel, at) => if Ignored(outcome, novel) then LastMove(arm, inputs, n - 1) else at
      case _ => LastMove(arm, inputs, n - 1)
  }

  /** What a generic failure, a completed call and an unroutable answer are worth. */
  datatype Steps = Steps(hit: real, miss: real, unroutable: real) {
    function Of(outcome: CallOutcome): real {
      if outcome == Completed then miss else if outcome == Failed then hit else unroutable
    }
  }

  /** The steps in force at input n: the latest calibration's, or those of the start. */
  function InForce(num: Primitives, arm: Arm, inputs: seq<Input>, n: nat): Steps
    requires n <= |inputs| && AllValid(inputs)
  {
    if n == 0 then Steps(arm.walk.stepHit, arm.walk.stepMiss, arm.unroutable)
    else match inputs[n - 1]
      case Refit(p) => Steps(StepHit(num, p.theta0c, p.theta1c), StepMiss(num, p.theta0c, p.theta1c), UnroutableStep(num, p))
      case _ => InForce(num, arm, inputs, n - 1)
  }

  /** A completed call or a counted failure discounts the walk by the wait since the latest one
      and steps it by its own outcome; everything else leaves it where it stands. */
  function Trial(num: Primitives, arm: Arm, inputs: seq<Input>, n: nat): Sample
    requires n < |inputs| && AllValid(inputs)
  {
    match inputs[n]
    case Answer(outcome, novel, at) =>
      if Ignored(outcome, novel) then Sample(1.0, 0.0)
      else
        var last := LastMove(arm, inputs, n);
        Sample(if last == 0 then 1.0 else Leak(num.perSecond, SatSub(at, last)), InForce(num, arm, inputs, n).Of(outcome))
    case _ => Sample(1.0, 0.0)
  }

  function Trials(num: Primitives, arm: Arm, inputs: seq<Input>): (trials: seq<Sample>)
    requires AllValid(inputs)
    ensures |trials| == |inputs|
    ensures forall i :: 0 <= i < |inputs| ==> trials[i] == Trial(num, arm, inputs, i)
  {
    seq(|inputs|, i requires 0 <= i < |inputs| => Trial(num, arm, inputs, i))
  }

  /** Every calibration keeps the bounds of the walk. */
  predicate SameBounds(num: Primitives, w: Walk, inputs: seq<Input>)
    requires AllValid(inputs)
  {
    forall i :: 0 <= i < |inputs| && inputs[i].Refit? ==>
      UpperBound(num, inputs[i].p.alpha, inputs[i].p.beta) == w.upper && LowerBound(num, inputs[i].p.alpha, inputs[i].p.beta) == w.floor
  }

  // ---- the walk is the walk of its trials ----

  /** The arm's walk stands at w with these steps in force, and it last moved then. */
  predicate Stands(arm: Arm, w: Walk, steps: Steps, last: nat) {
    && arm.walk == w.(stepHit := steps.hit, stepMiss := steps.miss)
    && arm.unroutable == steps.unroutable && arm.last == last
  }

  lemma AnswerStep(num: Primitives, arm: Arm, w: Walk, steps: Steps, last: nat, outcome: CallOutcome, novel: Novelty, at: nat)
    requires Stands(arm, w, steps, last) && !Ignored(outcome, novel)
    ensures Stands(arm.Answered(num, outcome, novel, at),
                   w.Leaked(if last == 0 then 1.0 else Leak(num.perSecond, SatSub(at, last))).Stepped(steps.Of(outcome)), steps, at)
  {
    hide Leak;
  }

  /** A trial that counts for nothing leaves a walk in its well alone. */
  lemma RestStep(arm: Arm, w: Walk, steps: Steps, last: nat)
    requires Stands(arm, w, steps, last) && arm.walk.Valid()
    ensures w.Leaked(1.0).Stepped(0.0) == w
  {
  }

  lemma RefitStep(num: Primitives, arm: Arm, w: Walk, steps: Steps, last: nat, p: Params)
    requires Stands(arm, w, steps, last) && arm.walk.Valid() && p.Valid()
    requires UpperBound(num, p.alpha, p.beta) == w.upper && LowerBound(num, p.alpha, p.beta) == w.floor
    ensures Stands(arm.Refitted(num, p), w,
                   Steps(StepHit(num, p.theta0c, p.theta1c), StepMiss(num, p.theta0c, p.theta1c), UnroutableStep(num, p)), last)
  {
    hide UnroutableStep;
  }

  /** One input, on the walk that follows the trials. */
  lemma InputStep(num: Primitives, arm: Arm, inputs: seq<Input>, n: nat, before: Arm, w: Walk)
    requires n < |inputs| && AllValid(inputs) && before.walk.Valid() && SameBounds(num, w, inputs)
    requires Stands(before, w, InForce(num, arm, inputs, n), LastMove(arm, inputs, n))
    ensures var t := Trial(num, arm, inputs, n);
            Stands(CompletionArm.Stepped(num, before, inputs[n]), w.Leaked(t.kept).Stepped(t.step),
                   InForce(num, arm, inputs, n + 1), LastMove(arm, inputs, n + 1))
  {
    hide Stands, Leak, Ignored, Arm.Answered, Arm.Refitted, Walk.Leaked, Walk.Stepped, Walk.Valid;
    var steps, last := InForce(num, arm, inputs, n), LastMove(arm, inputs, n);
    match inputs[n]
    case Answer(outcome, novel, at) =>
      if Ignored(outcome, novel) {
        RestStep(before, w, steps, last);
        IgnoredStays(num, before, outcome, novel, at);
      } else {
        AnswerStep(num, before, w, steps, last, outcome, novel, at);
      }
    case Refit(p) =>
      RestStep(before, w, steps, last);
      RefitStep(num, before, w, steps, last, p);
    case Elsewhere => RestStep(before, w, steps, last);
  }

  lemma IgnoredStays(num: Primitives, arm: Arm, outcome: CallOutcome, novel: Novelty, at: nat)
    requires Ignored(outcome, novel)
    ensures arm.Answered(num, outcome, novel, at) == arm
  {
  }

  lemma OneMoreTrial(num: Primitives, arm: Arm, inputs: seq<Input>, n: nat)
    requires n < |inputs| && AllValid(inputs)
    ensures var t, trials := Trial(num, arm, inputs, n), Trials(num, arm, inputs);
            Walked(arm.walk, trials, n + 1) == Walked(arm.walk, trials, n).Leaked(t.kept).Stepped(t.step)
  {
    hide Trial, Walk.Leaked, Walk.Stepped;
  }

  lemma OneMoreInput(num: Primitives, arm: Arm, inputs: seq<Input>, n: nat)
    requires n < |inputs| && AllValid(inputs)
    ensures Run(num, arm, inputs, n + 1) == CompletionArm.Stepped(num, Run(num, arm, inputs, n), inputs[n])
  {
    hide CompletionArm.Stepped;
  }

  lemma BoundsOfTrials(num: Primitives, arm: Arm, inputs: seq<Input>, n: nat)
    requires n <= |inputs| && AllValid(inputs) && SameBounds(num, arm.walk, inputs)
    ensures SameBounds(num, Walked(arm.walk, Trials(num, arm, inputs), n), inputs)
  {
    hide Trials;
    WalkedKeepsBounds(arm.walk, Trials(num, arm, inputs), n);
  }

  lemma NoInputYet(num: Primitives, arm: Arm, inputs: seq<Input>)
    requires AllValid(inputs)
    ensures Stands(Run(num, arm, inputs, 0), Walked(arm.walk, Trials(num, arm, inputs), 0), InForce(num, arm, inputs, 0),
                   LastMove(arm, inputs, 0))
  {
    hide Trials;
  }

  lemma ValidWalk(arm: Arm)
    requires arm.Valid()
    ensures arm.walk.Valid()
  {
  }

  /** From any arm and over any mixture of inputs, the completion walk is the walk of its trials,
      under the steps in force and on its own clock. */
  lemma {:induction false} ArmIsAWalk(num: Primitives, arm: Arm, inputs: seq<Input>, n: nat)
    requires n <= |inputs| && AllValid(inputs) && arm.Valid() && SameBounds(num, arm.walk, inputs)
    ensures Stands(Run(num, arm, inputs, n), Walked(arm.walk, Trials(num, arm, inputs), n), InForce(num, arm, inputs, n),
                   LastMove(arm, inputs, n))
  {
    hide Run, Stands, Trial, Trials, Walked, SameBounds, InForce, LastMove, Arm.Valid, Walk.Valid, CompletionArm.Stepped,
         Walk.Leaked, Walk.Stepped;
    if n == 0 {
      NoInputYet(num, arm, inputs);
    } else {
      ArmIsAWalk(num, arm, inputs, n - 1);
      RunKeepsValid(num, arm, inputs, n - 1);
      ValidWalk(Run(num, arm, inputs, n - 1));
      BoundsOfTrials(num, arm, inputs, n - 1);
      OneMoreInput(num, arm, inputs, n - 1);
      OneMoreTrial(num, arm, inputs, n - 1);
      InputStep(num, arm, inputs, n - 1, Run(num, arm, inputs, n - 1), Walked(arm.walk, Trials(num, arm, inputs), n - 1));
    }
  }

  lemma TrialsDecay(num: Primitives, arm: Arm, inputs: seq<Input>)
    requires AllValid(inputs)
    ensures Decaying(Trials(num, arm, inputs))
  {
    forall i | 0 <= i < |inputs| ensures 0.0 <= Trials(num, arm, inputs)[i].kept <= 1.0 {
      if inputs[i].Answer? {
        LeakBounds(num.perSecond, SatSub(inputs[i].at, LastMove(arm, inputs, i)));
      }
    }
  }

  lemma FiresAsItStands(arm: Arm, w: Walk, steps: Steps, last: nat)
    requires Stands(arm, w, steps, last)
    ensures arm.walk.Fired() <==> w.Fired()
  {
  }

  /** The completion walk, from wherever it stands, first reaches its bound after the input at
      which the evidence of the answers, each weighted by its age and counted from the start or
      from a moment at the floor, first reaches the bound. A counted failure is evidence for
      scanning, an unroutable one of its own weight, a completed call evidence against it; ignored
      answers, calls and calibrations may come in between and count for nothing. */
  lemma CompletionFiresWithItsAnswers(num: Primitives, arm: Arm, inputs: seq<Input>, n: nat)
    requires n <= |inputs| && AllValid(inputs) && arm.Valid() && SameBounds(num, arm.walk, inputs)
    ensures var w, trials := arm.walk, Trials(num, arm, inputs);
            ((forall m :: 0 <= m < n ==> !Run(num, arm, inputs, m).walk.Fired()) && Run(num, arm, inputs, n).walk.Fired())
            <==> (NoneReached(w.llr, trials, n, w.floor, w.upper) && SuffixReaches(w.llr, trials, n, w.floor, w.upper))
  {
    hide NoneReached, SuffixReaches, Trials, Run, Walked, SameBounds, Stands, InForce, LastMove, Walk.Fired;
    var w, trials := arm.walk, Trials(num, arm, inputs);
    TrialsDecay(num, arm, inputs);
    FirstFiringIsFirstSuffixCrossing(w, trials, n);
    ArmFires(num, arm, inputs, n);
    if Silent(w, trials, n) {
      forall m | 0 <= m < n ensures !Run(num, arm, inputs, m).walk.Fired() {
        ArmFires(num, arm, inputs, m);
        assert !Walked(w, trials, m).Fired();
      }
    } else {
      var m :| 0 <= m < n && Walked(w, trials, m).Fired();
      ArmFires(num, arm, inputs, m);
      assert Run(num, arm, inputs, m).walk.Fired();
    }
  }

  lemma ArmFires(num: Primitives, arm: Arm, inputs: seq<Input>, n: nat)
    requires n <= |inputs| && AllValid(inputs) && arm.Valid() && SameBounds(num, arm.walk, inputs)
    ensures Run(num, arm, inputs, n).walk.Fired() <==> Walked(arm.walk, Trials(num, arm, inputs), n).Fired()
  {
    hide Trials, Run, Walked, SameBounds, Stands, Walk.Fired;
    ArmIsAWalk(num, arm, inputs, n);
    FiresAsItStands(Run(num, arm, inputs, n), Walked(arm.walk, Trials(num, arm, inputs), n), InForce(num, arm, inputs, n),
                    LastMove(arm, inputs, n));
  }
}
