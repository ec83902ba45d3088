/** Laws of whole runs of one source: what each arm can see, and what a firing verdict
    proves about the source's history. */
module DetectorRuns {
  import opened Numerics
  import opened SequentialTest
  import opened Detectors
  import PrefixMemory
  import RangeMemory
  import NumberRing
  import CompletionArm
  import VolumeArm

  // ---- each arm's own view of the events, position by position ----

  function PrefixUses(num: Primitives, events: seq<Event>): (uses: seq<Option<PrefixMemory.Use>>)
    ensures |uses| == |events|
  {
    seq(|events|, i requires 0 <= i < |events| =>
      match events[i]
      case Invite(call, at) => Some(PrefixMemory.Use(PrefixSlot(num, call.prefix), at))
      case _ => None)
  }

  function Dials(num: Primitives, events: seq<Event>): (dials: seq<Option<RangeMemory.Dial>>)
    ensures |dials| == |events|
  {
    seq(|events|, i requires 0 <= i < |events| =>
      match events[i]
      case Invite(call, at) => Some(DialOf(num, call.digits, at))
      case _ => None)
  }

  function Numbers(num: Primitives, events: seq<Event>): (numbers: seq<Option<Hash>>)
    ensures |numbers| == |events|
  {
    seq(|events|, i requires 0 <= i < |events| =>
      match events[i]
      case Invite(call, at) => Some(num.hash(call.digits))
      case _ => None)
  }

  function CallTimes(events: seq<Event>): (calls: seq<Option<nat>>)
    ensures |calls| == |events|
  {
    seq(|events|, i requires 0 <= i < |events| => if events[i].Invite? then Some(events[i].at) else None)
  }

  function Answers(events: seq<Event>): (inputs: seq<CompletionArm.Input>)
    ensures |inputs| == |events|
    ensures AllValid(events) ==> CompletionArm.AllValid(inputs)
  {
    seq(|events|, i requires 0 <= i < |events| =>
      match events[i]
      case Invite(_, _) => CompletionArm.Elsewhere
      case Outcome(outcome, novel, at) => CompletionArm.Answer(outcome, novel, at)
      case Calibrated(p) => CompletionArm.Refit(p))
  }

  /** What one event does to each memory and arm. */
  lemma StepByArm(num: Primitives, d: Detector, e: Event)
    requires d.numbers.Valid() && e.Valid()
    ensures var r := After(num, d, e);
            && r.prefix == (if e.Invite? then d.prefix.Observed(PrefixMemory.Use(PrefixSlot(num, e.call.prefix), e.at)) else d.prefix)
            && r.range == (if e.Invite? then d.range.Observed(DialOf(num, e.call.digits, e.at)) else d.range)
            && r.numbers == (if e.Invite? then d.numbers.Observed(num.hash(e.call.digits)) else d.numbers)
            && r.volume == (if e.Invite? then d.volume.Observed(num, e.at) else d.volume)
            && r.completion == (match e
                                case Invite(_, _) => d.completion
                                case Outcome(outcome, novel, at) => d.completion.Answered(num, outcome, novel, at)
                                case Calibrated(p) => d.completion.Refitted(num, p))
  {
    hide PrefixMemory.Memory.Observed, RangeMemory.Memory.Observed, CompletionArm.Arm.Answered,
         CompletionArm.Arm.Refitted, VolumeArm.Arm.Observed, Walk.Leaked, Walk.Observed, SequentialTest.Recalibrated,
         DialOf, PrefixSlot;
  }

  /** Every memory and arm of a run is the run of that memory or arm over its own view. */
  lemma {:induction false} ArmsRunApart(num: Primitives, d: Detector, events: seq<Event>, n: nat)
    requires n <= |events| && AllValid(events) && d.Fresh()
    ensures var r := Run(num, d, events, n);
            && r.prefix == PrefixMemory.Remembered(PrefixUses(num, events), n)
            && r.range == RangeMemory.Remembered(Dials(num, events), n)
            && r.numbers == NumberRing.Run(Numbers(num, events), n)
            && r.completion == CompletionArm.Run(num, d.completion, Answers(events), n)
            && r.volume == VolumeArm.Run(num, d.volume.rate, CallTimes(events), n)
  {
    hide PrefixMemory.Memory.Observed, RangeMemory.Memory.Observed, NumberRing.Ring.Observed, After,
         CompletionArm.Arm.Answered, CompletionArm.Arm.Refitted, VolumeArm.Arm.Observed, DialOf, PrefixSlot, Detector.Valid;
    if n > 0 {
      ArmsRunApart(num, d, events, n - 1);
      StepByArm(num, Run(num, d, events, n - 1), events[n - 1]);
    }
  }

  // ---- the product law ----

  /** Answers drive only the completion arm, and calls drive everything but it. */
  predicate Drives(e: Event, completion: bool) {
    match e
    case Invite(_, _) => !completion
    case Outcome(_, _, _) => completion
    case Calibrated(_) => true
  }

  /** The first n events without the answers, or without the calls. */
  function Projected(events: seq<Event>, n: nat, completion: bool): (kept: seq<Event>)
    requires n <= |events|
    ensures AllValid(events) ==> AllValid(kept)
  {
    if n == 0 then []
    else
      Projected(events, n - 1, completion)
      + (if Drives(events[n - 1], completion) then [events[n - 1]] else [])
  }

  lemma {:induction false} RunOfPrefix(num: Primitives, d: Detector, xs: seq<Event>, ys: seq<Event>, n: nat)
    requires n <= |xs| && AllValid(xs) && AllValid(xs + ys) && d.numbers.Valid()
    ensures Run(num, d, xs + ys, n) == Run(num, d, xs, n)
  {
    hide After;
    if n > 0 {
      RunOfPrefix(num, d, xs, ys, n - 1);
    }
  }

  lemma RunOfOneMore(num: Primitives, d: Detector, xs: seq<Event>, e: Event)
    requires AllValid(xs) && e.Valid() && d.numbers.Valid()
    ensures AllValid(xs + [e])
    ensures Run(num, d, xs + [e], |xs| + 1) == After(num, Run(num, d, xs, |xs|), e)
  {
    RunOfPrefix(num, d, xs, [e], |xs|);
  }

  function Join(scans: Detector, completion: Detector): Detector {
    scans.(completion := completion.completion)
  }

  lemma StepOfJoin(num: Primitives, x: Detector, y: Detector, e: Event)
    requires x.numbers.Valid() && y.numbers.Valid() && e.Valid() && Join(x, y).numbers.Valid()
    ensures After(num, Join(x, y), e)
         == Join(if Drives(e, false) then After(num, x, e) else x, if Drives(e, true) then After(num, y, e) else y)
  {
  }

  /** The run over one projection. */
  function ProjectedRun(num: Primitives, d: Detector, events: seq<Event>, n: nat, completion: bool): (r: Detector)
    requires n <= |events| && AllValid(events) && d.numbers.Valid()
    ensures r.numbers.Valid()
  {
    Run(num, d, Projected(events, n, completion), |Projected(events, n, completion)|)
  }

  lemma ProjectedStep(num: Primitives, d: Detector, events: seq<Event>, n: nat, completion: bool)
    requires 0 < n <= |events| && AllValid(events) && d.numbers.Valid()
    ensures ProjectedRun(num, d, events, n, completion)
         == (if Drives(events[n - 1], completion) then After(num, ProjectedRun(num, d, events, n - 1, completion), events[n - 1])
             else ProjectedRun(num, d, events, n - 1, completion))
  {
    hide After;
    var before := Projected(events, n - 1, completion);
    if Drives(events[n - 1], completion) {
      RunOfOneMore(num, d, before, events[n - 1]);
    } else {
      assert before + [] == before;
    }
  }

  /** Any interleaving of calls and answers ends in the product of its two projections: the
      calls alone decide every scan and volume state, the answers alone the completion arm. */
  lemma {:induction false} RunIsProductOfProjections(num: Primitives, d: Detector, events: seq<Event>, n: nat)
    requires n <= |events| && AllValid(events) && d.numbers.Valid()
    ensures Run(num, d, events, n)
         == Join(ProjectedRun(num, d, events, n, false), ProjectedRun(num, d, events, n, true))
  {
    if n > 0 {
      hide After, Drives, Join, ProjectedRun;
      RunIsProductOfProjections(num, d, events, n - 1);
      ProjectedStep(num, d, events, n, false);
      ProjectedStep(num, d, events, n, true);
      JoinKeepsNumbers(ProjectedRun(num, d, events, n - 1, false), ProjectedRun(num, d, events, n - 1, true));
      StepOfJoin(num, ProjectedRun(num, d, events, n - 1, false), ProjectedRun(num, d, events, n - 1, true), events[n - 1]);
    }
  }

  lemma JoinKeepsNumbers(x: Detector, y: Detector)
    ensures Join(x, y).numbers == x.numbers
  {
  }

  /** So two interleavings of the same calls and the same answers cannot be told apart. */
  lemma InterleavingsAgree(num: Primitives, d: Detector, xs: seq<Event>, ys: seq<Event>)
    requires AllValid(xs) && AllValid(ys) && d.numbers.Valid()
    requires Projected(xs, |xs|, false) == Projected(ys, |ys|, false)
    requires Projected(xs, |xs|, true) == Projected(ys, |ys|, true)
    ensures Run(num, d, xs, |xs|) == Run(num, d, ys, |ys|)
  {
    RunIsProductOfProjections(num, d, xs, |xs|);
    RunIsProductOfProjections(num, d, ys, |ys|);
  }

  // ---- what a firing verdict proves ----

  predicate Ascending(where: seq<nat>) {
    forall k, l :: 0 <= k < l < |where| ==> where[k] < where[l]
  }

  /** Calls among the first n events, each the first of the whole history on its prefix
      slot, and no call of the history, the latest included, 900 s or more after the earliest
      of them. */
  predicate PrefixBurst(num: Primitives, events: seq<Event>, n: nat, where: seq<nat>)
    requires n <= |events|
  {
    && Ascending(where)
    && (forall k :: 0 <= k < |where| ==> where[k] < n && events[where[k]].Invite?)
    && (forall k, j :: 0 <= k < |where| && 0 <= j < where[k] && events[j].Invite? ==>
          PrefixSlot(num, events[j].call.prefix) != PrefixSlot(num, events[where[k]].call.prefix))
    && (where != [] ==> forall j :: 0 <= j < n && events[j].Invite? ==>
          events[j].at < events[where[0]].at + 900)
  }

  /** Calls among the first n events to pairwise different ranges, and no call of the history,
      the latest included, 900 s or more after the earliest of them. */
  predicate RangeBurst(events: seq<Event>, n: nat, where: seq<nat>)
    requires n <= |events|
  {
    && Ascending(where)
    && (forall k :: 0 <= k < |where| ==>
          where[k] < n && events[where[k]].Invite? && RangeOf(events[where[k]].call.digits).Some?)
    && (forall k, l :: 0 <= k < l < |where| ==>
          RangeOf(events[where[k]].call.digits) != RangeOf(events[where[l]].call.digits))
    && (where != [] ==> forall j :: 0 <= j < n && events[j].Invite? ==>
          events[j].at < events[where[0]].at + 900)
  }

  /** Counted failures among the first n events, none an hour or more after the earliest,
      and no completed call from the earliest on. */
  predicate FailureBurst(events: seq<Event>, n: nat, where: seq<nat>)
    requires n <= |events|
  {
    && Ascending(where)
    && (forall k :: 0 <= k < |where| ==>
          && where[k] < n && events[where[k]].Outcome?
          && CompletionArm.Counted(events[where[k]].outcome, events[where[k]].novel))
    && (where != [] ==> forall i :: where[0] <= i < n && events[i].Outcome? ==> events[i].outcome != CompletionArm.Completed)
    && (forall k :: 0 <= k < |where| ==>
          events[where[k]].at < events[where[0]].at + 3600)
  }

  /** Calls among the first n events, each at least an hour after the one before it. */
  predicate HourlyCalls(events: seq<Event>, n: nat, where: seq<nat>)
    requires n <= |events|
  {
    && Ascending(where)
    && (forall k :: 0 <= k < |where| ==> where[k] < n && events[where[k]].Invite?)
    && (forall k :: 0 <= k < |where| - 1 ==>
          events[where[k]].at + 3600 <= events[where[k + 1]].at)
  }

  ghost predicate FourFirstPrefixes(num: Primitives, events: seq<Event>, n: nat)
    requires n <= |events|
  {
    exists where: seq<nat> :: |where| >= 4 && PrefixBurst(num, events, n, where)
  }

  ghost predicate TenDistinctRanges(events: seq<Event>, n: nat)
    requires n <= |events|
  {
    exists where: seq<nat> :: |where| >= 10 && RangeBurst(events, n, where)
  }

  ghost predicate TenFailuresInARow(events: seq<Event>, n: nat)
    requires n <= |events|
  {
    exists where: seq<nat> :: |where| >= 10 && FailureBurst(events, n, where)
  }

  ghost predicate SixClosedHours(events: seq<Event>, n: nat)
    requires n <= |events|
  {
    exists where: seq<nat> :: |where| > 6 && HourlyCalls(events, n, where)
  }

  lemma PrefixFloor(num: Primitives, d: Detector, events: seq<Event>, n: nat)
    requires n <= |events| && AllValid(events) && Clocked(events) && d.Fresh()
    requires Run(num, d, events, n).prefix.novel >= PREFIX_MIN_NOVEL
    ensures FourFirstPrefixes(num, events, n)
  {
    hide Run, PrefixSlot;
    ArmsRunApart(num, d, events, n);
    var uses := PrefixUses(num, events);
    var where := PrefixMemory.NovelPrefixesAreFirstUses(uses, n);
    PrefixMemory.WindowHoldsTheLatest(uses, n);
    forall j | 0 <= j < n && events[j].Invite? ensures uses[j].Some? && uses[j].value.at == events[j].at {}
    forall k | 0 <= k < |where| ensures PrefixMemory.FirstEver(uses, where[k]) {}
    forall k, j | 0 <= k < |where| && 0 <= j < where[k] && events[j].Invite?
      ensures PrefixSlot(num, events[j].call.prefix) != PrefixSlot(num, events[where[k]].call.prefix)
    {
      assert uses[j].Some? && uses[where[k]].Some?;
    }
    assert PrefixBurst(num, events, n, where);
  }

  lemma RangeFloor(num: Primitives, d: Detector, events: seq<Event>, n: nat)
    requires n <= |events| && AllValid(events) && Clocked(events) && d.Fresh()
    requires Run(num, d, events, n).range.novel >= RANGE_MIN_NOVEL
    ensures TenDistinctRanges(events, n)
  {
    hide Run;
    ArmsRunApart(num, d, events, n);
    var dials := Dials(num, events);
    var where := RangeMemory.NovelRangesAreDistinct(dials, n);
    RangeMemory.WindowHoldsTheLatest(dials, n);
    forall j | 0 <= j < n && events[j].Invite? ensures dials[j].Some? && dials[j].value.at == events[j].at {}
    forall k | 0 <= k < |where|
      ensures events[where[k]].Invite? && RangeOf(events[where[k]].call.digits).Some?
    {
      assert RangeMemory.Reported(dials, where[k]);
    }
    assert RangeBurst(events, n, where);
  }

  lemma CompletionFloor(num: Primitives, d: Detector, events: seq<Event>, n: nat)
    requires n <= |events| && AllValid(events) && Clocked(events) && d.Fresh()
    requires Run(num, d, events, n).completion.failures >= CompletionArm.MIN_FAILURES
    ensures TenFailuresInARow(events, n)
  {
    hide Run, CompletionArm.Run;
    ArmsRunApart(num, d, events, n);
    var inputs := Answers(events);
    var where := CompletionArm.FailuresAreARun(num, d.completion, inputs, n);
    forall k | 0 <= k < |where| ensures events[where[k]].Outcome? {
      assert CompletionArm.IsCounted(inputs[where[k]]);
    }
    forall i | where != [] && where[0] <= i < n && events[i].Outcome?
      ensures events[i].outcome != CompletionArm.Completed
    {
      assert !CompletionArm.IsCompleted(inputs[i]);
    }
    assert FailureBurst(events, n, where);
  }

  lemma VolumeFloor(num: Primitives, d: Detector, events: seq<Event>, n: nat)
    requires n <= |events| && AllValid(events) && Clocked(events) && d.Fresh()
    requires Run(num, d, events, n).volume.rate.periods >= VolumeArm.MIN_PERIODS
    ensures SixClosedHours(events, n)
  {
    hide Run;
    ArmsRunApart(num, d, events, n);
    var calls := CallTimes(events);
    var where := VolumeArm.SpeakingNeedsSixHours(num, d.volume.rate, calls, n);
    forall k, l | 0 <= k < l < |where| ensures where[k] < where[l] {
      VolumeArm.OpeningsAscend(calls, n, where, k + 1, l);
      assert where[k] < where[k + 1];
    }
    assert HourlyCalls(events, n, where);
  }

  /** A verdict fires only on evidence, and evidence only comes past a hard floor. */
  lemma EvidenceNeedsAFloor(num: Primitives, d: Detector, firstTime: bool, now: nat)
    requires d.Fused(num, firstTime, now).fired && d.fireBits > 0.0
    ensures || d.prefix.novel >= PREFIX_MIN_NOVEL
            || d.range.novel >= RANGE_MIN_NOVEL
            || d.completion.failures >= CompletionArm.MIN_FAILURES
            || d.volume.rate.periods >= VolumeArm.MIN_PERIODS
  {
  }

  lemma VerdictIsOfTheStateAfter(num: Primitives, d: Detector, e: Event)
    requires d.numbers.Valid() && !e.Calibrated?
    ensures var v, f := VerdictOf(num, d, e), After(num, d, e).Fused(num, false, e.at);
            v.fired == f.fired && v.warming == f.warming && v.evidence == f.evidence
  {
  }

  /** For every run of one source: if the verdict on event n fires, the history up to and
      including it holds four first-ever prefixes or ten pairwise different ranges in the 900 s
      window of its latest call, or ten counted failures within an hour and no completed call
      since, or six closed hours of calls. */
  lemma FiringNeedsAFloor(num: Primitives, d: Detector, events: seq<Event>, n: nat)
    requires n < |events| && AllValid(events) && Clocked(events) && d.Fresh()
    requires !events[n].Calibrated?
    requires VerdictOf(num, Run(num, d, events, n), events[n]).fired
    ensures || FourFirstPrefixes(num, events, n + 1)
            || TenDistinctRanges(events, n + 1)
            || TenFailuresInARow(events, n + 1)
            || SixClosedHours(events, n + 1)
  {
    hide FourFirstPrefixes, TenDistinctRanges, TenFailuresInARow, SixClosedHours, VerdictOf, After, Detector.Fused;
    var r := Run(num, d, events, n + 1);
    assert r == After(num, Run(num, d, events, n), events[n]);
    VerdictIsOfTheStateAfter(num, Run(num, d, events, n), events[n]);
    RunKeepsValid(num, d, events, n + 1);
    EvidenceNeedsAFloor(num, r, false, events[n].at);
    if r.prefix.novel >= PREFIX_MIN_NOVEL {
      PrefixFloor(num, d, events, n + 1);
    } else if r.range.novel >= RANGE_MIN_NOVEL {
      RangeFloor(num, d, events, n + 1);
    } else if r.completion.failures >= CompletionArm.MIN_FAILURES {
      CompletionFloor(num, d, events, n + 1);
    } else {
      VolumeFloor(num, d, events, n + 1);
    }
  }

  // ---- the warm-up gate ----

  lemma GateStep(num: Primitives, d: Detector, e: Event)
    requires d.numbers.Valid() && e.Valid()
    ensures After(num, d, e).gate == if e.Invite? then d.gate.Noted(e.at) else d.gate
  {
  }

  /** Event i is the first call. */
  predicate FirstCall(events: seq<Event>, i: nat)
    requires i < |events|
  {
    events[i].Invite? && forall j :: 0 <= j < i ==> !events[j].Invite?
  }

  function CallCount(events: seq<Event>, n: nat): nat
    requires n <= |events|
  {
    VolumeArm.Calls(CallTimes(events), 0, n)
  }

  lemma CountOnce(events: seq<Event>, n: nat)
    requires n < |events|
    ensures CallCount(events, n + 1) == CallCount(events, n) + if events[n].Invite? then 1 else 0
    ensures CallCount(events, 0) == 0
  {
  }

  /** The gate's count is that of the calls, up to where it saturates, and its date is the first
      call's. */
  predicate GateIs(g: Gate, events: seq<Event>, n: nat)
    requires n <= |events|
  {
    && g.callsSeen == (if CallCount(events, n) < U32_MAX then CallCount(events, n) else U32_MAX)
    && (g.firstSeen == 0 <==> forall i :: 0 <= i < n ==> !events[i].Invite?)
    && forall i :: 0 <= i < n && FirstCall(events, i) ==> events[i].at == g.firstSeen
  }

  lemma GateOnce(g: Gate, events: seq<Event>, n: nat)
    requires n < |events| && GateIs(g, events, n) && events[n].Invite? && events[n].at > 0
    ensures GateIs(g.Noted(events[n].at), events, n + 1)
  {
    hide CallCount;
    CountOnce(events, n);
  }

  lemma GateStays(g: Gate, events: seq<Event>, n: nat)
    requires n < |events| && GateIs(g, events, n) && !events[n].Invite?
    ensures GateIs(g, events, n + 1)
  {
    hide CallCount;
    CountOnce(events, n);
  }

  lemma NoCallYet(num: Primitives, d: Detector, events: seq<Event>)
    requires AllValid(events) && d.Fresh()
    ensures d.numbers.Valid() && Run(num, d, events, 0) == d && GateIs(d.gate, events, 0)
  {
  }

  /** One more event, on a gate that told the history so far. */
  lemma GateOfEvent(num: Primitives, before: Detector, events: seq<Event>, n: nat)
    requires n < |events| && before.numbers.Valid() && events[n].Valid() && GateIs(before.gate, events, n)
    requires events[n].Invite? ==> events[n].at > 0
    ensures var g := After(num, before, events[n]).gate;
            && GateIs(g, events, n + 1)
            && g.warmupCalls == before.gate.warmupCalls && g.warmupSecs == before.gate.warmupSecs
  {
    hide After, GateIs;
    GateStep(num, before, events[n]);
    if events[n].Invite? {
      GateOnce(before.gate, events, n);
    } else {
      GateStays(before.gate, events, n);
    }
  }

  lemma OneMoreEvent(num: Primitives, d: Detector, events: seq<Event>, n: nat)
    requires n < |events| && AllValid(events) && d.numbers.Valid()
    ensures Run(num, d, events, n + 1) == After(num, Run(num, d, events, n), events[n])
  {
    hide After;
  }

  /** The gate counts calls and dates the first of them. */
  lemma {:induction false} GateTellsTheHistory(num: Primitives, d: Detector, events: seq<Event>, n: nat)
    requires n <= |events| && AllValid(events) && Clocked(events) && d.Fresh()
    ensures var g := Run(num, d, events, n).gate;
            GateIs(g, events, n) && g.warmupCalls == d.gate.warmupCalls && g.warmupSecs == d.gate.warmupSecs
  {
    hide After, Run, GateIs, Detector.Fresh;
    NoCallYet(num, d, events);
    if n > 0 {
      GateTellsTheHistory(num, d, events, n - 1);
      OneMoreEvent(num, d, events, n - 1);
      GateOfEvent(num, Run(num, d, events, n - 1), events, n - 1);
    }
  }

  lemma {:induction false} SomeCallIsFirst(events: seq<Event>, n: nat) returns (i: nat)
    requires n < |events| && events[n].Invite?
    ensures i <= n && FirstCall(events, i)
  {
    i := n;
    if j :| 0 <= j < n && events[j].Invite? {
      i := SomeCallIsFirst(events, j);
    }
  }

  /** A verdict is out of its warm-up exactly when the required number of calls and a call of the
      required age lie behind it. */
  lemma WarmedVerdictHasAge(num: Primitives, d: Detector, events: seq<Event>, n: nat)
    requires n < |events| && AllValid(events) && Clocked(events) && d.Fresh() && d.gate.warmupCalls <= U32_MAX
    requires !events[n].Calibrated?
    ensures !VerdictOf(num, Run(num, d, events, n), events[n]).warming
       <==> && VolumeArm.Calls(CallTimes(events), 0, n + 1) >= d.gate.warmupCalls
            && exists i :: 0 <= i <= n && events[i].Invite? && events[i].at + d.gate.warmupSecs <= events[n].at
  {
    hide VerdictOf, After, CallCount;
    var r := Run(num, d, events, n + 1);
    assert r == After(num, Run(num, d, events, n), events[n]);
    VerdictIsOfTheStateAfter(num, Run(num, d, events, n), events[n]);
    VerdictWarms(num, r, events[n].at);
    GateTellsTheHistory(num, d, events, n + 1);
    CountIs(events, n + 1);
    if i :| 0 <= i <= n && events[i].Invite? {
      var first := SomeCallIsFirst(events, i);
      assert events[first].at == r.gate.firstSeen <= events[n].at;
    }
  }

  lemma CountIs(events: seq<Event>, n: nat)
    requires n <= |events|
    ensures CallCount(events, n) == VolumeArm.Calls(CallTimes(events), 0, n)
  {
  }

  lemma VerdictWarms(num: Primitives, d: Detector, now: nat)
    ensures d.Fused(num, false, now).warming == !d.gate.Warmed(now)
  {
  }
}
