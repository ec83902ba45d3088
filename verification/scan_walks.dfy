/** What the two scan walks of a detector say about the calls themselves. */
module ScanWalks {
  import opened Numerics
  import opened SequentialTest
  import opened Calibration
  import opened Detectors
  import CompletionArm
  import DetectorRuns
  import RangeMemory

  /** The two scan arms: novel dialling prefixes and novel destination ranges. */
  datatype Scan = Prefixes | Ranges {
    function WalkOf(d: Detector): Walk {
      if Prefixes? then d.prefixScan else d.rangeScan
    }

    function Theta0(p: Params): real {
      if Prefixes? then p.theta0Prefix else p.theta0Range
    }
  }

  // ---- each event as a trial, read off the events alone ----

  /** When the latest call before event n was placed; 0 when there was none. */
  function LastCall(d: Detector, events: seq<Event>, n: nat): nat
    requires n <= |events|
  {
    if n == 0 then d.lastScan else if events[n - 1].Invite? then events[n - 1].at else LastCall(d, events, n - 1)
  }

  /** How much of a walk survives the wait since the latest call. */
  function Kept(num: Primitives, last: nat, at: nat): real {
    if last == 0 then 1.0 else Leak(num.perSecond, SatSub(at, last))
  }

  /** The ranges remembered when event n arrives. */
  function RangesBefore(num: Primitives, d: Detector, events: seq<Event>, n: nat): RangeMemory.Memory
    requires n <= |events|
  {
    if n == 0 then d.range
    else
      var m := RangesBefore(num, d, events, n - 1);
      if events[n - 1].Invite? then m.Observed(DialOf(num, events[n - 1].call.digits, events[n - 1].at)) else m
  }

  /** Is call n a hit of the scan? The first ever on its prefix slot, as far as the source is
      remembered; or a call reported as the first contact with its range. */
  predicate Hit(num: Primitives, d: Detector, scan: Scan, events: seq<Event>, n: nat)
    requires n < |events| && events[n].Invite?
  {
    match scan
    case Prefixes =>
      && PrefixSlot(num, events[n].call.prefix) !in d.prefix.seen
      && forall j :: 0 <= j < n && events[j].Invite? ==>
           PrefixSlot(num, events[j].call.prefix) != PrefixSlot(num, events[n].call.prefix)
    case Ranges => RangesBefore(num, d, events, n).IsFirst(DialOf(num, events[n].call.digits, events[n].at))
  }

  datatype Steps = Steps(hit: real, miss: real)

  /** The steps in force at event n: the latest calibration's, or those of the start. */
  function InForce(num: Primitives, d: Detector, scan: Scan, events: seq<Event>, n: nat): Steps
    requires n <= |events| && AllValid(events)
  {
    if n == 0 then Steps(scan.WalkOf(d).stepHit, scan.WalkOf(d).stepMiss)
    else
      match events[n - 1]
      case Calibrated(p) => Steps(StepHit(num, scan.Theta0(p), p.theta1), StepMiss(num, scan.Theta0(p), p.theta1))
      case _ => InForce(num, d, scan, events, n - 1)
  }

  /** A call discounts the walk by the wait before it and steps it by its own outcome; answers
      and calibrations leave it where it stands. */
  function Trial(num: Primitives, d: Detector, scan: Scan, events: seq<Event>, n: nat): Sample
    requires n < |events| && AllValid(events)
  {
    match events[n]
    case Invite(_, at) =>
      var steps := InForce(num, d, scan, events, n);
      Sample(Kept(num, LastCall(d, events, n), at), if Hit(num, d, scan, events, n) then steps.hit else steps.miss)
    case _ => Sample(1.0, 0.0)
  }

  function Trials(num: Primitives, d: Detector, scan: Scan, events: seq<Event>): (trials: seq<Sample>)
    requires AllValid(events)
    ensures |trials| == |events|
    ensures forall i :: 0 <= i < |events| ==> trials[i] == Trial(num, d, scan, events, i)
  {
    seq(|events|, i requires 0 <= i < |events| => Trial(num, d, scan, events, i))
  }

  /** Every calibration keeps the bounds of the walk: it moves the benign hypothesis only, and
      the bounds depend on the two error rates. */
  predicate SameBounds(num: Primitives, w: Walk, events: seq<Event>)
    requires AllValid(events)
  {
    forall i :: 0 <= i < |events| && events[i].Calibrated? ==>
      UpperBound(num, events[i].p.alpha, events[i].p.beta) == w.upper && LowerBound(num, events[i].p.alpha, events[i].p.beta) == w.floor
  }

  // ---- the detector's memories are those views ----

  lemma {:induction false} MemoriesAreViews(num: Primitives, d: Detector, events: seq<Event>, n: nat)
    requires n <= |events| && AllValid(events) && d.numbers.Valid()
    ensures Run(num, d, events, n).lastScan == LastCall(d, events, n)
    ensures Run(num, d, events, n).range == RangesBefore(num, d, events, n)
  {
    hide DialOf, RangeMemory.Memory.Observed;
    if n > 0 {
      MemoriesAreViews(num, d, events, n - 1);
    }
  }

  lemma SeenAfter(num: Primitives, d: Detector, e: Event)
    requires d.numbers.Valid() && e.Valid()
    ensures After(num, d, e).prefix.seen == if e.Invite? then d.prefix.seen + {PrefixSlot(num, e.call.prefix)} else d.prefix.seen
  {
    hide PrefixSlot, DialOf, RangeMemory.Memory.Observed, Walk.Leaked, Walk.Observed, CompletionArm.Arm.Answered,
         CompletionArm.Arm.Refitted;
  }

  lemma {:induction false} SlotsAreUsed(num: Primitives, d: Detector, events: seq<Event>, n: nat, slot: nat)
    requires n <= |events| && AllValid(events) && d.numbers.Valid()
    ensures slot in Run(num, d, events, n).prefix.seen
       <==> slot in d.prefix.seen || exists j :: 0 <= j < n && events[j].Invite? && PrefixSlot(num, events[j].call.prefix) == slot
  {
    hide PrefixSlot, After;
    if n > 0 {
      SlotsAreUsed(num, d, events, n - 1, slot);
      hide Run;
      DetectorRuns.OneMoreEvent(num, d, events, n - 1);
      SeenAfter(num, Run(num, d, events, n - 1), events[n - 1]);
    }
  }

  lemma HitIsFirst(num: Primitives, d: Detector, scan: Scan, events: seq<Event>, n: nat)
    requires n < |events| && AllValid(events) && d.numbers.Valid() && events[n].Invite?
    ensures var before, e := Run(num, d, events, n), events[n];
            Hit(num, d, scan, events, n)
            <==> if scan.Prefixes? then before.prefix.IsFirst(PrefixSlot(num, e.call.prefix))
                 else before.range.IsFirst(DialOf(num, e.call.digits, e.at))
  {
    hide PrefixSlot, DialOf, Run;
    MemoriesAreViews(num, d, events, n);
    SlotsAreUsed(num, d, events, n, PrefixSlot(num, events[n].call.prefix));
  }

  // ---- the walks are the walks of their trials ----

  /** One call moves both walks by the wait before it and its own outcomes. */
  lemma CallMovesWalk(num: Primitives, d: Detector, scan: Scan, call: Call, at: nat)
    requires d.numbers.Valid()
    ensures scan.WalkOf(d.Called(num, call, at))
         == scan.WalkOf(d).Leaked(Kept(num, d.lastScan, at)).Observed(
              if scan.Prefixes? then d.prefix.IsFirst(PrefixSlot(num, call.prefix))
              else d.range.IsFirst(DialOf(num, call.digits, at)))
  {
    hide PrefixSlot, DialOf, Leak, Walk.Leaked, Walk.Observed;
  }

  /** Where a walk stands with the steps in force. */
  function Standing(w: Walk, steps: Steps): Walk {
    w.(stepHit := steps.hit, stepMiss := steps.miss)
  }

  lemma CallStep(w: Walk, steps: Steps, kept: real, hit: bool)
    ensures Standing(w, steps).Leaked(kept).Observed(hit)
         == Standing(w.Leaked(kept).Stepped(if hit then steps.hit else steps.miss), steps)
  {
  }

  lemma CalibrationStep(num: Primitives, d: Detector, scan: Scan, p: Params)
    requires d.numbers.Valid() && p.Valid() && scan.WalkOf(d).Valid()
    requires var w := scan.WalkOf(d); UpperBound(num, p.alpha, p.beta) == w.upper && LowerBound(num, p.alpha, p.beta) == w.floor
    ensures scan.WalkOf(d.Recalibrated(num, p))
         == Standing(scan.WalkOf(d), Steps(StepHit(num, scan.Theta0(p), p.theta1), StepMiss(num, scan.Theta0(p), p.theta1)))
  {
    hide CompletionArm.Arm.Refitted;
  }

  lemma StandingTwice(w: Walk, a: Steps, b: Steps)
    ensures Standing(Standing(w, a), b) == Standing(w, b)
  {
  }

  /** A resting event leaves a walk in its well alone. */
  lemma StandingIsValid(w: Walk, steps: Steps, at: Walk)
    requires at == Standing(w, steps) && at.Valid()
    ensures w.Leaked(1.0).Stepped(0.0) == w && at.upper == w.upper && at.floor == w.floor
  {
  }

  /** One event, on the walk that follows the trials. */
  lemma EventStep(num: Primitives, d: Detector, scan: Scan, events: seq<Event>, n: nat, before: Detector, w: Walk)
    requires n < |events| && AllValid(events) && d.numbers.Valid() && before.numbers.Valid() && SameBounds(num, w, events)
    requires scan.WalkOf(before).Valid() && scan.WalkOf(before) == Standing(w, InForce(num, d, scan, events, n))
    requires before == Run(num, d, events, n)
    ensures var t := Trial(num, d, scan, events, n);
            scan.WalkOf(After(num, before, events[n]))
            == Standing(w.Leaked(t.kept).Stepped(t.step), InForce(num, d, scan, events, n + 1))
  {
    hide Run, Hit, Kept, LastCall, PrefixSlot, DialOf, Standing, Detector.Called, Detector.Recalibrated, Walk.Leaked,
         Walk.Stepped, Walk.Observed, Walk.Valid;
    var e, steps := events[n], InForce(num, d, scan, events, n);
    match e
    case Invite(call, at) =>
      MemoriesAreViews(num, d, events, n);
      HitIsFirst(num, d, scan, events, n);
      CallMovesWalk(num, before, scan, call, at);
      CallStep(w, steps, Kept(num, LastCall(d, events, n), at), Hit(num, d, scan, events, n));
    case Outcome(_, _, _) =>
      StandingIsValid(w, steps, scan.WalkOf(before));
    case Calibrated(p) =>
      StandingIsValid(w, steps, scan.WalkOf(before));
      CalibrationStep(num, before, scan, p);
      StandingTwice(w, steps, InForce(num, d, scan, events, n + 1));
  }

  lemma WalkIsValid(num: Primitives, d: Detector, scan: Scan, events: seq<Event>, n: nat)
    requires n <= |events| && AllValid(events) && d.Valid()
    ensures scan.WalkOf(Run(num, d, events, n)).Valid() && Run(num, d, events, n).numbers.Valid()
  {
    hide Run, Walk.Valid;
    RunKeepsValid(num, d, events, n);
  }

  lemma OneMoreTrial(num: Primitives, d: Detector, scan: Scan, events: seq<Event>, n: nat)
    requires n < |events| && AllValid(events)
    ensures var t, w, trials := Trial(num, d, scan, events, n), scan.WalkOf(d), Trials(num, d, scan, events);
            Walked(w, trials, n + 1) == Walked(w, trials, n).Leaked(t.kept).Stepped(t.step)
  {
    hide Trial, Walk.Leaked, Walk.Stepped;
  }

  lemma BoundsOfTrials(num: Primitives, d: Detector, scan: Scan, events: seq<Event>, n: nat)
    requires n <= |events| && AllValid(events) && SameBounds(num, scan.WalkOf(d), events)
    ensures SameBounds(num, Walked(scan.WalkOf(d), Trials(num, d, scan, events), n), events)
  {
    hide Trials;
    WalkedKeepsBounds(scan.WalkOf(d), Trials(num, d, scan, events), n);
  }

  lemma NoEventYet(num: Primitives, d: Detector, scan: Scan, events: seq<Event>)
    requires AllValid(events) && d.numbers.Valid()
    ensures scan.WalkOf(Run(num, d, events, 0))
         == Standing(Walked(scan.WalkOf(d), Trials(num, d, scan, events), 0), InForce(num, d, scan, events, 0))
  {
  }

  lemma ValidNumbers(d: Detector)
    requires d.Valid()
    ensures d.numbers.Valid()
  {
  }

  /** From any detector and over any mixture of calls, answers and calibrations, a scan walk is
      the walk of its trials, under the steps in force. */
  lemma {:induction false} ScanIsAWalk(num: Primitives, d: Detector, scan: Scan, events: seq<Event>, n: nat)
    requires n <= |events| && AllValid(events) && d.Valid() && SameBounds(num, scan.WalkOf(d), events)
    ensures scan.WalkOf(Run(num, d, events, n))
         == Standing(Walked(scan.WalkOf(d), Trials(num, d, scan, events), n), InForce(num, d, scan, events, n))
  {
    hide After, Run, Trial, Trials, Walked, SameBounds, Standing, InForce, Detector.Valid, Walk.Valid, Walk.Leaked, Walk.Stepped;
    ValidNumbers(d);
    if n == 0 {
      NoEventYet(num, d, scan, events);
    } else {
      ScanIsAWalk(num, d, scan, events, n - 1);
      WalkIsValid(num, d, scan, events, n - 1);
      BoundsOfTrials(num, d, scan, events, n - 1);
      DetectorRuns.OneMoreEvent(num, d, events, n - 1);
      OneMoreTrial(num, d, scan, events, n - 1);
      EventStep(num, d, scan, events, n - 1, Run(num, d, events, n - 1),
                Walked(scan.WalkOf(d), Trials(num, d, scan, events), n - 1));
    }
  }

  lemma TrialsDecay(num: Primitives, d: Detector, scan: Scan, events: seq<Event>)
    requires AllValid(events)
    ensures Decaying(Trials(num, d, scan, events))
  {
    forall i | 0 <= i < |events| ensures 0.0 <= Trials(num, d, scan, events)[i].kept <= 1.0 {
      if events[i].Invite? {
        LeakBounds(num.perSecond, SatSub(events[i].at, LastCall(d, events, i)));
      }
    }
  }

  /** A scan walk, from wherever it stands, first reaches its bound after the event at which the
      evidence of the calls, each weighted by its age and counted from the start or from a
      moment at the floor, first reaches the bound. A call is evidence for scanning when it is
      the first ever on its prefix slot, or the first contact with its range, and against it
      otherwise; answers and calibrations may come in between and count for nothing. */
  lemma ScanFiresWithItsCalls(num: Primitives, d: Detector, scan: Scan, events: seq<Event>, n: nat)
    requires n <= |events| && AllValid(events) && d.Valid() && SameBounds(num, scan.WalkOf(d), events)
    ensures var w, trials := scan.WalkOf(d), Trials(num, d, scan, events);
            ((forall m :: 0 <= m < n ==> !scan.WalkOf(Run(num, d, events, m)).Fired()) && scan.WalkOf(Run(num, d, events, n)).Fired())
            <==> (NoneReached(w.llr, trials, n, w.floor, w.upper) && SuffixReaches(w.llr, trials, n, w.floor, w.upper))
  {
    hide NoneReached, SuffixReaches, Trials, After, Run, Walked, SameBounds;
    var w, trials := scan.WalkOf(d), Trials(num, d, scan, events);
    TrialsDecay(num, d, scan, events);
    FirstFiringIsFirstSuffixCrossing(w, trials, n);
    ScanIsAWalk(num, d, scan, events, n);
    if Silent(w, trials, n) {
      forall m | 0 <= m < n ensures !scan.WalkOf(Run(num, d, events, m)).Fired() {
        ScanIsAWalk(num, d, scan, events, m);
        assert !Walked(w, trials, m).Fired();
      }
    } else {
      var m :| 0 <= m < n && Walked(w, trials, m).Fired();
      ScanIsAWalk(num, d, scan, events, m);
      assert scan.WalkOf(Run(num, d, events, m)).Fired();
    }
  }

  // ---- the evidence in clock time ----

  /** When the first call from event n on is placed; 0 when none is. */
  function FirstCall(events: seq<Event>, n: nat): nat
    requires n <= |events|
    decreases |events| - n
  {
    if n == |events| then 0 else if events[n].Invite? then events[n].at else FirstCall(events, n + 1)
  }

  /** How far the walks' clock is at event n: it moves with the calls, and starts at the first. */
  function ClockAt(d: Detector, events: seq<Event>, n: nat): nat
    requires n <= |events|
  {
    if LastCall(d, events, n) != 0 then LastCall(d, events, n) else FirstCall(events, n)
  }

  function Clock(d: Detector, events: seq<Event>): (clock: seq<nat>)
    ensures |clock| == |events| + 1 && forall i :: 0 <= i <= |events| ==> clock[i] == ClockAt(d, events, i)
  {
    seq(|events| + 1, i requires 0 <= i <= |events| => ClockAt(d, events, i))
  }

  /** The calls come no earlier than the detector's last. */
  predicate Follows(d: Detector, events: seq<Event>) {
    forall i :: 0 <= i < |events| && events[i].Invite? ==> d.lastScan <= events[i].at
  }

  lemma {:induction false} LastCallIsPast(d: Detector, events: seq<Event>, n: nat)
    requires n < |events| && Clocked(events) && Follows(d, events)
    ensures forall i :: n <= i < |events| && events[i].Invite? ==> LastCall(d, events, n) <= events[i].at
  {
    if n > 0 {
      LastCallIsPast(d, events, n - 1);
    }
  }

  lemma ClockTicks(d: Detector, events: seq<Event>, n: nat)
    requires n < |events| && Clocked(events) && Follows(d, events)
    ensures ClockAt(d, events, n) <= ClockAt(d, events, n + 1)
    ensures if events[n].Invite? then ClockAt(d, events, n + 1) == events[n].at
            else ClockAt(d, events, n + 1) == ClockAt(d, events, n)
  {
    LastCallIsPast(d, events, n);
  }

  lemma {:induction false} ClockNeverGoesBack(d: Detector, events: seq<Event>, i: nat, j: nat)
    requires i <= j <= |events| && Clocked(events) && Follows(d, events)
    ensures ClockAt(d, events, i) <= ClockAt(d, events, j)
  {
    hide ClockAt;
    if i < j {
      ClockNeverGoesBack(d, events, i, j - 1);
      ClockTicks(d, events, j - 1);
    }
  }

  lemma TrialIsPaced(num: Primitives, d: Detector, scan: Scan, events: seq<Event>, n: nat)
    requires n < |events| && AllValid(events) && Clocked(events) && Follows(d, events)
    ensures ClockAt(d, events, n) <= ClockAt(d, events, n + 1)
    ensures Trial(num, d, scan, events, n).kept == Leak(num.perSecond, ClockAt(d, events, n + 1) - ClockAt(d, events, n))
  {
    hide Hit, InForce;
    ClockTicks(d, events, n);
  }

  lemma TrialsArePaced(num: Primitives, d: Detector, scan: Scan, events: seq<Event>)
    requires AllValid(events) && Clocked(events) && Follows(d, events)
    ensures Paced(num, Trials(num, d, scan, events), Clock(d, events))
  {
    hide Trial, ClockAt, Leak;
    forall i, j | 0 <= i <= j <= |events| ensures Clock(d, events)[i] <= Clock(d, events)[j] {
      ClockNeverGoesBack(d, events, i, j);
    }
    forall i | 0 <= i < |events|
      ensures Trials(num, d, scan, events)[i].kept == Leak(num.perSecond, Clock(d, events)[i + 1] - Clock(d, events)[i])
    {
      TrialIsPaced(num, d, scan, events, i);
    }
  }

  /** The evidence the crossing is read from, from a start at event k: that start and the step of
      every call since, each weighted by its own age at the latest call. */
  lemma EvidenceIsAged(num: Primitives, d: Detector, scan: Scan, events: seq<Event>, start: real, k: nat, n: nat)
    requires k <= n <= |events| && AllValid(events) && Clocked(events) && Follows(d, events)
    ensures ClockAt(d, events, k) <= ClockAt(d, events, n)
    ensures var trials, clock := Trials(num, d, scan, events), Clock(d, events);
            Discounted(start, trials, k, n)
            == start * Leak(num.perSecond, clock[n] - clock[k]) + Aged(num, trials, clock, k, n, clock[n])
  {
    hide Trials, ClockAt, Leak, Aged, Discounted;
    ClockNeverGoesBack(d, events, k, n);
    TrialsArePaced(num, d, scan, events);
    DiscountIsAge(num, start, Trials(num, d, scan, events), Clock(d, events), k, n);
  }
}
