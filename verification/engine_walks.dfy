/** The scan walks of a source, over the whole history of its packets. */
module EngineWalks {
  import opened Numerics
  import opened SequentialTest
  import opened Calibration
  import opened EngineModel
  import opened EngineRuns
  import opened EngineBlock
  import CompletionArm
  import CompletionWalks
  import DetectorRuns
  import EngineEffects
  import opened ScanWalks
  import Detectors

  function Upper(num: Primitives): real {
    UpperBound(num, 0.0001, 0.01)
  }

  function Floor(num: Primitives): real {
    LowerBound(num, 0.0001, 0.01)
  }

  /** A walk at zero between the bounds of the deployment. */
  predicate AtZero(num: Primitives, w: Walk) {
    w.llr == 0.0 && w.upper == Upper(num) && w.floor == Floor(num)
  }

  lemma NewIsAtZero(num: Primitives, p: Params, scan: Scan)
    requires p.Valid() && p.Standard()
    ensures AtZero(num, scan.WalkOf(Detectors.New(num, p)))
  {
  }

  lemma RestoredIsAtZero(num: Primitives, p: Params, row: Detectors.Snapshot, scan: Scan)
    requires p.Valid() && p.Standard()
    ensures AtZero(num, scan.WalkOf(Detectors.FromSnapshot(num, p, row)))
  {
  }

  /** A source's walks start at zero whenever it is created or restored. */
  lemma BeginsAtZero(w: World, st: State, op: Op, s: Ip, scan: Scan)
    requires st.Valid() && (s !in st.peers || Restores(st, op, s))
    ensures AtZero(w.num, scan.WalkOf(Base(w, st, op, s)))
  {
    hide Scan.WalkOf, Detectors.New, Detectors.FromSnapshot, PeerState.Valid, AtZero;
    DefaultsAreValid(w.num);
    NewIsAtZero(w.num, Defaults(w.num), scan);
    NewIsAtZero(w.num, st.params, scan);
    if op.Import? {
      RestoredIsAtZero(w.num, st.params, op.row, scan);
    }
  }

  lemma CalibrationsKeepBounds(w: World, st: State, op: Op, s: Ip)
    requires st.Valid()
    ensures var e := EventOf(w, st, op, s);
            e.Some? && e.value.Calibrated? ==>
              UpperBound(w.num, e.value.p.alpha, e.value.p.beta) == Upper(w.num)
              && e.value.p.alpha != 1.0 && LowerBound(w.num, e.value.p.alpha, e.value.p.beta) == Floor(w.num)
  {
    hide Fitted, PeerState.Valid, NewPeer, EngineEffects.CallMade, EngineEffects.OutcomeHeard, Claims;
    FittedIsValid(st);
  }

  lemma HistoryKeepsBounds(w: World, mode: Mode, ops: seq<Op>, n: nat, s: Ip, b: nat, d0: Detectors.Detector,
                           events: seq<Detectors.Event>, where: seq<nat>, scan: Scan)
    requires n <= |ops| && EngineRuns.AllValid(ops) && Initial(w, mode).Valid()
    requires IsHistory(w, Initial(w, mode), ops, n, s, b, d0, events, where)
    ensures d0.Valid() && Detectors.AllValid(events)
    ensures AtZero(w.num, scan.WalkOf(d0)) && SameBounds(w.num, scan.WalkOf(d0), events)
  {
    hide Run, EventOf, Base, Restores, Initial, Detectors.Run, Detectors.Detector.Valid;
    BeginsAtZero(w, Run(w, Initial(w, mode), ops, b), ops[b], s, scan);
    forall k | 0 <= k < |events| && events[k].Calibrated?
      ensures UpperBound(w.num, events[k].p.alpha, events[k].p.beta) == Upper(w.num)
              && LowerBound(w.num, events[k].p.alpha, events[k].p.beta) == Floor(w.num)
    {
      assert EventAt(w, Initial(w, mode), ops, where[k], s) == Some(events[k]);
      CalibrationsKeepBounds(w, Run(w, Initial(w, mode), ops, where[k]), ops[where[k]], s);
    }
  }

  /** For every reachable source and its whole history since it was created or restored: each
      scan walk first stands at its bound after the event at which the age-weighted evidence of
      its calls, counted from the beginning or from a moment at the floor, first reaches the
      bound; whatever recalibrations and answers lie in between. */
  lemma SourceScanFiresWithItsCalls(w: World, mode: Mode, ops: seq<Op>, n: nat, s: Ip, b: nat, d0: Detectors.Detector,
                                    events: seq<Detectors.Event>, where: seq<nat>, scan: Scan, m: nat)
    requires n <= |ops| && EngineRuns.AllValid(ops) && Initial(w, mode).Valid()
    requires IsHistory(w, Initial(w, mode), ops, n, s, b, d0, events, where) && m <= |events|
    ensures d0.Valid() && Detectors.AllValid(events)
    ensures var trials := Trials(w.num, d0, scan, events);
            ((forall i :: 0 <= i < m ==> !scan.WalkOf(Detectors.Run(w.num, d0, events, i)).Fired())
             && scan.WalkOf(Detectors.Run(w.num, d0, events, m)).Fired())
            <==> (NoneReached(0.0, trials, m, Floor(w.num), Upper(w.num)) && SuffixReaches(0.0, trials, m, Floor(w.num), Upper(w.num)))
  {
    hide IsHistory, Initial, Trials, NoneReached, SuffixReaches, Detectors.Run, Detectors.Detector.Valid, SameBounds;
    HistoryKeepsBounds(w, mode, ops, n, s, b, d0, events, where, scan);
    ScanFiresWithItsCalls(w.num, d0, scan, events, m);
  }

  /** And in clock time: the evidence counted from event k is what was there then and the step of
      every call since, each weighted by its age at the latest call. */
  lemma SourceEvidenceIsAged(w: World, mode: Mode, ops: seq<Op>, n: nat, s: Ip, b: nat, d0: Detectors.Detector,
                             events: seq<Detectors.Event>, where: seq<nat>, scan: Scan, start: real, k: nat, m: nat)
    requires n <= |ops| && EngineRuns.AllValid(ops) && Initial(w, mode).Valid() && Ticking(ops)
    requires IsHistory(w, Initial(w, mode), ops, n, s, b, d0, events, where) && k <= m <= |events|
    ensures Detectors.AllValid(events) && ClockAt(d0, events, k) <= ClockAt(d0, events, m)
    ensures var trials, clock := Trials(w.num, d0, scan, events), Clock(d0, events);
            Discounted(start, trials, k, m)
            == start * Leak(w.num.perSecond, clock[m] - clock[k]) + Aged(w.num, trials, clock, k, m, clock[m])
  {
    hide Initial, Trials, Clock, ClockAt, Leak, Aged, Discounted, Detectors.Run, EngineRuns.Run, Base, Lists, Begins;
    HistoryIsClocked(w, Initial(w, mode), ops, n, s, b, events, where);
    EvidenceIsAged(w.num, d0, scan, events, start, k, m);
  }

  // ---- the completion walk ----

  lemma NewArmIsAtZero(num: Primitives, p: Params)
    requires p.Valid() && p.Standard()
    ensures AtZero(num, Detectors.New(num, p).completion.walk)
  {
  }

  lemma ArmBeginsAtZero(w: World, st: State, op: Op, s: Ip)
    requires st.Valid() && (s !in st.peers || Restores(st, op, s))
    ensures AtZero(w.num, Base(w, st, op, s).completion.walk)
  {
    hide Detectors.New, PeerState.Valid, AtZero;
    DefaultsAreValid(w.num);
    NewArmIsAtZero(w.num, Defaults(w.num));
    NewArmIsAtZero(w.num, st.params);
  }

  lemma AnswersKeepBounds(num: Primitives, events: seq<Detectors.Event>, w: Walk)
    requires Detectors.AllValid(events) && SameBounds(num, w, events)
    ensures CompletionArm.AllValid(DetectorRuns.Answers(events))
    ensures CompletionWalks.SameBounds(num, w, DetectorRuns.Answers(events))
  {
    forall i | 0 <= i < |events| && DetectorRuns.Answers(events)[i].Refit?
      ensures events[i].Calibrated? && DetectorRuns.Answers(events)[i].p == events[i].p
    {
    }
  }

  /** The bounds are the same for all three walks. */
  lemma BoundsAreShared(num: Primitives, x: Walk, y: Walk, events: seq<Detectors.Event>)
    requires Detectors.AllValid(events) && AtZero(num, x) && AtZero(num, y) && SameBounds(num, x, events)
    ensures SameBounds(num, y, events)
  {
  }

  lemma ArmOfRun(num: Primitives, d: Detectors.Detector, events: seq<Detectors.Event>, i: nat)
    requires i <= |events| && Detectors.AllValid(events) && d.Fresh() && d.numbers.Valid()
    requires CompletionArm.AllValid(DetectorRuns.Answers(events))
    ensures Detectors.Run(num, d, events, i).completion == CompletionArm.Run(num, d.completion, DetectorRuns.Answers(events), i)
  {
    DetectorRuns.ArmsRunApart(num, d, events, i);
  }

  /** Does the completion walk of the source stand at its bound after i events? */
  predicate Stands(num: Primitives, d: Detectors.Detector, events: seq<Detectors.Event>, i: nat)
    requires i <= |events| && Detectors.AllValid(events) && d.numbers.Valid()
  {
    Detectors.Run(num, d, events, i).completion.walk.Fired()
  }

  lemma StandsAsTheArm(num: Primitives, d: Detectors.Detector, events: seq<Detectors.Event>, i: nat)
    requires i <= |events| && Detectors.AllValid(events) && d.Fresh() && d.numbers.Valid()
    requires CompletionArm.AllValid(DetectorRuns.Answers(events))
    ensures Stands(num, d, events, i) <==> CompletionArm.Run(num, d.completion, DetectorRuns.Answers(events), i).walk.Fired()
  {
    hide Detectors.Run, CompletionArm.Run, DetectorRuns.Answers, Walk.Fired;
    ArmOfRun(num, d, events, i);
  }

  /** The detector's completion walk first stands at its bound at the first crossing. */
  lemma ArmFiresInRun(num: Primitives, d: Detectors.Detector, events: seq<Detectors.Event>, m: nat)
    requires m <= |events| && Detectors.AllValid(events) && d.Fresh() && d.numbers.Valid() && d.completion.Valid()
    requires CompletionArm.AllValid(DetectorRuns.Answers(events))
    requires CompletionWalks.SameBounds(num, d.completion.walk, DetectorRuns.Answers(events))
    ensures var w, trials := d.completion.walk, CompletionWalks.Trials(num, d.completion, DetectorRuns.Answers(events));
            ((forall i :: 0 <= i < m ==> !Stands(num, d, events, i)) && Stands(num, d, events, m))
            <==> (NoneReached(w.llr, trials, m, w.floor, w.upper) && SuffixReaches(w.llr, trials, m, w.floor, w.upper))
  {
    hide Stands, CompletionArm.Run, Walk.Fired, DetectorRuns.Answers, Detectors.Detector.Fresh, CompletionWalks.Trials, NoneReached,
         SuffixReaches, CompletionWalks.SameBounds, CompletionArm.Arm.Valid;
    var inputs := DetectorRuns.Answers(events);
    StandsAsTheArm(num, d, events, m);
    if i :| 0 <= i < m && Stands(num, d, events, i) {
      StandsAsTheArm(num, d, events, i);
    } else {
      forall i | 0 <= i < m ensures !CompletionArm.Run(num, d.completion, inputs, i).walk.Fired() {
        assert !Stands(num, d, events, i);
        StandsAsTheArm(num, d, events, i);
      }
    }
    CompletionWalks.CompletionFiresWithItsAnswers(num, d.completion, inputs, m);
  }

  /** The same for the completion walk, over every reachable source's whole history: it first stands
      at its bound after the event at which the age-weighted evidence of the answers to its calls
      first reaches it. */
  lemma SourceCompletionFiresWithItsAnswers(w: World, mode: Mode, ops: seq<Op>, n: nat, s: Ip, b: nat, d0: Detectors.Detector,
                                            events: seq<Detectors.Event>, where: seq<nat>, m: nat)
    requires n <= |ops| && EngineRuns.AllValid(ops) && Initial(w, mode).Valid()
    requires IsHistory(w, Initial(w, mode), ops, n, s, b, d0, events, where) && m <= |events|
    ensures d0.Valid() && Detectors.AllValid(events) && CompletionArm.AllValid(DetectorRuns.Answers(events))
    ensures var trials := CompletionWalks.Trials(w.num, d0.completion, DetectorRuns.Answers(events));
            ((forall i :: 0 <= i < m ==> !Stands(w.num, d0, events, i)) && Stands(w.num, d0, events, m))
            <==> (NoneReached(0.0, trials, m, Floor(w.num), Upper(w.num)) && SuffixReaches(0.0, trials, m, Floor(w.num), Upper(w.num)))
  {
    hide IsHistory, Initial, CompletionWalks.Trials, NoneReached, SuffixReaches, Detectors.Run, Detectors.Detector.Valid, SameBounds,
         CompletionWalks.SameBounds, DetectorRuns.Answers, Stands, CompletionArm.Arm.Valid;
    HistoryKeepsBounds(w, mode, ops, n, s, b, d0, events, where, Prefixes);
    ArmOfHistory(w, mode, ops, n, s, b, d0, events, where);
    BoundsAreShared(w.num, Prefixes.WalkOf(d0), d0.completion.walk, events);
    AnswersKeepBounds(w.num, events, d0.completion.walk);
    ArmFiresInRun(w.num, d0, events, m);
  }

  lemma ArmOfHistory(w: World, mode: Mode, ops: seq<Op>, n: nat, s: Ip, b: nat, d0: Detectors.Detector,
                     events: seq<Detectors.Event>, where: seq<nat>)
    requires n <= |ops| && EngineRuns.AllValid(ops) && Initial(w, mode).Valid()
    requires IsHistory(w, Initial(w, mode), ops, n, s, b, d0, events, where)
    ensures d0.Fresh() && d0.Valid() && d0.numbers.Valid() && d0.completion.Valid() && AtZero(w.num, d0.completion.walk)
  {
    hide Run, EventOf, Base, Restores, Initial, Detectors.Run, CompletionArm.Arm.Valid, AtZero;
    ArmBeginsAtZero(w, Run(w, Initial(w, mode), ops, b), ops[b], s);
  }
}
