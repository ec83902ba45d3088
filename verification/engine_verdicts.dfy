/** When a decision reports a firing verdict: exactly when the evidence of the arms past their floors,
    each read off the whole history of the source, together reaches the bound of the deployment. */
module EngineVerdicts {
  import opened Numerics
  import opened SequentialTest
  import opened Calibration
  import opened EngineModel
  import opened EngineRuns
  import opened EngineEffects
  import opened EngineBlock
  import opened EngineWalks
  import CompletionArm
  import CompletionWalks
  import DetectorRuns
  import Detectors
  import EngineCalibration
  import EngineDecisions
  import PrefixMemory
  import RangeMemory
  import ScanWalks
  import Verdicts
  import VolumeArm

  // ---- the bound ----

  lemma FittedKeepsBound(st: State)
    requires st.Valid()
    ensures Fitted(st).fireBits == st.params.fireBits
  {
    hide PeerState.Valid, Mean, SquaredDistances;
  }

  /** In every reachable state a verdict fires at the upper bound of the walks. */
  lemma {:induction false} FireBoundStands(w: World, mode: Mode, ops: seq<Op>, n: nat)
    requires n <= |ops| && AllValid(ops) && Initial(w, mode).Valid()
    ensures Run(w, Initial(w, mode), ops, n).params.fireBits == Upper(w.num)
  {
    hide Step, Fitted;
    if n > 0 {
      FireBoundStands(w, mode, ops, n - 1);
      var before := Run(w, Initial(w, mode), ops, n - 1);
      RunStep(w, Initial(w, mode), ops, n - 1);
      if ops[n - 1].Recalibrate? {
        FittedKeepsBound(before);
        Adopted(w, before);
      } else {
        EngineCalibration.OthersKeepParams(w, before, ops[n - 1]);
      }
    }
  }

  lemma Adopted(w: World, st: State)
    requires st.Valid()
    ensures Step(w, st, Recalibrate).params == Fitted(st)
  {
    hide Fitted, PeerState.Valid, Detectors.Detector.Recalibrated;
  }

  lemma BaseBound(w: World, st: State, op: Op, s: Ip)
    requires st.Valid() && st.params.fireBits == Upper(w.num) && (s !in st.peers || Restores(st, op, s))
    ensures Base(w, st, op, s).fireBits == Upper(w.num)
  {
    DefaultsAreValid(w.num);
  }

  lemma CalibrationBound(w: World, st: State, op: Op, s: Ip)
    requires st.Valid() && st.params.fireBits == Upper(w.num)
    ensures var e := EventOf(w, st, op, s); e.Some? && e.value.Calibrated? ==> e.value.p.fireBits == Upper(w.num)
  {
    hide Fitted, PeerState.Valid, NewPeer, CallMade, OutcomeHeard, Claims;
    FittedKeepsBound(st);
  }

  /** Over the history of every reachable source the detector's bounds stand. */
  lemma HistoryIsSteady(w: World, mode: Mode, ops: seq<Op>, n: nat, s: Ip, b: nat, d0: Detectors.Detector,
                        events: seq<Detectors.Event>, where: seq<nat>)
    requires n <= |ops| && AllValid(ops) && Initial(w, mode).Valid()
    requires IsHistory(w, Initial(w, mode), ops, n, s, b, d0, events, where)
    ensures d0.Valid() && d0.Fresh() && Detectors.AllValid(events) && d0.fireBits == Upper(w.num)
    ensures Verdicts.Steady(w.num, d0, events)
  {
    hide Run, EventOf, Base, Restores, Initial, Detectors.Run, Detectors.Detector.Valid, AtZero, ScanWalks.SameBounds;
    HistoryKeepsBounds(w, mode, ops, n, s, b, d0, events, where, ScanWalks.Prefixes);
    HistoryKeepsBounds(w, mode, ops, n, s, b, d0, events, where, ScanWalks.Ranges);
    ArmOfHistory(w, mode, ops, n, s, b, d0, events, where);
    BoundsAreShared(w.num, d0.prefixScan, d0.completion.walk, events);
    FireBoundStands(w, mode, ops, b);
    BaseBound(w, Run(w, Initial(w, mode), ops, b), ops[b], s);
    forall k | 0 <= k < |events| && events[k].Calibrated? ensures events[k].p.fireBits == d0.fireBits {
      assert EventAt(w, Initial(w, mode), ops, where[k], s) == Some(events[k]);
      FireBoundStands(w, mode, ops, where[k]);
      CalibrationBound(w, Run(w, Initial(w, mode), ops, where[k]), ops[where[k]], s);
    }
  }

  /** In every reachable state every source fires at that bound. */
  lemma EverySourceFiresAtTheBound(w: World, mode: Mode, ops: seq<Op>, n: nat, s: Ip)
    requires n <= |ops| && AllValid(ops) && Initial(w, mode).Valid() && s in Run(w, Initial(w, mode), ops, n).peers
    ensures Run(w, Initial(w, mode), ops, n).peers[s].anomaly.fireBits == w.num.ln(0.99 / 0.0001)
  {
    hide Run, Initial, Base, Lists, Begins, Detectors.Run, Detectors.Detector.Valid, Verdicts.Steady;
    var b, d0, events, where := EverySourceHasAHistory(w, mode, ops, n, s);
    HistoryIsSteady(w, mode, ops, n, s, b, d0, events, where);
    Verdicts.BoundStays(w.num, d0, events, |events|);
  }

  // ---- the decision ----

  /** The country a decision names: the one called, and none for an answer. */
  function From(e: Detectors.Event): Option<nat> {
    match e case Invite(call, _) => Some(call.country) case _ => None
  }

  /** A firing verdict is reported as it is. */
  lemma DecisionReports(w: World, st: State, op: Op)
    requires st.Valid() && op.Receive? && op.Valid()
    ensures var (after, s, d) := Observe(w, st, op.p); var v := VerdictOn(w, st, op, s);
            && CalledFor(v, st.mode, op.p.at, d)
            && (v.Some? && v.value.fired ==>
                  EventOf(w, st, op, s).Some? && EngineDecisions.Reports(d, v.value, From(EventOf(w, st, op, s).value)))
  {
    hide Observe, Step, PeerState.Valid, NewPeer, CallMade, OutcomeHeard, Claims, Fails, Scans, Abuses,
         EngineDecisions.Abroad, EngineDecisions.CallsAfter, Detectors.Detector.Observe, Detectors.Detector.ObserveCompletion;
    EngineDecisions.EveryDecision(w, st, op);
    SourceDecision(w, st, op, Observe(w, st, op.p).1, Observe(w, st, op.p).2);
  }

  /** Of a history ending in an event: its verdict, its bound, its shares. */
  lemma HistoryVerdict(w: World, mode: Mode, ops: seq<Op>, n: nat, s: Ip, b: nat, d0: Detectors.Detector,
                       events: seq<Detectors.Event>, where: seq<nat>)
    returns (starts: seq<nat>)
    requires n <= |ops| && AllValid(ops) && Initial(w, mode).Valid() && Ticking(ops)
    requires IsHistory(w, Initial(w, mode), ops, n, s, b, d0, events, where)
    requires events != [] && !events[|events| - 1].Calibrated?
    ensures Detectors.AllValid(events) && d0.numbers.Valid()
    ensures VolumeArm.Openings(DetectorRuns.CallTimes(events), |events|, starts)
    ensures var v := Detectors.VerdictOf(w.num, Detectors.Run(w.num, d0, events, |events| - 1), events[|events| - 1]);
            && v.evidence == Verdicts.Total(w.num, d0, events, |events|, starts)
            && (v.fired <==> Verdicts.Total(w.num, d0, events, |events|, starts) >= Upper(w.num))
            && v.countries == d0.nCountries + |Verdicts.Called(events, |events|) - d0.countries|
            && (!v.warming <==> WarmedUp(events, events[|events| - 1].at))
  {
    hide Run, EventOf, Base, Restores, Initial, Lists, Begins, Detectors.Run, Detectors.VerdictOf, Detectors.Detector.Valid, AtZero,
         Verdicts.Steady, Verdicts.Total, VolumeArm.Openings;
    var m := |events| - 1;
    HistoryIsClocked(w, Initial(w, mode), ops, n, s, b, events, where);
    HistoryIsSteady(w, mode, ops, n, s, b, d0, events, where);
    starts := Verdicts.VerdictIsTheSum(w.num, d0, events, m);
    Verdicts.CountriesReported(w.num, d0, events, m);
    DetectorRuns.WarmedVerdictHasAge(w.num, d0, events, m);
  }

  /** What the decision says of the evidence: nothing below the bound; at the bound, while learning, that
      it would block, and otherwise a block exactly of a source out of its warm-up; with the evidence,
      the number of countries and the country called. */
  predicate Announces(d: Decision, mode: Mode, at: nat, total: real, bound: real, countries: nat, from: Option<nat>, warmed: bool) {
    var learning := mode.Learning? && at < mode.until;
    && (d.WouldBlock? <==> total >= bound && learning)
    && (d.Block? <==> total >= bound && !learning && warmed)
    && (d.Warming? <==> total >= bound && !learning && !warmed)
    && (total >= bound ==> d.evidence == total && d.countries == countries && d.from == from)
  }

  /** The whole history of `s`, its last event the one of packet n, and the calls that opened an hour. */
  ghost predicate EndsIn(w: World, st: State, ops: seq<Op>, n: nat, s: Ip, b: nat, d0: Detectors.Detector,
                         events: seq<Detectors.Event>, where: seq<nat>, starts: seq<nat>)
    requires n < |ops| && AllValid(ops) && st.Valid()
  {
    && IsHistory(w, st, ops, n + 1, s, b, d0, events, where)
    && |events| == |where| > 0 && where[|where| - 1] == n
    && VolumeArm.Openings(DetectorRuns.CallTimes(events), |events|, starts)
  }

  /** For every packet of every run: a packet that means no event to its subject announces nothing; one
      that does ends the whole history of its source, and the decision announces exactly what the
      evidence of that history adds up to, all four arms counted, each past its own floor. */
  lemma DecisionIsTheEvidence(w: World, mode: Mode, ops: seq<Op>, n: nat)
    returns (s: Ip, b: nat, d0: Detectors.Detector, events: seq<Detectors.Event>, where: seq<nat>, starts: seq<nat>)
    requires n < |ops| && AllValid(ops) && Ticking(ops) && ops[n].Receive? && Initial(w, mode).Valid()
    ensures s == Observe(w, Run(w, Initial(w, mode), ops, n), ops[n].p).1
    ensures EventAt(w, Initial(w, mode), ops, n, s).None? ==> !Firing(Observe(w, Run(w, Initial(w, mode), ops, n), ops[n].p).2)
    ensures EventAt(w, Initial(w, mode), ops, n, s).Some? ==>
              && EndsIn(w, Initial(w, mode), ops, n, s, b, d0, events, where, starts) && Detectors.AllValid(events)
              && Announces(Observe(w, Run(w, Initial(w, mode), ops, n), ops[n].p).2, Run(w, Initial(w, mode), ops, n).mode, ops[n].p.at,
                           Verdicts.Total(w.num, d0, events, |events|, starts), w.num.ln(0.99 / 0.0001),
                           d0.nCountries + |Verdicts.Called(events, |events|) - d0.countries|,
                           From(events[|events| - 1]), WarmedUp(events, ops[n].p.at))
  {
    hide Run, Initial, Observe, EventOf, VerdictOn, IsHistory, Detectors.Run, Detectors.VerdictOf, PeerState.Valid, Base,
         Verdicts.Total, WarmedUp, VolumeArm.Openings, From;
    var st := Run(w, Initial(w, mode), ops, n);
    s := Observe(w, st, ops[n].p).1;
    DecisionReports(w, st, ops[n]);
    VerdictHasAnEvent(w, st, ops[n], s);
    if EventAt(w, Initial(w, mode), ops, n, s).Some? {
      b, d0, events, where := HistoryOfAPacket(w, mode, ops, n, s);
      starts := HistoryVerdict(w, mode, ops, n + 1, s, b, d0, events, where);
    } else {
      b, events, where, starts := 0, [], [], [];
      d0 := Base(w, st, ops[n], s);
    }
  }

  // ---- one arm is enough ----

  /** The arm is past its floor after the whole history. */
  predicate PastFloor(num: Primitives, events: seq<Detectors.Event>, scan: ScanWalks.Scan) {
    if scan.Prefixes? then PrefixMemory.NovelInWindow(DetectorRuns.PrefixUses(num, events), |events|) >= 4
    else RangeMemory.ContactsInWindow(DetectorRuns.Dials(num, events), |events|) >= 10
  }

  /** The evidence of the trials first reaches the bound with the last of them. */
  predicate CrossesNow(num: Primitives, trials: seq<Sample>) {
    NoneReached(0.0, trials, |trials|, Floor(num), Upper(num)) && SuffixReaches(0.0, trials, |trials|, Floor(num), Upper(num))
  }

  lemma WalkGathers(w: Walk, trials: seq<Sample>, bound: real)
    requires w.Valid() && w.llr == 0.0 && Decaying(trials) && bound == w.upper
    requires NoneReached(0.0, trials, |trials|, w.floor, w.upper) && SuffixReaches(0.0, trials, |trials|, w.floor, w.upper)
    ensures Verdicts.Gathered(w, trials, |trials|) >= bound
  {
    hide NoneReached, SuffixReaches, Walked;
    FirstFiringIsFirstSuffixCrossing(w, trials, |trials|);
    WalkedKeepsBounds(w, trials, |trials|);
  }

  lemma ScanSharesReach(num: Primitives, d: Detectors.Detector, events: seq<Detectors.Event>, scan: ScanWalks.Scan)
    requires Detectors.AllValid(events) && d.Valid() && AtZero(num, scan.WalkOf(d))
    requires PastFloor(num, events, scan) && CrossesNow(num, ScanWalks.Trials(num, d, scan, events))
    ensures if scan.Prefixes? then Verdicts.PrefixShare(num, d, events, |events|) >= Upper(num)
            else Verdicts.RangeShare(num, d, events, |events|) >= Upper(num)
  {
    hide NoneReached, SuffixReaches, Walked, ScanWalks.Trials, PrefixMemory.NovelInWindow, RangeMemory.ContactsInWindow;
    ScanWalks.TrialsDecay(num, d, scan, events);
    WalkGathers(scan.WalkOf(d), ScanWalks.Trials(num, d, scan, events), Upper(num));
  }

  lemma CompletionShareReaches(num: Primitives, d: Detectors.Detector, events: seq<Detectors.Event>)
    requires Detectors.AllValid(events) && d.Valid() && AtZero(num, d.completion.walk)
    requires CompletionArm.FailuresInRun(DetectorRuns.Answers(events), |events|) >= 10
    requires CrossesNow(num, CompletionWalks.Trials(num, d.completion, DetectorRuns.Answers(events)))
    ensures Verdicts.CompletionShare(num, d, events, |events|) >= Upper(num)
  {
    hide NoneReached, SuffixReaches, Walked, CompletionWalks.Trials, CompletionArm.FailuresInRun;
    CompletionWalks.TrialsDecay(num, d.completion, DetectorRuns.Answers(events));
    WalkGathers(d.completion.walk, CompletionWalks.Trials(num, d.completion, DetectorRuns.Answers(events)), Upper(num));
  }

  /** No arm masks another: for every packet of every run that means an event to its source, if either
      scan is past its floor and the age-weighted evidence of its calls reaches the bound with this
      packet, or ten failures are in a row and that of the answers does, the decision announces it. */
  lemma OneArmIsEnough(w: World, mode: Mode, ops: seq<Op>, n: nat)
    returns (s: Ip, b: nat, d0: Detectors.Detector, events: seq<Detectors.Event>, where: seq<nat>, starts: seq<nat>)
    requires n < |ops| && AllValid(ops) && Ticking(ops) && ops[n].Receive? && Initial(w, mode).Valid()
    requires EventAt(w, Initial(w, mode), ops, n, Observe(w, Run(w, Initial(w, mode), ops, n), ops[n].p).1).Some?
    ensures s == Observe(w, Run(w, Initial(w, mode), ops, n), ops[n].p).1
    ensures EndsIn(w, Initial(w, mode), ops, n, s, b, d0, events, where, starts) && Detectors.AllValid(events)
    ensures CompletionArm.AllValid(DetectorRuns.Answers(events))
    ensures || (exists scan: ScanWalks.Scan :: PastFloor(w.num, events, scan) && CrossesNow(w.num, ScanWalks.Trials(w.num, d0, scan, events)))
            || (CompletionArm.FailuresInRun(DetectorRuns.Answers(events), |events|) >= 10
                && CrossesNow(w.num, CompletionWalks.Trials(w.num, d0.completion, DetectorRuns.Answers(events))))
            ==> Firing(Observe(w, Run(w, Initial(w, mode), ops, n), ops[n].p).2)
  {
    hide Run, Initial, Observe, EventAt, IsHistory, PastFloor, CrossesNow, Detectors.Detector.Valid, Detectors.Detector.Fresh, AtZero,
         Verdicts.Steady, Verdicts.PrefixShare, Verdicts.RangeShare, Verdicts.CompletionShare, Verdicts.VolumeShare,
         VolumeArm.Openings, WarmedUp, From, ScanWalks.SameBounds;
    s, b, d0, events, where, starts := DecisionIsTheEvidence(w, mode, ops, n);
    ArmOfHistory(w, mode, ops, n + 1, s, b, d0, events, where);
    Verdicts.SharesAreEvidence(w.num, d0, events, |events|, starts);
    forall scan: ScanWalks.Scan | PastFloor(w.num, events, scan) && CrossesNow(w.num, ScanWalks.Trials(w.num, d0, scan, events))
      ensures Verdicts.Total(w.num, d0, events, |events|, starts) >= Upper(w.num)
    {
      HistoryKeepsBounds(w, mode, ops, n + 1, s, b, d0, events, where, scan);
      ScanSharesReach(w.num, d0, events, scan);
    }
    if CompletionArm.FailuresInRun(DetectorRuns.Answers(events), |events|) >= 10
       && CrossesNow(w.num, CompletionWalks.Trials(w.num, d0.completion, DetectorRuns.Answers(events))) {
      CompletionShareReaches(w.num, d0, events);
    }
  }
}
