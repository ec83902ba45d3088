/** Which sources have an entry, under which dial plan, and in which mode the engine runs. */
module EngineSources {
  import opened Numerics
  import opened Calibration
  import opened EngineModel
  import opened EngineRuns
  import opened EngineEffects
  import Detectors

  /** The request asks for an entry of its sender: a registration, a credential, or an INVITE with a
      number while the behavioural layer runs. */
  predicate AsksForEntry(w: World, op: Op, s: Ip) {
    && op.Receive? && op.p.src == s && op.p.payload.Asking? && op.p.payload.request.perimeter == Clean
    && var req := op.p.payload.request;
       req.kind == Register || req.credentialed || (req.kind == Invite && w.behavioural && req.dialed.Some?)
  }

  /** An operation leaves a source with an entry exactly when it had one, or its dial plan is declared,
      or a clean request or a stored row asks for one while there are fewer than ten thousand. */
  lemma SourcesAreAdmitted(w: World, st: State, op: Op, s: Ip)
    requires st.Valid() && op.Valid()
    ensures s in Step(w, st, op).peers
       <==> || s in st.peers || (op.Declare? && op.peer == s)
            || (|st.peers| < 10_000 && ((op.Import? && op.peer == s) || AsksForEntry(w, op, s)))
  {
    hide Asked, Answered, PeerState.Valid, NewPeer, Fitted, Detectors.Detector.Recalibrated, Detectors.FromSnapshot;
    FittedIsValid(st);
    DefaultsAreValid(w.num);
  }

  /** The dial plan last declared for a source. */
  function LatestPlan(w: World, ops: seq<Op>, n: nat, s: Ip): nat
    requires n <= |ops|
  {
    if n == 0 then w.defaultPlan
    else if ops[n - 1].Declare? && ops[n - 1].peer == s then ops[n - 1].plan
    else LatestPlan(w, ops, n - 1, s)
  }

  /** The dial plan a source's calls are read under. */
  function PlanOf(w: World, st: State, s: Ip): nat {
    if s in st.peers then st.peers[s].plan else w.defaultPlan
  }

  lemma PlanStep(w: World, st: State, op: Op, s: Ip)
    requires st.Valid() && op.Valid()
    ensures PlanOf(w, Step(w, st, op), s) == if op.Declare? && op.peer == s then op.plan else PlanOf(w, st, s)
  {
    hide Observe, PeerState.Valid, Fitted, Detectors.New, Detectors.Detector.Recalibrated, Detectors.FromSnapshot, CallFed, CallMade,
         OutcomeFed, OutcomeHeard, Claims;
    FittedIsValid(st);
    DefaultsAreValid(w.num);
    if op.Receive? {
      PacketKeepsPlan(w, st, op, s);
    }
  }

  lemma PacketKeepsPlan(w: World, st: State, op: Op, s: Ip)
    requires st.Valid() && op.Receive? && op.Valid()
    ensures PlanOf(w, Step(w, st, op), s) == PlanOf(w, st, s)
  {
    hide Step, PeerState.Valid, Detectors.New, CallFed, CallMade, OutcomeFed, OutcomeHeard, Claims;
    StepKeepsValid(w, st, op);
    SourceEffect(w, st, op, s);
  }

  /** In every run the calls of a source are read under the dial plan last declared for it, and under
      the default plan as long as none was; restores and recalibrations do not touch it. */
  lemma {:induction false} PlansAreDeclared(w: World, mode: Mode, ops: seq<Op>, n: nat, s: Ip)
    requires n <= |ops| && AllValid(ops) && Initial(w, mode).Valid()
    ensures PlanOf(w, Run(w, Initial(w, mode), ops, n), s) == LatestPlan(w, ops, n, s)
  {
    hide Step, Detectors.New;
    if n > 0 {
      PlansAreDeclared(w, mode, ops, n - 1, s);
      RunStep(w, Initial(w, mode), ops, n - 1);
      PlanStep(w, Run(w, Initial(w, mode), ops, n - 1), ops[n - 1], s);
    }
  }

  /** The mode last set. */
  function LatestMode(mode: Mode, ops: seq<Op>, n: nat): Mode
    requires n <= |ops|
  {
    if n == 0 then mode else if ops[n - 1].SetMode? then ops[n - 1].mode else LatestMode(mode, ops, n - 1)
  }

  /** In every run the mode is the one last set. */
  lemma {:induction false} ModeIsSet(w: World, mode: Mode, ops: seq<Op>, n: nat)
    requires n <= |ops| && AllValid(ops) && Initial(w, mode).Valid()
    ensures Run(w, Initial(w, mode), ops, n).mode == LatestMode(mode, ops, n)
  {
    hide Observe, Fitted, Detectors.Detector.Recalibrated, PeerState.Valid;
    if n > 0 {
      ModeIsSet(w, mode, ops, n - 1);
      if ops[n - 1].Receive? {
        PacketEffect(w, Run(w, Initial(w, mode), ops, n - 1), ops[n - 1], ops[n - 1].p.src);
      } else {
        AdministrationSetsMode(w, Run(w, Initial(w, mode), ops, n - 1), ops[n - 1]);
      }
    }
  }

  lemma AdministrationSetsMode(w: World, st: State, op: Op)
    requires st.Valid() && op.Valid() && !op.Receive?
    ensures Step(w, st, op).mode == if op.SetMode? then op.mode else st.mode
  {
    hide Fitted, Detectors.Detector.Recalibrated, PeerState.Valid, Detectors.New, Detectors.FromSnapshot;
  }
}
