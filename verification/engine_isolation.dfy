/** The perimeter cannot poison the baseline: condemned requests leave no trace but their own
    counters. */
module EngineIsolation {
  import opened Numerics
  import opened Calibration
  import opened EngineModel
  import opened EngineRuns
  import Detectors

  /** The state with other request counters. */
  function Wired(st: State, wire: WireStats): State {
    st.(stats := st.stats.(wire := wire))
  }

  /** Two states that differ at most in how many requests were seen and condemned. */
  predicate Alike(x: State, y: State) {
    Wired(x, y.stats.wire) == y
  }

  /** A request the perimeter condemns. */
  predicate Condemnable(op: Op) {
    op.Receive? && op.p.payload.Asking? && op.p.payload.request.perimeter != Clean
  }

  /** A condemned request changes nothing but request counters. */
  lemma CondemnedLeavesNoTrace(w: World, st: State, op: Op)
    requires st.Valid() && Condemnable(op)
    ensures Alike(Step(w, st, op), st)
  {
  }

  lemma RequestIgnoresWire(w: World, st: State, peer: Ip, responder: Option<Ip>, req: Request, at: nat, wire: WireStats)
    requires st.Valid()
    ensures Wired(st, wire).Valid()
    ensures var (x, d), (y, d') := ObserveRequest(w, st, peer, responder, req, at), ObserveRequest(w, Wired(st, wire), peer, responder, req, at);
            Alike(x, y) && d == d'
  {
    hide Asked, PeerState.Valid, NewPeer, Enters;
  }

  lemma ResponseIgnoresWire(w: World, st: State, peer: Ip, src: Ip, r: Response, at: nat, wire: WireStats)
    requires st.Valid()
    ensures Wired(st, wire).Valid()
    ensures var (x, d), (y, d') := ObserveResponse(w, st, peer, src, r, at), ObserveResponse(w, Wired(st, wire), peer, src, r, at);
            Alike(x, y) && d == d'
  {
    hide Answered, Registers, PeerState.Valid;
  }

  /** One packet means the same to states that differ only in request counters. */
  lemma ObserveIgnoresWire(w: World, st: State, p: Packet, wire: WireStats)
    requires st.Valid()
    ensures Wired(st, wire).Valid()
    ensures var (x, who, decision) := Observe(w, st, p);
            var (y, who', decision') := Observe(w, Wired(st, wire), p);
            Alike(x, y) && who == who' && decision == decision'
  {
    hide ObserveRequest, ObserveResponse, PeerState.Valid;
    var s := st.stats;
    match p.payload
    case Answering(r) =>
      var noted := st.(stats := s.(wire := s.wire.Seen(), heard := s.heard.(responses := s.heard.responses + 1)));
      ResponseIgnoresWire(w, noted, p.dst, p.src, r, p.at, wire.Seen());
    case Asking(req) =>
      var noted := st.(stats := s.(wire := s.wire.Seen().(sipParsed := s.wire.sipParsed + 1)));
      RequestIgnoresWire(w, noted, p.src, p.Responder(), req, p.at, wire.Seen().(sipParsed := wire.sipParsed + 1));
    case _ =>
  }

  lemma StepIgnoresWire(w: World, st: State, op: Op, wire: WireStats)
    requires st.Valid() && op.Valid()
    ensures Wired(st, wire).Valid()
    ensures Alike(Step(w, st, op), Step(w, Wired(st, wire), op))
  {
    hide Observe, PeerState.Valid, FitRates, FitCounters, Detectors.Detector.Recalibrated, Rates;
    match op
    case Receive(p) => ObserveIgnoresWire(w, st, p, wire);
    case Recalibrate => RecalibratedIgnoresWire(w, st, wire);
    case SetMode(mode) =>
    case Declare(peer, plan) => DefaultsAreValid(w.num);
    case Import(peer, row) =>
    case MarkClean =>
  }

  lemma RecalibratedIgnoresWire(w: World, st: State, wire: WireStats)
    requires st.Valid()
    ensures Wired(st, wire).Valid()
    ensures Recalibrated(w, Wired(st, wire)) == Wired(Recalibrated(w, st), wire)
  {
    hide PeerState.Valid, FitRates, FitCounters, Detectors.Detector.Recalibrated, Rates;
    FittedIsValid(st);
  }

  /** The first n operations without the condemned requests. */
  function Unpoisoned(ops: seq<Op>, n: nat): (kept: seq<Op>)
    requires n <= |ops|
    ensures AllValid(ops) ==> AllValid(kept)
  {
    if n == 0 then [] else Unpoisoned(ops, n - 1) + (if Condemnable(ops[n - 1]) then [] else [ops[n - 1]])
  }

  lemma {:induction false} RunOfPrefix(w: World, st: State, xs: seq<Op>, ys: seq<Op>, n: nat)
    requires n <= |xs| && AllValid(xs) && AllValid(xs + ys) && st.Valid()
    ensures Run(w, st, xs + ys, n) == Run(w, st, xs, n)
  {
    hide Step;
    if n > 0 {
      RunOfPrefix(w, st, xs, ys, n - 1);
    }
  }

  /** The run over the operations that are left. */
  ghost function CleanRun(w: World, st: State, ops: seq<Op>, n: nat): (r: State)
    requires n <= |ops| && AllValid(ops) && st.Valid()
    ensures r.Valid()
  {
    Run(w, st, Unpoisoned(ops, n), |Unpoisoned(ops, n)|)
  }

  lemma CleanStep(w: World, st: State, ops: seq<Op>, n: nat)
    requires 0 < n <= |ops| && AllValid(ops) && st.Valid()
    ensures CleanRun(w, st, ops, n)
         == (if Condemnable(ops[n - 1]) then CleanRun(w, st, ops, n - 1) else Step(w, CleanRun(w, st, ops, n - 1), ops[n - 1]))
  {
    hide Step;
    var before := Unpoisoned(ops, n - 1);
    if Condemnable(ops[n - 1]) {
      assert before + [] == before;
    } else {
      RunOfPrefix(w, st, before, [ops[n - 1]], |before|);
    }
  }

  lemma {:induction false} RunsStayAlike(w: World, st: State, ops: seq<Op>, n: nat)
    requires n <= |ops| && AllValid(ops) && st.Valid()
    ensures Alike(Run(w, st, ops, n), CleanRun(w, st, ops, n))
  {
    if n > 0 {
      hide Step, Condemnable, CleanRun;
      var x, y := Run(w, st, ops, n - 1), CleanRun(w, st, ops, n - 1);
      RunsStayAlike(w, st, ops, n - 1);
      CleanStep(w, st, ops, n);
      if Condemnable(ops[n - 1]) {
        CondemnedLeavesNoTrace(w, x, ops[n - 1]);
      } else {
        StepIgnoresWire(w, x, ops[n - 1], y.stats.wire);
      }
    } else {
      assert Unpoisoned(ops, 0) == [];
    }
  }

  /** Deleting every condemned request from any run leaves all source state, all known peers,
      the calibration, the mode and every other counter as they were, and every other packet
      gets the same decision about the same subject. */
  lemma CondemnedRequestsCannotPoison(w: World, st: State, ops: seq<Op>, n: nat)
    requires n <= |ops| && AllValid(ops) && st.Valid()
    ensures var x, y := Run(w, st, ops, n), CleanRun(w, st, ops, n);
            && x.peers == y.peers && x.known == y.known && x.params == y.params && x.mode == y.mode
            && x.stats.heard == y.stats.heard && x.stats.auth == y.stats.auth && x.stats.calls == y.stats.calls
    ensures n < |ops| && ops[n].Receive? && !Condemnable(ops[n]) ==>
              var (x, who, decision) := Observe(w, Run(w, st, ops, n), ops[n].p);
              var (y, who', decision') := Observe(w, CleanRun(w, st, ops, n), ops[n].p);
              who == who' && decision == decision'
  {
    hide Run, CleanRun, Observe;
    RunsStayAlike(w, st, ops, n);
    if n < |ops| && ops[n].Receive? {
      ObserveIgnoresWire(w, Run(w, st, ops, n), ops[n].p, CleanRun(w, st, ops, n).stats.wire);
    }
  }
}
