/** What reaches a source: every international call it places and every final answer to one,
    judged with what was new about that very call, and every credential it presents. */
module EngineFeeding {
  import opened Numerics
  import opened EngineModel
  import opened EngineRuns
  import opened EngineEffects
  import EngineAuth
  import CompletionArm
  import Detectors
  import Pending
  import SlidingCounts

  /** A clean INVITE the source's dial plan makes an international call, while the source has an
      entry or room for one and its credential, if any, does not cross the attempt threshold:
      the detector observes the call, the source is marked changed, and the call is remembered
      for its answer with what was new about it. */
  lemma CallIsObserved(w: World, st: State, op: Op, call: Detectors.Call)
    requires st.Valid() && op.Receive? && Heeded(st, op, op.p.src)
    requires PeerOf(w, st, op.p.src).Valid() && !Abuses(PeerOf(w, st, op.p.src), op.p.payload.request, op.p.at)
    requires Dialled(w, PeerOf(w, st, op.p.src).plan, op.p.payload.request) == Some(call)
    ensures PeerOf(w, st, op.p.src).anomaly.numbers.Valid() && op.p.src in Step(w, st, op).peers
    ensures var ps, q, req := PeerOf(w, st, op.p.src), Step(w, st, op).peers[op.p.src], op.p.payload.request;
            var (d, v) := ps.anomaly.Observe(w.num, call, op.p.at);
            && q.anomaly == d && q.dirty
            && q.pendingIntl == (if req.key.None? then ps.pendingIntl
                                 else Pending.Remembered(ps.pendingIntl, CallEntry(req.key.value, op.p.Responder(), v, op.p.at)))
  {
    hide PeerState.Valid, AskedTables, AnsweredTables, OutcomeFed, OutcomeHeard, Claims, Abuses, NewPeer, Asked, Answered,
         Pending.Remembered, Detectors.Detector.Called, Detectors.Detector.Fused;
    SourceEffect(w, st, op, op.p.src);
    NumbersAreValid(PeerOf(w, st, op.p.src));
    InvitesDoNotScan(PeerOf(w, st, op.p.src), op.p.payload.request, op.p.at);
  }

  lemma InvitesDoNotScan(ps: PeerState, req: Request, at: nat)
    requires ps.Valid()
    ensures req.kind == Invite ==> !Scans(ps, req, at)
  {
  }

  /** A final answer that is an outcome, to a call of its recipient still waiting for it, reaches
      the detector with the novelty recorded for that call, whatever else the answer means, and
      the call waits no longer. */
  lemma OutcomeIsObserved(w: World, st: State, op: Op, entry: Pending.Entry, outcome: CompletionArm.CallOutcome)
    requires st.Valid() && op.Valid() && op.Receive? && Heard(st, op, op.p.dst) && w.behavioural
    requires CompletionArm.FromStatus(op.p.payload.response.status) == Some(outcome)
    requires Pending.Claimed(st.peers[op.p.dst].pendingIntl, op.p.payload.response.key.value, op.p.src).0 == Some(entry)
    ensures op.p.dst in Step(w, st, op).peers
    ensures var ps, q := st.peers[op.p.dst], Step(w, st, op).peers[op.p.dst];
            && q.anomaly == ps.anomaly.ObserveCompletion(w.num, outcome, entry.novel, op.p.at).0 && q.dirty
            && q.pendingIntl == Pending.Claimed(ps.pendingIntl, op.p.payload.response.key.value, op.p.src).1
            && forall e :: e in q.pendingIntl ==> e.key != op.p.payload.response.key.value
  {
    hide PeerState.Valid, AskedTables, CallFed, CallMade, NewPeer, Asked, Answered, Pending.Claimed,
         Detectors.Detector.ObserveCompletion;
    SourceEffect(w, st, op, op.p.dst);
    EngineAuth.TablesOf(w, st, op.p.dst);
    Pending.ClaimedLaws(st.peers[op.p.dst].pendingIntl, op.p.payload.response.key.value, op.p.src);
  }

  /** A clean credential of a source with an entry or room for one, unless its REGISTER is
      stopped as a scan, is remembered for its answer when it has a key, and counted; and it is
      called abuse exactly when the attempts inside the window then fill the ring. */
  lemma CredentialIsNoted(w: World, st: State, op: Op)
    requires st.Valid() && op.Receive? && Heeded(st, op, op.p.src) && op.p.payload.request.credentialed
    requires PeerOf(w, st, op.p.src).Valid() && !Scans(PeerOf(w, st, op.p.src), op.p.payload.request, op.p.at)
    ensures PeerOf(w, Step(w, st, op), op.p.src).Valid()
    ensures var ps, q, req := PeerOf(w, st, op.p.src), PeerOf(w, Step(w, st, op), op.p.src), op.p.payload.request;
            && q.pending == (if req.key.None? then ps.pending
                             else Pending.Remembered(ps.pending, CredentialEntry(req, req.key.value, op.p.Responder(), op.p.at)))
            && q.attempts == ps.attempts.Recorded(op.p.at)
            && (Observe(w, st, op.p).2.AuthAbuse? <==> |q.attempts.Live(op.p.at, AUTH_WINDOW_SECS)| >= AUTH_ATTEMPTS)
  {
    hide Step, Observe, PeerState.Valid, AnsweredTables, OutcomeFed, OutcomeHeard, Claims, NewPeer, CallFed, CallMade,
         Pending.Remembered, SlidingCounts.Ring.Recorded, SlidingCounts.Ring.Live, CalledFor, VerdictOn, Fails, Scans;
    SourceEffect(w, st, op, op.p.src);
    SubjectIsOneSide(w, st, op.p);
    SourceDecision(w, st, op, op.p.src, Observe(w, st, op.p).2);
  }
}
