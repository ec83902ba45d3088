/** Whom the engine knows: registered peers, which only an accepted registration makes known,
    and how much it may hold about anybody. */
module EngineKnown {
  import opened Numerics
  import opened Calibration
  import opened EngineModel
  import opened EngineRuns
  import opened EngineEffects
  import EngineAuth
  import Detectors
  import Pending

  // ---- registered peers ----

  /** The operation is an answer accepting a registration of `s`: a success whose CSeq names
      REGISTER, claiming a waiting credential of `s` from the responder it was sent to. */
  predicate Registered(st: State, op: Op, s: Ip) {
    Heard(st, op, s) && Registers(st.peers[s], op.p.src, op.p.payload.response)
  }

  function KnownAfter(st: State, op: Op): map<Ip, nat> {
    if op.Receive? && Registered(st, op, op.p.dst) && (|st.known| < 50_000 || op.p.dst in st.known) then
      st.known[op.p.dst := op.p.at]
    else st.known
  }

  /** Nothing but an accepted registration, claimed from its responder, makes a source known. */
  lemma KnownStep(w: World, st: State, op: Op)
    requires st.Valid() && op.Valid()
    ensures Step(w, st, op).known == KnownAfter(st, op)
  {
    hide Asked, Answered, Claims, PeerState.Valid, NewPeer, Fitted, Detectors.Detector.Recalibrated, Detectors.FromSnapshot;
    if op.Recalibrate? {
      FittedIsValid(st);
    } else if op.Declare? {
      DefaultsAreValid(w.num);
    }
  }

  /** Operation i accepted a registration of `s`. */
  ghost predicate RegisteredAt(w: World, st: State, ops: seq<Op>, i: nat, s: Ip)
    requires i < |ops| && AllValid(ops) && st.Valid()
  {
    Registered(Run(w, st, ops, i), ops[i], s)
  }

  lemma RegistrationIsAnAnswer(st: State, op: Op, s: Ip)
    ensures Registered(st, op, s) ==> op.Receive? && op.p.payload.Answering? && op.p.dst == s
    ensures s in KnownAfter(st, op) ==> Registered(st, op, s) || (s in st.known && KnownAfter(st, op)[s] == st.known[s])
    ensures Registered(st, op, s) && s in KnownAfter(st, op) ==> KnownAfter(st, op)[s] == op.p.at
  {
    hide Registers;
  }

  lemma NobodyAtFirst(w: World, mode: Mode, ops: seq<Op>)
    requires AllValid(ops) && Initial(w, mode).Valid()
    ensures var st := Run(w, Initial(w, mode), ops, 0); |st.peers| == 0 && |st.known| == 0 && st.known == map[]
  {
  }

  lemma {:induction false} KnownWasRegistered(w: World, mode: Mode, ops: seq<Op>, n: nat, s: Ip) returns (i: nat)
    requires n <= |ops| && AllValid(ops) && Initial(w, mode).Valid()
    requires s in Run(w, Initial(w, mode), ops, n).known
    ensures i < n && RegisteredAt(w, Initial(w, mode), ops, i, s)
    ensures ops[i].Receive? && Run(w, Initial(w, mode), ops, n).known[s] == ops[i].p.at
    ensures forall j :: i < j < n ==> !RegisteredAt(w, Initial(w, mode), ops, j, s)
  {
    hide Run, Step, Registered, KnownAfter, Initial;
    if n == 0 {
      NobodyAtFirst(w, mode, ops);
      assert false;
    }
    var st := Run(w, Initial(w, mode), ops, n - 1);
    RunStep(w, Initial(w, mode), ops, n - 1);
    KnownStep(w, st, ops[n - 1]);
    RegistrationIsAnAnswer(st, ops[n - 1], s);
    if Registered(st, ops[n - 1], s) {
      i := n - 1;
    } else {
      i := KnownWasRegistered(w, mode, ops, n - 1, s);
    }
  }

  /** In every reachable state, a known peer is one whose registration was accepted: a credential
      it sent, answered by a success from the address it was sent to, at the instant recorded;
      and no later registration of it was accepted. What makes the answer a registration is its
      own CSeq alone. */
  lemma KnownPeersHaveRegistered(w: World, mode: Mode, ops: seq<Op>, n: nat, s: Ip) returns (asked: nat, answered: nat)
    requires n <= |ops| && AllValid(ops) && Initial(w, mode).Valid()
    requires s in Run(w, Initial(w, mode), ops, n).known
    ensures asked < answered < n && ops[asked].Receive? && ops[answered].Receive?
    ensures ops[asked].p.src == s && ops[asked].p.payload.Asking? && ops[asked].p.payload.request.credentialed
    ensures ops[answered].p.dst == s && ops[answered].p.payload.Answering?
    ensures ops[answered].p.payload.response.IsSuccess() && ops[answered].p.payload.response.cseqRegister
    ensures ops[answered].p.payload.response.key == ops[asked].p.payload.request.key
    ensures ops[asked].p.dst == Pending.UNSPECIFIED || ops[asked].p.dst == ops[answered].p.src
    ensures Run(w, Initial(w, mode), ops, n).known[s] == ops[answered].p.at
    ensures forall j :: answered < j < n ==> !RegisteredAt(w, Initial(w, mode), ops, j, s)
  {
    hide Run, Initial, Pending.Claimed, PeerState.Valid;
    answered := KnownWasRegistered(w, mode, ops, n, s);
    var st := Run(w, Initial(w, mode), ops, answered);
    var r := ops[answered].p.payload.response;
    var e := EngineAuth.ClaimedCredential(st, ops[answered], s).value;
    EngineAuth.TablesOf(w, st, s);
    Pending.ClaimedLaws(st.peers[s].pending, r.key.value, ops[answered].p.src);
    assert e in EngineAuth.PendingOf(st, s) && e.Awaits(r.key.value, ops[answered].p.src);
    asked := EngineAuth.WaitingWasSent(w, mode, ops, answered, s, e);
  }

  // ---- how much is held ----

  /** How many dial plans were declared. */
  function PlansDeclared(ops: seq<Op>, n: nat): nat
    requires n <= |ops|
  {
    if n == 0 then 0 else PlansDeclared(ops, n - 1) + (if ops[n - 1].Declare? then 1 else 0)
  }

  /** The sources are the same, or one more. */
  predicate Grows(st: State, after: State, ip: Ip) {
    after.peers.Keys == st.peers.Keys || after.peers.Keys == st.peers.Keys + {ip}
  }

  lemma FiledSources(st: State, ip: Ip, c: Case)
    ensures Filed(st, ip, c).peers.Keys == st.peers.Keys + {ip}
  {
  }

  lemma RequestSources(w: World, st: State, peer: Ip, responder: Option<Ip>, req: Request, at: nat)
    requires st.Valid()
    ensures Grows(st, ObserveRequest(w, st, peer, responder, req, at).0, peer)
    ensures !st.HasRoomFor(peer) ==> ObserveRequest(w, st, peer, responder, req, at).0.peers.Keys == st.peers.Keys
  {
    hide Asked, PeerState.Valid, NewPeer, Enters, PeerOf, Filed, State.HasRoomFor, TurnedAway;
    PeerOfIsValid(w, st, peer);
    FiledSources(st, peer, Asked(w, Case(PeerOf(w, st, peer), st.stats.auth, st.stats.calls), st.mode, responder, req, at).0);
  }

  lemma ResponseSources(w: World, st: State, peer: Ip, src: Ip, r: Response, at: nat)
    requires st.Valid()
    ensures ObserveResponse(w, st, peer, src, r, at).0.peers.Keys == st.peers.Keys
  {
    hide Answered, Registers, PeerState.Valid;
  }

  lemma PacketSources(w: World, st: State, p: Packet)
    requires st.Valid()
    ensures Grows(st, Observe(w, st, p).0, p.src)
    ensures !st.HasRoomFor(p.src) ==> Observe(w, st, p).0.peers.Keys == st.peers.Keys
  {
    hide ObserveRequest, ObserveResponse, PeerState.Valid;
    var s := st.stats;
    match p.payload
    case Answering(r) =>
      ResponseSources(w, st.(stats := s.(wire := s.wire.Seen(), heard := s.heard.(responses := s.heard.responses + 1))),
                      p.dst, p.src, r, p.at);
    case Asking(req) =>
      RequestSources(w, st.(stats := s.(wire := s.wire.Seen().(sipParsed := s.wire.sipParsed + 1))), p.src, p.Responder(), req, p.at);
    case _ =>
  }

  lemma AdministrationSources(w: World, st: State, op: Op, ip: Ip)
    requires st.Valid() && op.Valid() && !op.Receive? && (op.Declare? || op.Import? ==> op.peer == ip)
    ensures Grows(st, Step(w, st, op), ip)
    ensures !op.Declare? && !st.HasRoomFor(ip) ==> Step(w, st, op).peers.Keys == st.peers.Keys
  {
    hide PeerState.Valid, NewPeer, Fitted, Detectors.Detector.Recalibrated, Detectors.FromSnapshot;
    FittedIsValid(st);
    DefaultsAreValid(w.num);
  }

  lemma OneMore(before: set<Ip>, after: set<Ip>, ip: Ip)
    requires after == before || after == before + {ip}
    ensures |after| <= |before| + 1 && (ip in before ==> |after| == |before|)
  {
    if ip in before {
      assert before + {ip} == before;
    }
  }

  lemma SourcesGrow(w: World, st: State, op: Op, declared: nat)
    requires st.Valid() && op.Valid() && |st.peers| <= MAX_PEERS + declared
    ensures |Step(w, st, op).peers| <= MAX_PEERS + declared + (if op.Declare? then 1 else 0)
  {
    hide Step, PeerState.Valid, State.Valid, Observe;
    var after := Step(w, st, op);
    var ip := if op.Receive? then op.p.src else if op.Declare? || op.Import? then op.peer else 0;
    if op.Receive? {
      PacketIsItsStep(w, st, op);
      PacketSources(w, st, op.p);
    } else {
      AdministrationSources(w, st, op, ip);
    }
    assert |after.peers| == |after.peers.Keys| && |st.peers| == |st.peers.Keys|;
    OneMore(st.peers.Keys, after.peers.Keys, ip);
  }

  lemma PacketIsItsStep(w: World, st: State, op: Op)
    requires st.Valid() && op.Receive?
    ensures Step(w, st, op) == Observe(w, st, op.p).0
  {
    hide Observe;
  }

  lemma KnownGrows(w: World, st: State, op: Op)
    requires st.Valid() && op.Valid() && |st.known| <= MAX_KNOWN_PEERS
    ensures |Step(w, st, op).known| <= MAX_KNOWN_PEERS
  {
    hide Registered, Step, PeerState.Valid, State.Valid;
    KnownStep(w, st, op);
    if op.Receive? && op.p.dst in st.known {
      assert st.known[op.p.dst := op.p.at].Keys == st.known.Keys;
      assert |st.known[op.p.dst := op.p.at]| == |st.known.Keys| == |st.known|;
    }
  }

  lemma {:induction false} SourcesAreBounded(w: World, mode: Mode, ops: seq<Op>, n: nat)
    requires n <= |ops| && AllValid(ops) && Initial(w, mode).Valid()
    ensures |Run(w, Initial(w, mode), ops, n).peers| <= MAX_PEERS + PlansDeclared(ops, n)
    ensures |Run(w, Initial(w, mode), ops, n).known| <= MAX_KNOWN_PEERS
  {
    hide Run, Step, PeerState.Valid, State.Valid, Initial;
    if n == 0 {
      NobodyAtFirst(w, mode, ops);
    } else {
      SourcesAreBounded(w, mode, ops, n - 1);
      RunStep(w, Initial(w, mode), ops, n - 1);
      SourcesGrow(w, Run(w, Initial(w, mode), ops, n - 1), ops[n - 1], PlansDeclared(ops, n - 1));
      KnownGrows(w, Run(w, Initial(w, mode), ops, n - 1), ops[n - 1]);
    }
  }

  /** However many sources, accounts and transactions are invented: at most ten thousand sources
      beside those whose dial plan was declared, fifty thousand known peers, and thirty-two
      waiting transactions of each kind for a source. */
  lemma StateIsBounded(w: World, mode: Mode, ops: seq<Op>, n: nat)
    requires n <= |ops| && AllValid(ops) && Initial(w, mode).Valid()
    ensures var st := Run(w, Initial(w, mode), ops, n);
            && |st.peers| <= 10_000 + PlansDeclared(ops, n)
            && |st.known| <= 50_000
            && forall s :: s in st.peers ==>
                 |st.peers[s].pending| <= 32 && |st.peers[s].pendingIntl| <= 32
  {
    hide Run, PeerState.Valid, Initial;
    SourcesAreBounded(w, mode, ops, n);
    var st := Run(w, Initial(w, mode), ops, n);
    forall s | s in st.peers
      ensures |st.peers[s].pending| <= Pending.MAX_PENDING && |st.peers[s].pendingIntl| <= Pending.MAX_PENDING
    {
      EngineAuth.TablesOf(w, st, s);
      assert st.peers[s].pending == EngineAuth.PendingOf(st, s);
    }
  }
}
