/** What one packet does to one source, field by field, and the decision it brings: the facts
    every law of runs is built on. */
module EngineEffects {
  import opened Numerics
  import opened Calibration
  import opened EngineModel
  import opened EngineRuns
  import Detectors
  import CompletionArm
  import Pending
  import SlidingCounts
  import RegProbes
  import AuthFailures

  // ---- requests ----

  /** The registration is stopped as a scan: its probe leaves ten live extensions. */
  predicate Scans(ps: PeerState, req: Request, at: nat)
    requires ps.Valid()
  {
    req.kind == Register
    && |ps.probes.Recorded(req.aor, at, RegProbes.WINDOW_SECS).Live(at, RegProbes.WINDOW_SECS)| >= RegProbes.SCAN_EXTENSIONS
  }

  /** The credential is stopped as abuse: it fills the attempt ring inside the window. */
  predicate Abuses(ps: PeerState, req: Request, at: nat)
    requires ps.Valid()
  {
    req.credentialed && !Scans(ps, req, at) && |ps.attempts.Recorded(at).Live(at, AUTH_WINDOW_SECS)| >= AUTH_ATTEMPTS
  }

  /** The international call an INVITE is under a dial plan: to a known country that is not
      home. */
  function Dialled(w: World, plan: nat, req: Request): Option<Detectors.Call> {
    if req.kind != Invite || !w.behavioural || req.dialed.None? then None
    else match w.international(plan, req.dialed.value)
      case None => None
      case Some(intl) =>
        match w.country(intl.digits)
        case None => None
        case Some(country) => if country in w.home then None else Some(Detectors.Call(country, intl.prefix, intl.digits))
  }

  /** The call that reaches the detector. */
  function CallMade(w: World, ps: PeerState, req: Request, at: nat): Option<Detectors.Call>
    requires ps.Valid()
  {
    if Scans(ps, req, at) || Abuses(ps, req, at) then None else Dialled(w, ps.plan, req)
  }

  /** What the call leaves to be answered: with what was new about it. */
  function CallEntry(key: string, responder: Option<Ip>, v: Detectors.Verdict, at: nat): Pending.Entry {
    Pending.Entry(key, at, responder, None, CompletionArm.Novelty(v.firstRange, v.firstNumber))
  }

  /** The decision is exactly the one a verdict calls for in this mode: none unless it fires;
      announced while learning, reported while the source warms up, a block otherwise. */
  predicate CalledFor(v: Option<Detectors.Verdict>, mode: Mode, at: nat, d: Decision) {
    var learning := mode.Learning? && at < mode.until;
    && (d.WouldBlock? <==> v.Some? && v.value.fired && learning)
    && (d.Warming? <==> v.Some? && v.value.fired && !learning && v.value.warming)
    && (d.Block? <==> v.Some? && v.value.fired && !learning && !v.value.warming)
  }

  /** The tables and rings of the sender after a clean request. */
  predicate AskedTables(ps: PeerState, q: PeerState, responder: Option<Ip>, req: Request, at: nat)
    requires ps.Valid()
  {
    && q.plan == ps.plan && q.failures == ps.failures
    && q.probes == (if req.kind == Register then ps.probes.Recorded(req.aor, at, RegProbes.WINDOW_SECS) else ps.probes)
    && q.attempts == (if req.credentialed && !Scans(ps, req, at) then ps.attempts.Recorded(at) else ps.attempts)
    && q.pending == (if req.credentialed && !Scans(ps, req, at) && req.key.Some?
                     then Pending.Remembered(ps.pending, CredentialEntry(req, req.key.value, responder, at)) else ps.pending)
  }

  /** Its detector: untouched, or having observed the call, which is remembered. */
  predicate CallFed(w: World, ps: PeerState, q: PeerState, responder: Option<Ip>, req: Request, call: Option<Detectors.Call>, at: nat)
    requires ps.Valid()
  {
    match call
    case None => q.anomaly == ps.anomaly && q.pendingIntl == ps.pendingIntl && q.dirty == ps.dirty
    case Some(c) =>
      NumbersAreValid(ps);
      var (d, v) := ps.anomaly.Observe(w.num, c, at);
      && q.anomaly == d && q.dirty
      && q.pendingIntl == (if req.key.None? then ps.pendingIntl
                           else Pending.Remembered(ps.pendingIntl, CallEntry(req.key.value, responder, v, at)))
  }

  /** The verdict the call gets. */
  function CallVerdict(w: World, ps: PeerState, call: Option<Detectors.Call>, at: nat): Option<Detectors.Verdict>
    requires ps.Valid()
  {
    if call.None? then None
    else
      NumbersAreValid(ps);
      Some(ps.anomaly.Observe(w.num, call.value, at).1)
  }

  lemma CredentialsEffect(c: Case, responder: Option<Ip>, req: Request, at: nat)
    requires c.ps.Valid()
    ensures var (after, d) := Credentials(c, responder, req, at);
            && AskedTables(c.ps, after.ps, responder, req, at)
            && after.ps.anomaly == c.ps.anomaly && after.ps.pendingIntl == c.ps.pendingIntl && after.ps.dirty == c.ps.dirty
            && (d.Some? <==> Scans(c.ps, req, at) || Abuses(c.ps, req, at))
            && (d.Some? ==> if Scans(c.ps, req, at) then d.value.RegScan? else d.value.AuthAbuse?)
  {
    hide Pending.Remembered, RegProbes.Ring.Recorded, RegProbes.Ring.Live, SlidingCounts.Ring.Recorded,
         SlidingCounts.Ring.Live, Detectors.Detector.Valid, Pending.Valid;
  }

  lemma EnforcedIsCalledFor(c: CallStats, mode: Mode, v: Detectors.Verdict, country: Option<nat>, at: nat)
    requires v.fired
    ensures var d := Enforced(c, mode, v, country, at).1;
            CalledFor(Some(v), mode, at, d) && !d.RegScan? && !d.AuthAbuse? && !d.AuthFailure?
  {
  }

  lemma DecideEffect(w: World, c: Case, mode: Mode, responder: Option<Ip>, req: Request, call: Detectors.Call, at: nat)
    requires c.ps.Valid()
    ensures var (after, d) := Decide(w, c, mode, responder, req, call, at);
            && after.ps.(anomaly := c.ps.anomaly, pendingIntl := c.ps.pendingIntl, dirty := c.ps.dirty) == c.ps
            && CallFed(w, c.ps, after.ps, responder, req, Some(call), at)
            && CalledFor(CallVerdict(w, c.ps, Some(call), at), mode, at, d)
            && !d.RegScan? && !d.AuthAbuse? && !d.AuthFailure?
  {
    hide Pending.Remembered, Detectors.Detector.Called, Detectors.Detector.Fused, Enforced, PeerState.Valid;
    NumbersAreValid(c.ps);
    var v := c.ps.anomaly.Observe(w.num, call, at).1;
    if v.fired {
      EnforcedIsCalledFor(c.calls.(novel := c.calls.novel + (if v.firstTime then 1 else 0),
                                   prefixNovel := c.calls.prefixNovel + (if v.firstPrefix then 1 else 0),
                                   rangeNovel := c.calls.rangeNovel + (if v.firstRange then 1 else 0)),
                          mode, v, Some(call.country), at);
    }
  }

  lemma InvitedEffect(w: World, c: Case, mode: Mode, responder: Option<Ip>, req: Request, at: nat)
    requires c.ps.Valid()
    ensures var (after, d) := Invited(w, c, mode, responder, req, at);
            && after.ps.(anomaly := c.ps.anomaly, pendingIntl := c.ps.pendingIntl, dirty := c.ps.dirty) == c.ps
            && CallFed(w, c.ps, after.ps, responder, req, Dialled(w, c.ps.plan, req), at)
            && CalledFor(CallVerdict(w, c.ps, Dialled(w, c.ps.plan, req), at), mode, at, d)
            && !d.RegScan? && !d.AuthAbuse? && !d.AuthFailure?
  {
    hide Decide, PeerState.Valid, Detectors.Detector.Observe, Pending.Remembered;
    var call := Dialled(w, c.ps.plan, req);
    if call.Some? {
      var abroad := c.(calls := c.calls.(invites := c.calls.invites + 1, international := c.calls.international + 1));
      DecideEffect(w, abroad, mode, responder, req, call.value, at);
    }
  }

  /** Everything a clean request does to its sender, and the decision it brings. */
  lemma AskedEffect(w: World, c: Case, mode: Mode, responder: Option<Ip>, req: Request, at: nat)
    requires c.ps.Valid()
    ensures var (after, d) := Asked(w, c, mode, responder, req, at);
            && AskedTables(c.ps, after.ps, responder, req, at)
            && CallFed(w, c.ps, after.ps, responder, req, CallMade(w, c.ps, req, at), at)
            && CalledFor(CallVerdict(w, c.ps, CallMade(w, c.ps, req, at), at), mode, at, d)
            && (d.RegScan? <==> Scans(c.ps, req, at)) && (d.AuthAbuse? <==> Abuses(c.ps, req, at)) && !d.AuthFailure?
  {
    hide Credentials, Invited, PeerState.Valid, Scans, Abuses, Dialled, Detectors.Detector.Observe, Pending.Remembered,
         RegProbes.Ring.Recorded, SlidingCounts.Ring.Recorded;
    CredentialsEffect(c, responder, req, at);
    CredentialsKeepValid(c, responder, req, at);
    InvitedEffect(w, Credentials(c, responder, req, at).0, mode, responder, req, at);
    NotBoth(c.ps, req, at);
  }

  lemma NotBoth(ps: PeerState, req: Request, at: nat)
    requires ps.Valid()
    ensures !(Scans(ps, req, at) && Abuses(ps, req, at))
  {
    hide Scans;
  }

  // ---- responses ----

  /** The outcome of a call that reaches the detector, with what was new about that call. */
  function OutcomeHeard(w: World, intl: Option<Pending.Entry>, r: Response)
    : Option<(CompletionArm.CallOutcome, CompletionArm.Novelty)>
  {
    if intl.None? || !w.behavioural || CompletionArm.FromStatus(r.status).None? then None
    else Some((CompletionArm.FromStatus(r.status).value, intl.value.novel))
  }

  /** The tables and rings of the party answered. */
  predicate AnsweredTables(ps: PeerState, q: PeerState, key: string, src: Ip, r: Response, at: nat)
    requires ps.Valid()
  {
    var (auth, intl, claimed) := Claims(ps, key, src, r);
    && q.plan == ps.plan && q.attempts == ps.attempts
    && q.pending == claimed.pending && q.pendingIntl == claimed.pendingIntl
    && q.failures == (if auth.None? then ps.failures
                      else if r.IsSuccess() then ps.failures.Forgiven(AccountOf(auth.value))
                      else if r.IsChallenge() then ps.failures.Recorded(AccountOf(auth.value), at)
                      else ps.failures)
    && q.probes == (if auth.Some? && r.IsSuccess() && r.cseqRegister && auth.value.aor.Some?
                    then ps.probes.Removed(auth.value.aor.value) else ps.probes)
  }

  /** Its detector: untouched, or having observed the outcome. */
  predicate OutcomeFed(w: World, ps: PeerState, q: PeerState,
                       heard: Option<(CompletionArm.CallOutcome, CompletionArm.Novelty)>, at: nat) {
    match heard
    case None => q.anomaly == ps.anomaly && q.dirty == ps.dirty
    case Some(o) => q.anomaly == ps.anomaly.ObserveCompletion(w.num, o.0, o.1, at).0 && q.dirty
  }

  function OutcomeVerdict(w: World, ps: PeerState, heard: Option<(CompletionArm.CallOutcome, CompletionArm.Novelty)>,
                          at: nat): Option<Detectors.Verdict> {
    match heard
    case None => None
    case Some(o) => Some(ps.anomaly.ObserveCompletion(w.num, o.0, o.1, at).1)
  }

  /** The answer rejects a claimed credential whose account then fills the failure ring. */
  predicate Fails(ps: PeerState, q: PeerState, key: string, src: Ip, r: Response, at: nat)
    requires q.Valid()
  {
    var auth := Claims(ps, key, src, r).0;
    auth.Some? && r.IsChallenge()
    && |q.failures.Live(AccountOf(auth.value), at, AuthFailures.WINDOW_SECS)| >= AuthFailures.SIZE
  }

  lemma AuthAnsweredEffect(c: Case, e: Pending.Entry, r: Response, at: nat)
    requires c.ps.Valid()
    ensures var (after, d) := AuthAnswered(c, e, r, at); var q := after.ps;
            && q.(failures := c.ps.failures, probes := c.ps.probes) == c.ps
            && q.failures == (if r.IsSuccess() then c.ps.failures.Forgiven(AccountOf(e))
                              else if r.IsChallenge() then c.ps.failures.Recorded(AccountOf(e), at) else c.ps.failures)
            && q.probes == (if r.IsSuccess() && r.cseqRegister && e.aor.Some? then c.ps.probes.Removed(e.aor.value) else c.ps.probes)
            && (q.Valid() ==> (d.Some? <==> r.IsChallenge() && |q.failures.Live(AccountOf(e), at, AuthFailures.WINDOW_SECS)| >= AuthFailures.SIZE))
            && (d.Some? ==> d.value.AuthFailure?)
  {
    hide Detectors.Detector.Valid, Pending.Valid, AuthFailures.Ring.Recorded, AuthFailures.Ring.Forgiven,
         AuthFailures.Ring.Live, RegProbes.Ring.Removed;
  }

  lemma CallAnsweredEffect(w: World, c: Case, mode: Mode, e: Pending.Entry, r: Response, at: nat)
    ensures var (after, d) := CallAnswered(w, c, mode, e, r.status, at);
            && after.ps.(anomaly := c.ps.anomaly, dirty := c.ps.dirty) == c.ps
            && OutcomeFed(w, c.ps, after.ps, OutcomeHeard(w, Some(e), r), at)
            && CalledFor(OutcomeVerdict(w, c.ps, OutcomeHeard(w, Some(e), r), at), mode, at, d)
            && !d.RegScan? && !d.AuthAbuse? && !d.AuthFailure?
  {
    hide Detectors.Detector.ObserveCompletion, Enforced;
    var heard := OutcomeHeard(w, Some(e), r);
    if heard.Some? {
      var v := c.ps.anomaly.ObserveCompletion(w.num, heard.value.0, heard.value.1, at).1;
      if v.fired {
        EnforcedIsCalledFor(CountOutcome(c.calls, heard.value.0), mode, v, None, at);
      }
    }
  }

  /** Everything a response does to the party it answers, and the decision it brings. A
      challenge is no call outcome, so an authentication verdict never hides one. */
  lemma AnsweredEffect(w: World, c: Case, mode: Mode, key: string, src: Ip, r: Response, at: nat)
    requires c.ps.Valid()
    ensures var (after, d) := Answered(w, c, mode, key, src, r, at);
            var heard := OutcomeHeard(w, Claims(c.ps, key, src, r).1, r);
            && after.ps.Valid()
            && AnsweredTables(c.ps, after.ps, key, src, r, at)
            && OutcomeFed(w, c.ps, after.ps, heard, at)
            && CalledFor(OutcomeVerdict(w, c.ps, heard, at), mode, at, d)
            && (d.AuthFailure? <==> Fails(c.ps, after.ps, key, src, r, at)) && !d.RegScan? && !d.AuthAbuse?
  {
    hide AuthAnswered, CallAnswered, PeerState.Valid, Pending.Claimed, Detectors.Detector.ObserveCompletion,
         AuthFailures.Ring.Recorded, AuthFailures.Ring.Forgiven, AuthFailures.Ring.Live, RegProbes.Ring.Removed;
    AnsweredKeepsValid(w, c, mode, key, src, r, at);
    var (auth, intl, ps) := Claims(c.ps, key, src, r);
    ClaimsKeepValid(c.ps, key, src, r);
    var claimed := c.(ps := ps);
    if auth.Some? {
      AuthAnsweredKeepsValid(claimed, auth.value, r, at);
      AuthAnsweredEffect(claimed, auth.value, r, at);
    }
    var judged := if auth.Some? then AuthAnswered(claimed, auth.value, r, at).0 else claimed;
    if intl.Some? {
      CallAnsweredEffect(w, judged, mode, intl.value, r, at);
    }
  }

  // ---- one operation and one source ----

  /** The operation is a clean request of `s`, which has an entry or room for one. */
  predicate Heeded(st: State, op: Op, s: Ip) {
    op.Receive? && op.p.src == s && op.p.payload.Asking? && op.p.payload.request.perimeter == Clean && st.HasRoomFor(s)
  }

  /** The operation is a response to `s`, which has an entry, under a transaction's key. */
  predicate Heard(st: State, op: Op, s: Ip) {
    op.Receive? && op.p.dst == s && op.p.payload.Answering? && op.p.payload.response.key.Some? && s in st.peers
  }

  /** The source's state after a packet. */
  function PeerAfter(w: World, st: State, op: Op, s: Ip): PeerState
    requires st.Valid() && op.Receive?
  {
    PeerOfIsValid(w, st, s);
    var p := op.p;
    if Heeded(st, op, s) then
      Asked(w, Case(PeerOf(w, st, s), st.stats.auth, st.stats.calls), st.mode, p.Responder(), p.payload.request, p.at).0.ps
    else if Heard(st, op, s) then
      var r := p.payload.response;
      Answered(w, Case(st.peers[s], st.stats.auth, st.stats.calls), st.mode, r.key.value, p.src, r, p.at).0.ps
    else PeerOf(w, st, s)
  }

  lemma AuthIgnoresCounters(c: Case, a: AuthStats, e: Pending.Entry, r: Response, at: nat)
    requires c.ps.Valid()
    ensures var (x, d), (y, d') := AuthAnswered(c, e, r, at), AuthAnswered(c.(auth := a), e, r, at);
            x.(auth := y.auth) == y && d == d' && x.calls == c.calls
  {
    hide PeerState.Valid, AuthFailures.Ring.Recorded, AuthFailures.Ring.Forgiven, AuthFailures.Ring.Live, RegProbes.Ring.Removed;
  }

  /** What an answer does to a source does not depend on the counters. */
  lemma CountersDoNotMatter(w: World, ps: PeerState, a: AuthStats, b: AuthStats, calls: CallStats, mode: Mode, key: string,
                            src: Ip, r: Response, at: nat)
    requires ps.Valid()
    ensures Answered(w, Case(ps, a, calls), mode, key, src, r, at).0.ps == Answered(w, Case(ps, b, calls), mode, key, src, r, at).0.ps
    ensures Answered(w, Case(ps, a, calls), mode, key, src, r, at).1 == Answered(w, Case(ps, b, calls), mode, key, src, r, at).1
  {
    hide PeerState.Valid, Claims, AuthAnswered, CallAnswered;
    ClaimsKeepValid(ps, key, src, r);
    var (auth, intl, claimed) := Claims(ps, key, src, r);
    var x, y := Case(claimed, a, calls), Case(claimed, b, calls);
    if auth.Some? {
      AuthIgnoresCounters(x, b, auth.value, r, at);
      x, y := AuthAnswered(x, auth.value, r, at).0, AuthAnswered(y, auth.value, r, at).0;
    }
    if intl.Some? {
      CallsLeaveAuth(w, x, mode, intl.value, r.status, at, y.auth);
    }
  }

  lemma IdleRequest(w: World, c: Case, mode: Mode, responder: Option<Ip>, req: Request, at: nat)
    requires c.ps.Valid() && !Enters(w, req)
    ensures Asked(w, c, mode, responder, req, at).0.ps == c.ps
  {
  }

  /** One packet moves one source exactly so, and never the calibration or the mode. */
  lemma PacketEffect(w: World, st: State, op: Op, s: Ip)
    requires st.Valid() && op.Receive?
    ensures var after := Step(w, st, op);
            after.params == st.params && after.mode == st.mode && PeerOf(w, after, s) == PeerAfter(w, st, op, s)
  {
    hide Asked, Answered, PeerState.Valid, NewPeer;
    PeerOfIsValid(w, st, s);
    PeerOfIsValid(w, st, op.p.src);
    match op.p.payload
    case Asking(req) =>
      if !Enters(w, req) {
        IdleRequest(w, Case(PeerOf(w, st, op.p.src), st.stats.auth, st.stats.calls), st.mode, op.p.Responder(), req, op.p.at);
      }
    case Answering(r) =>
      if r.key.Some? && op.p.dst in st.peers {
        var a := st.stats.auth;
        CountersDoNotMatter(w, st.peers[op.p.dst], a.(challenges := a.challenges + 1), a, st.stats.calls, st.mode, r.key.value,
                            op.p.src, r, op.p.at);
      }
    case _ =>
  }

  /** The decision a packet brings, on the source it is about. */
  lemma PacketDecision(w: World, st: State, op: Op, s: Ip)
    requires st.Valid() && op.Receive? && Observe(w, st, op.p).1 == s
    ensures PeerOf(w, st, s).Valid()
    ensures var d := Observe(w, st, op.p).2;
            if Heeded(st, op, s) then
              d == Asked(w, Case(PeerOf(w, st, s), st.stats.auth, st.stats.calls), st.mode, op.p.Responder(), op.p.payload.request, op.p.at).1
            else if Heard(st, op, s) then
              var r := op.p.payload.response;
              d == Answered(w, Case(st.peers[s], st.stats.auth, st.stats.calls), st.mode, r.key.value, op.p.src, r, op.p.at).1
            else d == OutOfScope || d.Condemned?
  {
    hide Asked, Answered, PeerState.Valid, NewPeer;
    PeerOfIsValid(w, st, s);
    match op.p.payload
    case Answering(r) =>
      if r.key.Some? && op.p.dst in st.peers {
        var a := st.stats.auth;
        CountersDoNotMatter(w, st.peers[op.p.dst], a.(challenges := a.challenges + 1), a, st.stats.calls, st.mode, r.key.value,
                            op.p.src, r, op.p.at);
      }
    case _ =>
  }

  /** Administration leaves every source's tables and rings alone. */
  lemma AdministrationEffect(w: World, st: State, op: Op, s: Ip)
    requires st.Valid() && op.Valid() && !op.Receive? && s in Step(w, st, op).peers
    ensures var q := Step(w, st, op).peers[s];
            if s in st.peers then
              var ps := st.peers[s];
              && q.failures == ps.failures && q.pending == ps.pending && q.pendingIntl == ps.pendingIntl && q.probes == ps.probes
              && q.attempts == ps.attempts
            else && q.failures == AuthFailures.Empty() && q.pending == [] && q.pendingIntl == [] && q.probes == RegProbes.Empty()
                 && q.attempts == SlidingCounts.Empty(AUTH_ATTEMPTS)
  {
    hide Fitted, PeerState.Valid, Detectors.Detector.Recalibrated, Detectors.New, Detectors.FromSnapshot;
    FittedIsValid(st);
    DefaultsAreValid(w.num);
    if s in st.peers {
      NumbersAreValid(st.peers[s]);
    }
  }

  /** Everything one packet does to one source. */
  lemma SourceEffect(w: World, st: State, op: Op, s: Ip)
    requires st.Valid() && op.Receive?
    ensures var ps, q, p := PeerOf(w, st, s), PeerOf(w, Step(w, st, op), s), op.p;
            && ps.Valid() && q.Valid()
            && (Heeded(st, op, s) ==> && AskedTables(ps, q, p.Responder(), p.payload.request, p.at)
                                      && CallFed(w, ps, q, p.Responder(), p.payload.request, CallMade(w, ps, p.payload.request, p.at), p.at))
            && (Heard(st, op, s) ==> var r := p.payload.response;
                                     && AnsweredTables(ps, q, r.key.value, p.src, r, p.at)
                                     && OutcomeFed(w, ps, q, OutcomeHeard(w, Claims(ps, r.key.value, p.src, r).1, r), p.at))
            && (!Heeded(st, op, s) && !Heard(st, op, s) ==> q == ps)
  {
    hide Asked, Answered, Step, PeerState.Valid, AskedTables, CallFed, CallMade, AnsweredTables, OutcomeFed, OutcomeHeard, NewPeer;
    PeerOfIsValid(w, st, s);
    PacketEffect(w, st, op, s);
    var c, p := Case(PeerOf(w, st, s), st.stats.auth, st.stats.calls), op.p;
    if Heeded(st, op, s) {
      AskedKeepsValid(w, c, st.mode, p.Responder(), p.payload.request, p.at);
      AskedEffect(w, c, st.mode, p.Responder(), p.payload.request, p.at);
    } else if Heard(st, op, s) {
      AnsweredEffect(w, c, st.mode, p.payload.response.key.value, p.src, p.payload.response, p.at);
    }
  }

  /** The verdict of the source's detector on what a packet means to it. */
  function VerdictOn(w: World, st: State, op: Op, s: Ip): Option<Detectors.Verdict>
    requires st.Valid() && op.Receive?
  {
    PeerOfIsValid(w, st, s);
    var ps, p := PeerOf(w, st, s), op.p;
    if Heeded(st, op, s) then CallVerdict(w, ps, CallMade(w, ps, p.payload.request, p.at), p.at)
    else if Heard(st, op, s) then
      var r := p.payload.response;
      OutcomeVerdict(w, ps, OutcomeHeard(w, Claims(ps, r.key.value, p.src, r).1, r), p.at)
    else None
  }

  /** Every decision but the perimeter's, exactly: a scan, abuse and an authentication failure
      as the rings of the source say, a firing decision as its detector and the mode say. */
  lemma SourceDecision(w: World, st: State, op: Op, s: Ip, d: Decision)
    requires st.Valid() && op.Receive? && Observe(w, st, op.p).1 == s && Observe(w, st, op.p).2 == d
    ensures PeerOf(w, st, s).Valid() && PeerOf(w, Step(w, st, op), s).Valid()
    ensures var ps, q, p := PeerOf(w, st, s), PeerOf(w, Step(w, st, op), s), op.p;
            && (d.RegScan? <==> Heeded(st, op, s) && Scans(ps, p.payload.request, p.at))
            && (d.AuthAbuse? <==> Heeded(st, op, s) && Abuses(ps, p.payload.request, p.at))
            && (d.AuthFailure? <==> Heard(st, op, s) && Fails(ps, q, p.payload.response.key.value, p.src, p.payload.response, p.at))
    ensures CalledFor(VerdictOn(w, st, op, s), st.mode, op.p.at, d)
  {
    hide Asked, Answered, Step, Observe, PeerState.Valid, AskedTables, CallFed, CallMade, AnsweredTables, OutcomeFed,
         OutcomeHeard, NewPeer, Scans, Abuses, Fails;
    PeerOfIsValid(w, st, s);
    PacketEffect(w, st, op, s);
    PacketDecision(w, st, op, s);
    SubjectIsOneSide(w, st, op.p);
    var c, p := Case(PeerOf(w, st, s), st.stats.auth, st.stats.calls), op.p;
    if Heeded(st, op, s) {
      AskedKeepsValid(w, c, st.mode, p.Responder(), p.payload.request, p.at);
      AskedEffect(w, c, st.mode, p.Responder(), p.payload.request, p.at);
    } else if Heard(st, op, s) {
      AnsweredEffect(w, c, st.mode, p.payload.response.key.value, p.src, p.payload.response, p.at);
    }
  }

  lemma SubjectIsOneSide(w: World, st: State, p: Packet)
    requires st.Valid()
    ensures Observe(w, st, p).1 == if p.payload.Answering? then p.dst else p.src
  {
  }
}
