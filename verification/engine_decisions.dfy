/** Every decision and every counter of one packet, exactly: what the perimeter, the rings, the dial
    plan, the country table and the detector of the source say, and nothing else. */
module EngineDecisions {
  import opened Numerics
  import opened EngineModel
  import opened EngineRuns
  import opened EngineEffects
  import Detectors
  import CompletionArm
  import RangeMemory
  import Pending
  import SlidingCounts
  import RegProbes
  import AuthFailures

  function If(b: bool): nat {
    if b then 1 else 0
  }

  /** Neither ring stops the request. */
  predicate Proceeds(ps: PeerState, req: Request, at: nat)
    requires ps.Valid()
  {
    !Scans(ps, req, at) && !Abuses(ps, req, at)
  }

  /** What an INVITE is for its source's dial plan, once it got that far. */
  function Abroad(w: World, ps: PeerState, req: Request, at: nat): Option<International>
    requires ps.Valid()
  {
    if req.kind == Invite && w.behavioural && req.dialed.Some? && Proceeds(ps, req, at) then w.international(ps.plan, req.dialed.value)
    else None
  }

  /** The decision reports this verdict, with the country called, if it answers a call. */
  predicate Reports(d: Decision, v: Detectors.Verdict, country: Option<nat>) {
    (d.WouldBlock? || d.Warming? || d.Block?) && d.from == country && d.evidence == v.evidence && d.countries == v.countries
  }

  // ---- requests ----

  /** The decision on a clean request of a source with an entry, or room for one: a scan or an abuse
      with its count, as the rings say; the digits of a number without a country; a firing verdict
      with the country called; a call passed, novel exactly when its source never called the country;
      and otherwise none. */
  predicate RequestDecided(w: World, ps: PeerState, mode: Mode, req: Request, at: nat, d: Decision)
    requires ps.Valid()
  {
    var abroad, call := Abroad(w, ps, req, at), CallMade(w, ps, req, at);
    var verdict := CallVerdict(w, ps, call, at);
    && CalledFor(verdict, mode, at, d)
    && (call.Some? && verdict.value.fired ==> Reports(d, verdict.value, Some(call.value.country)))
    && (d.RegScan? <==> Scans(ps, req, at))
    && (d.RegScan? ==> d.extensions == |ps.probes.Recorded(req.aor, at, 600).Live(at, 600)|)
    && (d.AuthAbuse? <==> Abuses(ps, req, at))
    && (d.AuthAbuse? ==> d.attempts == |ps.attempts.Recorded(at).Live(at, 60)|)
    && (d.UnknownCountry? <==> abroad.Some? && w.country(abroad.value.digits).None?)
    && (d.UnknownCountry? ==> d.digits == abroad.value.digits)
    && (d.Pass? <==> call.Some? && !verdict.value.fired)
    && (d.Pass? ==> d.country == call.value.country && (d.novel <==> call.value.country !in ps.anomaly.countries))
    && !d.Condemned? && !d.AuthFailure?
  }

  /** The counters of calls after such a request. */
  function CallsAfter(w: World, ps: PeerState, req: Request, at: nat, c: CallStats, d: Decision): CallStats
    requires ps.Valid()
  {
    var abroad, call := Abroad(w, ps, req, at), CallMade(w, ps, req, at);
    c.(invites := c.invites + If(req.kind == Invite && Proceeds(ps, req, at)),
       international := c.international + If(abroad.Some?),
       unknownCountry := c.unknownCountry + If(d.UnknownCountry?),
       domestic := c.domestic + If(abroad.Some? && w.country(abroad.value.digits).Some? && w.country(abroad.value.digits).value in w.home),
       novel := c.novel + If(call.Some? && call.value.country !in ps.anomaly.countries),
       prefixNovel := c.prefixNovel + If(call.Some? && Detectors.PrefixSlot(w.num, call.value.prefix) !in ps.anomaly.prefix.seen),
       rangeNovel := c.rangeNovel + If(call.Some? && ps.anomaly.range.IsFirst(Detectors.DialOf(w.num, call.value.digits, at))),
       blocks := c.blocks + If(d.Block?), wouldBlock := c.wouldBlock + If(d.WouldBlock?), warming := c.warming + If(d.Warming?))
  }

  lemma EnforcedReports(c: CallStats, mode: Mode, v: Detectors.Verdict, country: Option<nat>, at: nat)
    requires v.fired
    ensures var (after, d) := Enforced(c, mode, v, country, at);
            && CalledFor(Some(v), mode, at, d) && Reports(d, v, country)
            && after == c.(blocks := c.blocks + If(d.Block?), wouldBlock := c.wouldBlock + If(d.WouldBlock?), warming := c.warming + If(d.Warming?))
  {
  }

  lemma NoveltyIsReported(w: World, d: Detectors.Detector, call: Detectors.Call, at: nat)
    requires d.numbers.Valid()
    ensures var v := d.Observe(w.num, call, at).1;
            && v.firstTime == (call.country !in d.countries)
            && v.firstPrefix == (Detectors.PrefixSlot(w.num, call.prefix) !in d.prefix.seen)
            && v.firstRange == d.range.IsFirst(Detectors.DialOf(w.num, call.digits, at))
  {
    hide Detectors.Detector.Called, Detectors.DialOf, Detectors.PrefixSlot;
  }

  lemma DecideDecides(w: World, c: Case, mode: Mode, responder: Option<Ip>, req: Request, call: Detectors.Call, at: nat)
    requires c.ps.Valid()
    ensures c.ps.anomaly.numbers.Valid()
    ensures var (after, d) := Decide(w, c, mode, responder, req, call, at);
            var v, x := c.ps.anomaly.Observe(w.num, call, at).1, c.calls;
            && after.auth == c.auth && CalledFor(Some(v), mode, at, d)
            && (if v.fired then Reports(d, v, Some(call.country)) else d == Pass(call.country, call.country !in c.ps.anomaly.countries))
            && after.calls == x.(novel := x.novel + If(call.country !in c.ps.anomaly.countries),
                                 prefixNovel := x.prefixNovel + If(Detectors.PrefixSlot(w.num, call.prefix) !in c.ps.anomaly.prefix.seen),
                                 rangeNovel := x.rangeNovel + If(c.ps.anomaly.range.IsFirst(Detectors.DialOf(w.num, call.digits, at))),
                                 blocks := x.blocks + If(d.Block?), wouldBlock := x.wouldBlock + If(d.WouldBlock?),
                                 warming := x.warming + If(d.Warming?))
  {
    hide Pending.Remembered, Detectors.Detector.Observe, Enforced, PeerState.Valid, Detectors.DialOf, Detectors.PrefixSlot;
    NumbersAreValid(c.ps);
    NoveltyIsReported(w, c.ps.anomaly, call, at);
    var v, x := c.ps.anomaly.Observe(w.num, call, at).1, c.calls;
    if v.fired {
      EnforcedReports(x.(novel := x.novel + (if v.firstTime then 1 else 0), prefixNovel := x.prefixNovel + (if v.firstPrefix then 1 else 0),
                         rangeNovel := x.rangeNovel + (if v.firstRange then 1 else 0)),
                      mode, v, Some(call.country), at);
    }
  }

  /** A source as the call stage meets it: nothing but its rings and waiting credentials moved. */
  predicate SameCaller(x: PeerState, y: PeerState) {
    x.plan == y.plan && x.anomaly == y.anomaly
  }

  /** The call stage of a request that no ring stops. */
  lemma InvitedDecides(w: World, ps: PeerState, c: Case, mode: Mode, responder: Option<Ip>, req: Request, at: nat)
    requires ps.Valid() && c.ps.Valid() && SameCaller(c.ps, ps) && Proceeds(ps, req, at)
    ensures var (after, d) := Invited(w, c, mode, responder, req, at);
            RequestDecided(w, ps, mode, req, at, d) && after.auth == c.auth && after.calls == CallsAfter(w, ps, req, at, c.calls, d)
  {
    hide Decide, PeerState.Valid, Detectors.Detector.Observe, Scans, Abuses, Detectors.DialOf, Detectors.PrefixSlot,
         RangeMemory.Memory.IsFirst;
    var call := CallMade(w, ps, req, at);
    if call.Some? {
      var abroad := c.(calls := c.calls.(invites := c.calls.invites + 1, international := c.calls.international + 1));
      DecideDecides(w, abroad, mode, responder, req, call.value, at);
    }
  }

  /** The counters of credentials after a clean request. */
  function AuthAfter(ps: PeerState, req: Request, at: nat, a: AuthStats, d: Decision): AuthStats
    requires ps.Valid()
  {
    a.(attempts := a.attempts + If(req.credentialed && !Scans(ps, req, at)),
       abuse := a.abuse + If(d.AuthAbuse?), regScans := a.regScans + If(d.RegScan?))
  }

  lemma CredentialsDecide(c: Case, responder: Option<Ip>, req: Request, at: nat)
    requires c.ps.Valid()
    ensures var (after, d) := Credentials(c, responder, req, at);
            && after.calls == c.calls && SameCaller(after.ps, c.ps)
            && d == (if Scans(c.ps, req, at) then Some(RegScan(|c.ps.probes.Recorded(req.aor, at, 600).Live(at, 600)|))
                     else if Abuses(c.ps, req, at) then Some(AuthAbuse(|c.ps.attempts.Recorded(at).Live(at, 60)|))
                     else None)
            && after.auth == AuthAfter(c.ps, req, at, c.auth, if d.Some? then d.value else OutOfScope)
  {
    hide Pending.Remembered, RegProbes.Ring.Recorded, RegProbes.Ring.Live, SlidingCounts.Ring.Recorded,
         SlidingCounts.Ring.Live, Detectors.Detector.Valid, Pending.Valid;
  }

  lemma StoppedDecides(w: World, ps: PeerState, mode: Mode, req: Request, at: nat, c: CallStats, d: Decision)
    requires ps.Valid() && !Proceeds(ps, req, at)
    requires d == if Scans(ps, req, at) then RegScan(|ps.probes.Recorded(req.aor, at, 600).Live(at, 600)|)
                  else AuthAbuse(|ps.attempts.Recorded(at).Live(at, 60)|)
    ensures RequestDecided(w, ps, mode, req, at, d) && CallsAfter(w, ps, req, at, c, d) == c
  {
    hide PeerState.Valid, Detectors.Detector.Observe, Scans, RegProbes.Ring.Recorded, RegProbes.Ring.Live, SlidingCounts.Ring.Recorded,
         SlidingCounts.Ring.Live;
  }

  lemma AskedDecides(w: World, c: Case, mode: Mode, responder: Option<Ip>, req: Request, at: nat)
    requires c.ps.Valid()
    ensures var (after, d) := Asked(w, c, mode, responder, req, at);
            && RequestDecided(w, c.ps, mode, req, at, d)
            && after.calls == CallsAfter(w, c.ps, req, at, c.calls, d) && after.auth == AuthAfter(c.ps, req, at, c.auth, d)
  {
    hide Credentials, Invited, PeerState.Valid, RequestDecided, CallsAfter, Scans, Abuses;
    CredentialsDecide(c, responder, req, at);
    CredentialsKeepValid(c, responder, req, at);
    var checked := Credentials(c, responder, req, at).0;
    if Proceeds(c.ps, req, at) {
      InvitedDecides(w, c.ps, checked, mode, responder, req, at);
      NoVerdictOfRings(w, c.ps, mode, req, at, Invited(w, checked, mode, responder, req, at).1);
    } else {
      StoppedDecides(w, c.ps, mode, req, at, c.calls, Credentials(c, responder, req, at).1.value);
    }
  }

  lemma NoVerdictOfRings(w: World, ps: PeerState, mode: Mode, req: Request, at: nat, d: Decision)
    requires ps.Valid() && Proceeds(ps, req, at) && RequestDecided(w, ps, mode, req, at, d)
    ensures !d.RegScan? && !d.AuthAbuse?
  {
    hide Scans, Abuses, CallMade, CallVerdict, Abroad;
  }

  // ---- responses ----

  /** The decision on a response to a source with an entry: an authentication failure with its count,
      as the failure ring says; a firing verdict, about no country; and otherwise none. */
  predicate ResponseDecided(w: World, ps: PeerState, q: PeerState, mode: Mode, key: string, src: Ip, r: Response, at: nat, d: Decision)
    requires ps.Valid() && q.Valid()
  {
    var (auth, intl, _) := Claims(ps, key, src, r);
    var verdict := OutcomeVerdict(w, ps, OutcomeHeard(w, intl, r), at);
    && CalledFor(verdict, mode, at, d)
    && (verdict.Some? && verdict.value.fired ==> Reports(d, verdict.value, None))
    && (d.AuthFailure? <==> Fails(ps, q, key, src, r, at))
    && (d.AuthFailure? ==> auth.Some? && d.failures == |q.failures.Live(AccountOf(auth.value), at, 600)|)
    && !d.RegScan? && !d.AuthAbuse? && !d.UnknownCountry? && !d.Pass? && !d.Condemned?
  }

  /** The counters of credentials after a response to a source with an entry. */
  function AnsweredAuth(ps: PeerState, key: string, src: Ip, r: Response, a: AuthStats): AuthStats {
    var auth := Claims(ps, key, src, r).0;
    a.(ok := a.ok + If(auth.Some? && r.IsSuccess()), failures := a.failures + If(auth.Some? && r.IsChallenge()))
  }

  /** The outcome a response is of a waiting call. */
  function OutcomeOf(ps: PeerState, key: string, src: Ip, r: Response): Option<CompletionArm.CallOutcome> {
    if Claims(ps, key, src, r).1.Some? then CompletionArm.FromStatus(r.status) else None
  }

  /** The counters of calls after such a response. */
  function AnsweredCalls(ps: PeerState, key: string, src: Ip, r: Response, c: CallStats, d: Decision): CallStats {
    var outcome := OutcomeOf(ps, key, src, r);
    c.(completed := c.completed + If(outcome == Some(CompletionArm.Completed)),
       unanswered := c.unanswered + If(outcome == Some(CompletionArm.Unanswered)),
       failed := c.failed + If(outcome.Some? && outcome.value != CompletionArm.Completed && outcome.value != CompletionArm.Unanswered),
       unroutable := c.unroutable + If(outcome == Some(CompletionArm.NoSuchNumber) || outcome == Some(CompletionArm.Refused)),
       blocks := c.blocks + If(d.Block?), wouldBlock := c.wouldBlock + If(d.WouldBlock?), warming := c.warming + If(d.Warming?))
  }

  lemma AuthAnsweredDecides(c: Case, e: Pending.Entry, r: Response, at: nat)
    requires c.ps.Valid()
    ensures var (after, d) := AuthAnswered(c, e, r, at);
            && after.calls == c.calls && after.ps.anomaly == c.ps.anomaly
            && after.auth == c.auth.(ok := c.auth.ok + If(r.IsSuccess()), failures := c.auth.failures + If(r.IsChallenge()))
            && (d.Some? ==> d.value.AuthFailure?)
            && (after.ps.Valid() && d.Some? ==> d.value.failures == |after.ps.failures.Live(AccountOf(e), at, 600)|)
  {
    hide Detectors.Detector.Valid, Pending.Valid, AuthFailures.Ring.Recorded, AuthFailures.Ring.Forgiven,
         AuthFailures.Ring.Live, RegProbes.Ring.Removed;
  }

  lemma CallAnsweredDecides(w: World, c: Case, mode: Mode, e: Pending.Entry, r: Response, at: nat)
    ensures var (after, d) := CallAnswered(w, c, mode, e, r.status, at);
            var verdict, outcome := OutcomeVerdict(w, c.ps, OutcomeHeard(w, Some(e), r), at), CompletionArm.FromStatus(r.status);
            var x := c.calls;
            && after.auth == c.auth
            && (if verdict.Some? && verdict.value.fired then Reports(d, verdict.value, None) else d == OutOfScope)
            && after.calls == x.(completed := x.completed + If(outcome == Some(CompletionArm.Completed)),
                 unanswered := x.unanswered + If(outcome == Some(CompletionArm.Unanswered)),
                 failed := x.failed + If(outcome.Some? && outcome.value != CompletionArm.Completed && outcome.value != CompletionArm.Unanswered),
                 unroutable := x.unroutable + If(outcome == Some(CompletionArm.NoSuchNumber) || outcome == Some(CompletionArm.Refused)),
                 blocks := x.blocks + If(d.Block?), wouldBlock := x.wouldBlock + If(d.WouldBlock?), warming := x.warming + If(d.Warming?))
  {
    hide Detectors.Detector.ObserveCompletion, Enforced, CompletionArm.FromStatus;
    var heard := OutcomeHeard(w, Some(e), r);
    if heard.Some? {
      var v := c.ps.anomaly.ObserveCompletion(w.num, heard.value.0, heard.value.1, at).1;
      if v.fired {
        EnforcedReports(CountOutcome(c.calls, heard.value.0), mode, v, None, at);
      }
    }
  }

  /** A challenge is no outcome. */
  lemma ChallengeIsNoOutcome(w: World, intl: Option<Pending.Entry>, r: Response)
    requires r.IsChallenge()
    ensures OutcomeHeard(w, intl, r).None? && CompletionArm.FromStatus(r.status).None?
  {
  }

  /** The two stages of a response, put together. */
  predicate Staged(w: World, c: Case, mode: Mode, auth: Option<Pending.Entry>, intl: Option<Pending.Entry>, claimed: Case, r: Response,
                   at: nat, after: Case, d: Decision)
    requires claimed.ps.Valid()
  {
    var (judged, verdict) := if auth.Some? then AuthAnswered(claimed, auth.value, r, at) else (claimed, None);
    if verdict.Some? then after == judged && d == verdict.value
    else if intl.Some? then (after, d) == CallAnswered(w, judged, mode, intl.value, r.status, at)
    else after == judged && d == OutOfScope
  }

  lemma AnsweredIsStaged(w: World, c: Case, mode: Mode, key: string, src: Ip, r: Response, at: nat)
    requires c.ps.Valid()
    ensures var (auth, intl, ps) := Claims(c.ps, key, src, r); var (after, d) := Answered(w, c, mode, key, src, r, at);
            ps.Valid() && ps.anomaly == c.ps.anomaly && Staged(w, c, mode, auth, intl, c.(ps := ps), r, at, after, d)
  {
    hide AuthAnswered, CallAnswered, PeerState.Valid;
    ClaimsKeepValid(c.ps, key, src, r);
  }

  lemma AnsweredCounts(w: World, c: Case, mode: Mode, key: string, src: Ip, r: Response, at: nat)
    requires c.ps.Valid()
    ensures var (after, d) := Answered(w, c, mode, key, src, r, at);
            after.auth == AnsweredAuth(c.ps, key, src, r, c.auth) && after.calls == AnsweredCalls(c.ps, key, src, r, c.calls, d)
  {
    hide Answered, AuthAnswered, CallAnswered, PeerState.Valid, Claims, OutcomeHeard, CompletionArm.FromStatus, OutcomeVerdict, Reports;
    AnsweredIsStaged(w, c, mode, key, src, r, at);
    var (auth, intl, ps) := Claims(c.ps, key, src, r);
    var claimed := c.(ps := ps);
    if auth.Some? {
      AuthAnsweredKeepsValid(claimed, auth.value, r, at);
      AuthAnsweredDecides(claimed, auth.value, r, at);
      AuthAnsweredEffect(claimed, auth.value, r, at);
    }
    if r.IsChallenge() {
      ChallengeIsNoOutcome(w, intl, r);
    }
    if intl.Some? {
      CallAnsweredDecides(w, if auth.Some? then AuthAnswered(claimed, auth.value, r, at).0 else claimed, mode, intl.value, r, at);
    }
  }

  lemma AnsweredDecides(w: World, c: Case, mode: Mode, key: string, src: Ip, r: Response, at: nat)
    requires c.ps.Valid()
    ensures var (after, d) := Answered(w, c, mode, key, src, r, at);
            after.ps.Valid() && ResponseDecided(w, c.ps, after.ps, mode, key, src, r, at, d)
  {
    hide Answered, AuthAnswered, CallAnswered, PeerState.Valid, Claims, CompletionArm.FromStatus, Fails, CalledFor,
         AuthFailures.Ring.Live, AnsweredTables, OutcomeFed;
    AnsweredIsStaged(w, c, mode, key, src, r, at);
    AnsweredEffect(w, c, mode, key, src, r, at);
    var (auth, intl, ps) := Claims(c.ps, key, src, r);
    var claimed := c.(ps := ps);
    if auth.Some? {
      AuthAnsweredKeepsValid(claimed, auth.value, r, at);
      AuthAnsweredDecides(claimed, auth.value, r, at);
      AuthAnsweredEffect(claimed, auth.value, r, at);
    }
    if r.IsChallenge() {
      ChallengeIsNoOutcome(w, intl, r);
    }
    if intl.Some? {
      CallAnsweredDecides(w, if auth.Some? then AuthAnswered(claimed, auth.value, r, at).0 else claimed, mode, intl.value, r, at);
    }
  }

  // ---- one packet ----

  /** The packet is a request some perimeter filter condemns. */
  predicate Condemnable(p: Packet) {
    p.payload.Asking? && p.payload.request.perimeter != Clean
  }

  /** The counters of credentials after a packet about s that got this decision. */
  function AuthStatsAfter(w: World, st: State, op: Op, s: Ip, d: Decision): AuthStats
    requires st.Valid() && op.Receive?
  {
    PeerOfIsValid(w, st, s);
    var ps, p, a := PeerOf(w, st, s), op.p, st.stats.auth;
    if Heeded(st, op, s) then AuthAfter(ps, p.payload.request, p.at, a, d)
    else if p.payload.Answering? then
      var r := p.payload.response;
      var heard := a.(challenges := a.challenges + If(r.status == 401 || r.status == 407));
      if !Heard(st, op, s) then heard
      else
        var claimed := Claims(ps, r.key.value, p.src, r).0;
        var dropped := claimed.Some? && 200 <= r.status < 300 && r.cseqRegister && |st.known| >= 50_000 && s !in st.known;
        AnsweredAuth(ps, r.key.value, p.src, r, heard).(
          knownPeersDropped := if dropped then SatInc(a.knownPeersDropped) else a.knownPeersDropped)
    else a
  }

  /** The counters of calls after such a packet. */
  function CallStatsAfter(w: World, st: State, op: Op, s: Ip, d: Decision): CallStats
    requires st.Valid() && op.Receive?
  {
    PeerOfIsValid(w, st, s);
    var ps, p, c := PeerOf(w, st, s), op.p, st.stats.calls;
    if Heeded(st, op, s) then CallsAfter(w, ps, p.payload.request, p.at, c, d)
    else if Heard(st, op, s) then AnsweredCalls(ps, p.payload.response.key.value, p.src, p.payload.response, c, d)
    else if p.payload.Asking? && p.payload.request.perimeter == Clean then
      var req := p.payload.request;
      c.(invites := c.invites + If(req.kind == Invite),
         peersDropped := c.peersDropped + If(req.kind == Invite && w.behavioural && req.dialed.Some?))
    else c
  }

  /** For every packet in every state: whom the decision is about; that it condemns exactly a request
      a filter condemns, with that filter's verdict; and otherwise exactly what the source's rings, its
      dial plan, the country table, its detector and the mode say of it. */
  lemma EveryDecision(w: World, st: State, op: Op)
    requires st.Valid() && op.Receive? && op.Valid()
    ensures var (after, s, d) := Observe(w, st, op.p); var p := op.p;
            && s == (if p.payload.Answering? then p.dst else p.src)
            && PeerOf(w, st, s).Valid() && PeerOf(w, Step(w, st, op), s).Valid()
            && (d.Condemned? <==> Condemnable(p)) && (d.Condemned? ==> d.why == p.payload.request.perimeter)
            && (if Heeded(st, op, s) then RequestDecided(w, PeerOf(w, st, s), st.mode, p.payload.request, p.at, d)
                else if Heard(st, op, s) then
                  ResponseDecided(w, PeerOf(w, st, s), PeerOf(w, Step(w, st, op), s), st.mode, p.payload.response.key.value, p.src,
                                  p.payload.response, p.at, d)
                else d.OutOfScope? || d.Condemned?)
  {
    hide Asked, Answered, Observe, PeerState.Valid, NewPeer, RequestDecided, ResponseDecided, Claims, Step, PeerOf;
    var s, p := Observe(w, st, op.p).1, op.p;
    SubjectIsOneSide(w, st, p);
    PeerOfIsValid(w, st, s);
    StepKeepsValid(w, st, op);
    PeerOfIsValid(w, Step(w, st, op), s);
    PacketDecision(w, st, op, s);
    PacketEffect(w, st, op, s);
    Condemning(w, st, p);
    var c := Case(PeerOf(w, st, s), st.stats.auth, st.stats.calls);
    if Heeded(st, op, s) {
      AskedDecides(w, c, st.mode, p.Responder(), p.payload.request, p.at);
      NeverCondemned(w, c.ps, st.mode, p.payload.request, p.at, Observe(w, st, p).2);
    } else if Heard(st, op, s) {
      Entry(w, st, s);
      AnsweredDecides(w, c, st.mode, p.payload.response.key.value, p.src, p.payload.response, p.at);
    }
  }

  lemma NeverCondemned(w: World, ps: PeerState, mode: Mode, req: Request, at: nat, d: Decision)
    requires ps.Valid() && RequestDecided(w, ps, mode, req, at, d)
    ensures !d.Condemned?
  {
    hide Scans, Abuses, CallMade, CallVerdict, Abroad;
  }

  /** The perimeter's own decisions. */
  lemma Condemning(w: World, st: State, p: Packet)
    requires st.Valid()
    ensures Condemnable(p) ==> Observe(w, st, p).2 == Condemned(p.payload.request.perimeter)
    ensures !Condemnable(p) && !p.payload.Asking? ==> !Observe(w, st, p).2.Condemned?
    ensures p.payload.Asking? && !Condemnable(p) && !st.HasRoomFor(p.src) ==> Observe(w, st, p).2 == OutOfScope
  {
    hide Asked, Answered, PeerState.Valid, NewPeer;
    match p.payload
    case Answering(r) =>
      if r.key.Some? && p.dst in st.peers {
        var a := st.stats.auth;
        var heard := if r.IsChallenge() then a.(challenges := a.challenges + 1) else a;
        AnsweredDecides(w, Case(st.peers[p.dst], heard, st.stats.calls), st.mode, r.key.value, p.src, r, p.at);
      }
    case _ =>
  }

  lemma Entry(w: World, st: State, s: Ip)
    requires st.params.Valid() && s in st.peers
    ensures PeerOf(w, st, s) == st.peers[s]
  {
  }

  /** For every packet in every state each counter moves exactly so: requests seen and condemned by the
      packet and the filter's verdict, everything else heard by its kind, credentials and calls by what
      they mean to the source and by the decision. A condemned request moves nothing else at all. */
  lemma EveryCounter(w: World, st: State, op: Op)
    requires st.Valid() && op.Receive? && op.Valid()
    ensures var (after, s, d) := Observe(w, st, op.p); var p, x := op.p, st.stats;
            && after.stats.wire == WireStats(
                 x.wire.packets + 1, x.wire.sipParsed + If(p.payload.Asking?),
                 x.wire.noise + If(p.payload.Asking? && p.payload.request.perimeter == Noise),
                 x.wire.injections + If(p.payload.Asking? && p.payload.request.perimeter == Injection),
                 x.wire.scanners + If(p.payload.Asking? && p.payload.request.perimeter == Scanner))
            && after.stats.heard == HeardStats(
                 x.heard.responses + If(p.payload.Answering?), x.heard.keepalives + If(p.payload.Keepalive?),
                 x.heard.notSip + If(p.payload.NotSip?))
            && after.stats.auth == AuthStatsAfter(w, st, op, s, d)
            && after.stats.calls == CallStatsAfter(w, st, op, s, d)
            && (Condemnable(p) ==> after == st.(stats := x.(wire := after.stats.wire)))
  {
    hide Asked, Answered, PeerState.Valid, NewPeer, PeerOf, Claims, AuthAfter, CallsAfter, AnsweredAuth, AnsweredCalls;
    var p := op.p;
    match p.payload
    case Asking(req) =>
      if req.perimeter == Clean && st.HasRoomFor(p.src) {
        var noted := st.(stats := st.stats.(wire := st.stats.wire.Seen().(sipParsed := st.stats.wire.sipParsed + 1)));
        SameEntry(w, st, noted, p.src);
        PeerOfIsValid(w, st, p.src);
        AskedDecides(w, Case(PeerOf(w, st, p.src), st.stats.auth, st.stats.calls), st.mode, p.Responder(), req, p.at);
      }
    case Answering(r) =>
      AnsweredCounters(w, st, op, r);
    case _ =>
  }

  lemma SameEntry(w: World, st: State, noted: State, s: Ip)
    requires st.Valid() && noted == st.(stats := noted.stats)
    ensures noted.Valid() && PeerOf(w, noted, s) == PeerOf(w, st, s)
  {
    hide PeerState.Valid, NewPeer;
  }

  lemma AnsweredCounters(w: World, st: State, op: Op, r: Response)
    requires st.Valid() && op.Receive? && op.p.payload == Answering(r)
    ensures var (after, s, d) := Observe(w, st, op.p);
            after.stats.auth == AuthStatsAfter(w, st, op, s, d) && after.stats.calls == CallStatsAfter(w, st, op, s, d)
  {
    hide Answered, PeerState.Valid, NewPeer, Claims;
    var p, a := op.p, st.stats.auth;
    if r.key.Some? && p.dst in st.peers {
      Entry(w, st, p.dst);
      assert st.peers[p.dst].Valid();
      AnsweredCounts(w, Case(st.peers[p.dst], if r.IsChallenge() then a.(challenges := a.challenges + 1) else a, st.stats.calls),
                     st.mode, r.key.value, p.src, r, p.at);
    }
  }
}
