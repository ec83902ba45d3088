/** The decision engine as a transition system over packets: the values its object holds, and
    what one packet does to them. */
module EngineModel {
  import opened Numerics
  import opened Calibration
  import Detectors
  import CompletionArm
  import Pending
  import SlidingCounts
  import RegProbes
  import AuthFailures

  const MAX_PEERS: nat := 10_000
  const MAX_KNOWN_PEERS: nat := 50_000
  const AUTH_ATTEMPTS: nat := 50
  const AUTH_WINDOW_SECS: nat := 60

  // ---- what arrives ----

  datatype Method = Invite | Register | OtherMethod

  /** What the perimeter filters make of a request, in the order they are applied. */
  datatype Perimeter = Clean | Noise | Injection | Scanner | Malformed

  /** A parsed request: the perimeter's verdict, whether it carries a credential, the hash of
      the account it names, its transaction key, and the dialled user part. */
  datatype Request = Request(
    perimeter: Perimeter,
    kind: Method,
    credentialed: bool,
    aor: Hash,
    key: Option<string>,
    dialed: Option<string>)

  datatype Response = Response(status: nat, key: Option<string>, cseqRegister: bool) {
    predicate IsChallenge() {
      status == 401 || status == 407
    }

    predicate IsSuccess() {
      200 <= status < 300
    }

    predicate IsProvisional() {
      100 <= status < 200
    }
  }

  datatype Payload = NotSip | Keepalive | Asking(request: Request) | Answering(response: Response)

  datatype Packet = Packet(src: Ip, dst: Ip, payload: Payload, at: nat) {
    /** Who must answer a request: its destination, unless that is unspecified. */
    function Responder(): Option<Ip> {
      if dst == Pending.UNSPECIFIED then None else Some(dst)
    }
  }

  /** A dialled string that is international for a dial plan: the prefix it matched and the
      digits after it. */
  datatype International = International(prefix: string, digits: string)

  /** What the engine is told about its deployment: dial plans, the country table, the home
      countries, and whether the behavioural layer runs. */
  datatype World = World(
    num: Primitives,
    international: (nat, string) -> Option<International>,
    country: string -> Option<Detectors.Country>,
    home: set<Detectors.Country>,
    defaultPlan: nat,
    behavioural: bool)

  // ---- what the engine holds ----

  datatype Mode = Learning(until: nat) | Active {
    predicate IsLearning(now: nat) {
      Learning? && now < until
    }
  }

  datatype Decision =
    | OutOfScope
    | Pass(country: nat, novel: bool)
    | WouldBlock(from: Option<nat>, evidence: real, countries: nat)
    | Warming(from: Option<nat>, evidence: real, countries: nat)
    | Block(from: Option<nat>, evidence: real, countries: nat)
    | Condemned(why: Perimeter)
    | RegScan(extensions: nat)
    | AuthFailure(failures: nat)
    | AuthAbuse(attempts: nat)
    | UnknownCountry(digits: string)

  /** Requests seen and condemned. */
  datatype WireStats = WireStats(packets: nat, sipParsed: nat, noise: nat, injections: nat, scanners: nat) {
    function Seen(): WireStats {
      this.(packets := packets + 1)
    }
  }

  /** Everything else on the wire. */
  datatype HeardStats = HeardStats(responses: nat, keepalives: nat, notSip: nat)

  datatype AuthStats = AuthStats(
    attempts: nat, failures: nat, ok: nat, challenges: nat, abuse: nat, regScans: nat, knownPeersDropped: nat)

  datatype CallStats = CallStats(
    invites: nat, international: nat, unknownCountry: nat, domestic: nat,
    completed: nat, failed: nat, unroutable: nat, unanswered: nat,
    prefixNovel: nat, rangeNovel: nat, novel: nat,
    blocks: nat, wouldBlock: nat, warming: nat, peersDropped: nat)

  datatype Stats = Stats(wire: WireStats, heard: HeardStats, auth: AuthStats, calls: CallStats)

  const NO_STATS := Stats(
    WireStats(0, 0, 0, 0, 0), HeardStats(0, 0, 0), AuthStats(0, 0, 0, 0, 0, 0, 0),
    CallStats(0, 0, 0, 0, 0, 0, 0, 0, 0, 0, 0, 0, 0, 0, 0))

  datatype PeerState = PeerState(
    plan: nat,
    anomaly: Detectors.Detector,
    attempts: SlidingCounts.Ring,
    failures: AuthFailures.Ring,
    pending: seq<Pending.Entry>,
    pendingIntl: seq<Pending.Entry>,
    probes: RegProbes.Ring,
    dirty: bool)
  {
    predicate Valid() {
      && anomaly.Valid()
      && attempts.Valid() && |attempts.stamps| == AUTH_ATTEMPTS
      && failures.Valid()
      && Pending.Valid(pending) && Pending.Valid(pendingIntl)
      && probes.Valid()
    }
  }

  datatype State = State(peers: map<Ip, PeerState>, params: Params, mode: Mode, known: map<Ip, nat>, stats: Stats) {
    ghost predicate Valid() {
      params.Valid() && params.Standard() && forall ip :: ip in peers ==> peers[ip].Valid()
    }

    predicate HasRoomFor(ip: Ip) {
      |peers| < MAX_PEERS || ip in peers
    }
  }

  function Initial(w: World, mode: Mode): State {
    State(map[], Defaults(w.num), mode, map[], NO_STATS)
  }

  function NewPeer(w: World, plan: nat, p: Params): PeerState
    requires p.Valid()
  {
    PeerState(plan, Detectors.New(w.num, p), SlidingCounts.Empty(AUTH_ATTEMPTS), AuthFailures.Empty(), [], [],
              RegProbes.Empty(), false)
  }

  /** The source's entry, as it is or as it is created on its first appearance. */
  function PeerOf(w: World, st: State, ip: Ip): PeerState
    requires st.params.Valid()
  {
    if ip in st.peers then st.peers[ip] else NewPeer(w, w.defaultPlan, st.params)
  }

  /** One source and the counters its packets move. */
  datatype Case = Case(ps: PeerState, auth: AuthStats, calls: CallStats)

  // ---- responses ----

  function AccountOf(e: Pending.Entry): Hash {
    if e.aor.Some? then e.aor.value else 0
  }

  /** An accepted credential clears its own account's failures; a registration also forgets
      the extension's probe. */
  function Accepted(c: Case, e: Pending.Entry, r: Response): Case
    requires c.ps.Valid()
  {
    var ps := c.ps;
    c.(ps := ps.(failures := ps.failures.Forgiven(AccountOf(e)),
                 probes := if r.cseqRegister && e.aor.Some? then ps.probes.Removed(e.aor.value) else ps.probes),
       auth := c.auth.(ok := c.auth.ok + 1))
  }

  /** A credential answered by another challenge is a rejected one. */
  function Rejected(c: Case, e: Pending.Entry, at: nat): (Case, Option<Decision>)
    requires c.ps.Valid()
  {
    var ring := c.ps.failures.Recorded(AccountOf(e), at);
    var count := |ring.Live(AccountOf(e), at, AuthFailures.WINDOW_SECS)|;
    (c.(ps := c.ps.(failures := ring), auth := c.auth.(failures := c.auth.failures + 1)),
     if count >= AuthFailures.SIZE then Some(AuthFailure(count)) else None)
  }

  /** What the answer to an authenticated request means. */
  function AuthAnswered(c: Case, e: Pending.Entry, r: Response, at: nat): (Case, Option<Decision>)
    requires c.ps.Valid()
  {
    if r.IsSuccess() then (Accepted(c, e, r), None)
    else if r.IsChallenge() then Rejected(c, e, at)
    else (c, None)
  }

  function CountOutcome(c: CallStats, outcome: CompletionArm.CallOutcome): CallStats {
    match outcome
    case Completed => c.(completed := c.completed + 1)
    case Unanswered => c.(unanswered := c.unanswered + 1)
    case Failed => c.(failed := c.failed + 1)
    case NoSuchNumber => c.(failed := c.failed + 1, unroutable := c.unroutable + 1)
    case Refused => c.(failed := c.failed + 1, unroutable := c.unroutable + 1)
  }

  /** A firing verdict is only announced while learning, only reported while the source is
      warming up, and blocks otherwise. */
  function Enforced(c: CallStats, mode: Mode, v: Detectors.Verdict, country: Option<nat>, at: nat): (CallStats, Decision)
    requires v.fired
  {
    if mode.IsLearning(at) then (c.(wouldBlock := c.wouldBlock + 1), WouldBlock(country, v.evidence, v.countries))
    else if v.warming then (c.(warming := c.warming + 1), Warming(country, v.evidence, v.countries))
    else (c.(blocks := c.blocks + 1), Block(country, v.evidence, v.countries))
  }

  /** What the answer to an international call means. */
  function CallAnswered(w: World, c: Case, mode: Mode, e: Pending.Entry, status: nat, at: nat): (Case, Decision) {
    match CompletionArm.FromStatus(status)
    case None => (c, OutOfScope)
    case Some(outcome) =>
      var counted := c.(calls := CountOutcome(c.calls, outcome));
      if !w.behavioural then (counted, OutOfScope)
      else
        var (d, v) := c.ps.anomaly.ObserveCompletion(w.num, outcome, e.novel, at);
        var fed := counted.(ps := c.ps.(anomaly := d, dirty := true));
        if v.fired then
          var (calls, decision) := Enforced(fed.calls, mode, v, None, at);
          (fed.(calls := calls), decision)
        else (fed, OutOfScope)
  }

  /** The call path neither reads nor moves the credential counters. */
  lemma CallsLeaveAuth(w: World, c: Case, mode: Mode, e: Pending.Entry, status: nat, at: nat, a: AuthStats)
    ensures var (after, d) := CallAnswered(w, c, mode, e, status, at);
            CallAnswered(w, c.(auth := a), mode, e, status, at) == (after.(auth := a), d) && after.auth == c.auth
  {
    hide Detectors.Detector.ObserveCompletion;
  }

  /** Both tables give up the transaction this answer may claim; a provisional answer claims
      nothing. */
  function Claims(ps: PeerState, key: string, src: Ip, r: Response): (Option<Pending.Entry>, Option<Pending.Entry>, PeerState) {
    if r.IsProvisional() then (None, None, ps)
    else
      var (auth, pending) := Pending.Claimed(ps.pending, key, src);
      var (intl, pendingIntl) := Pending.Claimed(ps.pendingIntl, key, src);
      (auth, intl, ps.(pending := pending, pendingIntl := pendingIntl))
  }

  /** A response to a source with an entry, under its transaction's key: an authentication
      verdict is given before the call is looked at. */
  function Answered(w: World, c: Case, mode: Mode, key: string, src: Ip, r: Response, at: nat): (Case, Decision)
    requires c.ps.Valid()
  {
    var (auth, intl, ps) := Claims(c.ps, key, src, r);
    ClaimsKeepValid(c.ps, key, src, r);
    var claimed := c.(ps := ps);
    var (judged, verdict) := if auth.Some? then AuthAnswered(claimed, auth.value, r, at) else (claimed, None);
    if verdict.Some? then (judged, verdict.value)
    else if intl.Some? then CallAnswered(w, judged, mode, intl.value, r.status, at)
    else (judged, OutOfScope)
  }

  /** Does the answer accept a registration whose credential it claims? */
  predicate Registers(ps: PeerState, src: Ip, r: Response) {
    r.key.Some? && Claims(ps, r.key.value, src, r).0.Some? && r.IsSuccess() && r.cseqRegister
  }

  /** A successful registration makes the source a known peer, while there is room. */
  function Known(st: State, peer: Ip, at: nat): State {
    if |st.known| < MAX_KNOWN_PEERS || peer in st.known then st.(known := st.known[peer := at])
    else
      var a := st.stats.auth;
      st.(stats := st.stats.(auth := a.(knownPeersDropped := SatInc(a.knownPeersDropped))))
  }

  /** The state with one source's case filed back. */
  function Filed(st: State, ip: Ip, c: Case): State {
    st.(peers := st.peers[ip := c.ps], stats := st.stats.(auth := c.auth, calls := c.calls))
  }

  function ObserveResponse(w: World, st: State, peer: Ip, src: Ip, r: Response, at: nat): (State, Decision)
    requires st.Valid()
  {
    var a := st.stats.auth;
    var heard := if r.IsChallenge() then a.(challenges := a.challenges + 1) else a;
    if r.key.None? || peer !in st.peers then (st.(stats := st.stats.(auth := heard)), OutOfScope)
    else
      var (c, decision) := Answered(w, Case(st.peers[peer], heard, st.stats.calls), st.mode, r.key.value, src, r, at);
      var filed := Filed(st, peer, c);
      (if Registers(st.peers[peer], src, r) then Known(filed, peer, at) else filed, decision)
  }

  // ---- requests ----

  /** A REGISTER probes the extension it names. */
  function Probed(c: Case, req: Request, at: nat): (Case, Option<Decision>)
    requires c.ps.Valid()
  {
    var ring := c.ps.probes.Recorded(req.aor, at, RegProbes.WINDOW_SECS);
    var count := |ring.Live(at, RegProbes.WINDOW_SECS)|;
    var noted := c.(ps := c.ps.(probes := ring));
    if count >= RegProbes.SCAN_EXTENSIONS then
      (noted.(auth := c.auth.(regScans := c.auth.regScans + 1)), Some(RegScan(count)))
    else (noted, None)
  }

  /** What a credential leaves to be answered. */
  function CredentialEntry(req: Request, key: string, responder: Option<Ip>, at: nat): Pending.Entry {
    Pending.Entry(key, at, responder, if req.kind == Register then Some(req.aor) else None, CompletionArm.NOTHING_NEW)
  }

  /** A credential is an attempt: it is remembered until its answer, and counted. */
  function Attempted(c: Case, responder: Option<Ip>, req: Request, at: nat): (Case, Option<Decision>)
    requires c.ps.Valid()
  {
    var pending :=
      if req.key.None? then c.ps.pending
      else Pending.Remembered(c.ps.pending, CredentialEntry(req, req.key.value, responder, at));
    var ring := c.ps.attempts.Recorded(at);
    var count := |ring.Live(at, AUTH_WINDOW_SECS)|;
    var noted := c.(ps := c.ps.(pending := pending, attempts := ring), auth := c.auth.(attempts := c.auth.attempts + 1));
    if count >= AUTH_ATTEMPTS then
      (noted.(auth := noted.auth.(abuse := c.auth.abuse + 1)), Some(AuthAbuse(count)))
    else (noted, None)
  }

  /** The credential stage: registrations and credentials of any method. */
  function Credentials(c: Case, responder: Option<Ip>, req: Request, at: nat): (Case, Option<Decision>)
    requires c.ps.Valid()
  {
    var (probed, scan) := if req.kind == Register then Probed(c, req, at) else (c, None);
    if scan.Some? then (probed, scan)
    else if req.credentialed then Attempted(probed, responder, req, at)
    else (probed, None)
  }

  /** An international call feeds the detector and is remembered for its answer. */
  function Decide(w: World, c: Case, mode: Mode, responder: Option<Ip>, req: Request, call: Detectors.Call, at: nat)
    : (Case, Decision)
    requires c.ps.Valid()
  {
    var (d, v) := c.ps.anomaly.Observe(w.num, call, at);
    var pendingIntl :=
      if req.key.None? then c.ps.pendingIntl
      else Pending.Remembered(c.ps.pendingIntl, Pending.Entry(req.key.value, at, responder, None,
                                                              CompletionArm.Novelty(v.firstRange, v.firstNumber)));
    var calls := c.calls.(novel := c.calls.novel + (if v.firstTime then 1 else 0),
                          prefixNovel := c.calls.prefixNovel + (if v.firstPrefix then 1 else 0),
                          rangeNovel := c.calls.rangeNovel + (if v.firstRange then 1 else 0));
    var fed := c.(ps := c.ps.(anomaly := d, dirty := true, pendingIntl := pendingIntl));
    if v.fired then
      var (enforced, decision) := Enforced(calls, mode, v, Some(call.country), at);
      (fed.(calls := enforced), decision)
    else (fed.(calls := calls), Pass(call.country, v.firstTime))
  }

  /** The call stage: every INVITE that got this far. */
  function Invited(w: World, c: Case, mode: Mode, responder: Option<Ip>, req: Request, at: nat): (Case, Decision)
    requires c.ps.Valid()
  {
    if req.kind != Invite then (c, OutOfScope)
    else
      var counted := c.(calls := c.calls.(invites := c.calls.invites + 1));
      if !w.behavioural || req.dialed.None? then (counted, OutOfScope)
      else match w.international(c.ps.plan, req.dialed.value)
        case None => (counted, OutOfScope)
        case Some(intl) =>
          var abroad := counted.(calls := counted.calls.(international := c.calls.international + 1));
          match w.country(intl.digits)
          case None => (abroad.(calls := abroad.calls.(unknownCountry := c.calls.unknownCountry + 1)), UnknownCountry(intl.digits))
          case Some(country) =>
            if country in w.home then (abroad.(calls := abroad.calls.(domestic := c.calls.domestic + 1)), OutOfScope)
            else Decide(w, abroad, mode, responder, req, Detectors.Call(country, intl.prefix, intl.digits), at)
  }

  /** A clean request from a source with an entry, or room for one. */
  function Asked(w: World, c: Case, mode: Mode, responder: Option<Ip>, req: Request, at: nat): (Case, Decision)
    requires c.ps.Valid()
  {
    var (checked, verdict) := Credentials(c, responder, req, at);
    CredentialsKeepValid(c, responder, req, at);
    if verdict.Some? then (checked, verdict.value) else Invited(w, checked, mode, responder, req, at)
  }

  /** Does the INVITE need an entry for its sender? */
  predicate NeedsEntry(w: World, req: Request) {
    req.kind == Invite && w.behavioural && req.dialed.Some?
  }

  /** Does the request create an entry for its sender? */
  predicate Enters(w: World, req: Request) {
    req.kind == Register || req.credentialed || NeedsEntry(w, req)
  }

  /** What is left of a clean request when the sender has no entry and there is no room. */
  function TurnedAway(w: World, c: CallStats, req: Request): CallStats {
    if req.kind != Invite then c
    else
      var invited := c.(invites := c.invites + 1);
      if NeedsEntry(w, req) then invited.(peersDropped := c.peersDropped + 1) else invited
  }

  function ObserveRequest(w: World, st: State, peer: Ip, responder: Option<Ip>, req: Request, at: nat): (State, Decision)
    requires st.Valid()
  {
    var wire := st.stats.wire;
    match req.perimeter
    case Noise => (st.(stats := st.stats.(wire := wire.(noise := wire.noise + 1))), Condemned(Noise))
    case Injection => (st.(stats := st.stats.(wire := wire.(injections := wire.injections + 1))), Condemned(Injection))
    case Scanner => (st.(stats := st.stats.(wire := wire.(scanners := wire.scanners + 1))), Condemned(Scanner))
    case Malformed => (st, Condemned(Malformed))
    case Clean =>
      if !st.HasRoomFor(peer) then
        (st.(stats := st.stats.(calls := TurnedAway(w, st.stats.calls, req))), OutOfScope)
      else
        PeerOfIsValid(w, st, peer);
        var (c, decision) := Asked(w, Case(PeerOf(w, st, peer), st.stats.auth, st.stats.calls), st.mode, responder, req, at);
        (if Enters(w, req) then Filed(st, peer, c) else st.(stats := st.stats.(auth := c.auth, calls := c.calls)), decision)
  }

  // ---- one packet ----

  /** The new state, whom the decision is about, and the decision: a request is judged on its
      sender, a response on the party it answers. */
  function Observe(w: World, st: State, p: Packet): (State, Ip, Decision)
    requires st.Valid()
  {
    var s := st.stats;
    match p.payload
    case NotSip => (st.(stats := s.(wire := s.wire.Seen(), heard := s.heard.(notSip := s.heard.notSip + 1))), p.src, OutOfScope)
    case Keepalive =>
      (st.(stats := s.(wire := s.wire.Seen(), heard := s.heard.(keepalives := s.heard.keepalives + 1))), p.src, OutOfScope)
    case Answering(r) =>
      var noted := st.(stats := s.(wire := s.wire.Seen(), heard := s.heard.(responses := s.heard.responses + 1)));
      var (after, decision) := ObserveResponse(w, noted, p.dst, p.src, r, p.at);
      (after, p.dst, decision)
    case Asking(req) =>
      var noted := st.(stats := s.(wire := s.wire.Seen().(sipParsed := s.wire.sipParsed + 1)));
      var (after, decision) := ObserveRequest(w, noted, p.src, p.Responder(), req, p.at);
      (after, p.src, decision)
  }

  // ---- every stage keeps the source valid ----

  lemma NewPeerIsValid(w: World, plan: nat, p: Params)
    requires p.Valid()
    ensures NewPeer(w, plan, p).Valid()
  {
    Detectors.NewIsFresh(w.num, p);
  }

  lemma NumbersAreValid(ps: PeerState)
    requires ps.Valid()
    ensures ps.anomaly.numbers.Valid()
  {
  }

  lemma PeerOfIsValid(w: World, st: State, ip: Ip)
    requires st.Valid()
    ensures PeerOf(w, st, ip).Valid()
  {
    hide PeerState.Valid;
    NewPeerIsValid(w, w.defaultPlan, st.params);
  }

  lemma CredentialsKeepValid(c: Case, responder: Option<Ip>, req: Request, at: nat)
    requires c.ps.Valid()
    ensures Credentials(c, responder, req, at).0.ps.Valid()
  {
    hide Detectors.Detector.Valid, Pending.Valid, Pending.Remembered, RegProbes.Ring.Recorded, RegProbes.Ring.Live,
         SlidingCounts.Ring.Recorded, SlidingCounts.Ring.Live;
    if req.key.Some? {
      Pending.RememberedLaws(c.ps.pending, CredentialEntry(req, req.key.value, responder, at));
    }
  }

  lemma DetectorNumbers(d: Detectors.Detector)
    requires d.Valid()
    ensures d.numbers.Valid()
  {
  }

  lemma DecideKeepsValid(w: World, c: Case, mode: Mode, responder: Option<Ip>, req: Request, call: Detectors.Call, at: nat)
    requires c.ps.Valid()
    ensures Decide(w, c, mode, responder, req, call, at).0.ps.Valid()
  {
    hide Detectors.Detector.Valid, Detectors.Detector.Called, Detectors.Detector.Fused, Pending.Valid, Pending.Remembered,
         Enforced;
    DetectorNumbers(c.ps.anomaly);
    Detectors.CallKeepsValid(w.num, c.ps.anomaly, call, at);
    DetectorNumbers(c.ps.anomaly.Observe(w.num, call, at).0);
    if req.key.Some? {
      var v := c.ps.anomaly.Observe(w.num, call, at).1;
      Pending.RememberedLaws(c.ps.pendingIntl, Pending.Entry(req.key.value, at, responder, None,
                                                             CompletionArm.Novelty(v.firstRange, v.firstNumber)));
    }
  }

  lemma InvitedKeepsValid(w: World, c: Case, mode: Mode, responder: Option<Ip>, req: Request, at: nat)
    requires c.ps.Valid()
    ensures Invited(w, c, mode, responder, req, at).0.ps.Valid()
  {
    hide Decide, PeerState.Valid;
    if NeedsEntry(w, req) && w.international(c.ps.plan, req.dialed.value).Some? {
      var intl := w.international(c.ps.plan, req.dialed.value).value;
      if w.country(intl.digits).Some? {
        var abroad := c.(calls := c.calls.(invites := c.calls.invites + 1, international := c.calls.international + 1));
        DecideKeepsValid(w, abroad, mode, responder, req,
                         Detectors.Call(w.country(intl.digits).value, intl.prefix, intl.digits), at);
      }
    }
  }

  lemma AskedKeepsValid(w: World, c: Case, mode: Mode, responder: Option<Ip>, req: Request, at: nat)
    requires c.ps.Valid()
    ensures Asked(w, c, mode, responder, req, at).0.ps.Valid()
  {
    hide Credentials, Invited, PeerState.Valid;
    CredentialsKeepValid(c, responder, req, at);
    InvitedKeepsValid(w, Credentials(c, responder, req, at).0, mode, responder, req, at);
  }

  lemma ClaimsKeepValid(ps: PeerState, key: string, src: Ip, r: Response)
    requires ps.Valid()
    ensures Claims(ps, key, src, r).2.Valid()
  {
    hide Pending.Valid, Pending.Claimed, Detectors.Detector.Valid;
    Pending.ClaimedLaws(ps.pending, key, src);
    Pending.ClaimedLaws(ps.pendingIntl, key, src);
  }

  lemma AuthAnsweredKeepsValid(c: Case, e: Pending.Entry, r: Response, at: nat)
    requires c.ps.Valid()
    ensures AuthAnswered(c, e, r, at).0.ps.Valid()
  {
    hide Detectors.Detector.Valid, Pending.Valid, AuthFailures.Ring.Recorded, AuthFailures.Ring.Forgiven,
         AuthFailures.Ring.Live, RegProbes.Ring.Removed;
  }

  lemma CallAnsweredKeepsValid(w: World, c: Case, mode: Mode, e: Pending.Entry, status: nat, at: nat)
    requires c.ps.Valid()
    ensures CallAnswered(w, c, mode, e, status, at).0.ps.Valid()
  {
    hide Detectors.Detector.Valid, Detectors.Detector.ObserveCompletion, Pending.Valid, Enforced;
    var outcome := CompletionArm.FromStatus(status);
    if outcome.Some? {
      Detectors.StepKeepsValid(w.num, c.ps.anomaly, Detectors.Outcome(outcome.value, e.novel, at));
    }
  }

  lemma AnsweredKeepsValid(w: World, c: Case, mode: Mode, key: string, src: Ip, r: Response, at: nat)
    requires c.ps.Valid()
    ensures Answered(w, c, mode, key, src, r, at).0.ps.Valid()
  {
    hide Claims, AuthAnswered, CallAnswered, PeerState.Valid;
    var (auth, intl, ps) := Claims(c.ps, key, src, r);
    ClaimsKeepValid(c.ps, key, src, r);
    var claimed := c.(ps := ps);
    if auth.Some? {
      AuthAnsweredKeepsValid(claimed, auth.value, r, at);
    }
    if intl.Some? {
      CallAnsweredKeepsValid(w, if auth.Some? then AuthAnswered(claimed, auth.value, r, at).0 else claimed, mode, intl.value,
                             r.status, at);
    }
  }

  lemma ObserveKeepsValid(w: World, st: State, p: Packet)
    requires st.Valid()
    ensures Observe(w, st, p).0.Valid()
  {
    hide Asked, Answered, PeerState.Valid, NewPeer;
    match p.payload
    case NotSip =>
    case Keepalive =>
    case Answering(r) =>
      if r.key.Some? && p.dst in st.peers {
        var a := st.stats.auth;
        var heard := if r.IsChallenge() then a.(challenges := a.challenges + 1) else a;
        AnsweredKeepsValid(w, Case(st.peers[p.dst], heard, st.stats.calls), st.mode, r.key.value, p.src, r, p.at);
      }
    case Asking(req) =>
      PeerOfIsValid(w, st, p.src);
      AskedKeepsValid(w, Case(PeerOf(w, st, p.src), st.stats.auth, st.stats.calls), st.mode, p.Responder(), req, p.at);
  }
}
