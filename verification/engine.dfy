/** The engine as the object that keeps it: every method leaves exactly the state, and returns
    exactly the decision, of the transition system. */
module Engines {
  import opened Numerics
  import opened Calibration
  import M = EngineModel
  import R = EngineRuns
  import Detectors
  import CompletionArm
  import Pending
  import AuthFailures
  import SlidingCounts
  import RegProbes
  import Sums

  class Engine {
    const w: M.World
    var peers: map<Ip, M.PeerState>
    var params: Params
    var mode: M.Mode
    var known: map<Ip, nat>
    var stats: M.Stats

    ghost function Value(): M.State
      reads this
    {
      M.State(peers, params, mode, known, stats)
    }

    ghost predicate Valid()
      reads this
    {
      Value().Valid()
    }

    constructor (w: M.World, mode: M.Mode)
      ensures Valid() && this.w == w && Value() == M.Initial(w, mode)
    {
      this.w := w;
      peers, known := map[], map[];
      params := Defaults(w.num);
      this.mode := mode;
      stats := M.NO_STATS;
      new;
      R.InitialIsValid(w, mode);
    }

    // ---- packets ----

    /** Processes one datagram; returns whom the decision is about, and the decision. */
    method ObservePacket(p: M.Packet) returns (who: Ip, d: M.Decision)
      requires Valid()
      modifies this
      ensures Valid() && (Value(), who, d) == M.Observe(w, old(Value()), p)
    {
      hide M.ObserveRequest, M.ObserveResponse, M.PeerState.Valid;
      M.ObserveKeepsValid(w, Value(), p);
      stats := stats.(wire := stats.wire.(packets := stats.wire.packets + 1));
      match p.payload
      case Asking(req) =>
        stats := stats.(wire := stats.wire.(sipParsed := stats.wire.sipParsed + 1));
        var responder := if p.dst == Pending.UNSPECIFIED then None else Some(p.dst);
        d := ObserveRequest(p.src, responder, req, p.at);
        who := p.src;
      case Answering(r) =>
        stats := stats.(heard := stats.heard.(responses := stats.heard.responses + 1));
        d := ObserveResponse(p.dst, p.src, r, p.at);
        who := p.dst;
      case Keepalive =>
        stats := stats.(heard := stats.heard.(keepalives := stats.heard.keepalives + 1));
        return p.src, M.OutOfScope;
      case NotSip =>
        stats := stats.(heard := stats.heard.(notSip := stats.heard.notSip + 1));
        return p.src, M.OutOfScope;
    }

    /** A response: claims what it answers from both tables, and feeds each claim to its path;
        an authentication verdict is returned before the call path is reached. */
    method ObserveResponse(peer: Ip, src: Ip, r: M.Response, at: nat) returns (d: M.Decision)
      requires Valid()
      modifies this
      ensures (Value(), d) == M.ObserveResponse(w, old(Value()), peer, src, r, at)
    {
      hide M.AuthAnswered, M.CallAnswered, M.PeerState.Valid, Pending.Claimed;
      if r.IsChallenge() {
        stats := stats.(auth := stats.auth.(challenges := stats.auth.challenges + 1));
      }
      if r.key.None? || peer !in peers {
        return M.OutOfScope;
      }
      var ps, key := peers[peer], r.key.value;
      M.ClaimsKeepValid(ps, key, src, r);
      var auth: Option<Pending.Entry>, intl: Option<Pending.Entry> := None, None;
      if !r.IsProvisional() {
        var (a, pending) := Pending.Claimed(ps.pending, key, src);
        var (i, pendingIntl) := Pending.Claimed(ps.pendingIntl, key, src);
        auth, intl := a, i;
        ps := ps.(pending := pending, pendingIntl := pendingIntl);
      }
      d := M.OutOfScope;
      var verdict: Option<M.Decision> := None;
      ghost var judged := stats.auth;
      if auth.Some? {
        ps, verdict := AnswerCredential(ps, auth.value, r, at);
        judged := stats.auth;
        if r.IsSuccess() && r.cseqRegister {
          MakeKnown(peer, at);
        }
      }
      if verdict.Some? {
        d := verdict.value;
      } else if intl.Some? {
        M.CallsLeaveAuth(w, M.Case(ps, judged, stats.calls), mode, intl.value, r.status, at, stats.auth);
        ps, d := AnswerCall(ps, intl.value, r.status, at);
      }
      peers := peers[peer := ps];
    }

    /** A registered peer is remembered, while there is room. */
    method MakeKnown(peer: Ip, at: nat)
      modifies `known, `stats
      ensures Value() == M.Known(old(Value()), peer, at)
    {
      if |known| < M.MAX_KNOWN_PEERS || peer in known {
        known := known[peer := at];
      } else {
        stats := stats.(auth := stats.auth.(knownPeersDropped := SatInc(stats.auth.knownPeersDropped)));
      }
    }

    /** The answer to a credential: accepted, rejected, or neither. */
    method AnswerCredential(ps: M.PeerState, e: Pending.Entry, r: M.Response, at: nat)
      returns (q: M.PeerState, verdict: Option<M.Decision>)
      requires ps.Valid()
      modifies `stats
      ensures stats == old(stats).(auth := stats.auth)
      ensures (M.Case(q, stats.auth, stats.calls), verdict) == M.AuthAnswered(M.Case(ps, old(stats.auth), old(stats.calls)), e, r, at)
    {
      hide AuthFailures.Ring.Recorded, AuthFailures.Ring.Forgiven, AuthFailures.Ring.Live, RegProbes.Ring.Removed;
      q, verdict := ps, None;
      if r.IsSuccess() {
        stats := stats.(auth := stats.auth.(ok := stats.auth.ok + 1));
        q := q.(failures := q.failures.Forgiven(M.AccountOf(e)));
        if r.cseqRegister && e.aor.Some? {
          q := q.(probes := q.probes.Removed(e.aor.value));
        }
      } else if r.IsChallenge() {
        stats := stats.(auth := stats.auth.(failures := stats.auth.failures + 1));
        q := q.(failures := q.failures.Recorded(M.AccountOf(e), at));
        var count := |q.failures.Live(M.AccountOf(e), at, AuthFailures.WINDOW_SECS)|;
        if count >= AuthFailures.SIZE {
          verdict := Some(M.AuthFailure(count));
        }
      }
    }

    /** The answer to an international call, when it is an outcome. */
    method AnswerCall(ps: M.PeerState, e: Pending.Entry, status: nat, at: nat) returns (q: M.PeerState, d: M.Decision)
      modifies `stats
      ensures stats == old(stats).(calls := stats.calls)
      ensures (M.Case(q, stats.auth, stats.calls), d)
           == M.CallAnswered(w, M.Case(ps, old(stats.auth), old(stats.calls)), mode, e, status, at)
    {
      hide Detectors.Detector.ObserveCompletion, M.Enforced;
      q, d := ps, M.OutOfScope;
      var outcome := CompletionArm.FromStatus(status);
      if outcome.None? {
        return;
      }
      var c := stats.calls;
      match outcome.value {
        case Completed => stats := stats.(calls := c.(completed := c.completed + 1));
        case Unanswered => stats := stats.(calls := c.(unanswered := c.unanswered + 1));
        case Failed => stats := stats.(calls := c.(failed := c.failed + 1));
        case NoSuchNumber => stats := stats.(calls := c.(failed := c.failed + 1, unroutable := c.unroutable + 1));
        case Refused => stats := stats.(calls := c.(failed := c.failed + 1, unroutable := c.unroutable + 1));
      }
      if w.behavioural {
        var (detector, v) := q.anomaly.ObserveCompletion(w.num, outcome.value, e.novel, at);
        q := q.(anomaly := detector, dirty := true);
        if v.fired {
          d := Enforce(v, None, at);
        }
      }
    }

    /** A firing verdict, through the learning gate and then the warm-up gate. */
    method Enforce(v: Detectors.Verdict, country: Option<nat>, at: nat) returns (d: M.Decision)
      requires v.fired
      modifies `stats
      ensures stats == old(stats).(calls := stats.calls)
      ensures (stats.calls, d) == M.Enforced(old(stats.calls), mode, v, country, at)
    {
      var c := stats.calls;
      if mode.Learning? && at < mode.until {
        stats := stats.(calls := c.(wouldBlock := c.wouldBlock + 1));
        return M.WouldBlock(country, v.evidence, v.countries);
      }
      if v.warming {
        stats := stats.(calls := c.(warming := c.warming + 1));
        return M.Warming(country, v.evidence, v.countries);
      }
      stats := stats.(calls := c.(blocks := c.blocks + 1));
      return M.Block(country, v.evidence, v.countries);
    }

    /** A request: the perimeter first, then credentials, then the call. The sender's entry is
        created where it is first needed and there is room. */
    method ObserveRequest(peer: Ip, responder: Option<Ip>, req: M.Request, at: nat) returns (d: M.Decision)
      requires Valid()
      modifies this
      ensures (Value(), d) == M.ObserveRequest(w, old(Value()), peer, responder, req, at)
    {
      hide M.Credentials, M.Invited, M.PeerState.Valid, M.NewPeer;
      match req.perimeter {
        case Noise =>
          stats := stats.(wire := stats.wire.(noise := stats.wire.noise + 1));
          return M.Condemned(M.Noise);
        case Injection =>
          stats := stats.(wire := stats.wire.(injections := stats.wire.injections + 1));
          return M.Condemned(M.Injection);
        case Scanner =>
          stats := stats.(wire := stats.wire.(scanners := stats.wire.scanners + 1));
          return M.Condemned(M.Scanner);
        case Malformed =>
          return M.Condemned(M.Malformed);
        case Clean =>
      }
      if |peers| >= M.MAX_PEERS && peer !in peers {
        TurnAway(req);
        return M.OutOfScope;
      }
      M.PeerOfIsValid(w, Value(), peer);
      var ps := if peer in peers then peers[peer] else M.NewPeer(w, w.defaultPlan, params);
      ghost var c := M.Case(ps, stats.auth, stats.calls);
      M.CredentialsKeepValid(c, responder, req, at);
      var verdict: Option<M.Decision>;
      ps, verdict := CheckCredentials(ps, responder, req, at);
      if verdict.Some? {
        d := verdict.value;
      } else {
        ps, d := CheckInvite(ps, responder, req, at);
      }
      if req.kind == M.Register || req.credentialed || (req.kind == M.Invite && w.behavioural && req.dialed.Some?) {
        peers := peers[peer := ps];
      }
    }

    /** With no room for the sender, only an INVITE is counted. */
    method TurnAway(req: M.Request)
      modifies `stats
      ensures stats == old(stats).(calls := M.TurnedAway(w, old(stats.calls), req))
    {
      if req.kind == M.Invite {
        stats := stats.(calls := stats.calls.(invites := stats.calls.invites + 1));
        if w.behavioural && req.dialed.Some? {
          stats := stats.(calls := stats.calls.(peersDropped := stats.calls.peersDropped + 1));
        }
      }
    }

    /** Registrations probe, credentials are remembered and counted; either may give a
        verdict. */
    method CheckCredentials(ps: M.PeerState, responder: Option<Ip>, req: M.Request, at: nat)
      returns (q: M.PeerState, verdict: Option<M.Decision>)
      requires ps.Valid()
      modifies `stats
      ensures stats == old(stats).(auth := stats.auth)
      ensures (M.Case(q, stats.auth, stats.calls), verdict)
           == M.Credentials(M.Case(ps, old(stats.auth), old(stats.calls)), responder, req, at)
    {
      hide Pending.Remembered, SlidingCounts.Ring.Recorded, SlidingCounts.Ring.Live, RegProbes.Ring.Recorded, RegProbes.Ring.Live;
      q, verdict := ps, None;
      if req.kind == M.Register {
        q := q.(probes := q.probes.Recorded(req.aor, at, RegProbes.WINDOW_SECS));
        var distinct := |q.probes.Live(at, RegProbes.WINDOW_SECS)|;
        if distinct >= RegProbes.SCAN_EXTENSIONS {
          stats := stats.(auth := stats.auth.(regScans := stats.auth.regScans + 1));
          verdict := Some(M.RegScan(distinct));
          return;
        }
      }
      if req.credentialed {
        stats := stats.(auth := stats.auth.(attempts := stats.auth.attempts + 1));
        if req.key.Some? {
          var e := Pending.Entry(req.key.value, at, responder, if req.kind == M.Register then Some(req.aor) else None,
                                 CompletionArm.NOTHING_NEW);
          q := q.(pending := Pending.Remembered(q.pending, e));
        }
        q := q.(attempts := q.attempts.Recorded(at));
        var count := |q.attempts.Live(at, M.AUTH_WINDOW_SECS)|;
        if count >= M.AUTH_ATTEMPTS {
          stats := stats.(auth := stats.auth.(abuse := stats.auth.abuse + 1));
          verdict := Some(M.AuthAbuse(count));
        }
      }
    }

    /** An INVITE, through the gates that come before the detector. */
    method CheckInvite(ps: M.PeerState, responder: Option<Ip>, req: M.Request, at: nat)
      returns (q: M.PeerState, d: M.Decision)
      requires ps.Valid()
      modifies `stats
      ensures stats == old(stats).(calls := stats.calls)
      ensures (M.Case(q, stats.auth, stats.calls), d)
           == M.Invited(w, M.Case(ps, old(stats.auth), old(stats.calls)), mode, responder, req, at)
    {
      hide M.Decide, M.PeerState.Valid;
      q, d := ps, M.OutOfScope;
      if req.kind != M.Invite {
        return;
      }
      stats := stats.(calls := stats.calls.(invites := stats.calls.invites + 1));
      if !w.behavioural || req.dialed.None? {
        return;
      }
      var dialed := w.international(q.plan, req.dialed.value);
      if dialed.None? {
        return;
      }
      stats := stats.(calls := stats.calls.(international := stats.calls.international + 1));
      var country := w.country(dialed.value.digits);
      if country.None? {
        stats := stats.(calls := stats.calls.(unknownCountry := stats.calls.unknownCountry + 1));
        d := M.UnknownCountry(dialed.value.digits);
      } else if country.value in w.home {
        stats := stats.(calls := stats.calls.(domestic := stats.calls.domestic + 1));
      } else {
        q, d := Decide(q, responder, req, Detectors.Call(country.value, dialed.value.prefix, dialed.value.digits), at);
      }
    }

    /** One international call: feeds the detector, remembers the call, counts its novelty,
        and enforces the verdict. */
    method Decide(ps: M.PeerState, responder: Option<Ip>, req: M.Request, call: Detectors.Call, at: nat)
      returns (q: M.PeerState, d: M.Decision)
      requires ps.Valid()
      modifies `stats
      ensures stats == old(stats).(calls := stats.calls)
      ensures (M.Case(q, stats.auth, stats.calls), d)
           == M.Decide(w, M.Case(ps, old(stats.auth), old(stats.calls)), mode, responder, req, call, at)
    {
      hide M.PeerState.Valid, Detectors.Detector.Observe, Pending.Remembered, M.Enforced;
      M.NumbersAreValid(ps);
      var (detector, v) := ps.anomaly.Observe(w.num, call, at);
      q := ps.(anomaly := detector, dirty := true);
      if req.key.Some? {
        var e := Pending.Entry(req.key.value, at, responder, None, CompletionArm.Novelty(v.firstRange, v.firstNumber));
        q := q.(pendingIntl := Pending.Remembered(q.pendingIntl, e));
      }
      var c := stats.calls;
      stats := stats.(calls := c.(novel := c.novel + (if v.firstTime then 1 else 0),
                                  prefixNovel := c.prefixNovel + (if v.firstPrefix then 1 else 0),
                                  rangeNovel := c.rangeNovel + (if v.firstRange then 1 else 0)));
      if v.fired {
        d := Enforce(v, Some(call.country), at);
      } else {
        d := M.Pass(call.country, v.firstTime);
      }
    }

    // ---- calibration and persistence ----

    /** Refits the hypotheses and the volume prior, then adopts them across every source. */
    method Recalibrate()
      requires Valid()
      modifies this
      ensures Valid() && Value() == R.Recalibrated(w, old(Value()))
    {
      hide M.PeerState.Valid, R.FitCounters, R.Rates, R.FitRates, Detectors.Detector.Recalibrated;
      R.RecalibratedKeepsValid(w, Value());
      R.FittedIsValid(Value());
      var rates := R.Rates(peers);
      params := FitRates(R.FitCounters(params, stats.calls), rates);
      assert params == R.Fitted(old(Value()));
      var left := peers.Keys;
      while left != {}
        invariant left <= old(peers).Keys == peers.Keys
        invariant params == R.Fitted(old(Value())) && params.Valid()
        invariant mode == old(mode) && known == old(known) && stats == old(stats)
        invariant forall ip :: ip in left ==> peers[ip] == old(peers)[ip]
        invariant forall ip :: ip in peers && ip !in left ==>
                    old(peers)[ip].Valid()
                    && peers[ip] == old(peers)[ip].(anomaly := old(peers)[ip].anomaly.Recalibrated(w.num, params))
        decreases |left|
      {
        var ip :| ip in left;
        var ps := peers[ip];
        peers := peers[ip := ps.(anomaly := ps.anomaly.Recalibrated(w.num, params))];
        left := left - {ip};
      }
      assert peers == R.Recalibrated(w, old(Value())).peers;
    }

    /** Sums the values of a map. */
    static method Total(rates: map<Ip, real>) returns (total: real)
      ensures total == Sums.SumR(rates)
    {
      total := 0.0;
      var left := rates;
      while left != map[]
        invariant total + Sums.SumR(left) == Sums.SumR(rates)
        decreases |left|
      {
        var ip :| ip in left;
        Sums.SumRRemove(left, ip);
        total := total + left[ip];
        left := left - {ip};
      }
    }

    /** The method-of-moments fit of the volume prior. */
    static method FitRates(p: Params, rates: map<Ip, real>) returns (q: Params)
      ensures q == R.FitRates(p, rates)
    {
      if |rates| < R.MIN_SOURCES {
        return p;
      }
      var total := Total(rates);
      var mean := total / |rates| as real;
      var squares := R.SquaredDistances(rates, mean);
      assert squares.Keys == rates.Keys;
      var spreadTotal := Total(squares);
      var spread := spreadTotal / |squares| as real;
      q := p;
      if mean > 0.0 && spread > 0.0 {
        q := p.(priorMean := mean, priorStrength := Clamp(mean / spread, 0.1, 50.0));
      }
    }

    /** Each dirty source's durable state. */
    method ExportAnomaly() returns (rows: map<Ip, Detectors.Snapshot>)
      ensures rows.Keys == set ip | ip in peers && peers[ip].dirty
      ensures forall ip :: ip in rows ==> ip in peers && rows[ip] == peers[ip].anomaly.Saved()
    {
      rows := map ip | ip in peers && peers[ip].dirty :: peers[ip].anomaly.Saved();
    }

    /** Marks every source clean after a successful checkpoint. */
    method ClearAnomalyDirty()
      requires Valid()
      modifies `peers
      ensures Valid() && Value() == R.Cleaned(old(Value()))
    {
      hide M.PeerState.Valid;
      R.CleanedKeepsValid(Value());
      peers := map ip | ip in peers :: peers[ip].(dirty := false);
    }

    /** Restores a source's detector state; honours the peer ceiling. */
    method ImportAnomaly(peer: Ip, row: Detectors.Snapshot)
      requires Valid() && row.Valid()
      modifies `peers
      ensures Valid() && Value() == R.Imported(w, old(Value()), peer, row)
    {
      hide M.PeerState.Valid, M.NewPeer, Detectors.FromSnapshot;
      R.ImportedKeepsValid(w, Value(), peer, row);
      if |peers| >= M.MAX_PEERS && peer !in peers {
        return;
      }
      var ps := if peer in peers then peers[peer] else M.NewPeer(w, w.defaultPlan, params);
      peers := peers[peer := ps.(anomaly := Detectors.FromSnapshot(w.num, params, row), dirty := false)];
    }

    /** Declares a source's dial plan. */
    method DeclareDialPlan(peer: Ip, plan: nat)
      requires Valid()
      modifies `peers
      ensures Valid() && Value() == R.Declared(w, old(Value()), peer, plan)
    {
      hide M.PeerState.Valid;
      R.DeclaredKeepsValid(w, Value(), peer, plan);
      DefaultsAreValid(w.num);
      if peer !in peers {
        peers := peers[peer := M.NewPeer(w, plan, Defaults(w.num))];
      } else {
        peers := peers[peer := peers[peer].(plan := plan)];
      }
    }

    method SetMode(mode: M.Mode)
      requires Valid()
      modifies `mode
      ensures Valid() && Value() == old(Value()).(mode := mode)
    {
      this.mode := mode;
    }
  }
}
