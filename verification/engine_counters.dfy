/** Conservation of the engine's counters: every outcome counted was once an attempt or a
    call, and nothing is counted twice. */
module EngineCounters {
  import opened Numerics
  import opened Calibration
  import opened EngineModel
  import opened EngineRuns
  import Detectors
  import CompletionArm
  import Pending
  import Sums
  import RegProbes
  import AuthFailures

  function AuthSizes(peers: map<Ip, PeerState>): map<Ip, nat> {
    map ip | ip in peers :: |peers[ip].pending|
  }

  function CallSizes(peers: map<Ip, PeerState>): map<Ip, nat> {
    map ip | ip in peers :: |peers[ip].pendingIntl|
  }

  /** Authenticated transactions still waiting, over all sources. */
  ghost function AuthsWaiting(st: State): nat {
    Sums.SumN(AuthSizes(st.peers))
  }

  /** International calls still waiting, over all sources. */
  ghost function CallsWaiting(st: State): nat {
    Sums.SumN(CallSizes(st.peers))
  }

  /** Attempts that are neither answered nor waiting. */
  ghost function AuthSlack(st: State): int {
    var a := st.stats.auth;
    a.attempts - a.ok - a.failures - AuthsWaiting(st)
  }

  /** International calls not resolved yet. */
  function Unresolved(c: CallStats): int {
    c.international - c.completed - c.failed - c.unanswered - c.unknownCountry - c.domestic
  }

  /** International calls that are neither resolved nor waiting. */
  ghost function CallSlack(st: State): int {
    var c := st.stats.calls;
    Unresolved(c) - CallsWaiting(st)
  }

  predicate Subsets(c: CallStats) {
    c.unroutable <= c.failed && c.prefixNovel <= c.international && c.rangeNovel <= c.international
  }

  ghost predicate Conserved(st: State) {
    AuthSlack(st) >= 0 && CallSlack(st) >= 0 && Subsets(st.stats.calls)
  }

  // ---- one source's share ----

  /** Attempts of the counters that are neither answered nor waiting with this source. */
  function AuthShare(c: Case): int {
    c.auth.attempts - c.auth.ok - c.auth.failures - |c.ps.pending|
  }

  /** International calls that are neither resolved nor waiting with this source. */
  function CallShare(c: Case): int {
    Unresolved(c.calls) - |c.ps.pendingIntl|
  }

  lemma CredentialsBalance(c: Case, responder: Option<Ip>, req: Request, at: nat)
    requires c.ps.Valid()
    ensures var after := Credentials(c, responder, req, at).0;
            AuthShare(after) >= AuthShare(c) && CallShare(after) == CallShare(c) && after.calls == c.calls
  {
    hide RegProbes.Ring.Recorded, RegProbes.Ring.Live, SlidingCounts.Ring.Recorded, SlidingCounts.Ring.Live, Pending.Remembered,
         Detectors.Detector.Valid;
    if req.key.Some? {
      Pending.RememberedLaws(c.ps.pending, CredentialEntry(req, req.key.value, responder, at));
    }
  }

  lemma EnforcedBalances(c: CallStats, mode: Mode, v: Detectors.Verdict, country: Option<nat>, at: nat)
    requires v.fired
    ensures var after := Enforced(c, mode, v, country, at).0;
            Unresolved(after) == Unresolved(c) && (Subsets(c) ==> Subsets(after))
  {
  }

  lemma DecideBalances(w: World, c: Case, mode: Mode, responder: Option<Ip>, req: Request, call: Detectors.Call, at: nat)
    requires c.ps.Valid()
    ensures var after := Decide(w, c, mode, responder, req, call, at).0;
            && AuthShare(after) == AuthShare(c) && CallShare(after) >= CallShare(c) - 1
            && ((c.calls.unroutable <= c.calls.failed && c.calls.prefixNovel + 1 <= c.calls.international
                 && c.calls.rangeNovel + 1 <= c.calls.international) ==> Subsets(after.calls))
  {
    hide Pending.Remembered, Pending.Valid, Enforced, Detectors.Detector.Called, Detectors.Detector.Fused, Detectors.Detector.Valid;
    DetectorNumbers(c.ps.anomaly);
    var v := c.ps.anomaly.Observe(w.num, call, at).1;
    if req.key.Some? {
      Pending.RememberedLaws(c.ps.pendingIntl, Pending.Entry(req.key.value, at, responder, None,
                                                             CompletionArm.Novelty(v.firstRange, v.firstNumber)));
    }
    if v.fired {
      EnforcedBalances(c.calls.(novel := c.calls.novel + (if v.firstTime then 1 else 0),
                                prefixNovel := c.calls.prefixNovel + (if v.firstPrefix then 1 else 0),
                                rangeNovel := c.calls.rangeNovel + (if v.firstRange then 1 else 0)),
                       mode, v, Some(call.country), at);
    }
  }

  lemma InvitedBalances(w: World, c: Case, mode: Mode, responder: Option<Ip>, req: Request, at: nat)
    requires c.ps.Valid()
    ensures var after := Invited(w, c, mode, responder, req, at).0;
            && AuthShare(after) == AuthShare(c) && CallShare(after) >= CallShare(c)
            && (Subsets(c.calls) ==> Subsets(after.calls))
  {
    hide Decide, PeerState.Valid;
    if NeedsEntry(w, req) && w.international(c.ps.plan, req.dialed.value).Some? {
      var intl := w.international(c.ps.plan, req.dialed.value).value;
      if w.country(intl.digits).Some? {
        var abroad := c.(calls := c.calls.(invites := c.calls.invites + 1, international := c.calls.international + 1));
        DecideBalances(w, abroad, mode, responder, req,
                       Detectors.Call(w.country(intl.digits).value, intl.prefix, intl.digits), at);
      }
    }
  }

  lemma AskedBalances(w: World, c: Case, mode: Mode, responder: Option<Ip>, req: Request, at: nat)
    requires c.ps.Valid()
    ensures Kept(c, Asked(w, c, mode, responder, req, at).0)
  {
    hide Credentials, Invited, PeerState.Valid, AuthShare, CallShare;
    CredentialsBalance(c, responder, req, at);
    CredentialsKeepValid(c, responder, req, at);
    InvitedBalances(w, Credentials(c, responder, req, at).0, mode, responder, req, at);
  }

  /** A handler lets neither share shrink, nor a part outgrow its whole. */
  predicate Kept(c: Case, after: Case) {
    AuthShare(after) >= AuthShare(c) && CallShare(after) >= CallShare(c) && (Subsets(c.calls) ==> Subsets(after.calls))
  }

  lemma ClaimsBalance(c: Case, key: string, src: Ip, r: Response)
    requires c.ps.Valid()
    ensures var (auth, intl, ps) := Claims(c.ps, key, src, r); var claimed := c.(ps := ps);
            && AuthShare(claimed) == AuthShare(c) + (if auth.Some? then 1 else 0)
            && CallShare(claimed) == CallShare(c) + (if intl.Some? then 1 else 0)
  {
    hide Pending.Claimed, Detectors.Detector.Valid;
    Pending.ClaimedLaws(c.ps.pending, key, src);
    Pending.ClaimedLaws(c.ps.pendingIntl, key, src);
  }

  lemma AuthAnsweredBalances(c: Case, e: Pending.Entry, r: Response, at: nat)
    requires c.ps.Valid()
    ensures var after := AuthAnswered(c, e, r, at).0;
            AuthShare(after) >= AuthShare(c) - 1 && CallShare(after) == CallShare(c) && after.calls == c.calls
  {
    hide Detectors.Detector.Valid, Pending.Valid, AuthFailures.Ring.Recorded, AuthFailures.Ring.Forgiven,
         AuthFailures.Ring.Live, RegProbes.Ring.Removed;
  }

  lemma CallAnsweredBalances(w: World, c: Case, mode: Mode, e: Pending.Entry, status: nat, at: nat)
    ensures var after := CallAnswered(w, c, mode, e, status, at).0;
            && AuthShare(after) == AuthShare(c) && CallShare(after) >= CallShare(c) - 1
            && (Subsets(c.calls) ==> Subsets(after.calls))
  {
    hide Detectors.Detector.ObserveCompletion, Enforced;
    var outcome := CompletionArm.FromStatus(status);
    if outcome.Some? {
      var v := c.ps.anomaly.ObserveCompletion(w.num, outcome.value, e.novel, at).1;
      if v.fired {
        EnforcedBalances(CountOutcome(c.calls, outcome.value), mode, v, None, at);
      }
    }
  }

  lemma AnsweredBalances(w: World, c: Case, mode: Mode, key: string, src: Ip, r: Response, at: nat)
    requires c.ps.Valid()
    ensures Kept(c, Answered(w, c, mode, key, src, r, at).0)
  {
    hide Claims, AuthAnswered, CallAnswered, PeerState.Valid, AuthShare, CallShare, Subsets;
    var (auth, intl, ps) := Claims(c.ps, key, src, r);
    var claimed := c.(ps := ps);
    ClaimsKeepValid(c.ps, key, src, r);
    ClaimsBalance(c, key, src, r);
    if auth.Some? {
      AuthAnsweredBalances(claimed, auth.value, r, at);
    }
    if intl.Some? {
      CallAnsweredBalances(w, if auth.Some? then AuthAnswered(claimed, auth.value, r, at).0 else claimed, mode, intl.value,
                           r.status, at);
    }
  }

  // ---- all sources ----

  /** Replacing one source changes the totals by the difference. */
  lemma WaitingAfterWith(st: State, ip: Ip, ps: PeerState)
    ensures var after := st.(peers := st.peers[ip := ps]);
            && AuthsWaiting(after) == AuthsWaiting(st) + |ps.pending| - (if ip in st.peers then |st.peers[ip].pending| else 0)
            && CallsWaiting(after) == CallsWaiting(st) + |ps.pendingIntl| - (if ip in st.peers then |st.peers[ip].pendingIntl| else 0)
  {
    assert AuthSizes(st.peers[ip := ps]) == AuthSizes(st.peers)[ip := |ps.pending|];
    assert CallSizes(st.peers[ip := ps]) == CallSizes(st.peers)[ip := |ps.pendingIntl|];
    Sums.SumNUpdate(AuthSizes(st.peers), ip, |ps.pending|);
    Sums.SumNUpdate(CallSizes(st.peers), ip, |ps.pendingIntl|);
  }

  /** Two states with the same tables waiting and the same counters are equally balanced. */
  lemma SameTables(x: State, y: State)
    requires AuthSizes(x.peers) == AuthSizes(y.peers) && CallSizes(x.peers) == CallSizes(y.peers)
    ensures AuthsWaiting(x) == AuthsWaiting(y) && CallsWaiting(x) == CallsWaiting(y)
  {
  }

  /** Filing a case back moves the totals as the case moved. */
  lemma FiledBalances(w: World, st: State, ip: Ip, before: Case, after: Case)
    requires st.Valid() && before == Case(PeerOf(w, st, ip), st.stats.auth, st.stats.calls)
    requires Kept(before, after) && Conserved(st)
    ensures Conserved(Filed(st, ip, after))
  {
    hide AuthsWaiting, CallsWaiting, PeerState.Valid, Detectors.New;
    WaitingAfterWith(st, ip, after.ps);
    SameTables(st.(peers := st.peers[ip := after.ps]), Filed(st, ip, after));
  }

  lemma RequestBalances(w: World, st: State, peer: Ip, responder: Option<Ip>, req: Request, at: nat)
    requires st.Valid() && Conserved(st)
    ensures Conserved(ObserveRequest(w, st, peer, responder, req, at).0)
  {
    hide Asked, AuthsWaiting, CallsWaiting, PeerState.Valid, NewPeer, PeerOf, Kept;
    var after := ObserveRequest(w, st, peer, responder, req, at).0;
    if req.perimeter == Clean && st.HasRoomFor(peer) {
      PeerOfIsValid(w, st, peer);
      var c := Case(PeerOf(w, st, peer), st.stats.auth, st.stats.calls);
      AskedBalances(w, c, st.mode, responder, req, at);
      if Enters(w, req) {
        FiledBalances(w, st, peer, c, Asked(w, c, st.mode, responder, req, at).0);
      } else {
        IdleBalances(w, c, st.mode, responder, req, at);
        SameTables(st, after);
      }
    } else {
      SameTables(st, after);
    }
  }

  lemma IdleBalances(w: World, c: Case, mode: Mode, responder: Option<Ip>, req: Request, at: nat)
    requires c.ps.Valid() && !Enters(w, req)
    ensures var after := Asked(w, c, mode, responder, req, at).0;
            after.auth == c.auth && (after.calls == c.calls || after.calls == c.calls.(invites := c.calls.invites + 1))
  {
  }

  lemma KnownBalances(st: State, peer: Ip, at: nat)
    ensures Conserved(Known(st, peer, at)) <==> Conserved(st)
  {
    hide AuthsWaiting, CallsWaiting;
    SameTables(st, Known(st, peer, at));
  }

  /** A challenge heard moves no counter that is balanced. */
  lemma HeardBalances(st: State, a: AuthStats)
    requires Conserved(st) && a == st.stats.auth.(challenges := a.challenges)
    ensures Conserved(st.(stats := st.stats.(auth := a)))
  {
    hide AuthsWaiting, CallsWaiting;
    SameTables(st, st.(stats := st.stats.(auth := a)));
  }

  lemma ResponseBalances(w: World, st: State, peer: Ip, src: Ip, r: Response, at: nat)
    requires st.Valid() && Conserved(st)
    ensures Conserved(ObserveResponse(w, st, peer, src, r, at).0)
  {
    hide Answered, Registers, Conserved, PeerState.Valid, State.Valid, Kept, Filed, Known;
    var a := st.stats.auth;
    var heard := st.(stats := st.stats.(auth := if r.IsChallenge() then a.(challenges := a.challenges + 1) else a));
    HeardBalances(st, heard.stats.auth);
    if r.key.Some? && peer in st.peers {
      HeardIsValid(w, st, heard, peer);
      var c := Case(st.peers[peer], heard.stats.auth, st.stats.calls);
      var after := Answered(w, c, st.mode, r.key.value, src, r, at).0;
      AnsweredBalances(w, c, st.mode, r.key.value, src, r, at);
      FiledBalances(w, heard, peer, c, after);
      FiledInEither(st, heard, peer, after);
      KnownBalances(Filed(heard, peer, after), peer, at);
    }
  }

  lemma HeardIsValid(w: World, st: State, heard: State, peer: Ip)
    requires st.Valid() && heard == st.(stats := heard.stats) && peer in st.peers
    ensures heard.Valid() && st.peers[peer].Valid() && PeerOf(w, heard, peer) == st.peers[peer]
  {
    hide PeerState.Valid;
  }

  lemma FiledInEither(st: State, heard: State, peer: Ip, c: Case)
    requires heard == st.(stats := st.stats.(auth := heard.stats.auth))
    ensures Filed(st, peer, c) == Filed(heard, peer, c)
  {
  }

  lemma ObserveBalances(w: World, st: State, p: Packet)
    requires st.Valid() && Conserved(st)
    ensures Conserved(Observe(w, st, p).0)
  {
    hide ObserveRequest, ObserveResponse, PeerState.Valid, AuthsWaiting, CallsWaiting, Subsets;
    var s := st.stats;
    match p.payload
    case Answering(r) =>
      var noted := st.(stats := s.(wire := s.wire.Seen(), heard := s.heard.(responses := s.heard.responses + 1)));
      SameTables(st, noted);
      ResponseBalances(w, noted, p.dst, p.src, r, p.at);
    case Asking(req) =>
      var noted := st.(stats := s.(wire := s.wire.Seen().(sipParsed := s.wire.sipParsed + 1)));
      SameTables(st, noted);
      RequestBalances(w, noted, p.src, p.Responder(), req, p.at);
    case _ => SameTables(st, Observe(w, st, p).0);
  }

  lemma RecalibratedBalances(w: World, st: State)
    requires st.Valid() && Conserved(st)
    ensures Conserved(Recalibrated(w, st))
  {
    hide AuthsWaiting, CallsWaiting, PeerState.Valid, Fitted, Detectors.Detector.Recalibrated;
    FittedIsValid(st);
    forall ip | ip in st.peers ensures st.peers[ip].anomaly.numbers.Valid() {
      NumbersAreValid(st.peers[ip]);
    }
    assert AuthSizes(Recalibrated(w, st).peers) == AuthSizes(st.peers);
    assert CallSizes(Recalibrated(w, st).peers) == CallSizes(st.peers);
    SameTables(st, Recalibrated(w, st));
  }

  lemma DeclaredBalances(w: World, st: State, peer: Ip, plan: nat)
    requires st.Valid() && Conserved(st)
    ensures Conserved(Declared(w, st, peer, plan))
  {
    hide AuthsWaiting, CallsWaiting;
    DefaultsAreValid(w.num);
    WaitingAfterWith(st, peer, Declared(w, st, peer, plan).peers[peer]);
  }

  lemma ImportedBalances(w: World, st: State, peer: Ip, row: Detectors.Snapshot)
    requires st.Valid() && Conserved(st)
    ensures Conserved(Imported(w, st, peer, row))
  {
    hide AuthsWaiting, CallsWaiting, Detectors.New, Detectors.FromSnapshot;
    if st.HasRoomFor(peer) {
      WaitingAfterWith(st, peer, Imported(w, st, peer, row).peers[peer]);
    }
  }

  lemma CleanedBalances(st: State)
    requires st.Valid() && Conserved(st)
    ensures Conserved(Cleaned(st))
  {
    hide AuthsWaiting, CallsWaiting;
    assert AuthSizes(Cleaned(st).peers) == AuthSizes(st.peers);
    assert CallSizes(Cleaned(st).peers) == CallSizes(st.peers);
    SameTables(st, Cleaned(st));
  }

  lemma StepBalances(w: World, st: State, op: Op)
    requires st.Valid() && op.Valid() && Conserved(st)
    ensures Conserved(Step(w, st, op))
  {
    hide AuthsWaiting, CallsWaiting, Observe, PeerState.Valid, Recalibrated, Declared, Imported, Cleaned;
    match op
    case Receive(p) => ObserveBalances(w, st, p);
    case Recalibrate => RecalibratedBalances(w, st);
    case SetMode(mode) => SameTables(st, st.(mode := mode));
    case Declare(peer, plan) => DeclaredBalances(w, st, peer, plan);
    case Import(peer, row) => ImportedBalances(w, st, peer, row);
    case MarkClean => CleanedBalances(st);
  }

  /** In every reachable state: accepted and rejected credentials plus those still waiting are
      at most the attempts; answered calls plus those waiting, unknown and domestic are at
      most the international calls; unroutable answers are among the failures and novelty is
      counted at most once a call. */
  lemma {:induction false} CountersAreConserved(w: World, mode: Mode, ops: seq<Op>, n: nat)
    requires n <= |ops| && AllValid(ops)
    ensures Initial(w, mode).Valid()
    ensures var st := Run(w, Initial(w, mode), ops, n);
            && st.stats.auth.ok + st.stats.auth.failures + AuthsWaiting(st) <= st.stats.auth.attempts
            && st.stats.calls.completed + st.stats.calls.failed + st.stats.calls.unanswered + CallsWaiting(st)
               + st.stats.calls.unknownCountry + st.stats.calls.domestic <= st.stats.calls.international
            && st.stats.calls.unroutable <= st.stats.calls.failed
            && st.stats.calls.prefixNovel <= st.stats.calls.international
            && st.stats.calls.rangeNovel <= st.stats.calls.international
            && Conserved(st)
  {
    InitialIsValid(w, mode);
    if n == 0 {
      assert AuthSizes(map[]) == map[] && CallSizes(map[]) == map[];
    } else {
      hide Step, AuthsWaiting, CallsWaiting;
      CountersAreConserved(w, mode, ops, n - 1);
      StepBalances(w, Run(w, Initial(w, mode), ops, n - 1), ops[n - 1]);
    }
  }

  /** So the rates every recalibration starts from are true rates before any clamping. */
  lemma FittedRatesAreRates(w: World, mode: Mode, ops: seq<Op>, n: nat)
    requires n <= |ops| && AllValid(ops)
    ensures Initial(w, mode).Valid()
    ensures var c := Run(w, Initial(w, mode), ops, n).stats.calls;
            && (c.international > 0 ==>
                  (0.0 <= c.prefixNovel as real / c.international as real <= 1.0
                   && 0.0 <= c.rangeNovel as real / c.international as real <= 1.0))
            && (c.completed + c.failed > 0 ==>
                  0.0 <= c.unroutable as real / (c.completed + c.failed) as real
                      <= c.failed as real / (c.completed + c.failed) as real <= 1.0)
  {
    CountersAreConserved(w, mode, ops, n);
    var c := Run(w, Initial(w, mode), ops, n).stats.calls;
    if c.international > 0 {
      RatioOfParts(c.prefixNovel, c.international, c.international);
      RatioOfParts(c.rangeNovel, c.international, c.international);
    }
    if c.completed + c.failed > 0 {
      RatioOfParts(c.unroutable, c.failed, c.completed + c.failed);
      RatioOfParts(c.failed, c.completed + c.failed, c.completed + c.failed);
    }
  }

  lemma RatioOfParts(part: nat, more: nat, whole: nat)
    requires part <= more <= whole && whole > 0
    ensures 0.0 <= part as real / whole as real <= more as real / whole as real <= 1.0
  {
    DivisionMonotone(0.0, part as real, whole as real);
    DivisionMonotone(part as real, more as real, whole as real);
    DivisionMonotone(more as real, whole as real, whole as real);
  }

  lemma DivisionMonotone(x: real, y: real, d: real)
    requires x <= y && 0.0 < d
    ensures x / d <= y / d
  {
    var p, q := x / d, y / d;
    assert (q - p) * d == y - x;
  }
}
