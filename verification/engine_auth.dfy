/** What an authentication verdict proves about the packets before it, and why a forged
    answer moves nothing. */
module EngineAuth {
  import opened Numerics
  import opened Calibration
  import opened EngineModel
  import opened EngineRuns
  import opened EngineEffects
  import Detectors
  import Pending
  import AuthFailures

  // ---- one source's tables ----

  function FailuresOf(st: State, s: Ip): AuthFailures.Ring {
    if s in st.peers then st.peers[s].failures else AuthFailures.Empty()
  }

  function PendingOf(st: State, s: Ip): seq<Pending.Entry> {
    if s in st.peers then st.peers[s].pending else []
  }

  function IntlOf(st: State, s: Ip): seq<Pending.Entry> {
    if s in st.peers then st.peers[s].pendingIntl else []
  }

  lemma TablesOf(w: World, st: State, s: Ip)
    requires st.Valid()
    ensures var ps := PeerOf(w, st, s);
            && ps.failures == FailuresOf(st, s) && ps.pending == PendingOf(st, s) && ps.pendingIntl == IntlOf(st, s)
            && FailuresOf(st, s).Valid() && Pending.Valid(PendingOf(st, s)) && Pending.Valid(IntlOf(st, s))
  {
  }

  /** The operation is an attempt of `s`: a clean credentialed request not stopped as a scan. */
  predicate Attempts(w: World, st: State, op: Op, s: Ip)
    requires st.Valid()
  {
    && Heeded(st, op, s) && op.p.payload.request.credentialed
    && (PeerOfIsValid(w, st, s); !Scans(PeerOf(w, st, s), op.p.payload.request, op.p.at))
  }

  /** The attempt is remembered, room permitting, under this key. */
  predicate SendsCredential(w: World, st: State, op: Op, s: Ip, key: string)
    requires st.Valid()
  {
    Attempts(w, st, op, s) && op.p.payload.request.key == Some(key)
  }

  /** The entry is what such a credential leaves to be answered. */
  predicate SentCredential(w: World, st: State, op: Op, s: Ip, e: Pending.Entry)
    requires st.Valid()
  {
    && SendsCredential(w, st, op, s, e.key)
    && e == CredentialEntry(op.p.payload.request, e.key, op.p.Responder(), op.p.at)
  }

  /** The operation is an INVITE of `s` that reaches the detector as an international call, and is
      remembered, room permitting, under this key. */
  predicate PlacesCall(w: World, st: State, op: Op, s: Ip, key: string)
    requires st.Valid()
  {
    && Heeded(st, op, s) && op.p.payload.request.key == Some(key)
    && (PeerOfIsValid(w, st, s); CallMade(w, PeerOf(w, st, s), op.p.payload.request, op.p.at).Some?)
  }

  /** The entry is what such a call leaves to be answered: with what the detector reported new
      about it. */
  predicate SentCall(w: World, st: State, op: Op, s: Ip, e: Pending.Entry)
    requires st.Valid()
  {
    && PlacesCall(w, st, op, s, e.key)
    && (PeerOfIsValid(w, st, s);
        var ps := PeerOf(w, st, s);
        var v := CallVerdict(w, ps, CallMade(w, ps, op.p.payload.request, op.p.at), op.p.at).value;
        e == CallEntry(e.key, op.p.Responder(), v, op.p.at))
  }

  // ---- what a packet means to one source's failure ring ----

  /** The credential this operation's answer claims from `s`, if it is such an answer. */
  function ClaimedCredential(st: State, op: Op, s: Ip): Option<Pending.Entry> {
    if Heard(st, op, s) then Claims(st.peers[s], op.p.payload.response.key.value, op.p.src, op.p.payload.response).0 else None
  }

  /** The call this operation's answer claims from `s`, if it is such an answer. */
  function ClaimedCall(st: State, op: Op, s: Ip): Option<Pending.Entry> {
    if Heard(st, op, s) then Claims(st.peers[s], op.p.payload.response.key.value, op.p.src, op.p.payload.response).1 else None
  }

  /** The operation as the failure ring of `s` meets it: a claimed credential rejected or
      accepted, or nothing. */
  function AuthOpOf(st: State, op: Op, s: Ip): AuthFailures.Op {
    var claimed := ClaimedCredential(st, op, s);
    if claimed.None? then AuthFailures.Quiet
    else if op.p.payload.response.IsSuccess() then AuthFailures.Accept(AccountOf(claimed.value))
    else if op.p.payload.response.IsChallenge() then AuthFailures.Reject(AccountOf(claimed.value), op.p.at)
    else AuthFailures.Quiet
  }

  lemma AdministrationKeepsTables(w: World, st: State, op: Op, s: Ip)
    requires st.Valid() && op.Valid() && !op.Receive?
    ensures FailuresOf(Step(w, st, op), s) == FailuresOf(st, s)
    ensures PendingOf(Step(w, st, op), s) == PendingOf(st, s) && IntlOf(Step(w, st, op), s) == IntlOf(st, s)
  {
    hide Step, PeerState.Valid;
    if s in Step(w, st, op).peers {
      AdministrationEffect(w, st, op, s);
    } else if s in st.peers {
      SourcesStay(w, st, op, s);
    }
  }

  lemma SourcesStay(w: World, st: State, op: Op, s: Ip)
    requires st.Valid() && op.Valid() && !op.Receive? && s in st.peers
    ensures s in Step(w, st, op).peers
  {
    hide Fitted, PeerState.Valid, Detectors.Detector.Recalibrated, Detectors.FromSnapshot;
    FittedIsValid(st);
    DefaultsAreValid(w.num);
  }

  /** The failure ring of every source takes exactly the step the packet means to it. */
  lemma FailureRingStep(w: World, st: State, op: Op, s: Ip)
    requires st.Valid() && op.Valid()
    ensures FailuresOf(st, s).Valid()
    ensures FailuresOf(Step(w, st, op), s) == AuthFailures.Stepped(FailuresOf(st, s), AuthOpOf(st, op, s))
  {
    hide Step, PeerState.Valid, FailuresOf, CallFed, CallMade, OutcomeFed, OutcomeHeard, Pending.Claimed, NewPeer,
         AuthFailures.Ring.Recorded, AuthFailures.Ring.Forgiven;
    TablesOf(w, st, s);
    if !op.Receive? {
      AdministrationKeepsTables(w, st, op, s);
    } else {
      StepKeepsValid(w, st, op);
      TablesOf(w, Step(w, st, op), s);
      SourceEffect(w, st, op, s);
    }
  }

  /** An authentication verdict is given exactly when this answer rejects a claimed credential
      and its account then fills the ring. */
  lemma VerdictIsTheRing(w: World, st: State, op: Op)
    requires st.Valid() && op.Receive? && op.Valid()
    ensures FailuresOf(Step(w, st, op), op.p.dst).Valid()
    ensures Observe(w, st, op.p).2.AuthFailure?
       <==> AuthOpOf(st, op, op.p.dst).Reject?
            && |FailuresOf(Step(w, st, op), op.p.dst).Live(AuthOpOf(st, op, op.p.dst).aor, op.p.at, AuthFailures.WINDOW_SECS)|
               >= AuthFailures.SIZE
    ensures Observe(w, st, op.p).2.AuthFailure? ==> Observe(w, st, op.p).1 == op.p.dst
  {
    hide Step, Observe, PeerState.Valid, FailuresOf, Scans, Abuses, CalledFor, VerdictOn, Pending.Claimed, NewPeer,
         AuthFailures.Ring.Live;
    var s := Observe(w, st, op.p).1;
    SubjectIsOneSide(w, st, op.p);
    StepKeepsValid(w, st, op);
    TablesOf(w, Step(w, st, op), op.p.dst);
    SourceDecision(w, st, op, s, Observe(w, st, op.p).2);
  }

  // ---- where a waiting entry came from ----

  /** The attempt has a key: its source's waiting credentials are pruned and this one remembered,
      room permitting. */
  predicate SendsSome(w: World, st: State, op: Op, s: Ip)
    requires st.Valid()
  {
    Attempts(w, st, op, s) && op.p.payload.request.key.Some?
  }

  /** The call that reaches the detector has a key: its source's waiting calls are pruned and this
      one remembered, room permitting. */
  predicate PlacesSome(w: World, st: State, op: Op, s: Ip)
    requires st.Valid()
  {
    && Heeded(st, op, s) && op.p.payload.request.key.Some?
    && (PeerOfIsValid(w, st, s); CallMade(w, PeerOf(w, st, s), op.p.payload.request, op.p.at).Some?)
  }

  /** An older waiting credential that the operation neither sends again nor claims, nor prunes. */
  predicate CredentialStays(w: World, st: State, op: Op, s: Ip, e: Pending.Entry)
    requires st.Valid()
  {
    && e in PendingOf(st, s) && !SendsCredential(w, st, op, s, e.key)
    && (ClaimedCredential(st, op, s).Some? ==> ClaimedCredential(st, op, s).value.key != e.key)
    && (SendsSome(w, st, op, s) ==> SatSub(op.p.at, e.at) < 32)
  }

  /** The same for a call. */
  predicate CallStays(w: World, st: State, op: Op, s: Ip, e: Pending.Entry)
    requires st.Valid()
  {
    && e in IntlOf(st, s) && !PlacesCall(w, st, op, s, e.key)
    && (ClaimedCall(st, op, s).Some? ==> ClaimedCall(st, op, s).value.key != e.key)
    && (PlacesSome(w, st, op, s) ==> SatSub(op.p.at, e.at) < 32)
  }

  /** A credential waits after an operation exactly when the operation sent it and there was room,
      or it waited and the operation neither sent it again nor claimed nor pruned it. */
  lemma PendingStep(w: World, st: State, op: Op, s: Ip, e: Pending.Entry)
    requires st.Valid() && op.Valid()
    ensures e in PendingOf(Step(w, st, op), s)
       <==> if SentCredential(w, st, op, s, e) then Pending.HasRoom(PendingOf(st, s), e) else CredentialStays(w, st, op, s, e)
  {
    hide Step, PeerState.Valid, PendingOf, CallFed, CallMade, OutcomeFed, OutcomeHeard, Pending.Claimed, Pending.Remembered,
         Pending.HasRoom, NewPeer, Scans;
    TablesOf(w, st, s);
    if !op.Receive? {
      AdministrationKeepsTables(w, st, op, s);
    } else {
      StepKeepsValid(w, st, op);
      TablesOf(w, Step(w, st, op), s);
      SourceEffect(w, st, op, s);
      if Heeded(st, op, s) {
        var req := op.p.payload.request;
        if req.key.Some? {
          Pending.RememberedLaws(PendingOf(st, s), CredentialEntry(req, req.key.value, op.p.Responder(), op.p.at));
        }
      } else if Heard(st, op, s) {
        Pending.ClaimedLaws(PendingOf(st, s), op.p.payload.response.key.value, op.p.src);
      }
    }
  }

  /** The same for calls. */
  lemma IntlStep(w: World, st: State, op: Op, s: Ip, e: Pending.Entry)
    requires st.Valid() && op.Valid()
    ensures e in IntlOf(Step(w, st, op), s)
       <==> if SentCall(w, st, op, s, e) then Pending.HasRoom(IntlOf(st, s), e) else CallStays(w, st, op, s, e)
  {
    hide Step, PeerState.Valid, IntlOf, OutcomeFed, OutcomeHeard, Pending.Claimed, Pending.Remembered, Pending.HasRoom, NewPeer,
         CallMade, Detectors.Detector.Observe;
    TablesOf(w, st, s);
    if !op.Receive? {
      AdministrationKeepsTables(w, st, op, s);
    } else {
      StepKeepsValid(w, st, op);
      TablesOf(w, Step(w, st, op), s);
      SourceEffect(w, st, op, s);
      if Heeded(st, op, s) {
        var req, ps := op.p.payload.request, PeerOf(w, st, s);
        var call := CallMade(w, ps, req, op.p.at);
        if call.Some? && req.key.Some? {
          Pending.RememberedLaws(IntlOf(st, s), CallEntry(req.key.value, op.p.Responder(),
                                                          CallVerdict(w, ps, call, op.p.at).value, op.p.at));
        }
      } else if Heard(st, op, s) {
        Pending.ClaimedLaws(IntlOf(st, s), op.p.payload.response.key.value, op.p.src);
      }
    }
  }

  /** Operation i claims a waiting credential of `s` under this key. */
  ghost predicate ClaimsKey(w: World, st: State, ops: seq<Op>, i: nat, s: Ip, key: string)
    requires i < |ops| && AllValid(ops) && st.Valid()
  {
    var c := ClaimedCredential(Run(w, st, ops, i), ops[i], s);
    c.Some? && c.value.key == key
  }

  /** Operation i claims a waiting call of `s` under this key. */
  ghost predicate ClaimsCall(w: World, st: State, ops: seq<Op>, i: nat, s: Ip, key: string)
    requires i < |ops| && AllValid(ops) && st.Valid()
  {
    var c := ClaimedCall(Run(w, st, ops, i), ops[i], s);
    c.Some? && c.value.key == key
  }

  /** Operation r is the latest credential of `s` under this key before operation n, and none
      was claimed since. */
  ghost predicate CredentialStands(w: World, st: State, ops: seq<Op>, r: nat, n: nat, s: Ip, key: string)
    requires n <= |ops| && AllValid(ops) && st.Valid()
  {
    && r < n && SendsCredential(w, Run(w, st, ops, r), ops[r], s, key)
    && forall i :: r < i < n ==> !ClaimsKey(w, st, ops, i, s, key) && !SendsCredential(w, Run(w, st, ops, i), ops[i], s, key)
  }

  /** Operation r is the latest call of `s` under this key before operation n, and none was
      claimed since. */
  ghost predicate CallStands(w: World, st: State, ops: seq<Op>, r: nat, n: nat, s: Ip, key: string)
    requires n <= |ops| && AllValid(ops) && st.Valid()
  {
    && r < n && PlacesCall(w, Run(w, st, ops, r), ops[r], s, key)
    && forall i :: r < i < n ==> !ClaimsCall(w, st, ops, i, s, key) && !PlacesCall(w, Run(w, st, ops, i), ops[i], s, key)
  }

  lemma NobodyWaitsAtFirst(w: World, mode: Mode, ops: seq<Op>, s: Ip)
    requires AllValid(ops) && Initial(w, mode).Valid()
    ensures var st := Run(w, Initial(w, mode), ops, 0);
            PendingOf(st, s) == [] && IntlOf(st, s) == [] && FailuresOf(st, s) == AuthFailures.Empty()
  {
  }

  /** Every waiting credential is the latest its source sent under its key, and not claimed
      since. */
  lemma {:induction false} WaitingWasSent(w: World, mode: Mode, ops: seq<Op>, n: nat, s: Ip, e: Pending.Entry)
    returns (r: nat)
    requires n <= |ops| && AllValid(ops) && Initial(w, mode).Valid()
    requires e in PendingOf(Run(w, Initial(w, mode), ops, n), s)
    ensures CredentialStands(w, Initial(w, mode), ops, r, n, s, e.key)
    ensures SentCredential(w, Run(w, Initial(w, mode), ops, r), ops[r], s, e)
  {
    hide Run, Step, ClaimedCredential, SendsCredential, PendingOf, Initial;
    if n == 0 {
      NobodyWaitsAtFirst(w, mode, ops, s);
      assert false;
    }
    var st := Run(w, Initial(w, mode), ops, n - 1);
    RunStep(w, Initial(w, mode), ops, n - 1);
    PendingStep(w, st, ops[n - 1], s, e);
    if SentCredential(w, st, ops[n - 1], s, e) {
      r := n - 1;
    } else {
      r := WaitingWasSent(w, mode, ops, n - 1, s, e);
    }
  }

  /** Every waiting call is the latest its source placed under its key, with what was new about
      that one, and not claimed since. */
  lemma {:induction false} WaitingCallWasSent(w: World, mode: Mode, ops: seq<Op>, n: nat, s: Ip, e: Pending.Entry)
    returns (r: nat)
    requires n <= |ops| && AllValid(ops) && Initial(w, mode).Valid()
    requires e in IntlOf(Run(w, Initial(w, mode), ops, n), s)
    ensures CallStands(w, Initial(w, mode), ops, r, n, s, e.key)
    ensures SentCall(w, Run(w, Initial(w, mode), ops, r), ops[r], s, e)
  {
    hide Run, Step, ClaimedCall, PlacesCall, CallVerdict, CallMade, IntlOf, Initial, PeerState.Valid;
    if n == 0 {
      NobodyWaitsAtFirst(w, mode, ops, s);
      assert false;
    }
    var st := Run(w, Initial(w, mode), ops, n - 1);
    RunStep(w, Initial(w, mode), ops, n - 1);
    IntlStep(w, st, ops[n - 1], s, e);
    if SentCall(w, st, ops[n - 1], s, e) {
      r := n - 1;
    } else {
      r := WaitingCallWasSent(w, mode, ops, n - 1, s, e);
    }
  }

  // ---- the failure ring over a run ----

  /** The run as the failure ring of `s` meets it. */
  ghost function AuthOps(w: World, st: State, ops: seq<Op>, s: Ip): (r: seq<AuthFailures.Op>)
    requires AllValid(ops) && st.Valid()
    ensures |r| == |ops|
    ensures forall i :: 0 <= i < |ops| ==> r[i] == AuthOpOf(Run(w, st, ops, i), ops[i], s)
  {
    seq(|ops|, i requires 0 <= i < |ops| => AuthOpOf(Run(w, st, ops, i), ops[i], s))
  }

  /** In every reachable state the failure ring is the run of its own history. */
  lemma {:induction false} FailureRingIsItsHistory(w: World, mode: Mode, ops: seq<Op>, n: nat, s: Ip)
    requires n <= |ops| && AllValid(ops) && Initial(w, mode).Valid()
    ensures FailuresOf(Run(w, Initial(w, mode), ops, n), s) == AuthFailures.Run(AuthOps(w, Initial(w, mode), ops, s), n)
  {
    hide Run, Step, AuthOpOf, FailuresOf, Initial, AuthFailures.Stepped;
    if n == 0 {
      NobodyWaitsAtFirst(w, mode, ops, s);
    } else {
      FailureRingIsItsHistory(w, mode, ops, n - 1, s);
      RunStep(w, Initial(w, mode), ops, n - 1);
      FailureRingStep(w, Run(w, Initial(w, mode), ops, n - 1), ops[n - 1], s);
    }
  }

  // ---- main results ----

  /** Operation q answers, by a challenge from the recorded responder, the credential that
      operation r sent for account `aor` of source `s`. Only a REGISTER names its account; every
      other credential of a source speaks for account 0. */
  predicate RejectedCredential(ops: seq<Op>, r: nat, q: nat, s: Ip, aor: Hash)
    requires r < |ops| && q < |ops|
  {
    && r < q && ops[r].Receive? && ops[q].Receive?
    && var asked, answer := ops[r].p, ops[q].p;
    && asked.src == s && asked.payload.Asking? && answer.dst == s && answer.payload.Answering?
    && asked.payload.request.perimeter == Clean && asked.payload.request.credentialed
    && asked.payload.request.key.Some? && answer.payload.response.key == asked.payload.request.key
    && (asked.dst == Pending.UNSPECIFIED || asked.dst == answer.src)
    && answer.payload.response.IsChallenge()
    && aor == (if asked.payload.request.kind == Register then asked.payload.request.aor else 0)
  }

  /** The credential operation r sent was remembered, and claimed by operation q and by no
      operation before it; it was not sent again in between. */
  ghost predicate ClaimedOnce(w: World, st: State, ops: seq<Op>, r: nat, q: nat, s: Ip)
    requires r < |ops| && q < |ops| && AllValid(ops) && st.Valid()
  {
    && ops[r].Receive? && ops[r].p.payload.Asking? && ops[r].p.payload.request.key.Some?
    && var key := ops[r].p.payload.request.key.value;
    && ClaimsKey(w, st, ops, q, s, key)
    && ClaimedCredential(Run(w, st, ops, q), ops[q], s)
       == Some(CredentialEntry(ops[r].p.payload.request, key, ops[r].p.Responder(), ops[r].p.at))
    && CredentialStands(w, st, ops, r, q, s, key)
  }

  /** A rejection found in a run goes back to a request, unclaimed in between. */
  lemma RejectionHasARequest(w: World, mode: Mode, ops: seq<Op>, q: nat, s: Ip) returns (r: nat)
    requires q < |ops| && AllValid(ops) && Initial(w, mode).Valid()
    requires AuthOpOf(Run(w, Initial(w, mode), ops, q), ops[q], s).Reject?
    ensures r < q
    ensures RejectedCredential(ops, r, q, s, AuthOpOf(Run(w, Initial(w, mode), ops, q), ops[q], s).aor)
    ensures ClaimedOnce(w, Initial(w, mode), ops, r, q, s)
  {
    hide Run, Pending.Claimed, Initial, PeerState.Valid;
    var st := Run(w, Initial(w, mode), ops, q);
    var e := ClaimedCredential(st, ops[q], s).value;
    TablesOf(w, st, s);
    Pending.ClaimedLaws(st.peers[s].pending, ops[q].p.payload.response.key.value, ops[q].p.src);
    assert e in PendingOf(st, s) && e.Awaits(ops[q].p.payload.response.key.value, ops[q].p.src);
    r := WaitingWasSent(w, mode, ops, q, s, e);
  }

  /** Five answers, in time order and inside the failure window of the last, each reject and
      claim, once, the remembered credential of its own request of `s` for account `aor`, and no
      credential for that account is accepted between the first answer and the last. */
  ghost predicate FiveRejections(w: World, st: State, ops: seq<Op>, n: nat, s: Ip, aor: Hash, asked: seq<nat>, answered: seq<nat>)
    requires n < |ops| && AllValid(ops) && st.Valid() && ops[n].Receive?
  {
    && |asked| == 5 && |answered| == 5 && answered[4] == n
    && (forall k :: 0 <= k < 5 ==>
          && answered[k] <= n && asked[k] < answered[k]
          && RejectedCredential(ops, asked[k], answered[k], s, aor)
          && ClaimedOnce(w, st, ops, asked[k], answered[k], s)
          && SatSub(ops[n].p.at, ops[answered[k]].p.at) < 600)
    && (forall k, l :: 0 <= k < l < 5 ==> answered[k] < answered[l] && asked[k] != asked[l])
    && (forall j :: answered[0] < j < n ==> AuthOpOf(Run(w, st, ops, j), ops[j], s) != AuthFailures.Accept(aor))
  }

  /** For every packet run: an authentication verdict on a source proves five different
      remembered credentialed requests of that source for one account, each claimed once by a
      401 or 407 from its recorded responder, all inside 600 seconds, with no accepted
      credential for the account in between. Credentials other than a REGISTER's all count for
      the one account 0. */
  lemma AuthFailureProvesFiveRejections(w: World, mode: Mode, ops: seq<Op>, n: nat)
    returns (s: Ip, aor: Hash, asked: seq<nat>, answered: seq<nat>)
    requires n < |ops| && AllValid(ops) && WallClocked(ops) && ops[n].Receive? && Initial(w, mode).Valid()
    requires Observe(w, Run(w, Initial(w, mode), ops, n), ops[n].p).2.AuthFailure?
    ensures s == Observe(w, Run(w, Initial(w, mode), ops, n), ops[n].p).1 == ops[n].p.dst
    ensures FiveRejections(w, Initial(w, mode), ops, n, s, aor, asked, answered)
  {
    hide Observe, ClaimedCredential, AuthOpOf, AuthFailures.Ring.Live, RejectedCredential, ClaimedOnce, Run, Initial;
    var st0 := Initial(w, mode);
    s := ops[n].p.dst;
    aor, answered := AuthFailureIsFiveInARow(w, mode, ops, n);
    asked := [];
    for k := 0 to AuthFailures.SIZE
      invariant |asked| == k
      invariant forall l :: 0 <= l < k ==>
                  && asked[l] < answered[l]
                  && RejectedCredential(ops, asked[l], answered[l], s, aor) && ClaimedOnce(w, st0, ops, asked[l], answered[l], s)
    {
      var r := RejectionHasARequest(w, mode, ops, answered[k], s);
      asked := asked + [r];
    }
    forall k, l | 0 <= k < l < AuthFailures.SIZE ensures asked[k] != asked[l] {
      ClaimedByOne(w, st0, ops, asked[k], answered[k], asked[l], answered[l], s);
    }
  }

  /** A request is claimed by one answer only. */
  lemma ClaimedByOne(w: World, st: State, ops: seq<Op>, r: nat, q: nat, r': nat, q': nat, s: Ip)
    requires r < q < q' < |ops| && r' < q' && AllValid(ops) && st.Valid()
    requires ClaimedOnce(w, st, ops, r, q, s) && ClaimedOnce(w, st, ops, r', q', s)
    ensures r != r'
  {
    hide Run, ClaimedCredential;
  }

  /** The verdict is given exactly when the last five rejections of the source, of any
      account, all concern the account just rejected, inside the window, with no acceptance
      of it since the first. */
  lemma VerdictIsFiveInARow(w: World, mode: Mode, ops: seq<Op>, n: nat)
    requires n < |ops| && AllValid(ops) && WallClocked(ops) && ops[n].Receive? && Initial(w, mode).Valid()
    ensures var st, s := Run(w, Initial(w, mode), ops, n), ops[n].p.dst;
            Observe(w, st, ops[n].p).2.AuthFailure?
            <==> AuthOpOf(st, ops[n], s).Reject?
                 && AuthFailures.FiveInARow(AuthOps(w, Initial(w, mode), ops, s), n + 1,
                                            AuthOpOf(st, ops[n], s).aor, ops[n].p.at, 600)
  {
    hide Observe, AuthOpOf, AuthFailures.FiveInARow, AuthFailures.Ring.Live, FailuresOf, Step, AuthOps, Run, Initial;
    var st, s := Run(w, Initial(w, mode), ops, n), ops[n].p.dst;
    VerdictIsTheRing(w, st, ops[n]);
    RunStep(w, Initial(w, mode), ops, n);
    FailureRingIsItsHistory(w, mode, ops, n + 1, s);
    if AuthOpOf(st, ops[n], s).Reject? {
      AuthFailures.ThresholdIsFiveInARow(AuthOps(w, Initial(w, mode), ops, s), n + 1,
                                         AuthOpOf(st, ops[n], s).aor, ops[n].p.at, AuthFailures.WINDOW_SECS);
    }
  }

  lemma AuthFailureIsFiveInARow(w: World, mode: Mode, ops: seq<Op>, n: nat) returns (aor: Hash, answered: seq<nat>)
    requires n < |ops| && AllValid(ops) && WallClocked(ops) && ops[n].Receive? && Initial(w, mode).Valid()
    requires Observe(w, Run(w, Initial(w, mode), ops, n), ops[n].p).2.AuthFailure?
    ensures Observe(w, Run(w, Initial(w, mode), ops, n), ops[n].p).1 == ops[n].p.dst
    ensures |answered| == AuthFailures.SIZE && answered[AuthFailures.SIZE - 1] == n
    ensures forall k, l :: 0 <= k < l < AuthFailures.SIZE ==> answered[k] < answered[l]
    ensures forall k :: 0 <= k < AuthFailures.SIZE ==>
              && answered[k] <= n && ops[answered[k]].Receive?
              && AuthOpOf(Run(w, Initial(w, mode), ops, answered[k]), ops[answered[k]], ops[n].p.dst).Reject?
              && AuthOpOf(Run(w, Initial(w, mode), ops, answered[k]), ops[answered[k]], ops[n].p.dst).aor == aor
              && SatSub(ops[n].p.at, ops[answered[k]].p.at) < AuthFailures.WINDOW_SECS
    ensures forall j :: answered[0] < j < n ==>
              AuthOpOf(Run(w, Initial(w, mode), ops, j), ops[j], ops[n].p.dst) != AuthFailures.Accept(aor)
  {
    hide Run, Observe, AuthOpOf, AuthFailures.FiveInARow, AuthFailures.Ring.Live, Initial;
    var st0, s := Initial(w, mode), ops[n].p.dst;
    VerdictIsFiveInARow(w, mode, ops, n);
    VerdictIsTheRing(w, Run(w, st0, ops, n), ops[n]);
    aor := AuthOpOf(Run(w, st0, ops, n), ops[n], s).aor;
    var view := AuthOps(w, st0, ops, s);
    answered := AuthFailures.FiveListed(view, n + 1, aor, ops[n].p.at, AuthFailures.WINDOW_SECS);
    forall k | 0 <= k < AuthFailures.SIZE
      ensures ops[answered[k]].Receive? && view[answered[k]].at == ops[answered[k]].p.at
    {
      RejectionIsAPacket(Run(w, st0, ops, answered[k]), ops[answered[k]], s);
    }
  }

  lemma RejectionIsAPacket(st: State, op: Op, s: Ip)
    requires AuthOpOf(st, op, s).Reject?
    ensures op.Receive? && AuthOpOf(st, op, s).at == op.p.at
  {
  }

  /** The account a request's credential counts for: only a REGISTER names its own. */
  function AccountOfRequest(req: Request): Hash {
    if req.kind == Register then req.aor else 0
  }

  /** An accepted credential leaves no failure of its own account and every failure of any other;
      and two credentials count for one account exactly when both are not a REGISTER's, or the
      accounts agree. So an acceptance pardons another caller's failures exactly when neither
      request is a REGISTER, or a REGISTER names the other's account. */
  lemma AcceptanceClearsItsAccount(c: Case, accepted: Request, other: Request, key: string, key': string,
                                   responder: Option<Ip>, responder': Option<Ip>, at: nat, at': nat, r: Response, now: nat)
    requires c.ps.Valid() && now >= AuthFailures.WINDOW_SECS
    ensures var e, f := CredentialEntry(accepted, key, responder, at), CredentialEntry(other, key', responder', at');
            && (AccountOf(e) == AccountOf(f) <==> AccountOfRequest(accepted) == AccountOfRequest(other))
            && Accepted(c, e, r).ps.failures.Live(AccountOf(f), now, AuthFailures.WINDOW_SECS)
               == if AccountOfRequest(accepted) == AccountOfRequest(other) then {}
                  else c.ps.failures.Live(AccountOf(f), now, AuthFailures.WINDOW_SECS)
  {
    hide Detectors.Detector.Valid, Pending.Valid;
    AuthFailures.ForgivenLive(c.ps.failures, AccountOf(CredentialEntry(accepted, key, responder, at)),
                              AccountOf(CredentialEntry(other, key', responder', at')), now, AuthFailures.WINDOW_SECS);
  }

  /** Something of `s` under this key waits for `other`, or for anybody: the latest credential or
      the latest call under the key, unclaimed since, was sent there, or to nobody in
      particular. */
  ghost predicate AwaitsFrom(w: World, st: State, ops: seq<Op>, n: nat, s: Ip, key: string, other: Ip)
    requires n <= |ops| && AllValid(ops) && st.Valid()
  {
    exists r :: 0 <= r < n && (CredentialStands(w, st, ops, r, n, s, key) || CallStands(w, st, ops, r, n, s, key))
                && (ops[r].p.dst == Pending.UNSPECIFIED || ops[r].p.dst == other)
  }

  /** In every run: a response that has no key, or whose transaction its recipient last sent
      somewhere else, or that comes after its answer, changes no source's state, no known peer and
      no calibration, and blocks nobody. */
  lemma ForgedAnswerMovesNothing(w: World, mode: Mode, ops: seq<Op>, n: nat)
    requires n < |ops| && AllValid(ops) && Initial(w, mode).Valid()
    requires ops[n].Receive? && ops[n].p.payload.Answering?
    requires var key := ops[n].p.payload.response.key;
             key.Some? ==> !AwaitsFrom(w, Initial(w, mode), ops, n, ops[n].p.dst, key.value, ops[n].p.src)
    ensures var st := Run(w, Initial(w, mode), ops, n);
            var (after, who, decision) := Observe(w, st, ops[n].p);
            after.peers == st.peers && after.known == st.known && after.params == st.params && decision == OutOfScope
  {
    hide Run, Initial, PeerState.Valid, SendsCredential, PlacesCall, CredentialStands, CallStands, AwaitsFrom, AuthAnswered,
         CallAnswered, CallMade, CallVerdict;
    var p, r := ops[n].p, ops[n].p.payload.response;
    var st := Run(w, Initial(w, mode), ops, n);
    TablesOf(w, st, p.dst);
    if r.key.Some? && p.dst in st.peers {
      Pending.ClaimedLaws(PendingOf(st, p.dst), r.key.value, p.src);
      Pending.ClaimedLaws(IntlOf(st, p.dst), r.key.value, p.src);
      var auth := Pending.Claimed(PendingOf(st, p.dst), r.key.value, p.src).0;
      var intl := Pending.Claimed(IntlOf(st, p.dst), r.key.value, p.src).0;
      if auth.Some? {
        var i := WaitingWasSent(w, mode, ops, n, p.dst, auth.value);
        StandingAwaits(w, Initial(w, mode), ops, i, n, p.dst, auth.value, p.src);
        assert false;
      }
      if intl.Some? {
        var i := WaitingCallWasSent(w, mode, ops, n, p.dst, intl.value);
        StandingAwaits(w, Initial(w, mode), ops, i, n, p.dst, intl.value, p.src);
        assert false;
      }
      NothingClaimed(w, st, p, r);
    }
  }

  lemma NothingClaimed(w: World, st: State, p: Packet, r: Response)
    requires st.Valid() && p.payload == Answering(r) && r.key.Some? && p.dst in st.peers
    requires Pending.Claimed(st.peers[p.dst].pending, r.key.value, p.src) == (None, st.peers[p.dst].pending)
    requires Pending.Claimed(st.peers[p.dst].pendingIntl, r.key.value, p.src) == (None, st.peers[p.dst].pendingIntl)
    ensures var (after, who, decision) := Observe(w, st, p);
            after.peers == st.peers && after.known == st.known && after.params == st.params && decision == OutOfScope
  {
    hide PeerState.Valid, Pending.Claimed, AuthAnswered, CallAnswered;
  }

  /** What waits under a key was sent to the responder it awaits. */
  lemma StandingAwaits(w: World, st: State, ops: seq<Op>, r: nat, n: nat, s: Ip, e: Pending.Entry, other: Ip)
    requires n <= |ops| && AllValid(ops) && st.Valid() && e.Awaits(e.key, other)
    requires || (CredentialStands(w, st, ops, r, n, s, e.key) && SentCredential(w, Run(w, st, ops, r), ops[r], s, e))
             || (CallStands(w, st, ops, r, n, s, e.key) && SentCall(w, Run(w, st, ops, r), ops[r], s, e))
    ensures AwaitsFrom(w, st, ops, n, s, e.key, other)
  {
    hide Run, CallMade, CallVerdict, Scans, PeerState.Valid;
    assert ops[r].p.dst == Pending.UNSPECIFIED || ops[r].p.dst == other;
  }
}
