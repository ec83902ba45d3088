/** What waits goes on waiting: exactly which credentials and calls of a source wait after a run,
    and what an answer to one of them does. */
module EngineWaiting {
  import opened Numerics
  import opened EngineModel
  import opened EngineRuns
  import opened EngineEffects
  import opened EngineAuth
  import opened EngineBlock
  import CompletionArm
  import Detectors
  import AuthFailures
  import Pending

  // ---- credentials ----

  /** Operation i leaves the credential waiting: it sends nothing and claims nothing under its key,
      and is no credential of its source 32 seconds or more after it. */
  ghost predicate SparesCredential(w: World, st: State, ops: seq<Op>, i: nat, s: Ip, e: Pending.Entry)
    requires i < |ops| && AllValid(ops) && st.Valid()
  {
    && !ClaimsKey(w, st, ops, i, s, e.key) && !SendsCredential(w, Run(w, st, ops, i), ops[i], s, e.key)
    && (SendsSome(w, Run(w, st, ops, i), ops[i], s) ==> SatSub(ops[i].p.at, e.at) < 32)
  }

  /** Operation r sends the credential while there is room for it. */
  ghost predicate RemembersCredential(w: World, st: State, ops: seq<Op>, r: nat, s: Ip, e: Pending.Entry)
    requires r < |ops| && AllValid(ops) && st.Valid()
  {
    SentCredential(w, Run(w, st, ops, r), ops[r], s, e) && Pending.HasRoom(PendingOf(Run(w, st, ops, r), s), e)
  }

  /** The credential was remembered at operation r and left waiting by every operation since. */
  ghost predicate CredentialWaits(w: World, st: State, ops: seq<Op>, r: nat, n: nat, s: Ip, e: Pending.Entry)
    requires r < n <= |ops| && AllValid(ops) && st.Valid()
  {
    RemembersCredential(w, st, ops, r, s, e) && forall i :: r < i < n ==> SparesCredential(w, st, ops, i, s, e)
  }

  lemma CredentialOverStep(w: World, st: State, ops: seq<Op>, n: nat, s: Ip, e: Pending.Entry)
    requires n < |ops| && AllValid(ops) && st.Valid()
    ensures e in PendingOf(Run(w, st, ops, n + 1), s)
       <==> RemembersCredential(w, st, ops, n, s, e) || (e in PendingOf(Run(w, st, ops, n), s) && SparesCredential(w, st, ops, n, s, e))
  {
    hide Run, Step, Attempts, SendsSome, PendingOf, Pending.HasRoom, ClaimedCredential, CredentialEntry;
    RunStep(w, st, ops, n);
    PendingStep(w, Run(w, st, ops, n), ops[n], s, e);
  }

  /** After any run a credential waits for its answer exactly when some operation sent it while
      there was room and, since, nothing was sent or claimed under its key and no credential of its
      source came 32 seconds or more after it. */
  lemma {:induction false} WaitingCredentials(w: World, mode: Mode, ops: seq<Op>, n: nat, s: Ip, e: Pending.Entry)
    requires n <= |ops| && AllValid(ops) && Initial(w, mode).Valid()
    ensures e in PendingOf(Run(w, Initial(w, mode), ops, n), s)
       <==> exists r :: 0 <= r < n && CredentialWaits(w, Initial(w, mode), ops, r, n, s, e)
  {
    hide Run, Initial, PendingOf, RemembersCredential, SparesCredential;
    var st := Initial(w, mode);
    if n == 0 {
      NobodyWaitsAtFirst(w, mode, ops, s);
    } else {
      WaitingCredentials(w, mode, ops, n - 1, s, e);
      CredentialOverStep(w, st, ops, n - 1, s, e);
      if e in PendingOf(Run(w, st, ops, n), s) {
        if RemembersCredential(w, st, ops, n - 1, s, e) {
          assert CredentialWaits(w, st, ops, n - 1, n, s, e);
        } else {
          var r :| 0 <= r < n - 1 && CredentialWaits(w, st, ops, r, n - 1, s, e);
          assert CredentialWaits(w, st, ops, r, n, s, e);
        }
      }
      if r :| 0 <= r < n - 1 && CredentialWaits(w, st, ops, r, n, s, e) {
        assert CredentialWaits(w, st, ops, r, n - 1, s, e);
      }
    }
  }

  // ---- calls ----

  /** Operation i leaves the call waiting: it places nothing and claims nothing under its key, and is
      no call of its source 32 seconds or more after it. */
  ghost predicate SparesCall(w: World, st: State, ops: seq<Op>, i: nat, s: Ip, e: Pending.Entry)
    requires i < |ops| && AllValid(ops) && st.Valid()
  {
    && !ClaimsCall(w, st, ops, i, s, e.key) && !PlacesCall(w, Run(w, st, ops, i), ops[i], s, e.key)
    && (PlacesSome(w, Run(w, st, ops, i), ops[i], s) ==> SatSub(ops[i].p.at, e.at) < 32)
  }

  /** Operation r places the call while there is room for it. */
  ghost predicate RemembersCall(w: World, st: State, ops: seq<Op>, r: nat, s: Ip, e: Pending.Entry)
    requires r < |ops| && AllValid(ops) && st.Valid()
  {
    SentCall(w, Run(w, st, ops, r), ops[r], s, e) && Pending.HasRoom(IntlOf(Run(w, st, ops, r), s), e)
  }

  /** The call was remembered at operation r and left waiting by every operation since. */
  ghost predicate CallWaits(w: World, st: State, ops: seq<Op>, r: nat, n: nat, s: Ip, e: Pending.Entry)
    requires r < n <= |ops| && AllValid(ops) && st.Valid()
  {
    RemembersCall(w, st, ops, r, s, e) && forall i :: r < i < n ==> SparesCall(w, st, ops, i, s, e)
  }

  lemma SentCallIsPlaced(w: World, st: State, op: Op, s: Ip, e: Pending.Entry)
    requires st.Valid() && SentCall(w, st, op, s, e)
    ensures PlacesCall(w, st, op, s, e.key)
  {
    hide CallMade, CallVerdict, PeerState.Valid;
  }

  lemma CallOverStep(w: World, st: State, ops: seq<Op>, n: nat, s: Ip, e: Pending.Entry)
    requires n < |ops| && AllValid(ops) && st.Valid()
    ensures e in IntlOf(Run(w, st, ops, n + 1), s)
       <==> RemembersCall(w, st, ops, n, s, e) || (e in IntlOf(Run(w, st, ops, n), s) && SparesCall(w, st, ops, n, s, e))
  {
    hide Run, Step, PlacesCall, SentCall, PlacesSome, IntlOf, Pending.HasRoom, ClaimedCall;
    RunStep(w, st, ops, n);
    IntlStep(w, Run(w, st, ops, n), ops[n], s, e);
    if SentCall(w, Run(w, st, ops, n), ops[n], s, e) {
      SentCallIsPlaced(w, Run(w, st, ops, n), ops[n], s, e);
    }
  }

  /** The same for calls. */
  lemma {:induction false} WaitingCalls(w: World, mode: Mode, ops: seq<Op>, n: nat, s: Ip, e: Pending.Entry)
    requires n <= |ops| && AllValid(ops) && Initial(w, mode).Valid()
    ensures e in IntlOf(Run(w, Initial(w, mode), ops, n), s)
       <==> exists r :: 0 <= r < n && CallWaits(w, Initial(w, mode), ops, r, n, s, e)
  {
    hide Run, Initial, IntlOf, RemembersCall, SparesCall;
    var st := Initial(w, mode);
    if n == 0 {
      NobodyWaitsAtFirst(w, mode, ops, s);
    } else {
      WaitingCalls(w, mode, ops, n - 1, s, e);
      CallOverStep(w, st, ops, n - 1, s, e);
      if e in IntlOf(Run(w, st, ops, n), s) {
        if RemembersCall(w, st, ops, n - 1, s, e) {
          assert CallWaits(w, st, ops, n - 1, n, s, e);
        } else {
          var r :| 0 <= r < n - 1 && CallWaits(w, st, ops, r, n - 1, s, e);
          assert CallWaits(w, st, ops, r, n, s, e);
        }
      }
      if r :| 0 <= r < n - 1 && CallWaits(w, st, ops, r, n, s, e) {
        assert CallWaits(w, st, ops, r, n - 1, s, e);
      }
    }
  }

  // ---- answers ----

  /** The operation is a final response to `s` under this key. */
  predicate Answers(op: Op, s: Ip, key: string) {
    && op.Receive? && op.p.payload.Answering? && op.p.dst == s
    && op.p.payload.response.key == Some(key) && !(100 <= op.p.payload.response.status < 200)
  }

  /** An answer claims what waits under its key for its sender, or for anybody, and nothing else. */
  lemma WaitingIsClaimed(st: State, op: Op, s: Ip, key: string, e: Pending.Entry)
    requires st.Valid() && Answers(op, s, key)
    ensures ClaimedCredential(st, op, s) == Some(e) <==> e in PendingOf(st, s) && e.Awaits(key, op.p.src)
    ensures ClaimedCall(st, op, s) == Some(e) <==> e in IntlOf(st, s) && e.Awaits(key, op.p.src)
  {
    hide PeerState.Valid, Pending.Claimed;
    if s in st.peers {
      assert st.peers[s].Valid();
      ValidTables(st.peers[s]);
      Pending.ClaimedLaws(st.peers[s].pending, key, op.p.src);
      Pending.ClaimedLaws(st.peers[s].pendingIntl, key, op.p.src);
    }
  }

  /** A provisional response claims nothing: no source, no known peer and no calibration moves, and
      there is no verdict. */
  lemma ProvisionalMovesNothing(w: World, st: State, op: Op)
    requires st.Valid() && op.Receive? && op.p.payload.Answering? && 100 <= op.p.payload.response.status < 200
    ensures ClaimedCredential(st, op, op.p.dst) == None && ClaimedCall(st, op, op.p.dst) == None
    ensures var (after, who, decision) := Observe(w, st, op.p);
            after.peers == st.peers && after.known == st.known && after.params == st.params && decision == OutOfScope
  {
    hide PeerState.Valid, Pending.Claimed, AuthAnswered, CallAnswered;
  }

  lemma ValidTables(ps: PeerState)
    requires ps.Valid()
    ensures Pending.Valid(ps.pending) && Pending.Valid(ps.pendingIntl)
  {
  }

  /** Operation r was sent to this address, or to nobody in particular. */
  predicate SentTo(ops: seq<Op>, r: nat, key: string, src: Ip)
    requires r < |ops|
  {
    && ops[r].Receive? && ops[r].p.payload.Asking? && ops[r].p.payload.request.key == Some(key)
    && (ops[r].p.dst == 0 || ops[r].p.dst == src)
  }

  lemma CredentialAwaits(w: World, st: State, ops: seq<Op>, r: nat, s: Ip, e: Pending.Entry, key: string, src: Ip)
    requires r < |ops| && AllValid(ops) && st.Valid() && RemembersCredential(w, st, ops, r, s, e)
    ensures e.Awaits(key, src) <==> SentTo(ops, r, key, src)
    ensures ops[r].Receive? && ops[r].p.payload.Asking?
    ensures AccountOf(e) == if ops[r].p.payload.request.kind == Register then ops[r].p.payload.request.aor else 0
  {
    hide Run, PendingOf, Pending.HasRoom, Scans, PeerState.Valid;
  }

  lemma CallAwaits(w: World, st: State, ops: seq<Op>, r: nat, s: Ip, e: Pending.Entry, key: string, src: Ip)
    requires r < |ops| && AllValid(ops) && st.Valid() && RemembersCall(w, st, ops, r, s, e)
    ensures e.Awaits(key, src) <==> SentTo(ops, r, key, src)
  {
    hide Run, IntlOf, Pending.HasRoom, CallMade, CallVerdict, PeerState.Valid;
  }

  /** Operation r sent, under this key and to this address or nobody in particular, a credential of s
      for this account that still waits: a REGISTER's for the account it names, any other for 0. */
  ghost predicate WaitsFor(w: World, st: State, ops: seq<Op>, r: nat, n: nat, s: Ip, key: string, src: Ip, aor: Hash)
    requires r < n <= |ops| && AllValid(ops) && st.Valid()
  {
    && SentTo(ops, r, key, src)
    && aor == (if ops[r].p.payload.request.kind == Register then ops[r].p.payload.request.aor else 0)
    && exists e :: CredentialWaits(w, st, ops, r, n, s, e)
  }

  /** In every run: an answer under a key rejects a credential of its recipient for an account
      exactly when it is a challenge and a credential for that account waits under the key for its
      sender; it accepts one exactly when it is a success and one waits so. */
  lemma AnswerJudgesWhatWaits(w: World, mode: Mode, ops: seq<Op>, n: nat, s: Ip, key: string, aor: Hash)
    requires n < |ops| && AllValid(ops) && Initial(w, mode).Valid() && Answers(ops[n], s, key)
    ensures var st := Run(w, Initial(w, mode), ops, n);
            var status, src := ops[n].p.payload.response.status, ops[n].p.src;
            var waits := exists r :: 0 <= r < n && WaitsFor(w, Initial(w, mode), ops, r, n, s, key, src, aor);
            && (AuthOpOf(st, ops[n], s) == AuthFailures.Reject(aor, ops[n].p.at) <==> (status == 401 || status == 407) && waits)
            && (AuthOpOf(st, ops[n], s) == AuthFailures.Accept(aor) <==> 200 <= status < 300 && waits)
  {
    hide Run, Initial, PendingOf, RemembersCredential, SparesCredential, ClaimedCredential, ClaimedCall, AccountOf, SentTo;
    var st, st0, src := Run(w, Initial(w, mode), ops, n), Initial(w, mode), ops[n].p.src;
    var claimed := ClaimedCredential(st, ops[n], s);
    if claimed.Some? {
      WaitingIsClaimed(st, ops[n], s, key, claimed.value);
      WaitingCredentials(w, mode, ops, n, s, claimed.value);
      var r :| 0 <= r < n && CredentialWaits(w, st0, ops, r, n, s, claimed.value);
      CredentialAwaits(w, st0, ops, r, s, claimed.value, key, src);
      assert AccountOf(claimed.value) == aor ==> WaitsFor(w, st0, ops, r, n, s, key, src, aor);
    }
    if r :| 0 <= r < n && WaitsFor(w, st0, ops, r, n, s, key, src, aor) {
      var e :| CredentialWaits(w, st0, ops, r, n, s, e);
      WaitingCredentials(w, mode, ops, n, s, e);
      CredentialAwaits(w, st0, ops, r, s, e, key, src);
      WaitingIsClaimed(st, ops[n], s, key, e);
    }
  }

  /** In every run: an answer under a key is an outcome to the detector of its recipient exactly when
      the behavioural layer runs, its status is an outcome, and a call waits under the key for its
      sender; and the outcome is judged with what was new about that call. */
  lemma AnswerIsTheOutcomeOfWhatWaits(w: World, mode: Mode, ops: seq<Op>, n: nat, s: Ip, key: string,
                                      outcome: CompletionArm.CallOutcome, novel: CompletionArm.Novelty)
    requires n < |ops| && AllValid(ops) && Initial(w, mode).Valid() && Answers(ops[n], s, key)
    ensures EventAt(w, Initial(w, mode), ops, n, s) == Some(Detectors.Outcome(outcome, novel, ops[n].p.at))
       <==> && w.behavioural && CompletionArm.FromStatus(ops[n].p.payload.response.status) == Some(outcome)
            && exists r, e {:trigger CallWaits(w, Initial(w, mode), ops, r, n, s, e)} ::
                 0 <= r < n && CallWaits(w, Initial(w, mode), ops, r, n, s, e)
                 && SentTo(ops, r, key, ops[n].p.src) && e.novel == novel
  {
    hide Run, Initial, IntlOf, RemembersCall, SparesCall, SentTo, ClaimedCredential, ClaimedCall, EventAt, CompletionArm.FromStatus;
    var st := Run(w, Initial(w, mode), ops, n);
    var claimed := ClaimedCall(st, ops[n], s);
    EventIsClaimed(w, st, ops[n], s, key);
    EventAtIs(w, Initial(w, mode), ops, n, s);
    if claimed.Some? {
      WaitingIsClaimed(st, ops[n], s, key, claimed.value);
      WaitingCalls(w, mode, ops, n, s, claimed.value);
      var r :| 0 <= r < n && CallWaits(w, Initial(w, mode), ops, r, n, s, claimed.value);
      CallAwaits(w, Initial(w, mode), ops, r, s, claimed.value, key, ops[n].p.src);
    }
    if r, e :| 0 <= r < n && CallWaits(w, Initial(w, mode), ops, r, n, s, e)
               && SentTo(ops, r, key, ops[n].p.src) && e.novel == novel {
      CallAwaits(w, Initial(w, mode), ops, r, s, e, key, ops[n].p.src);
      WaitingCalls(w, mode, ops, n, s, e);
      WaitingIsClaimed(st, ops[n], s, key, e);
    }
  }

  lemma EventAtIs(w: World, st: State, ops: seq<Op>, n: nat, s: Ip)
    requires n < |ops| && AllValid(ops) && st.Valid()
    ensures EventAt(w, st, ops, n, s) == EventOf(w, Run(w, st, ops, n), ops[n], s)
  {
  }

  lemma EventIsClaimed(w: World, st: State, op: Op, s: Ip, key: string)
    requires st.Valid() && Answers(op, s, key)
    ensures EventOf(w, st, op, s)
         == match OutcomeHeard(w, ClaimedCall(st, op, s), op.p.payload.response)
            case None => None
            case Some(o) => Some(Detectors.Outcome(o.0, o.1, op.p.at))
  {
    hide PeerState.Valid, Pending.Claimed, CallMade, NewPeer;
  }
}
