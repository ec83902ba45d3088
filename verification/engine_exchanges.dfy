/** Runs of call credentials and their answers: all callers of a source share one account, so
    the last five answers decide, whoever they were for. */
module EngineExchanges {
  import opened Numerics
  import opened EngineModel
  import opened EngineRuns
  import opened EngineEffects
  import opened EngineAuth
  import AuthFailures
  import EngineKnown
  import Pending

  /** A credential on any request but a REGISTER, and the status it was answered with. */
  datatype Exchange = Exchange(request: Request, status: nat, at: nat) {
    function Answer(): Response {
      Response(status, request.key, false)
    }

    predicate Valid() {
      && request.perimeter == Clean && request.kind != Register && request.credentialed && request.key.Some?
      && (Answer().IsChallenge() || Answer().IsSuccess())
    }

    predicate Rejected() {
      Answer().IsChallenge()
    }
  }

  predicate AllCalls(xs: seq<Exchange>) {
    && (forall i :: 0 <= i < |xs| ==> xs[i].Valid() && xs[i].at >= AuthFailures.WINDOW_SECS)
    && (forall i, j :: 0 <= i <= j < |xs| ==> xs[i].at <= xs[j].at)
  }

  /** Packet i of the exchanges: each request, then its answer. */
  function PacketOf(s: Ip, server: Ip, xs: seq<Exchange>, i: nat): Packet
    requires i < 2 * |xs|
  {
    var x := xs[i / 2];
    if i % 2 == 0 then Packet(s, server, Asking(x.request), x.at) else Packet(server, s, Answering(x.Answer()), x.at)
  }

  function Packets(s: Ip, server: Ip, xs: seq<Exchange>): (ops: seq<Op>)
    ensures |ops| == 2 * |xs| && AllValid(ops)
    ensures forall i :: 0 <= i < |ops| ==> ops[i] == Receive(PacketOf(s, server, xs, i))
  {
    seq(2 * |xs|, i requires 0 <= i < 2 * |xs| => Receive(PacketOf(s, server, xs, i)))
  }

  /** The exchange as the failure ring meets it. */
  function Outcome(x: Exchange): AuthFailures.Op {
    if x.Rejected() then AuthFailures.Reject(0, x.at) else AuthFailures.Accept(0)
  }

  // ---- one exchange ----

  lemma RequestEnters(w: World, st: State, s: Ip, server: Ip, x: Exchange)
    requires st.Valid() && x.Valid() && st.HasRoomFor(s)
    ensures s in Step(w, st, Receive(Packet(s, server, Asking(x.request), x.at))).peers
  {
    hide Asked, PeerState.Valid, NewPeer;
    PeerOfIsValid(w, st, s);
  }

  lemma OneRemembered(e: Pending.Entry)
    ensures Pending.Remembered([], e) == [e]
  {
  }

  lemma OneClaimed(e: Pending.Entry, src: Ip)
    requires e.Awaits(e.key, src)
    ensures Pending.Claimed([e], e.key, src) == (Some(e), [])
  {
    assert [e][..0] + [e][1..] == [];
  }

  function EntryOf(s: Ip, server: Ip, x: Exchange): Pending.Entry
    requires x.Valid()
  {
    CredentialEntry(x.request, x.request.key.value, Packet(s, server, Asking(x.request), x.at).Responder(), x.at)
  }

  lemma RequestWaits(w: World, st: State, s: Ip, server: Ip, x: Exchange)
    requires st.Valid() && x.Valid() && st.HasRoomFor(s) && PendingOf(st, s) == []
    ensures var op := Receive(Packet(s, server, Asking(x.request), x.at));
            && AuthOpOf(st, op, s) == AuthFailures.Quiet
            && s in Step(w, st, op).peers && PendingOf(Step(w, st, op), s) == [EntryOf(s, server, x)]
  {
    hide Step, PeerState.Valid, CallFed, CallMade, Pending.Remembered, NewPeer, PendingOf;
    var op := Receive(Packet(s, server, Asking(x.request), x.at));
    RequestEnters(w, st, s, server, x);
    StepKeepsValid(w, st, op);
    TablesOf(w, st, s);
    TablesOf(w, Step(w, st, op), s);
    SourceEffect(w, st, op, s);
    OneRemembered(EntryOf(s, server, x));
  }

  lemma AnswerClaims(w: World, st: State, s: Ip, server: Ip, x: Exchange)
    requires st.Valid() && x.Valid() && s in st.peers && PendingOf(st, s) == [EntryOf(s, server, x)]
    ensures var op := Receive(Packet(server, s, Answering(x.Answer()), x.at));
            && AuthOpOf(st, op, s) == Outcome(x)
            && s in Step(w, st, op).peers && PendingOf(Step(w, st, op), s) == []
  {
    hide Step, PeerState.Valid, OutcomeFed, OutcomeHeard, Pending.Claimed, NewPeer, PendingOf;
    var op := Receive(Packet(server, s, Answering(x.Answer()), x.at));
    EngineKnown.PacketIsItsStep(w, st, op);
    EngineKnown.PacketSources(w, st, op.p);
    StepKeepsValid(w, st, op);
    TablesOf(w, st, s);
    TablesOf(w, Step(w, st, op), s);
    SourceEffect(w, st, op, s);
    OneClaimed(EntryOf(s, server, x), server);
  }

  // ---- a run of exchanges ----

  lemma PairOf(s: Ip, server: Ip, xs: seq<Exchange>, j: nat)
    requires j < |xs|
    ensures Packets(s, server, xs)[2 * j] == Receive(Packet(s, server, Asking(xs[j].request), xs[j].at))
    ensures Packets(s, server, xs)[2 * j + 1] == Receive(Packet(server, s, Answering(xs[j].Answer()), xs[j].at))
  {
  }

  /** Nothing of the source waits, and it has an entry or room for one. */
  predicate Idle(st: State, s: Ip) {
    st.HasRoomFor(s) && PendingOf(st, s) == []
  }

  lemma NobodyAtFirst(w: World, mode: Mode, ops: seq<Op>, s: Ip)
    requires AllValid(ops) && Initial(w, mode).Valid()
    ensures Idle(Run(w, Initial(w, mode), ops, 0), s)
  {
  }

  /** One exchange over a run: its request is quiet, its answer is its outcome, and nothing waits
      after it. */
  lemma ExchangeStep(w: World, st: State, s: Ip, server: Ip, xs: seq<Exchange>, j: nat)
    requires st.Valid() && j < |xs| && AllCalls(xs) && Idle(Run(w, st, Packets(s, server, xs), 2 * j), s)
    ensures var ops := Packets(s, server, xs);
            && AuthOpOf(Run(w, st, ops, 2 * j), ops[2 * j], s) == AuthFailures.Quiet
            && AuthOpOf(Run(w, st, ops, 2 * j + 1), ops[2 * j + 1], s) == Outcome(xs[j])
            && Idle(Run(w, st, ops, 2 * j + 2), s)
  {
    hide Run, Step, AuthOpOf, PendingOf, Exchange.Valid, Outcome, Packets, PeerState.Valid, State.Valid;
    var ops := Packets(s, server, xs);
    PairOf(s, server, xs, j);
    RequestWaits(w, Run(w, st, ops, 2 * j), s, server, xs[j]);
    RunStep(w, st, ops, 2 * j);
    AnswerClaims(w, Run(w, st, ops, 2 * j + 1), s, server, xs[j]);
    RunStep(w, st, ops, 2 * j + 1);
  }

  /** Nothing waits between exchanges. */
  lemma {:induction false} IdleBetween(w: World, mode: Mode, s: Ip, server: Ip, xs: seq<Exchange>, m: nat)
    requires m <= |xs| && AllCalls(xs) && Initial(w, mode).Valid()
    ensures Idle(Run(w, Initial(w, mode), Packets(s, server, xs), 2 * m), s)
  {
    hide Run, AuthOpOf, Idle, Initial, Outcome, Packets, AllCalls, State.Valid;
    if m == 0 {
      NobodyAtFirst(w, mode, Packets(s, server, xs), s);
    } else {
      IdleBetween(w, mode, s, server, xs, m - 1);
      ExchangeStep(w, Initial(w, mode), s, server, xs, m - 1);
    }
  }

  /** Requests are quiet, and answers are their outcomes. */
  predicate Alternates(view: seq<AuthFailures.Op>, xs: seq<Exchange>) {
    |view| == 2 * |xs|
    && forall j :: 0 <= j < |xs| ==> view[2 * j] == AuthFailures.Quiet && view[2 * j + 1] == Outcome(xs[j])
  }

  lemma RejectionsOfOne(view: seq<AuthFailures.Op>, xs: seq<Exchange>, m: nat)
    requires 0 < m <= |xs| && Alternates(view, xs)
    ensures AuthFailures.Rejections(view, 2 * m)
         == AuthFailures.Rejections(view, 2 * (m - 1)) + (if xs[m - 1].Rejected() then [2 * m - 1] else [])
  {
    assert 2 * (m - 1) + 1 == 2 * m - 1 && view[2 * m - 2] == AuthFailures.Quiet;
    assert AuthFailures.Rejections(view, 2 * m - 1) == AuthFailures.Rejections(view, 2 * (m - 1));
  }

  lemma {:induction false} FewRejections(view: seq<AuthFailures.Op>, xs: seq<Exchange>, m: nat)
    requires m <= |xs| && Alternates(view, xs)
    ensures |AuthFailures.Rejections(view, 2 * m)| <= m
  {
    hide AuthFailures.Rejections;
    if m > 0 {
      FewRejections(view, xs, m - 1);
      RejectionsOfOne(view, xs, m);
    } else {
      assert AuthFailures.Rejections(view, 0) == [] by { NoRejections(view); }
    }
  }

  lemma NoRejections(view: seq<AuthFailures.Op>)
    ensures AuthFailures.Rejections(view, 0) == []
  {
  }

  /** The last k exchanges up to m were rejected. */
  predicate LastRejected(xs: seq<Exchange>, m: nat, k: nat)
    requires k <= m <= |xs|
  {
    forall j :: m - k <= j < m ==> xs[j].Rejected()
  }

  lemma {:induction false} NewestOfLast(view: seq<AuthFailures.Op>, xs: seq<Exchange>, m: nat, k: nat)
    requires k <= m <= |xs| && Alternates(view, xs) && LastRejected(xs, m, k)
    ensures |AuthFailures.Rejections(view, 2 * m)| >= k
    ensures forall j :: 0 < j <= k ==> AuthFailures.Newest(view, 2 * m, j) == 2 * (m - j) + 1
  {
    hide AuthFailures.Rejections;
    if k > 0 {
      NewestOfLast(view, xs, m - 1, k - 1);
      RejectionsOfOne(view, xs, m);
      assert xs[m - 1].Rejected();
      forall j | 0 < j <= k ensures AuthFailures.Newest(view, 2 * m, j) == 2 * (m - j) + 1 {
        if j > 1 {
          assert AuthFailures.Newest(view, 2 * m, j) == AuthFailures.Newest(view, 2 * (m - 1), j - 1);
        }
      }
    }
  }

  lemma OlderThanLast(view: seq<AuthFailures.Op>, n: nat, k: nat)
    requires n <= |view| && k < AuthFailures.SIZE <= |AuthFailures.Rejections(view, n)|
    ensures k > 0 ==> AuthFailures.Newest(view, n, AuthFailures.SIZE) < AuthFailures.Newest(view, n, k)
  {
  }

  /** An accepted exchange among the last five comes after the fifth newest rejection. */
  lemma AcceptanceIsLater(view: seq<AuthFailures.Op>, xs: seq<Exchange>, m: nat, k: nat)
    requires m <= |xs| && Alternates(view, xs) && 0 < k <= AuthFailures.SIZE <= |AuthFailures.Rejections(view, 2 * m)|
    requires k <= m && LastRejected(xs, m, k - 1) && !xs[m - k].Rejected()
    ensures AuthFailures.Newest(view, 2 * m, AuthFailures.SIZE) < 2 * (m - k) + 1 < 2 * m
    ensures view[2 * (m - k) + 1] == AuthFailures.Accept(0)
  {
    hide AuthFailures.Rejections, AuthFailures.Newest, Exchange.Valid;
    NewestOfLast(view, xs, m, k - 1);
    OlderThanLast(view, 2 * m, k - 1);
    var fifth := AuthFailures.Newest(view, 2 * m, AuthFailures.SIZE);
    assert view[2 * (m - k) + 1] == Outcome(xs[m - k]);
    assert k > 1 ==> view[2 * (m - (k - 1))] == AuthFailures.Quiet;
    assert k > 1 ==> fifth < 2 * (m - (k - 1)) + 1;
  }

  /** Five rejections in a row, in the ring's terms, mean five rejected exchanges in a row. */
  lemma {:induction false} FiveMeansFive(view: seq<AuthFailures.Op>, xs: seq<Exchange>, k: nat, now: nat)
    requires Alternates(view, xs) && k <= AuthFailures.SIZE
    requires AuthFailures.FiveInARow(view, 2 * |xs|, 0, now, AuthFailures.WINDOW_SECS)
    ensures k <= |xs| && LastRejected(xs, |xs|, k)
  {
    hide AuthFailures.Rejections, AuthFailures.Newest, Alternates, Exchange.Rejected;
    FewRejections(view, xs, |xs|);
    if k > 0 {
      FiveMeansFive(view, xs, k - 1, now);
      if !xs[|xs| - k].Rejected() {
        AcceptanceIsLater(view, xs, |xs|, k);
        assert false;
      }
    }
  }

  lemma FiveIsFive(view: seq<AuthFailures.Op>, xs: seq<Exchange>, now: nat)
    requires Alternates(view, xs)
    ensures AuthFailures.FiveInARow(view, 2 * |xs|, 0, now, AuthFailures.WINDOW_SECS)
       <==> |xs| >= AuthFailures.SIZE
            && forall k :: |xs| - AuthFailures.SIZE <= k < |xs| ==>
                 xs[k].Rejected() && SatSub(now, xs[k].at) < AuthFailures.WINDOW_SECS
  {
    hide AuthFailures.Rejections, Exchange.Valid;
    var m, five := |xs|, AuthFailures.SIZE;
    if AuthFailures.FiveInARow(view, 2 * m, 0, now, AuthFailures.WINDOW_SECS) {
      FiveMeansFive(view, xs, five, now);
      NewestOfLast(view, xs, m, five);
      forall k | m - five <= k < m ensures SatSub(now, xs[k].at) < AuthFailures.WINDOW_SECS {
        assert AuthFailures.Newest(view, 2 * m, m - k) == 2 * k + 1;
      }
    } else if m >= five && forall k :: m - five <= k < m ==> xs[k].Rejected() && SatSub(now, xs[k].at) < AuthFailures.WINDOW_SECS {
      FiveAreFound(view, xs, now);
    }
  }

  lemma FiveAreFound(view: seq<AuthFailures.Op>, xs: seq<Exchange>, now: nat)
    requires Alternates(view, xs) && |xs| >= AuthFailures.SIZE
    requires forall k :: |xs| - AuthFailures.SIZE <= k < |xs| ==>
               xs[k].Rejected() && SatSub(now, xs[k].at) < AuthFailures.WINDOW_SECS
    ensures AuthFailures.FiveInARow(view, 2 * |xs|, 0, now, AuthFailures.WINDOW_SECS)
  {
    hide AuthFailures.Rejections, AuthFailures.Newest, Exchange.Valid;
    var m, five := |xs|, AuthFailures.SIZE;
    NewestOfLast(view, xs, m, five);
    forall k {:trigger AuthFailures.Newest(view, 2 * m, k)} | 0 < k <= five
      ensures view[AuthFailures.Newest(view, 2 * m, k)] == AuthFailures.Reject(0, xs[m - k].at)
    {
      assert view[2 * (m - k) + 1] == Outcome(xs[m - k]) && xs[m - k].Rejected();
    }
    forall j | 2 * (m - five) + 1 < j < 2 * m ensures view[j] != AuthFailures.Accept(0) {
      assert view[2 * (j / 2)] == AuthFailures.Quiet && view[2 * (j / 2) + 1] == Outcome(xs[j / 2]);
    }
  }

  lemma ViewAlternates(w: World, mode: Mode, s: Ip, server: Ip, xs: seq<Exchange>)
    requires AllCalls(xs) && Initial(w, mode).Valid()
    ensures Alternates(AuthOps(w, Initial(w, mode), Packets(s, server, xs), s), xs)
  {
    hide Run, AuthOpOf, Initial, Outcome, AllCalls, Packets, Idle, State.Valid;
    var view := AuthOps(w, Initial(w, mode), Packets(s, server, xs), s);
    forall j | 0 <= j < |xs| ensures view[2 * j] == AuthFailures.Quiet && view[2 * j + 1] == Outcome(xs[j]) {
      IdleBetween(w, mode, s, server, xs, j);
      ExchangeStep(w, Initial(w, mode), s, server, xs, j);
    }
  }

  lemma LastPacket(s: Ip, server: Ip, xs: seq<Exchange>)
    requires xs != []
    ensures Packets(s, server, xs)[2 * |xs| - 1]
         == Receive(Packet(server, s, Answering(xs[|xs| - 1].Answer()), xs[|xs| - 1].at))
  {
    PairOf(s, server, xs, |xs| - 1);
  }

  lemma LastOutcome(view: seq<AuthFailures.Op>, xs: seq<Exchange>)
    requires xs != [] && Alternates(view, xs)
    ensures |view| == 2 * |xs| && view[2 * |xs| - 1] == Outcome(xs[|xs| - 1])
  {
    assert 2 * |xs| - 1 == 2 * (|xs| - 1) + 1;
  }

  /** The verdict on the last answer of any run of call credentials: given exactly when the last
      five were rejected inside 600 seconds, whichever callers they were for. */
  lemma CallersShareOneAccount(w: World, mode: Mode, s: Ip, server: Ip, xs: seq<Exchange>)
    requires xs != [] && AllCalls(xs)
    ensures Initial(w, mode).Valid()
    ensures var ops, n, m := Packets(s, server, xs), 2 * |xs| - 1, |xs|;
            Observe(w, Run(w, Initial(w, mode), ops, n), ops[n].p).2.AuthFailure?
            <==> m >= 5
                 && forall k :: m - 5 <= k < m ==>
                      xs[k].Rejected() && SatSub(xs[m - 1].at, xs[k].at) < 600
  {
    hide Run, Observe, Initial, AuthOpOf, AuthOps, Packets, Alternates, AuthFailures.FiveInARow, Exchange.Valid, Exchange.Rejected,
         PacketOf, AllCalls;
    InitialIsValid(w, mode);
    var ops, n := Packets(s, server, xs), 2 * |xs| - 1;
    var view := AuthOps(w, Initial(w, mode), ops, s);
    PacketsAreClocked(s, server, xs);
    ViewAlternates(w, mode, s, server, xs);
    VerdictIsFiveInARow(w, mode, ops, n);
    LastPacket(s, server, xs);
    LastOutcome(view, xs);
    FiveIsFive(view, xs, xs[|xs| - 1].at);
  }

  lemma PacketsAreClocked(s: Ip, server: Ip, xs: seq<Exchange>)
    requires AllCalls(xs)
    ensures WallClocked(Packets(s, server, xs))
  {
    hide Exchange.Valid;
    var ops := Packets(s, server, xs);
    forall i | 0 <= i < |ops| ensures ops[i].p.at == xs[i / 2].at {}
  }

  // ---- any run at all ----

  /** No credential of `s` among the first n operations is a REGISTER's. */
  predicate OnlyCalls(ops: seq<Op>, n: nat, s: Ip)
    requires n <= |ops|
  {
    forall i :: 0 <= i < n && ops[i].Receive? && ops[i].p.src == s && ops[i].p.payload.Asking? ==>
      ops[i].p.payload.request.credentialed ==> ops[i].p.payload.request.kind != Register
  }

  lemma CallsCountForNobody(w: World, mode: Mode, ops: seq<Op>, i: nat, n: nat, s: Ip)
    requires i < n <= |ops| && AllValid(ops) && Initial(w, mode).Valid() && OnlyCalls(ops, n, s)
    ensures var op := AuthOpOf(Run(w, Initial(w, mode), ops, i), ops[i], s);
            op == AuthFailures.Quiet || op == AuthFailures.Accept(0)
            || (ops[i].Receive? && op == AuthFailures.Reject(0, ops[i].p.at))
  {
    hide Run, Initial, Pending.Claimed, PeerState.Valid;
    var st := Run(w, Initial(w, mode), ops, i);
    if ClaimedCredential(st, ops[i], s).Some? {
      var e := ClaimedCredential(st, ops[i], s).value;
      TablesOf(w, st, s);
      Pending.ClaimedLaws(PendingOf(st, s), ops[i].p.payload.response.key.value, ops[i].p.src);
      var r := WaitingWasSent(w, mode, ops, i, s, e);
      assert ops[r].p.payload.request.kind != Register;
    }
  }

  /** In any run, whatever packets come in between and however requests and answers interleave: as
      long as no credential of a source is a REGISTER's, every rejection and every acceptance of its
      credentials counts for the one account 0, and the verdict is given exactly when this answer
      rejects one and the last five rejections lie inside 600 seconds with no acceptance, of
      whichever caller, since the first of them. */
  lemma CallersOfAnyRun(w: World, mode: Mode, ops: seq<Op>, n: nat)
    requires n < |ops| && AllValid(ops) && WallClocked(ops) && ops[n].Receive? && Initial(w, mode).Valid()
    requires OnlyCalls(ops, n + 1, ops[n].p.dst)
    ensures var view := AuthOps(w, Initial(w, mode), ops, ops[n].p.dst);
            && (forall i :: 0 <= i <= n ==>
                  view[i] == AuthFailures.Quiet || view[i] == AuthFailures.Accept(0)
                  || (ops[i].Receive? && view[i] == AuthFailures.Reject(0, ops[i].p.at)))
            && (Observe(w, Run(w, Initial(w, mode), ops, n), ops[n].p).2.AuthFailure?
                <==> view[n].Reject? && AuthFailures.FiveInARow(view, n + 1, 0, ops[n].p.at, 600))
  {
    hide Run, Observe, Initial, AuthOpOf, AuthFailures.FiveInARow, OnlyCalls;
    var view := AuthOps(w, Initial(w, mode), ops, ops[n].p.dst);
    forall i | 0 <= i <= n
      ensures view[i] == AuthFailures.Quiet || view[i] == AuthFailures.Accept(0)
              || (ops[i].Receive? && view[i] == AuthFailures.Reject(0, ops[i].p.at))
    {
      CallsCountForNobody(w, mode, ops, i, n + 1, ops[n].p.dst);
    }
    VerdictIsFiveInARow(w, mode, ops, n);
  }

  // ---- a valid caller resets the run against another ----

  /** An INVITE credential of one caller and its answer. */
  function Call(caller: Hash, key: string, status: nat): Exchange {
    Exchange(Request(Clean, Invite, true, caller, Some(key), None), status, AuthFailures.WINDOW_SECS)
  }

  /** Five rejected INVITE credentials of one caller get the verdict. With one accepted INVITE
      credential of any other caller before the last of them, they do not. */
  lemma OneCallerResetsAnother(w: World, mode: Mode, s: Ip, server: Ip, caller: Hash, other: Hash)
    requires caller != other
    ensures Initial(w, mode).Valid()
    ensures var four := [Call(caller, "1", 401), Call(caller, "2", 401), Call(caller, "3", 401), Call(caller, "4", 401)];
            var alone := Packets(s, server, four + [Call(caller, "5", 401)]);
            var mixed := Packets(s, server, four + [Call(other, "6", 200), Call(caller, "5", 401)]);
            && Observe(w, Run(w, Initial(w, mode), alone, 9), alone[9].p).2.AuthFailure?
            && !Observe(w, Run(w, Initial(w, mode), mixed, 11), mixed[11].p).2.AuthFailure?
  {
    hide Run, Observe, Initial, Packets;
    var four := [Call(caller, "1", 401), Call(caller, "2", 401), Call(caller, "3", 401), Call(caller, "4", 401)];
    var mixed := four + [Call(other, "6", 200), Call(caller, "5", 401)];
    CallersShareOneAccount(w, mode, s, server, four + [Call(caller, "5", 401)]);
    CallersShareOneAccount(w, mode, s, server, mixed);
    assert !mixed[4].Rejected();
  }
}
