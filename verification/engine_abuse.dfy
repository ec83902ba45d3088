/** What an abuse verdict proves about the packets before it, and which floods are sure to get
    one. */
module EngineAbuse {
  import opened Numerics
  import opened EngineModel
  import opened EngineRuns
  import opened EngineEffects
  import opened EngineAuth
  import SlidingCounts

  function AttemptsOf(st: State, s: Ip): SlidingCounts.Ring {
    if s in st.peers then st.peers[s].attempts else SlidingCounts.Empty(AUTH_ATTEMPTS)
  }

  lemma AttemptsInCase(w: World, st: State, s: Ip)
    requires st.Valid()
    ensures PeerOf(w, st, s).attempts == AttemptsOf(st, s)
    ensures AttemptsOf(st, s).Valid() && |AttemptsOf(st, s).stamps| == AUTH_ATTEMPTS
  {
  }

  lemma AdministrationKeepsAttempts(w: World, st: State, op: Op, s: Ip)
    requires st.Valid() && op.Valid() && !op.Receive?
    ensures AttemptsOf(Step(w, st, op), s) == AttemptsOf(st, s)
  {
    hide Step, PeerState.Valid;
    if s in Step(w, st, op).peers {
      AdministrationEffect(w, st, op, s);
    } else if s in st.peers {
      SourcesStay(w, st, op, s);
    }
  }

  /** The attempt ring of every source takes exactly its attempts. */
  lemma AttemptRingStep(w: World, st: State, op: Op, s: Ip)
    requires st.Valid() && op.Valid()
    ensures AttemptsOf(st, s).Valid()
    ensures AttemptsOf(Step(w, st, op), s) == if Attempts(w, st, op, s) then AttemptsOf(st, s).Recorded(op.p.at) else AttemptsOf(st, s)
  {
    hide Step, PeerState.Valid, AttemptsOf, CallFed, CallMade, OutcomeFed, OutcomeHeard, Claims, NewPeer, Scans,
         SlidingCounts.Ring.Recorded;
    AttemptsInCase(w, st, s);
    if !op.Receive? {
      AdministrationKeepsAttempts(w, st, op, s);
    } else {
      StepKeepsValid(w, st, op);
      AttemptsInCase(w, Step(w, st, op), s);
      SourceEffect(w, st, op, s);
    }
  }

  /** The verdict is read off the sender's ring. */
  lemma AbuseIsTheRing(w: World, st: State, op: Op)
    requires st.Valid() && op.Receive? && op.Valid()
    ensures AttemptsOf(Step(w, st, op), op.p.src).Valid()
    ensures Observe(w, st, op.p).2.AuthAbuse?
       <==> Attempts(w, st, op, op.p.src)
            && |AttemptsOf(Step(w, st, op), op.p.src).Live(op.p.at, AUTH_WINDOW_SECS)| >= AUTH_ATTEMPTS
  {
    hide Step, Observe, PeerState.Valid, AttemptsOf, Scans, CalledFor, VerdictOn, Fails, Claims, NewPeer, CallFed, CallMade,
         OutcomeFed, OutcomeHeard, AnsweredTables, SlidingCounts.Ring.Live, SlidingCounts.Ring.Recorded;
    SubjectIsOneSide(w, st, op.p);
    StepKeepsValid(w, st, op);
    AttemptsInCase(w, st, op.p.src);
    AttemptsInCase(w, Step(w, st, op), op.p.src);
    SourceDecision(w, st, op, Observe(w, st, op.p).1, Observe(w, st, op.p).2);
    SourceEffect(w, st, op, op.p.src);
  }

  // ---- the attempts of a run ----

  lemma AttemptIsAPacket(w: World, st: State, op: Op, s: Ip)
    requires st.Valid() && Attempts(w, st, op, s)
    ensures op.Receive? && op.p.src == s
  {
  }

  ghost predicate AttemptsAt(w: World, st: State, ops: seq<Op>, i: nat, s: Ip)
    requires i < |ops| && AllValid(ops) && st.Valid()
  {
    Attempts(w, Run(w, st, ops, i), ops[i], s)
  }

  /** The attempts of `s` among the first n operations, as the ring meets them. */
  ghost function History(w: World, st: State, ops: seq<Op>, n: nat, s: Ip): (h: seq<SlidingCounts.Event>)
    requires n <= |ops| && AllValid(ops) && st.Valid()
    ensures forall k :: 0 <= k < |h| ==> h[k].Hit?
  {
    if n == 0 then []
    else
      var before := History(w, st, ops, n - 1, s);
      if AttemptsAt(w, st, ops, n - 1, s) then before + [SlidingCounts.Hit(ops[n - 1].p.at)] else before
  }

  /** How many of them lie inside the 60 seconds before `now`. */
  ghost function AttemptsWithin(w: World, st: State, ops: seq<Op>, n: nat, s: Ip, now: nat): nat
    requires n <= |ops| && AllValid(ops) && st.Valid()
  {
    if n == 0 then 0
    else
      AttemptsWithin(w, st, ops, n - 1, s, now)
      + (if AttemptsAt(w, st, ops, n - 1, s) && SatSub(now, ops[n - 1].p.at) < 60 then 1 else 0)
  }

  lemma {:induction false} RunOfPrefix(h: seq<SlidingCounts.Event>, e: SlidingCounts.Event, n: nat)
    requires n <= |h|
    ensures SlidingCounts.Run(AUTH_ATTEMPTS, h + [e], n) == SlidingCounts.Run(AUTH_ATTEMPTS, h, n)
    ensures SlidingCounts.Hits(h + [e], n) == SlidingCounts.Hits(h, n)
  {
    hide SlidingCounts.Stepped;
    if n > 0 {
      RunOfPrefix(h, e, n - 1);
    }
  }

  lemma RunOfOneMore(h: seq<SlidingCounts.Event>, at: nat)
    ensures SlidingCounts.Run(AUTH_ATTEMPTS, h + [SlidingCounts.Hit(at)], |h| + 1)
         == SlidingCounts.Run(AUTH_ATTEMPTS, h, |h|).Recorded(at)
    ensures SlidingCounts.Hits(h + [SlidingCounts.Hit(at)], |h| + 1) == SlidingCounts.Hits(h, |h|) + [at]
  {
    hide SlidingCounts.Ring.Recorded;
    RunOfPrefix(h, SlidingCounts.Hit(at), |h|);
  }

  lemma NobodyTriesAtFirst(w: World, mode: Mode, ops: seq<Op>, s: Ip)
    requires AllValid(ops) && Initial(w, mode).Valid()
    ensures AttemptsOf(Run(w, Initial(w, mode), ops, 0), s) == SlidingCounts.Run(AUTH_ATTEMPTS, [], 0)
    ensures History(w, Initial(w, mode), ops, 0, s) == []
  {
  }

  lemma HistoryOnce(w: World, st: State, ops: seq<Op>, n: nat, s: Ip)
    requires n < |ops| && AllValid(ops) && st.Valid()
    ensures History(w, st, ops, n + 1, s)
         == if AttemptsAt(w, st, ops, n, s) then History(w, st, ops, n, s) + [SlidingCounts.Hit(ops[n].p.at)]
            else History(w, st, ops, n, s)
  {
    hide Run, AttemptsAt;
  }

  /** In every reachable state the attempt ring is the run of the source's own attempts. */
  lemma {:induction false} AttemptRingIsItsHistory(w: World, mode: Mode, ops: seq<Op>, n: nat, s: Ip)
    requires n <= |ops| && AllValid(ops) && Initial(w, mode).Valid()
    ensures var h := History(w, Initial(w, mode), ops, n, s);
            AttemptsOf(Run(w, Initial(w, mode), ops, n), s) == SlidingCounts.Run(AUTH_ATTEMPTS, h, |h|)
  {
    hide Run, Step, Attempts, AttemptsOf, Initial, History, SlidingCounts.Run, SlidingCounts.Ring.Recorded;
    if n == 0 {
      NobodyTriesAtFirst(w, mode, ops, s);
    } else {
      AttemptRingIsItsHistory(w, mode, ops, n - 1, s);
      RunStep(w, Initial(w, mode), ops, n - 1);
      AttemptRingStep(w, Run(w, Initial(w, mode), ops, n - 1), ops[n - 1], s);
      HistoryOnce(w, Initial(w, mode), ops, n - 1, s);
      if AttemptsAt(w, Initial(w, mode), ops, n - 1, s) {
        AttemptIsAPacket(w, Run(w, Initial(w, mode), ops, n - 1), ops[n - 1], s);
        RunOfOneMore(History(w, Initial(w, mode), ops, n - 1, s), ops[n - 1].p.at);
      }
    }
  }

  lemma WithinOnce(w: World, st: State, ops: seq<Op>, n: nat, s: Ip, now: nat)
    requires n < |ops| && AllValid(ops) && st.Valid()
    ensures AttemptsWithin(w, st, ops, n + 1, s, now)
         == AttemptsWithin(w, st, ops, n, s, now)
            + (if AttemptsAt(w, st, ops, n, s) && SatSub(now, ops[n].p.at) < AUTH_WINDOW_SECS then 1 else 0)
    ensures AttemptsWithin(w, st, ops, 0, s, now) == 0 && History(w, st, ops, 0, s) == []
  {
    hide Run, AttemptsAt;
  }

  lemma InsideOnce(hits: seq<nat>, at: nat, now: nat)
    ensures SlidingCounts.Inside(hits + [at], now, AUTH_WINDOW_SECS)
         == SlidingCounts.Inside(hits, now, AUTH_WINDOW_SECS) + (if SatSub(now, at) < AUTH_WINDOW_SECS then 1 else 0)
  {
    assert (hits + [at])[..|hits|] == hits;
  }

  /** Counting in the history is counting in the run; and the history is in time order. */
  lemma {:induction false} HistoryCounts(w: World, st: State, ops: seq<Op>, n: nat, s: Ip, now: nat)
    requires n <= |ops| && AllValid(ops) && st.Valid() && Clocked(ops)
    ensures var h := History(w, st, ops, n, s);
            && SlidingCounts.Inside(SlidingCounts.Hits(h, |h|), now, AUTH_WINDOW_SECS) == AttemptsWithin(w, st, ops, n, s, now)
            && SlidingCounts.InOrder(h)
            && forall k, i :: 0 <= k < |h| && n <= i < |ops| && ops[i].Receive? ==> h[k].at <= ops[i].p.at
  {
    hide Run, Attempts, History, AttemptsWithin, SlidingCounts.Hits, SlidingCounts.Inside, Clocked;
    if n == 0 {
      NothingCounted(w, st, ops, s, now);
    } else {
      HistoryCounts(w, st, ops, n - 1, s, now);
      HistoryOnce(w, st, ops, n - 1, s);
      WithinOnce(w, st, ops, n - 1, s, now);
      if AttemptsAt(w, st, ops, n - 1, s) {
        var h := History(w, st, ops, n - 1, s);
        AttemptIsAPacket(w, Run(w, st, ops, n - 1), ops[n - 1], s);
        RunOfOneMore(h, ops[n - 1].p.at);
        InsideOnce(SlidingCounts.Hits(h, |h|), ops[n - 1].p.at, now);
        LaterPackets(ops, n - 1);
      }
    }
  }

  lemma NothingCounted(w: World, st: State, ops: seq<Op>, s: Ip, now: nat)
    requires AllValid(ops) && st.Valid()
    ensures History(w, st, ops, 0, s) == [] && AttemptsWithin(w, st, ops, 0, s, now) == 0
    ensures SlidingCounts.Hits([], 0) == [] && SlidingCounts.Inside([], now, AUTH_WINDOW_SECS) == 0
  {
  }

  lemma LaterPackets(ops: seq<Op>, n: nat)
    requires n < |ops| && Clocked(ops) && ops[n].Receive?
    ensures forall i :: n <= i < |ops| && ops[i].Receive? ==> ops[n].p.at <= ops[i].p.at
  {
  }

  /** For every packet run: the abuse verdict is given exactly when the packet is an attempt and
      its source has made fifty attempts in the last 60 seconds, this one included. */
  lemma AbuseIsFiftyAttempts(w: World, mode: Mode, ops: seq<Op>, n: nat)
    requires n < |ops| && AllValid(ops) && Clocked(ops) && ops[n].Receive? && Initial(w, mode).Valid()
    ensures var s := ops[n].p.src;
            Observe(w, Run(w, Initial(w, mode), ops, n), ops[n].p).2.AuthAbuse?
            <==> && AttemptsAt(w, Initial(w, mode), ops, n, s)
                 && AttemptsWithin(w, Initial(w, mode), ops, n + 1, s, ops[n].p.at) >= 50
  {
    hide Run, Step, Observe, Attempts, AttemptsOf, Initial, History, AttemptsWithin, SlidingCounts.Run, SlidingCounts.Ring.Live,
         SlidingCounts.Hits, SlidingCounts.Inside, SlidingCounts.InOrder, Clocked;
    var st, s, now := Initial(w, mode), ops[n].p.src, ops[n].p.at;
    AbuseIsTheRing(w, Run(w, st, ops, n), ops[n]);
    RunStep(w, st, ops, n);
    AttemptRingIsItsHistory(w, mode, ops, n + 1, s);
    HistoryCounts(w, st, ops, n + 1, s, now);
    HistoryOnce(w, st, ops, n, s);
    if AttemptsAt(w, st, ops, n, s) {
      var h := History(w, st, ops, n + 1, s);
      SlidingCounts.RecordRefinesHistory(AUTH_ATTEMPTS, h, |h| - 1, AUTH_WINDOW_SECS);
    }
  }
}
