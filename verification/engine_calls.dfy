/** Which call every outcome fed to a detector answers, and what a retransmitted INVITE does to
    it. */
module EngineCalls {
  import opened Numerics
  import opened Calibration
  import opened EngineModel
  import opened EngineRuns
  import opened EngineEffects
  import opened EngineAuth
  import opened EngineBlock
  import Bitmaps
  import CompletionArm
  import DetectorRuns
  import Detectors
  import NumberRing
  import Pending
  import RangeMemory
  import SequentialTest

  /** What the detector reported new about the call this operation places, if it places one. */
  function NoveltyOf(w: World, st: State, op: Op, s: Ip): CompletionArm.Novelty
    requires st.Valid()
  {
    PeerOfIsValid(w, st, s);
    var ps := PeerOf(w, st, s);
    if !Heeded(st, op, s) then CompletionArm.NOTHING_NEW
    else match CallVerdict(w, ps, CallMade(w, ps, op.p.payload.request, op.p.at), op.p.at)
      case None => CompletionArm.NOTHING_NEW
      case Some(v) => CompletionArm.Novelty(v.firstRange, v.firstNumber)
  }

  /** Operation q's answer is the outcome of the call operation r placed: the latest under its
      key, unclaimed until then, answered by whom it was sent to, and judged with what was new
      about that very call. */
  ghost predicate Answers(w: World, st: State, ops: seq<Op>, r: nat, q: nat, s: Ip, novel: CompletionArm.Novelty)
    requires q < |ops| && AllValid(ops) && st.Valid()
  {
    && Heard(Run(w, st, ops, q), ops[q], s)
    && var key := ops[q].p.payload.response.key.value;
    && CallStands(w, st, ops, r, q, s, key) && ClaimsCall(w, st, ops, q, s, key)
    && (ops[r].p.dst == Pending.UNSPECIFIED || ops[r].p.dst == ops[q].p.src)
    && novel == NoveltyOf(w, Run(w, st, ops, r), ops[r], s)
  }

  lemma OutcomeIsClaimed(w: World, st: State, op: Op, s: Ip)
    requires st.Valid() && EventOf(w, st, op, s).Some? && EventOf(w, st, op, s).value.Outcome?
    ensures Heard(st, op, s) && ClaimedCall(st, op, s).Some?
    ensures var e := ClaimedCall(st, op, s).value;
            && e in IntlOf(st, s) && e.Awaits(op.p.payload.response.key.value, op.p.src)
            && EventOf(w, st, op, s).value.novel == e.novel
  {
    hide PeerState.Valid, NewPeer, Fitted, CallMade, Pending.Claimed;
    TablesOf(w, st, s);
    Pending.ClaimedLaws(IntlOf(st, s), op.p.payload.response.key.value, op.p.src);
  }

  /** In every run, every outcome a source's detector hears answers a call of that source. */
  lemma OutcomeAnswersACall(w: World, mode: Mode, ops: seq<Op>, q: nat, s: Ip) returns (r: nat)
    requires q < |ops| && AllValid(ops) && Initial(w, mode).Valid()
    requires var e := EventAt(w, Initial(w, mode), ops, q, s); e.Some? && e.value.Outcome?
    ensures Answers(w, Initial(w, mode), ops, r, q, s, EventAt(w, Initial(w, mode), ops, q, s).value.novel)
  {
    hide Run, Initial, PeerState.Valid, EventOf, Claims, PlacesCall, CallMade, CallVerdict;
    OutcomeIsClaimed(w, Run(w, Initial(w, mode), ops, q), ops[q], s);
    var e := ClaimedCall(Run(w, Initial(w, mode), ops, q), ops[q], s).value;
    r := WaitingCallWasSent(w, mode, ops, q, s, e);
    SentIsNovel(w, Run(w, Initial(w, mode), ops, r), ops[r], s, e);
  }

  lemma SentIsNovel(w: World, st: State, op: Op, s: Ip, e: Pending.Entry)
    requires st.Valid() && SentCall(w, st, op, s, e)
    ensures e.novel == NoveltyOf(w, st, op, s) && e.responder == op.p.Responder()
  {
    hide CallMade, Detectors.Detector.Observe, PeerState.Valid;
    PeerOfIsValid(w, st, s);
  }

  /** One call has one outcome. */
  lemma OneOutcomeACall(w: World, st: State, ops: seq<Op>, r: nat, q: nat, q': nat, s: Ip, novel: CompletionArm.Novelty,
                        novel': CompletionArm.Novelty)
    requires q < |ops| && q' < |ops| && AllValid(ops) && st.Valid()
    requires Answers(w, st, ops, r, q, s, novel) && Answers(w, st, ops, r, q', s, novel')
    ensures q == q'
  {
    hide Run, ClaimedCall, CallMade, CallVerdict, PeerState.Valid;
  }

  /** So the outcomes of a history go back, each to its own call. */
  lemma OutcomesOfAHistory(w: World, mode: Mode, ops: seq<Op>, n: nat, s: Ip, b: nat, d0: Detectors.Detector,
                           events: seq<Detectors.Event>, where: seq<nat>, k: nat) returns (r: nat)
    requires n <= |ops| && AllValid(ops) && Initial(w, mode).Valid()
    requires IsHistory(w, Initial(w, mode), ops, n, s, b, d0, events, where) && k < |events| && events[k].Outcome?
    ensures k < |where| && where[k] < n && Answers(w, Initial(w, mode), ops, r, where[k], s, events[k].novel)
    ensures forall l, novel :: k < l < |where| ==> !Answers(w, Initial(w, mode), ops, r, where[l], s, novel)
  {
    hide Run, Initial, EventOf, Answers, Base, Begins, Detectors.Run;
    r := OutcomeAnswersACall(w, mode, ops, where[k], s);
    forall l, novel | k < l < |where| ensures !Answers(w, Initial(w, mode), ops, r, where[l], s, novel) {
      if Answers(w, Initial(w, mode), ops, r, where[l], s, novel) {
        OneOutcomeACall(w, Initial(w, mode), ops, r, where[k], where[l], s, events[k].novel, novel);
        assert false;
      }
    }
  }

  // ---- a retransmitted INVITE ----

  /** Observed again, a number is not new; nor, within 900 seconds, is a range that was reported
      the first time. */
  lemma SecondLook(num: Primitives, d: Detectors.Detector, call: Detectors.Call, at: nat, at': nat)
    requires d.numbers.Valid() && 0 < at <= at' && d.range.window <= at
    ensures var r := d.Called(num, call, at);
            && r.numbers.Valid() && !r.numbers.IsNew(num.hash(call.digits))
            && (d.range.IsFirst(Detectors.DialOf(num, call.digits, at)) && at' < at + RangeMemory.WINDOW_SECS ==>
                  !r.range.IsFirst(Detectors.DialOf(num, call.digits, at')))
  {
    hide SequentialTest.Walk.Leaked, SequentialTest.Walk.Observed, Bitmaps.Positions;
    var n := NumberRing.Nudged(num.hash(call.digits));
    if d.numbers.IsNew(num.hash(call.digits)) {
      assert d.numbers.Observed(num.hash(call.digits)).slots[d.numbers.next] == n;
    }
  }

  /** What a detector reports new about a call. */
  function NewAbout(num: Primitives, d: Detectors.Detector, call: Detectors.Call, at: nat): CompletionArm.Novelty {
    CompletionArm.Novelty(d.range.IsFirst(Detectors.DialOf(num, call.digits, at)), d.numbers.IsNew(num.hash(call.digits)))
  }

  /** The number was dialled recently, and the range, if there is one, is remembered at the first
      call and, with only what was remembered then, still at the second. */
  predicate NothingToLose(num: Primitives, d: Detectors.Detector, call: Detectors.Call, at: nat, at': nat) {
    && !d.numbers.IsNew(num.hash(call.digits))
    && match Detectors.DialOf(num, call.digits, at).range
       case None => true
       case Some(h) => d.range.Rotated(at).Knows(h) && d.range.Rotated(at).Rotated(at').Knows(h)
  }

  /** A call observed twice within 900 seconds, with no other call observed in between, leaves what
      was new about it as it was exactly when nothing was new about it, and its range is
      remembered long enough. */
  lemma SecondLookIsHarmless(num: Primitives, d: Detectors.Detector, call: Detectors.Call, at: nat, at': nat)
    requires d.numbers.Valid() && 0 < at <= at' < at + RangeMemory.WINDOW_SECS && d.range.window <= at
    ensures NewAbout(num, d.Called(num, call, at), call, at') == NewAbout(num, d, call, at) <==> NothingToLose(num, d, call, at, at')
  {
    hide SequentialTest.Walk.Leaked, SequentialTest.Walk.Observed, Bitmaps.Positions, RangeMemory.Memory.Rotated,
         NumberRing.Ring.IsNew;
    SecondLook(num, d, call, at, at');
  }

  /** Over any run of events of one source: of two calls to one number within 900 seconds, the
      second is not reported to a new range if the first was; it is reported as a new number exactly
      when that is none of the last sixteen reported, so not if the first was and fewer than
      sixteen numbers were reported since. */
  lemma NothingIsNewTwice(num: Primitives, d: Detectors.Detector, events: seq<Detectors.Event>, i: nat, j: nat)
    requires i < j < |events| && Detectors.AllValid(events) && Detectors.Clocked(events) && d.Fresh() && d.numbers.Valid()
    requires events[i].Invite? && events[j].Invite? && events[i].call.digits == events[j].call.digits
    ensures var first := NewAbout(num, Detectors.Run(num, d, events, i), events[i].call, events[i].at);
            var second := NewAbout(num, Detectors.Run(num, d, events, j), events[j].call, events[j].at);
            var numbers := DetectorRuns.Numbers(num, events);
            && (second.number <==> !NumberRing.Recent(numbers, j, num.hash(events[j].call.digits)))
            && (first.number && NumberRing.Reports(numbers, i + 1, j) < NumberRing.SIZE ==> !second.number)
            && (first.range && events[j].at < events[i].at + RangeMemory.WINDOW_SECS ==> !second.range)
  {
    hide Detectors.Run, RangeMemory.Remembered, RangeMemory.Memory.IsFirst, NumberRing.Run, NumberRing.Recent, NumberRing.Nudged;
    DetectorRuns.ArmsRunApart(num, d, events, i);
    DetectorRuns.ArmsRunApart(num, d, events, j);
    var numbers, dials := DetectorRuns.Numbers(num, events), DetectorRuns.Dials(num, events);
    NumberRing.NewIsNotRecent(numbers, j, num.hash(events[j].call.digits));
    if NumberRing.Reported(numbers, i) && NumberRing.Reported(numbers, j) {
      NumberRing.SixteenReportsBetween(numbers, i, j);
    }
    DialsAreClocked(num, events);
    if RangeMemory.Reported(dials, i) && RangeMemory.Reported(dials, j) {
      RangeMemory.ReportedRangeIsRemembered(dials, i, j);
    }
  }

  lemma DialsAreClocked(num: Primitives, events: seq<Detectors.Event>)
    requires Detectors.Clocked(events)
    ensures RangeMemory.Clocked(DetectorRuns.Dials(num, events))
  {
    hide Detectors.DialOf;
    var dials := DetectorRuns.Dials(num, events);
    forall i | 0 <= i < |events| && dials[i].Some? ensures events[i].Invite? && dials[i].value.at == events[i].at {
      DialIsDated(num, events, i);
    }
  }

  lemma DialIsDated(num: Primitives, events: seq<Detectors.Event>, i: nat)
    requires i < |events| && DetectorRuns.Dials(num, events)[i].Some?
    ensures events[i].Invite? && DetectorRuns.Dials(num, events)[i].value.at == events[i].at
  {
  }

  /** So in the whole history of every reachable source. */
  lemma NothingIsNewTwiceToASource(w: World, mode: Mode, ops: seq<Op>, n: nat, s: Ip, b: nat, d0: Detectors.Detector,
                                   events: seq<Detectors.Event>, where: seq<nat>, i: nat, j: nat)
    requires n <= |ops| && AllValid(ops) && Initial(w, mode).Valid() && Ticking(ops)
    requires IsHistory(w, Initial(w, mode), ops, n, s, b, d0, events, where) && i < j < |events|
    requires events[i].Invite? && events[j].Invite? && events[i].call.digits == events[j].call.digits
    ensures Detectors.AllValid(events) && d0.numbers.Valid()
    ensures var first := NewAbout(w.num, Detectors.Run(w.num, d0, events, i), events[i].call, events[i].at);
            var second := NewAbout(w.num, Detectors.Run(w.num, d0, events, j), events[j].call, events[j].at);
            var numbers := DetectorRuns.Numbers(w.num, events);
            && (second.number <==> !NumberRing.Recent(numbers, j, w.num.hash(events[j].call.digits)))
            && (first.number && NumberRing.Reports(numbers, i + 1, j) < 16 ==> !second.number)
            && (first.range && events[j].at < events[i].at + 900 ==> !second.range)
  {
    hide Run, Initial, Base, Begins, Lists, NewAbout, Detectors.Run, NumberRing.Recent, NumberRing.Reports;
    HistoryIsClocked(w, Initial(w, mode), ops, n, s, b, events, where);
    NothingIsNewTwice(w.num, d0, events, i, j);
  }

  /** One call waiting, or none but one under the same key: the call just placed waits, with what
      was new about it. */
  lemma CallWaits(w: World, st: State, op: Op, s: Ip, key: string)
    requires st.Valid() && op.Valid() && PlacesCall(w, st, op, s, key)
    requires IntlOf(st, s) == [] || (|IntlOf(st, s)| == 1 && IntlOf(st, s)[0].key == key)
    ensures PeerOf(w, st, s).Valid() && PeerOf(w, st, s).anomaly.numbers.Valid()
    ensures var ps, q := PeerOf(w, st, s), PeerOf(w, Step(w, st, op), s);
            var call := CallMade(w, ps, op.p.payload.request, op.p.at).value;
            && s in Step(w, st, op).peers && q.plan == ps.plan
            && q.anomaly == ps.anomaly.Called(w.num, call, op.p.at)
            && IntlOf(Step(w, st, op), s) == [Pending.Entry(key, op.p.at, op.p.Responder(), None, NoveltyOf(w, st, op, s))]
  {
    hide Step, PeerState.Valid, OutcomeFed, OutcomeHeard, NewPeer, IntlOf, CallMade, Detectors.Detector.Called,
         Detectors.Detector.Fused, Pending.Remembered;
    PeerOfIsValid(w, st, s);
    NumbersAreValid(PeerOf(w, st, s));
    StepKeepsValid(w, st, op);
    TablesOf(w, st, s);
    TablesOf(w, Step(w, st, op), s);
    SourceEffect(w, st, op, s);
    VerdictHasAnEvent(w, st, op, s);
    OneRemembered(IntlOf(st, s), Pending.Entry(key, op.p.at, op.p.Responder(), None, NoveltyOf(w, st, op, s)));
  }

  lemma OneRemembered(entries: seq<Pending.Entry>, e: Pending.Entry)
    requires entries == [] || (|entries| == 1 && entries[0].key == e.key)
    ensures Pending.Remembered(entries, e) == [e]
  {
    assert entries != [] ==> entries[..0] == [];
  }

  /** A clean INVITE without a credential that the default dial plan makes an international call,
      to a number long enough to have a range. */
  predicate PlainCall(w: World, req: Request) {
    && req.perimeter == Clean && req.kind == Invite && !req.credentialed && req.key.Some?
    && Dialled(w, w.defaultPlan, req).Some? && Detectors.RangeOf(Dialled(w, w.defaultPlan, req).value.digits).Some?
  }

  lemma PlainCallIsMade(w: World, ps: PeerState, req: Request, at: nat)
    requires ps.Valid() && PlainCall(w, req) && ps.plan == w.defaultPlan
    ensures CallMade(w, ps, req, at) == Dialled(w, w.defaultPlan, req)
  {
    hide PeerState.Valid, Dialled;
  }

  lemma NoveltyIs(w: World, st: State, op: Op, s: Ip, call: Detectors.Call)
    requires st.Valid() && Heeded(st, op, s) && PeerOf(w, st, s).Valid()
    requires CallMade(w, PeerOf(w, st, s), op.p.payload.request, op.p.at) == Some(call)
    ensures var d := PeerOf(w, st, s).anomaly;
            NoveltyOf(w, st, op, s)
            == CompletionArm.Novelty(d.range.IsFirst(Detectors.DialOf(w.num, call.digits, op.p.at)),
                                     d.numbers.IsNew(w.num.hash(call.digits)))
  {
    hide PeerState.Valid, CallMade, Detectors.Detector.Called, Detectors.Detector.Fused, NewPeer;
    NumbersAreValid(PeerOf(w, st, s));
  }

  lemma NewLook(num: Primitives, p: Params, call: Detectors.Call, at: nat)
    requires p.Valid() && Detectors.RangeOf(call.digits).Some?
    ensures var d := Detectors.New(num, p);
            && d.range.window == 0 && d.range.IsFirst(Detectors.DialOf(num, call.digits, at)) && d.numbers.IsNew(num.hash(call.digits))
  {
    assert Bitmaps.Position(num.hash(Detectors.RangeOf(call.digits).value), 0) in
           Bitmaps.Positions(num.hash(Detectors.RangeOf(call.digits).value));
  }

  /** A fresh source places its first call. */
  lemma FirstCall(w: World, mode: Mode, op: Op, s: Ip, req: Request)
    requires Initial(w, mode).Valid() && op.Receive? && op.p.src == s && op.p.payload == Asking(req) && PlainCall(w, req)
    ensures var st := Initial(w, mode); var call := Dialled(w, w.defaultPlan, req).value;
            && PlacesCall(w, st, op, s, req.key.value) && IntlOf(st, s) == []
            && NoveltyOf(w, st, op, s) == CompletionArm.Novelty(true, true)
            && PeerOf(w, st, s).Valid() && CallMade(w, PeerOf(w, st, s), req, op.p.at) == Some(call)
            && PeerOf(w, st, s).plan == w.defaultPlan && PeerOf(w, st, s).anomaly == Detectors.New(w.num, st.params)
  {
    hide PeerState.Valid, Dialled, CallMade, NoveltyOf, Detectors.New;
    var st := Initial(w, mode);
    PeerOfIsValid(w, st, s);
    PlainCallIsMade(w, PeerOf(w, st, s), req, op.p.at);
    NoveltyIs(w, st, op, s, Dialled(w, w.defaultPlan, req).value);
    NewLook(w.num, st.params, Dialled(w, w.defaultPlan, req).value, op.p.at);
  }

  /** The same INVITE again, while the first still waits. */
  lemma SameCallAgain(w: World, mode: Mode, first: Op, again: Op, s: Ip, req: Request)
    requires Initial(w, mode).Valid() && PlainCall(w, req)
    requires first.Receive? && first.p.src == s && first.p.payload == Asking(req)
    requires again.Receive? && again.p.src == s && again.p.payload == Asking(req)
    requires 0 < first.p.at <= again.p.at < first.p.at + RangeMemory.WINDOW_SECS
    ensures var st := Step(w, Initial(w, mode), first);
            && st.Valid() && PlacesCall(w, st, again, s, req.key.value)
            && |IntlOf(st, s)| == 1 && IntlOf(st, s)[0].key == req.key.value
            && NoveltyOf(w, st, again, s) == CompletionArm.NOTHING_NEW
  {
    hide PeerState.Valid, Dialled, CallMade, NoveltyOf, Detectors.New, Step, Initial, NewPeer, PeerOf, IntlOf,
         RangeMemory.Memory.IsFirst, NumberRing.Ring.IsNew, Detectors.Detector.Called, Scans, Abuses;
    var call := Dialled(w, w.defaultPlan, req).value;
    FirstCall(w, mode, first, s, req);
    CallWaits(w, Initial(w, mode), first, s, req.key.value);
    StepKeepsValid(w, Initial(w, mode), first);
    var st := Step(w, Initial(w, mode), first);
    PeerOfIsValid(w, st, s);
    PlainCallIsMade(w, PeerOf(w, st, s), req, again.p.at);
    NewLook(w.num, Initial(w, mode).params, call, first.p.at);
    SecondLook(w.num, PeerOf(w, Initial(w, mode), s).anomaly, call, first.p.at, again.p.at);
    NoveltyIs(w, st, again, s, call);
  }

  /** The answer to the only waiting call is its outcome. */
  lemma AnswerIsItsOutcome(w: World, st: State, op: Op, s: Ip, e: Pending.Entry, outcome: CompletionArm.CallOutcome)
    requires st.Valid() && op.Receive? && op.p.dst == s && s in st.peers && w.behavioural && IntlOf(st, s) == [e]
    requires op.p.payload.Answering? && op.p.payload.response.key == Some(e.key) && !op.p.payload.response.IsProvisional()
    requires e.Awaits(e.key, op.p.src) && CompletionArm.FromStatus(op.p.payload.response.status) == Some(outcome)
    ensures EventOf(w, st, op, s) == Some(Detectors.Outcome(outcome, e.novel, op.p.at))
  {
    hide PeerState.Valid, NewPeer, CallMade;
    assert [e][..0] + [e][1..] == [];
  }

  /** A first call whose answer is a failure is evidence: its range and its number are new. The
      same call with its INVITE retransmitted once before the answer is none, whatever the
      failure: the second INVITE is observed as a call of its own and leaves what is new about
      it, which is nothing. */
  lemma RetransmissionHidesTheOutcome(w: World, mode: Mode, s: Ip, server: Ip, req: Request, at: nat, later: nat, status: nat,
                                      outcome: CompletionArm.CallOutcome)
    requires w.behavioural && PlainCall(w, req) && 0 < at <= later < at + Pending.TTL_SECS
    requires status >= 200 && CompletionArm.FromStatus(status) == Some(outcome)
    ensures Initial(w, mode).Valid()
    ensures var invite, again := Receive(Packet(s, server, Asking(req), at)), Receive(Packet(s, server, Asking(req), later));
            var answer := Receive(Packet(server, s, Answering(Response(status, req.key, false)), later));
            && EventAt(w, Initial(w, mode), [invite, answer], 1, s)
               == Some(Detectors.Outcome(outcome, CompletionArm.Novelty(true, true), later))
            && EventAt(w, Initial(w, mode), [invite, again, answer], 2, s)
               == Some(Detectors.Outcome(outcome, CompletionArm.NOTHING_NEW, later))
    ensures CompletionArm.Counted(outcome, CompletionArm.Novelty(true, true))
       <==> outcome != CompletionArm.Completed && outcome != CompletionArm.Unanswered
    ensures !CompletionArm.Counted(outcome, CompletionArm.NOTHING_NEW)
  {
    hide Run, Step, EventOf, PlacesCall, NoveltyOf, Initial, IntlOf, PeerOf, PeerState.Valid, CallMade, Dialled,
         CompletionArm.FromStatus, Detectors.Detector.Called, Detectors.New, State.Valid;
    InitialIsValid(w, mode);
    var invite, again := Receive(Packet(s, server, Asking(req), at)), Receive(Packet(s, server, Asking(req), later));
    var answer := Receive(Packet(server, s, Answering(Response(status, req.key, false)), later));
    FirstCall(w, mode, invite, s, req);
    CallWaits(w, Initial(w, mode), invite, s, req.key.value);
    OneStep(w, Initial(w, mode), [invite, answer]);
    AnswerIsItsOutcome(w, Step(w, Initial(w, mode), invite), answer, s,
                       Pending.Entry(req.key.value, at, invite.p.Responder(), None, CompletionArm.Novelty(true, true)), outcome);
    SameCallAgain(w, mode, invite, again, s, req);
    CallWaits(w, Step(w, Initial(w, mode), invite), again, s, req.key.value);
    OneStep(w, Initial(w, mode), [invite, again, answer]);
    RunStep(w, Initial(w, mode), [invite, again, answer], 1);
    AnswerIsItsOutcome(w, Step(w, Step(w, Initial(w, mode), invite), again), answer, s,
                       Pending.Entry(req.key.value, later, invite.p.Responder(), None, CompletionArm.NOTHING_NEW), outcome);
  }

  lemma OneStep(w: World, st: State, ops: seq<Op>)
    requires ops != [] && AllValid(ops) && st.Valid()
    ensures Run(w, st, ops, 1) == Step(w, st, ops[0])
  {
    RunStep(w, st, ops, 0);
  }
}
