/** What a firing decision proves about the packets of its source: the detector of a source is
    the run of exactly the events its packets and the recalibrations meant to it, since it was
    created or last restored. */
module EngineBlock {
  import opened Numerics
  import opened Calibration
  import opened EngineModel
  import opened EngineRuns
  import opened EngineEffects
  import Detectors
  import DetectorRuns
  import VolumeArm
  import Pending

  /** The event an operation means to the detector of `s`, if any: the call its INVITE is under
      its dial plan, the outcome of its own waiting call with what was new about that call, or
      the calibration it adopts. */
  ghost function EventOf(w: World, st: State, op: Op, s: Ip): Option<Detectors.Event>
    requires st.Valid()
  {
    if op.Recalibrate? then
      if s in st.peers then Some(Detectors.Calibrated(Fitted(st))) else None
    else if !op.Receive? then None
    else
      PeerOfIsValid(w, st, s);
      var ps, p := PeerOf(w, st, s), op.p;
      if Heeded(st, op, s) then
        match CallMade(w, ps, p.payload.request, p.at)
        case None => None
        case Some(call) => Some(Detectors.Invite(call, p.at))
      else if Heard(st, op, s) then
        var r := p.payload.response;
        match OutcomeHeard(w, Claims(ps, r.key.value, p.src, r).1, r)
        case None => None
        case Some(o) => Some(Detectors.Outcome(o.0, o.1, p.at))
      else None
  }

  /** The operation restores `s` from a stored row: its memories start over. */
  predicate Restores(st: State, op: Op, s: Ip) {
    op.Import? && op.peer == s && st.HasRoomFor(s)
  }

  /** The detector the operation finds or sets up for `s`, before its event. */
  function Base(w: World, st: State, op: Op, s: Ip): Detectors.Detector
    requires st.params.Valid()
  {
    if Restores(st, op, s) then Detectors.FromSnapshot(w.num, st.params, op.row)
    else if s in st.peers then st.peers[s].anomaly
    else if op.Declare? then
      DefaultsAreValid(w.num);
      Detectors.New(w.num, Defaults(w.num))
    else Detectors.New(w.num, st.params)
  }

  function AfterEvent(w: World, base: Detectors.Detector, e: Option<Detectors.Event>): Detectors.Detector
    requires base.numbers.Valid() && (e.Some? ==> e.value.Valid())
  {
    match e case None => base case Some(event) => Detectors.After(w.num, base, event)
  }

  /** A detector with no history, granted the warm-up of the deployment. */
  predicate Newborn(d: Detectors.Detector) {
    d.Fresh() && d.gate.warmupSecs == 24 * 3600 && d.gate.warmupCalls == 20
  }

  lemma NewIsNewborn(w: World, p: Params)
    requires p.Valid() && p.Standard()
    ensures Newborn(Detectors.New(w.num, p))
  {
    Detectors.NewIsFresh(w.num, p);
  }

  lemma RestoredIsNewborn(w: World, p: Params, row: Detectors.Snapshot)
    requires p.Valid() && p.Standard() && row.Valid()
    ensures Newborn(Detectors.FromSnapshot(w.num, p, row))
  {
    Detectors.RestoredIsFresh(w.num, p, row);
  }

  lemma NewbornNumbers(d: Detectors.Detector)
    requires Newborn(d)
    ensures d.numbers.Valid()
  {
  }

  lemma BaseLaws(w: World, st: State, op: Op, s: Ip)
    requires st.Valid() && op.Valid()
    ensures Base(w, st, op, s).numbers.Valid()
    ensures s !in st.peers || Restores(st, op, s) ==> Newborn(Base(w, st, op, s))
    ensures var e := EventOf(w, st, op, s); e.Some? ==> e.value.Valid()
  {
    hide Newborn, Detectors.New, Detectors.FromSnapshot, PeerState.Valid, Fitted, CallMade, OutcomeHeard, Pending.Claimed, NewPeer;
    DefaultsAreValid(w.num);
    FittedIsValid(st);
    if Restores(st, op, s) {
      RestoredIsNewborn(w, st.params, op.row);
      NewbornNumbers(Base(w, st, op, s));
    } else if s in st.peers {
      NumbersAreValid(st.peers[s]);
    } else {
      NewIsNewborn(w, Defaults(w.num));
      NewIsNewborn(w, st.params);
      NewbornNumbers(Base(w, st, op, s));
    }
  }

  // ---- one operation, any kind ----

  lemma PacketStep(w: World, st: State, op: Op, s: Ip)
    requires st.Valid() && op.Receive? && op.Valid()
    ensures Base(w, st, op, s).numbers.Valid() && (EventOf(w, st, op, s).Some? ==> EventOf(w, st, op, s).value.Valid())
    ensures PeerOf(w, Step(w, st, op), s).anomaly == AfterEvent(w, Base(w, st, op, s), EventOf(w, st, op, s))
  {
    hide Step, PeerState.Valid, AskedTables, AnsweredTables, CallMade, OutcomeHeard, Claims, Newborn, Pending.Remembered,
         Detectors.Detector.Called, Detectors.Detector.Fused, Detectors.Detector.ObserveCompletion, Detectors.New;
    BaseLaws(w, st, op, s);
    SourceEffect(w, st, op, s);
    OutcomeIsCompletion(w, Base(w, st, op, s));
  }

  lemma OutcomeIsCompletion(w: World, d: Detectors.Detector)
    requires d.numbers.Valid()
    ensures forall o, novel, at :: Detectors.After(w.num, d, Detectors.Outcome(o, novel, at)) == d.ObserveCompletion(w.num, o, novel, at).0
  {
  }

  lemma RecalibrationStep(w: World, st: State, s: Ip)
    requires st.Valid() && s in st.peers
    ensures Fitted(st).Valid() && st.peers[s].anomaly.numbers.Valid()
    ensures s in Recalibrated(w, st).peers
    ensures Recalibrated(w, st).peers[s].anomaly == Detectors.After(w.num, st.peers[s].anomaly, Detectors.Calibrated(Fitted(st)))
  {
    hide Fitted, PeerState.Valid, Detectors.Detector.Recalibrated;
    FittedIsValid(st);
    NumbersAreValid(st.peers[s]);
  }

  lemma AdministrationStep(w: World, st: State, op: Op, s: Ip)
    requires st.Valid() && !op.Receive? && op.Valid() && s in Step(w, st, op).peers
    ensures Base(w, st, op, s).numbers.Valid() && (EventOf(w, st, op, s).Some? ==> EventOf(w, st, op, s).value.Valid())
    ensures Step(w, st, op).peers[s].anomaly == AfterEvent(w, Base(w, st, op, s), EventOf(w, st, op, s))
  {
    hide Recalibrated, Fitted, PeerState.Valid, Detectors.After, Detectors.New, Detectors.FromSnapshot, Newborn;
    BaseLaws(w, st, op, s);
    DefaultsAreValid(w.num);
    if op.Recalibrate? {
      SourcesKept(w, st);
      RecalibrationStep(w, st, s);
    }
  }

  lemma SourcesKept(w: World, st: State)
    requires st.Valid()
    ensures Recalibrated(w, st).peers.Keys == st.peers.Keys
  {
    FittedIsValid(st);
  }

  /** The detector of every source takes exactly the step its event is, if the operation means
      one to it, and otherwise stays as it is, is set up, or is restored. */
  lemma DetectorStep(w: World, st: State, op: Op, s: Ip)
    requires st.Valid() && op.Valid() && s in Step(w, st, op).peers
    ensures Base(w, st, op, s).numbers.Valid() && (EventOf(w, st, op, s).Some? ==> EventOf(w, st, op, s).value.Valid())
    ensures Step(w, st, op).peers[s].anomaly == AfterEvent(w, Base(w, st, op, s), EventOf(w, st, op, s))
  {
    hide Step, PeerState.Valid, EventOf, Base, AfterEvent, NewPeer;
    if op.Receive? {
      StepKeepsValid(w, st, op);
      PacketStep(w, st, op, s);
    } else {
      AdministrationStep(w, st, op, s);
    }
  }

  // ---- the history of one source ----

  /** Operation i brings `s` its first entry, or restores it. */
  ghost predicate Begins(w: World, st: State, ops: seq<Op>, i: nat, s: Ip)
    requires i < |ops| && AllValid(ops) && st.Valid()
  {
    var before := Run(w, st, ops, i);
    (s !in before.peers && s in Run(w, st, ops, i + 1).peers) || Restores(before, ops[i], s)
  }

  ghost function EventAt(w: World, st: State, ops: seq<Op>, i: nat, s: Ip): Option<Detectors.Event>
    requires i < |ops| && AllValid(ops) && st.Valid()
  {
    EventOf(w, Run(w, st, ops, i), ops[i], s)
  }

  /** `where` lists, in order, exactly the operations from b to n that mean an event to the
      detector of `s`, and `events` lists those events. */
  ghost predicate Lists(w: World, st: State, ops: seq<Op>, n: nat, s: Ip, b: nat, events: seq<Detectors.Event>, where: seq<nat>)
    requires n <= |ops| && AllValid(ops) && st.Valid()
  {
    && |where| == |events|
    && (forall k :: 0 <= k < |where| ==> b <= where[k] < n && EventAt(w, st, ops, where[k], s) == Some(events[k]))
    && (forall k, l :: 0 <= k < l < |where| ==> where[k] < where[l])
    && (forall i :: b <= i < n && EventAt(w, st, ops, i, s).Some? ==> i in where)
  }

  /** The whole history of `s` after n operations: operation b last created or restored it, with
      the detector d0; since then it met exactly the listed events; and its detector is their
      run. Nothing is left out and nothing invented, so "first ever" on this history means since
      the source was created or restored. */
  ghost predicate IsHistory(w: World, st: State, ops: seq<Op>, n: nat, s: Ip, b: nat, d0: Detectors.Detector,
                            events: seq<Detectors.Event>, where: seq<nat>)
    requires n <= |ops| && AllValid(ops) && st.Valid()
  {
    && b < n && Begins(w, st, ops, b, s) && (forall i :: b < i < n ==> !Begins(w, st, ops, i, s))
    && d0 == Base(w, Run(w, st, ops, b), ops[b], s) && Newborn(d0) && d0.numbers.Valid()
    && Lists(w, st, ops, n, s, b, events, where)
    && Detectors.AllValid(events)
    && s in Run(w, st, ops, n).peers
    && Run(w, st, ops, n).peers[s].anomaly == Detectors.Run(w.num, d0, events, |events|)
  }

  lemma ListsGrow(w: World, st: State, ops: seq<Op>, n: nat, s: Ip, b: nat, events: seq<Detectors.Event>, where: seq<nat>)
    returns (events': seq<Detectors.Event>, where': seq<nat>)
    requires b <= n < |ops| && AllValid(ops) && st.Valid() && Lists(w, st, ops, n, s, b, events, where)
    ensures Lists(w, st, ops, n + 1, s, b, events', where')
    ensures match EventAt(w, st, ops, n, s)
            case None => events' == events && where' == where
            case Some(e) => events' == events + [e] && where' == where + [n]
  {
    hide EventAt;
    events', where' := events, where;
    if EventAt(w, st, ops, n, s).Some? {
      events', where' := events + [EventAt(w, st, ops, n, s).value], where + [n];
    }
  }

  lemma RunGrows(w: World, d0: Detectors.Detector, events: seq<Detectors.Event>, e: Detectors.Event)
    requires d0.numbers.Valid() && Detectors.AllValid(events) && e.Valid()
    ensures Detectors.AllValid(events + [e]) && Detectors.Run(w.num, d0, events, |events|).numbers.Valid()
    ensures Detectors.Run(w.num, d0, events + [e], |events + [e]|)
         == Detectors.After(w.num, Detectors.Run(w.num, d0, events, |events|), e)
    ensures Detectors.Run(w.num, d0, events + [e], |events|) == Detectors.Run(w.num, d0, events, |events|)
  {
    hide Detectors.After, Detectors.Run;
    DetectorRuns.RunOfOneMore(w.num, d0, events, e);
    DetectorRuns.RunOfPrefix(w.num, d0, events, [e], |events|);
    assert |events + [e]| == |events| + 1;
  }

  /** One more operation, when it does not begin the source anew. */
  lemma HistoryGoesOn(w: World, st: State, ops: seq<Op>, n: nat, s: Ip, b: nat, d0: Detectors.Detector,
                      events: seq<Detectors.Event>, where: seq<nat>)
    returns (events': seq<Detectors.Event>, where': seq<nat>)
    requires n < |ops| && AllValid(ops) && st.Valid() && IsHistory(w, st, ops, n, s, b, d0, events, where)
    requires !Begins(w, st, ops, n, s) && s in Run(w, st, ops, n + 1).peers
    ensures IsHistory(w, st, ops, n + 1, s, b, d0, events', where')
    ensures match EventAt(w, st, ops, n, s)
            case None => events' == events && where' == where
            case Some(e) => events' == events + [e] && where' == where + [n]
    ensures Base(w, Run(w, st, ops, n), ops[n], s) == Detectors.Run(w.num, d0, events, |events|)
    ensures Detectors.AllValid(events') && Detectors.Run(w.num, d0, events', |events|) == Detectors.Run(w.num, d0, events, |events|)
  {
    hide Run, Step, EventOf, Lists, Newborn, Detectors.Run, Detectors.After;
    RunStep(w, st, ops, n);
    DetectorStep(w, Run(w, st, ops, n), ops[n], s);
    events', where' := ListsGrow(w, st, ops, n, s, b, events, where);
    if EventAt(w, st, ops, n, s).Some? {
      RunGrows(w, d0, events, EventAt(w, st, ops, n, s).value);
    }
  }

  lemma NothingListed(w: World, st: State, ops: seq<Op>, n: nat, s: Ip)
    requires n <= |ops| && AllValid(ops) && st.Valid()
    ensures Lists(w, st, ops, n, s, n, [], [])
  {
  }

  /** The operation that creates or restores the source. */
  lemma HistoryBegins(w: World, st: State, ops: seq<Op>, n: nat, s: Ip)
    returns (d0: Detectors.Detector, events: seq<Detectors.Event>, where: seq<nat>)
    requires n < |ops| && AllValid(ops) && st.Valid()
    requires Begins(w, st, ops, n, s) && s in Run(w, st, ops, n + 1).peers
    ensures IsHistory(w, st, ops, n + 1, s, n, d0, events, where)
    ensures d0 == Base(w, Run(w, st, ops, n), ops[n], s)
    ensures match EventAt(w, st, ops, n, s) case None => events == [] && where == [] case Some(e) => events == [e] && where == [n]
  {
    hide Run, Step, EventOf, Base, Lists, Newborn, Detectors.Run, Detectors.After;
    var before := Run(w, st, ops, n);
    RunStep(w, st, ops, n);
    DetectorStep(w, before, ops[n], s);
    BaseLaws(w, before, ops[n], s);
    d0 := Base(w, before, ops[n], s);
    NothingListed(w, st, ops, n, s);
    events, where := ListsGrow(w, st, ops, n, s, n, [], []);
    NothingRun(w, d0);
    if EventAt(w, st, ops, n, s).Some? {
      RunGrows(w, d0, [], EventAt(w, st, ops, n, s).value);
      assert [] + events == events;
    }
  }

  lemma NothingRun(w: World, d0: Detectors.Detector)
    requires d0.numbers.Valid()
    ensures Detectors.Run(w.num, d0, [], 0) == d0
  {
  }

  lemma NobodyAtFirst(w: World, mode: Mode, ops: seq<Op>, s: Ip)
    requires AllValid(ops) && Initial(w, mode).Valid()
    ensures s !in Run(w, Initial(w, mode), ops, 0).peers
  {
  }

  /** In every reachable state every source has exactly one such history to show for its
      detector. */
  lemma {:induction false} EverySourceHasAHistory(w: World, mode: Mode, ops: seq<Op>, n: nat, s: Ip)
    returns (b: nat, d0: Detectors.Detector, events: seq<Detectors.Event>, where: seq<nat>)
    requires n <= |ops| && AllValid(ops) && Initial(w, mode).Valid()
    requires s in Run(w, Initial(w, mode), ops, n).peers
    ensures IsHistory(w, Initial(w, mode), ops, n, s, b, d0, events, where)
  {
    hide Run, Initial, IsHistory, Base, EventOf, Restores;
    if n == 0 {
      NobodyAtFirst(w, mode, ops, s);
      assert false;
    }
    if Begins(w, Initial(w, mode), ops, n - 1, s) {
      b := n - 1;
      d0, events, where := HistoryBegins(w, Initial(w, mode), ops, n - 1, s);
    } else {
      b, d0, events, where := EverySourceHasAHistory(w, mode, ops, n - 1, s);
      events, where := HistoryGoesOn(w, Initial(w, mode), ops, n - 1, s, b, d0, events, where);
    }
  }

  // ---- what a firing decision proves ----

  /** A decision that reports a firing verdict. */
  predicate Firing(d: Decision) {
    d.WouldBlock? || d.Warming? || d.Block?
  }

  /** The hard floors: four first-ever prefixes or ten different ranges in the 900 seconds of
      the latest call, ten counted failures within an hour and no completed call since, or six
      closed hours of calls. */
  ghost predicate CrossesAFloor(w: World, events: seq<Detectors.Event>) {
    || DetectorRuns.FourFirstPrefixes(w.num, events, |events|)
    || DetectorRuns.TenDistinctRanges(events, |events|)
    || DetectorRuns.TenFailuresInARow(events, |events|)
    || DetectorRuns.SixClosedHours(events, |events|)
  }

  /** A source out of its warm-up: twenty calls, the first at least a day before. */
  ghost predicate WarmedUp(events: seq<Detectors.Event>, at: nat) {
    && VolumeArm.Calls(DetectorRuns.CallTimes(events), 0, |events|) >= 20
    && exists i :: 0 <= i < |events| && events[i].Invite? && events[i].at + 24 * 3600 <= at
  }

  /** A firing decision is the verdict on the event this packet means to its source. */
  lemma VerdictHasAnEvent(w: World, st: State, op: Op, s: Ip)
    requires st.Valid() && op.Receive? && op.Valid()
    ensures Base(w, st, op, s).numbers.Valid()
    ensures var e, v := EventOf(w, st, op, s), VerdictOn(w, st, op, s);
            if e.None? then v.None? else !e.value.Calibrated? && v == Some(Detectors.VerdictOf(w.num, Base(w, st, op, s), e.value))
    ensures var e := EventOf(w, st, op, s); e.Some? ==> e.value.at == op.p.at && s in Step(w, st, op).peers
  {
    hide PeerState.Valid, CallMade, OutcomeHeard, Claims, Newborn, Detectors.Detector.Observe,
         Detectors.Detector.ObserveCompletion, Detectors.New, Asked, Answered;
    BaseLaws(w, st, op, s);
    PeerOfIsValid(w, st, s);
    if Heeded(st, op, s) && EventOf(w, st, op, s).Some? {
      CallsEnter(w, PeerOf(w, st, s), op.p.payload.request, op.p.at);
    }
  }

  lemma CallsEnter(w: World, ps: PeerState, req: Request, at: nat)
    requires ps.Valid() && CallMade(w, ps, req, at).Some?
    ensures Enters(w, req)
  {
    hide Scans, Abuses;
  }

  lemma HistoryIsClocked(w: World, st: State, ops: seq<Op>, n: nat, s: Ip, b: nat, events: seq<Detectors.Event>, where: seq<nat>)
    requires n <= |ops| && AllValid(ops) && st.Valid() && Ticking(ops) && Lists(w, st, ops, n, s, b, events, where)
    ensures Detectors.Clocked(events)
  {
    hide Run, EventOf;
    forall k | 0 <= k < |where| && !events[k].Calibrated?
      ensures ops[where[k]].Receive? && events[k].at == ops[where[k]].p.at
    {
      EventIsAPacket(w, Run(w, st, ops, where[k]), ops[where[k]], s);
    }
  }

  lemma EventIsAPacket(w: World, st: State, op: Op, s: Ip)
    requires st.Valid()
    ensures var e := EventOf(w, st, op, s);
            e.Some? && !e.value.Calibrated? ==> op.Receive? && e.value.at == op.p.at
  {
    hide CallMade, OutcomeHeard, Claims, Fitted, PeerState.Valid, NewPeer;
  }

  /** A packet that means an event to its subject ends the whole history of that source, and the
      verdict is the one on that event. */
  lemma HistoryOfAPacket(w: World, mode: Mode, ops: seq<Op>, n: nat, s: Ip)
    returns (b: nat, d0: Detectors.Detector, events: seq<Detectors.Event>, where: seq<nat>)
    requires n < |ops| && AllValid(ops) && ops[n].Receive? && Initial(w, mode).Valid()
    requires EventAt(w, Initial(w, mode), ops, n, s).Some?
    ensures IsHistory(w, Initial(w, mode), ops, n + 1, s, b, d0, events, where)
    ensures |where| > 0 && where[|where| - 1] == n && |events| == |where|
    ensures Detectors.AllValid(events) && d0.numbers.Valid() && !events[|events| - 1].Calibrated?
    ensures events[|events| - 1].at == ops[n].p.at && EventAt(w, Initial(w, mode), ops, n, s) == Some(events[|events| - 1])
    ensures VerdictOn(w, Run(w, Initial(w, mode), ops, n), ops[n], s)
         == Some(Detectors.VerdictOf(w.num, Detectors.Run(w.num, d0, events, |events| - 1), events[|events| - 1]))
  {
    hide Run, Initial, Observe, Step, EventOf, Base, VerdictOn, IsHistory, Lists, Detectors.Run, Detectors.VerdictOf, PeerState.Valid,
         Restores;
    var st0, st := Initial(w, mode), Run(w, Initial(w, mode), ops, n);
    VerdictHasAnEvent(w, st, ops[n], s);
    RunStep(w, st0, ops, n);
    if Begins(w, st0, ops, n, s) {
      b := n;
      d0, events, where := HistoryBegins(w, st0, ops, n, s);
      HistoryShape(w, st0, ops, n + 1, s, b, d0, events, where);
      NothingRunOf(w, d0, events);
    } else {
      var before, prior: seq<nat>;
      b, d0, before, prior := EverySourceHasAHistory(w, mode, ops, n, s);
      events, where := HistoryGoesOn(w, st0, ops, n, s, b, d0, before, prior);
      HistoryShape(w, st0, ops, n, s, b, d0, before, prior);
    }
  }

  /** For every packet run: a firing decision about a source comes with the whole history of
      that source since it was created or restored, its last event this packet's; that history
      crosses a hard floor; and it is a block exactly out of learning, with twenty calls behind it
      and one of them a day old. */
  lemma FiringDecisionHasAFloor(w: World, mode: Mode, ops: seq<Op>, n: nat)
    returns (s: Ip, b: nat, d0: Detectors.Detector, events: seq<Detectors.Event>, where: seq<nat>)
    requires n < |ops| && AllValid(ops) && Ticking(ops) && ops[n].Receive? && Initial(w, mode).Valid()
    requires Firing(Observe(w, Run(w, Initial(w, mode), ops, n), ops[n].p).2)
    ensures s == Observe(w, Run(w, Initial(w, mode), ops, n), ops[n].p).1
    ensures IsHistory(w, Initial(w, mode), ops, n + 1, s, b, d0, events, where)
    ensures |where| > 0 && where[|where| - 1] == n
    ensures CrossesAFloor(w, events)
    ensures Observe(w, Run(w, Initial(w, mode), ops, n), ops[n].p).2.Block?
       <==> !Run(w, Initial(w, mode), ops, n).mode.IsLearning(ops[n].p.at) && WarmedUp(events, ops[n].p.at)
  {
    hide Run, Initial, Observe, EventOf, VerdictOn, IsHistory, Detectors.Run, Detectors.VerdictOf, PeerState.Valid,
         DetectorRuns.FourFirstPrefixes, DetectorRuns.TenDistinctRanges, DetectorRuns.TenFailuresInARow,
         DetectorRuns.SixClosedHours, Scans, Abuses, Fails, Base;
    var st := Run(w, Initial(w, mode), ops, n);
    s := Observe(w, st, ops[n].p).1;
    SourceDecision(w, st, ops[n], s, Observe(w, st, ops[n].p).2);
    VerdictHasAnEvent(w, st, ops[n], s);
    b, d0, events, where := HistoryOfAPacket(w, mode, ops, n, s);
    HistoryFires(w, Initial(w, mode), ops, n + 1, s, b, d0, events, where);
  }

  lemma NothingRunOf(w: World, d0: Detectors.Detector, events: seq<Detectors.Event>)
    requires d0.numbers.Valid() && Detectors.AllValid(events)
    ensures Detectors.Run(w.num, d0, events, 0) == d0
  {
  }

  /** The verdict on the last event of a history, and what it proves of the whole. */
  lemma HistoryFires(w: World, st: State, ops: seq<Op>, n: nat, s: Ip, b: nat, d0: Detectors.Detector,
                     events: seq<Detectors.Event>, where: seq<nat>)
    requires n <= |ops| && AllValid(ops) && st.Valid() && Ticking(ops) && IsHistory(w, st, ops, n, s, b, d0, events, where)
    requires |events| > 0 && !events[|events| - 1].Calibrated?
    requires var v := Detectors.VerdictOf(w.num, Detectors.Run(w.num, d0, events, |events| - 1), events[|events| - 1]); v.fired
    ensures CrossesAFloor(w, events)
    ensures var v := Detectors.VerdictOf(w.num, Detectors.Run(w.num, d0, events, |events| - 1), events[|events| - 1]);
            !v.warming <==> WarmedUp(events, events[|events| - 1].at)
  {
    hide Run, EventOf, Base, Lists, Detectors.Run, Detectors.VerdictOf, DetectorRuns.FourFirstPrefixes,
         DetectorRuns.TenDistinctRanges, DetectorRuns.TenFailuresInARow, DetectorRuns.SixClosedHours, Begins;
    var m := |events| - 1;
    HistoryIsClocked(w, st, ops, n, s, b, events, where);
    DetectorRuns.FiringNeedsAFloor(w.num, d0, events, m);
    DetectorRuns.WarmedVerdictHasAge(w.num, d0, events, m);
  }

  lemma HistoryShape(w: World, st: State, ops: seq<Op>, n: nat, s: Ip, b: nat, d0: Detectors.Detector,
                     events: seq<Detectors.Event>, where: seq<nat>)
    requires n <= |ops| && AllValid(ops) && st.Valid() && IsHistory(w, st, ops, n, s, b, d0, events, where)
    ensures |where| == |events| && Detectors.AllValid(events) && d0.numbers.Valid()
  {
  }
}
