/** What a registration-scan verdict proves about the packets before it, and which sprays
    are sure to get one. */
module EngineScan {
  import opened Numerics
  import opened EngineModel
  import opened EngineRuns
  import opened EngineEffects
  import EngineAuth
  import Pending
  import RegProbes
  import RegProbeLaws

  function ProbesOf(st: State, s: Ip): RegProbes.Ring {
    if s in st.peers then st.peers[s].probes else RegProbes.Empty()
  }

  /** The operation as the probe ring of `s` meets it: a registration request probes the
      extension it names, a claimed and accepted registration removes its own, and anything
      else leaves the ring alone. */
  function ProbeOpOf(st: State, op: Op, s: Ip): RegProbes.Op {
    if Heeded(st, op, s) then
      if op.p.payload.request.kind == Register then RegProbes.Probe(op.p.payload.request.aor, op.p.at) else RegProbes.Quiet
    else
      var claimed := EngineAuth.ClaimedCredential(st, op, s);
      if claimed.Some? && op.p.payload.response.IsSuccess() && op.p.payload.response.cseqRegister && claimed.value.aor.Some? then
        RegProbes.Remove(claimed.value.aor.value)
      else RegProbes.Quiet
  }

  lemma ProbesInCase(w: World, st: State, s: Ip)
    requires st.Valid()
    ensures PeerOf(w, st, s).probes == ProbesOf(st, s) && ProbesOf(st, s).Valid()
  {
  }

  lemma AdministrationKeepsProbes(w: World, st: State, op: Op, s: Ip)
    requires st.Valid() && op.Valid() && !op.Receive?
    ensures ProbesOf(Step(w, st, op), s) == ProbesOf(st, s)
  {
    hide Step, PeerState.Valid;
    if s in Step(w, st, op).peers {
      AdministrationEffect(w, st, op, s);
    } else if s in st.peers {
      EngineAuth.SourcesStay(w, st, op, s);
    }
  }

  /** The probe ring of every source takes exactly the step the packet means to it. */
  lemma ProbeRingStep(w: World, st: State, op: Op, s: Ip)
    requires st.Valid() && op.Valid()
    ensures ProbesOf(st, s).Valid()
    ensures ProbesOf(Step(w, st, op), s) == RegProbes.Stepped(ProbesOf(st, s), ProbeOpOf(st, op, s), RegProbes.WINDOW_SECS)
  {
    hide Step, PeerState.Valid, ProbesOf, CallFed, CallMade, OutcomeFed, OutcomeHeard, Pending.Claimed, NewPeer, Scans,
         RegProbes.Ring.Recorded, RegProbes.Ring.Removed;
    ProbesInCase(w, st, s);
    if !op.Receive? {
      AdministrationKeepsProbes(w, st, op, s);
    } else {
      StepKeepsValid(w, st, op);
      ProbesInCase(w, Step(w, st, op), s);
      SourceEffect(w, st, op, s);
    }
  }

  /** The verdict is read off the sender's ring. */
  lemma ScanIsTheRing(w: World, st: State, op: Op)
    requires st.Valid() && op.Receive? && op.Valid()
    ensures ProbesOf(Step(w, st, op), op.p.src).Valid()
    ensures Observe(w, st, op.p).2.RegScan?
       <==> ProbeOpOf(st, op, op.p.src).Probe?
            && |ProbesOf(Step(w, st, op), op.p.src).Live(op.p.at, RegProbes.WINDOW_SECS)| >= RegProbes.SCAN_EXTENSIONS
  {
    hide Step, Observe, PeerState.Valid, ProbesOf, Abuses, CalledFor, VerdictOn, Fails, Pending.Claimed, NewPeer,
         RegProbes.Ring.Live, RegProbes.Ring.Recorded, RegProbes.Stepped;
    SubjectIsOneSide(w, st, op.p);
    StepKeepsValid(w, st, op);
    ProbesInCase(w, st, op.p.src);
    ProbesInCase(w, Step(w, st, op), op.p.src);
    SourceDecision(w, st, op, Observe(w, st, op.p).1, Observe(w, st, op.p).2);
    SourceEffect(w, st, op, op.p.src);
  }

  // ---- the probe ring over a run ----

  /** The run as the probe ring of `s` meets it. */
  ghost function ProbeOps(w: World, st: State, ops: seq<Op>, s: Ip): (r: seq<RegProbes.Op>)
    requires AllValid(ops) && st.Valid()
    ensures |r| == |ops|
    ensures forall i :: 0 <= i < |ops| ==> r[i] == ProbeOpOf(Run(w, st, ops, i), ops[i], s)
  {
    seq(|ops|, i requires 0 <= i < |ops| => ProbeOpOf(Run(w, st, ops, i), ops[i], s))
  }

  lemma NobodyProbesAtFirst(w: World, mode: Mode, ops: seq<Op>, s: Ip)
    requires AllValid(ops) && Initial(w, mode).Valid()
    ensures ProbesOf(Run(w, Initial(w, mode), ops, 0), s) == RegProbes.Empty()
  {
  }

  /** In every reachable state the probe ring is the run of its own history. */
  lemma {:induction false} ProbeRingIsItsHistory(w: World, mode: Mode, ops: seq<Op>, n: nat, s: Ip)
    requires n <= |ops| && AllValid(ops) && Initial(w, mode).Valid()
    ensures ProbesOf(Run(w, Initial(w, mode), ops, n), s)
         == RegProbes.Run(ProbeOps(w, Initial(w, mode), ops, s), n, RegProbes.WINDOW_SECS)
  {
    hide Run, Step, ProbeOpOf, ProbesOf, Initial, RegProbes.Stepped;
    if n == 0 {
      NobodyProbesAtFirst(w, mode, ops, s);
    } else {
      ProbeRingIsItsHistory(w, mode, ops, n - 1, s);
      RunStep(w, Initial(w, mode), ops, n - 1);
      ProbeRingStep(w, Run(w, Initial(w, mode), ops, n - 1), ops[n - 1], s);
    }
  }

  lemma ProbeIsAPacket(st: State, op: Op, s: Ip)
    requires ProbeOpOf(st, op, s).Probe?
    ensures op.Receive? && ProbeOpOf(st, op, s).at == op.p.at && RegistersAs(op, s, ProbeOpOf(st, op, s).id)
  {
  }

  /** A registration request of `s` naming the extension. */
  predicate RegistersAs(op: Op, s: Ip, extension: Hash) {
    && op.Receive? && op.p.src == s && op.p.payload.Asking?
    && op.p.payload.request.perimeter == Clean && op.p.payload.request.kind == Register
    && op.p.payload.request.aor == extension
  }

  /** An accepted registration of the extension by `s`, claimed from its responder. */
  ghost predicate Registered(w: World, st: State, ops: seq<Op>, j: nat, s: Ip, extension: Hash)
    requires j < |ops| && AllValid(ops) && st.Valid()
  {
    ProbeOpOf(Run(w, st, ops, j), ops[j], s) == RegProbes.Remove(extension)
  }

  lemma ViewIsClocked(w: World, st: State, ops: seq<Op>, s: Ip, n: nat)
    requires n < |ops| && AllValid(ops) && st.Valid() && WallClocked(ops) && ops[n].Receive?
    ensures RegProbes.Clocked(ProbeOps(w, st, ops, s), RegProbes.WINDOW_SECS)
    ensures RegProbes.PastBy(ProbeOps(w, st, ops, s), n + 1, ops[n].p.at)
  {
    hide Run, ProbeOpOf;
    var view := ProbeOps(w, st, ops, s);
    forall i | 0 <= i < |ops| && view[i].Probe? ensures ops[i].Receive? && view[i].at == ops[i].p.at {
      ProbeIsAPacket(Run(w, st, ops, i), ops[i], s);
    }
  }

  /** The verdict is given exactly when the packet probes and the history of its source then
      leaves ten live slots. */
  lemma ScanIsTheHistory(w: World, mode: Mode, ops: seq<Op>, n: nat)
    requires n < |ops| && AllValid(ops) && ops[n].Receive? && Initial(w, mode).Valid()
    ensures var view := ProbeOps(w, Initial(w, mode), ops, ops[n].p.src);
            Observe(w, Run(w, Initial(w, mode), ops, n), ops[n].p).2.RegScan?
            <==> view[n].Probe?
                 && |RegProbes.Run(view, n + 1, 600).Live(ops[n].p.at, 600)|
                    >= 10
  {
    hide Run, Step, Observe, ProbeOpOf, ProbesOf, Initial, RegProbes.Ring.Live, RegProbes.Run;
    var st, s := Run(w, Initial(w, mode), ops, n), ops[n].p.src;
    ScanIsTheRing(w, st, ops[n]);
    RunStep(w, Initial(w, mode), ops, n);
    ProbeRingIsItsHistory(w, mode, ops, n + 1, s);
  }

  /** For every packet run: the verdict is given exactly when the packet probes and at least ten
      extensions were then probed in the last 600 seconds, not accepted since, and still remembered:
      fewer than sixteen slots were taken since theirs. A probe takes a slot exactly when its extension
      does not count at that moment. */
  lemma ScanIsExact(w: World, mode: Mode, ops: seq<Op>, n: nat)
    requires n < |ops| && AllValid(ops) && WallClocked(ops) && ops[n].Receive? && Initial(w, mode).Valid()
    ensures var view := ProbeOps(w, Initial(w, mode), ops, ops[n].p.src);
            && (Observe(w, Run(w, Initial(w, mode), ops, n), ops[n].p).2.RegScan?
                <==> view[n].Probe? && |RegProbeLaws.Counted(view, n + 1, ops[n].p.at, 600)| >= 10)
            && forall i :: 0 <= i <= n && view[i].Probe? ==>
                 (RegProbes.Inserts(view, i, 600) <==> view[i].id !in RegProbeLaws.Counted(view, i, view[i].at, 600))
  {
    hide Run, Observe, ProbeOpOf, Initial, RegProbes.Ring.Live, RegProbes.Run, RegProbes.Inserts, RegProbeLaws.Counted;
    var view := ProbeOps(w, Initial(w, mode), ops, ops[n].p.src);
    ScanIsTheHistory(w, mode, ops, n);
    ViewIsClocked(w, Initial(w, mode), ops, ops[n].p.src, n);
    RegProbeLaws.CountIsExact(view, n + 1, ops[n].p.at, 600);
    forall i | 0 <= i <= n && view[i].Probe?
      ensures RegProbes.Inserts(view, i, 600) <==> view[i].id !in RegProbeLaws.Counted(view, i, view[i].at, 600)
    {
      RegProbeLaws.InsertsWhatDoesNotCount(view, i, 600);
    }
  }

  /** For every packet run: a registration-scan verdict on a source proves at least ten
      different extensions for each of which the source sent a REGISTER in the last 600
      seconds, with no accepted registration of that extension since. */
  lemma ScanProvesTenExtensions(w: World, mode: Mode, ops: seq<Op>, n: nat) returns (extensions: set<Hash>)
    requires n < |ops| && AllValid(ops) && WallClocked(ops) && ops[n].Receive? && Initial(w, mode).Valid()
    requires Observe(w, Run(w, Initial(w, mode), ops, n), ops[n].p).2.RegScan?
    ensures |extensions| >= 10
    ensures forall id {:trigger id in extensions} :: id in extensions ==>
              exists i :: && 0 <= i <= n && ops[i].Receive? && RegistersAs(ops[i], ops[n].p.src, id)
                          && SatSub(ops[n].p.at, ops[i].p.at) < 600
                          && forall j :: i < j <= n ==> !Registered(w, Initial(w, mode), ops, j, ops[n].p.src, id)
  {
    hide Run, Observe, ProbeOpOf, Initial, RegProbes.Ring.Live, RegProbes.Run, Registers;
    var st0, s, now := Initial(w, mode), ops[n].p.src, ops[n].p.at;
    var view := ProbeOps(w, st0, ops, s);
    ScanIsTheHistory(w, mode, ops, n);
    ViewIsClocked(w, st0, ops, s, n);
    RegProbes.CountIsSound(view, n + 1, now, RegProbes.WINDOW_SECS);
    extensions := RegProbes.Active(view, n + 1, now, RegProbes.WINDOW_SECS);
    forall id | id in extensions
      ensures exists i :: && 0 <= i <= n && ops[i].Receive? && RegistersAs(ops[i], s, id)
                          && SatSub(now, ops[i].p.at) < RegProbes.WINDOW_SECS
                          && forall j :: i < j <= n ==> !Registered(w, st0, ops, j, s, id)
    {
      var i := RegProbes.ActiveWasProbed(view, n + 1, id);
      ProbeIsAPacket(Run(w, st0, ops, i), ops[i], s);
    }
  }

  /** Ten fresh extensions probed inside the window, with nothing registered meanwhile, force
      the verdict on the last of them, whatever the source did before. */
  lemma TenFreshExtensionsAreCaught(w: World, mode: Mode, ops: seq<Op>, m: nat, n: nat)
    requires m <= n < |ops| && AllValid(ops) && WallClocked(ops) && ops[n].Receive? && Initial(w, mode).Valid()
    requires var view := ProbeOps(w, Initial(w, mode), ops, ops[n].p.src);
             && view[n].Probe?
             && RegProbes.FreshSpray(view, m, n + 1, 600)
             && RegProbes.Probes(view, m, n + 1) >= 10
             && forall i :: m <= i <= n && view[i].Probe? ==> ops[n].p.at - 600 < view[i].at
    ensures Observe(w, Run(w, Initial(w, mode), ops, n), ops[n].p).2.RegScan?
  {
    hide Run, Observe, ProbeOpOf, Initial, RegProbes.Ring.Live, RegProbes.FreshSpray;
    var view := ProbeOps(w, Initial(w, mode), ops, ops[n].p.src);
    ScanIsTheHistory(w, mode, ops, n);
    ViewIsClocked(w, Initial(w, mode), ops, ops[n].p.src, n);
    RegProbes.TenFreshProbesAreAScan(view, m, n + 1, ops[n].p.at, RegProbes.WINDOW_SECS);
  }
}
