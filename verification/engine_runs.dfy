/** Runs of the engine: packets, recalibrations, mode changes, declared dial plans and
    restored sources, in any order. */
module EngineRuns {
  import opened Numerics
  import opened Calibration
  import opened EngineModel
  import Detectors
  import AuthFailures
  import Pending
  import Sums

  const MIN_INTERNATIONAL: nat := 500
  const MIN_FINALS: nat := 200
  const MIN_SOURCES: nat := 20

  /** The hypotheses refitted from the counters, each clamped, and only once there is enough
      data to trust them. */
  function FitCounters(p: Params, c: CallStats): Params {
    var scanned :=
      if c.international < MIN_INTERNATIONAL then p
      else p.(theta0Prefix := Clamp(c.prefixNovel as real / c.international as real, 0.005, 0.3),
              theta0Range := Clamp(c.rangeNovel as real / c.international as real, 0.02, 0.4));
    var finals := c.completed + c.failed;
    if finals < MIN_FINALS then scanned
    else
      var theta0c := Clamp(c.failed as real / finals as real, 0.05, 0.7);
      scanned.(theta0c := theta0c,
               theta0u := Min(Clamp(c.unroutable as real / finals as real, 0.005, 0.3), theta0c))
  }

  /** The learned rate of every source. */
  function Rates(peers: map<Ip, PeerState>): map<Ip, real>
    requires forall ip :: ip in peers ==> peers[ip].Valid()
  {
    map ip | ip in peers :: RateOf(peers[ip])
  }

  function RateOf(ps: PeerState): real
    requires ps.Valid()
  {
    ps.anomaly.LearnedRate()
  }

  ghost function Mean(rates: map<Ip, real>): real
    requires |rates| > 0
  {
    Sums.SumR(rates) / |rates| as real
  }

  function SquaredDistances(rates: map<Ip, real>, mean: real): map<Ip, real> {
    map ip | ip in rates :: (rates[ip] - mean) * (rates[ip] - mean)
  }

  /** The prior refitted to the mean and spread of the sources' rates. */
  ghost function FitRates(p: Params, rates: map<Ip, real>): Params {
    if |rates| < MIN_SOURCES then p
    else
      var mean := Mean(rates);
      var spread := Mean(SquaredDistances(rates, mean));
      if mean > 0.0 && spread > 0.0 then
        p.(priorMean := mean, priorStrength := Clamp(mean / spread, 0.1, 50.0))
      else p
  }

  ghost function Fitted(st: State): Params
    requires st.Valid()
  {
    FitRates(FitCounters(st.params, st.stats.calls), Rates(st.peers))
  }

  /** Adopts the refitted parameters in every source. */
  ghost function Recalibrated(w: World, st: State): State
    requires st.Valid()
  {
    FittedIsValid(st);
    var p := Fitted(st);
    st.(params := p,
        peers := map ip | ip in st.peers :: st.peers[ip].(anomaly := st.peers[ip].anomaly.Recalibrated(w.num, p)))
  }

  /** A declared dial plan creates its source with the cold-start detector. */
  function Declared(w: World, st: State, peer: Ip, plan: nat): State {
    DefaultsAreValid(w.num);
    st.(peers := st.peers[peer := if peer in st.peers then st.peers[peer].(plan := plan)
                                  else NewPeer(w, plan, Defaults(w.num))])
  }

  /** Restores a source, while there is room. */
  function Imported(w: World, st: State, peer: Ip, row: Detectors.Snapshot): State
    requires st.params.Valid()
  {
    if !st.HasRoomFor(peer) then st
    else
      var restored := PeerOf(w, st, peer).(anomaly := Detectors.FromSnapshot(w.num, st.params, row), dirty := false);
      st.(peers := st.peers[peer := restored])
  }

  /** Marks every source as written. */
  function Cleaned(st: State): State {
    st.(peers := map ip | ip in st.peers :: st.peers[ip].(dirty := false))
  }

  datatype Op =
    | Receive(p: Packet)
    | Recalibrate
    | SetMode(mode: Mode)
    | Declare(peer: Ip, plan: nat)
    | Import(peer: Ip, row: Detectors.Snapshot)
    | MarkClean
  {
    predicate Valid() {
      Import? ==> row.Valid()
    }
  }

  ghost function Step(w: World, st: State, op: Op): State
    requires st.Valid()
  {
    match op
    case Receive(p) => Observe(w, st, p).0
    case Recalibrate => Recalibrated(w, st)
    case SetMode(mode) => st.(mode := mode)
    case Declare(peer, plan) => Declared(w, st, peer, plan)
    case Import(peer, row) => Imported(w, st, peer, row)
    case MarkClean => Cleaned(st)
  }

  predicate AllValid(ops: seq<Op>) {
    forall i :: 0 <= i < |ops| ==> ops[i].Valid()
  }

  /** The engine after the first n operations. */
  ghost function Run(w: World, st: State, ops: seq<Op>, n: nat): (r: State)
    requires n <= |ops| && AllValid(ops) && st.Valid()
    ensures r.Valid()
  {
    if n == 0 then st
    else
      var before := Run(w, st, ops, n - 1);
      StepKeepsValid(w, before, ops[n - 1]);
      Step(w, before, ops[n - 1])
  }

  lemma RunStep(w: World, st: State, ops: seq<Op>, n: nat)
    requires n < |ops| && AllValid(ops) && st.Valid()
    ensures Run(w, st, ops, n + 1) == Step(w, Run(w, st, ops, n), ops[n])
  {
    hide Step;
  }

  /** Packets come in time order. */
  predicate Clocked(ops: seq<Op>) {
    forall i, j :: 0 <= i < j < |ops| && ops[i].Receive? && ops[j].Receive? ==> ops[i].p.at <= ops[j].p.at
  }

  /** Packets come in time order and never at instant zero, which marks an unset window. */
  predicate Ticking(ops: seq<Op>) {
    Clocked(ops) && forall i :: 0 <= i < |ops| && ops[i].Receive? ==> ops[i].p.at > 0
  }

  /** Packets come in time order and after one failure window: timestamps are wall-clock
      seconds, and an emptied ring slot is stamped zero. */
  predicate WallClocked(ops: seq<Op>) {
    Clocked(ops) && forall i :: 0 <= i < |ops| && ops[i].Receive? ==> ops[i].p.at >= AuthFailures.WINDOW_SECS
  }

  lemma ClampWithin(x: real, lo: real, hi: real)
    requires lo <= hi
    ensures lo <= Clamp(x, lo, hi) <= hi
  {
  }

  lemma CountersFitIsValid(p: Params, c: CallStats)
    requires p.Valid() && p.Standard()
    ensures var q := FitCounters(p, c); q.Valid() && q.Standard()
  {
    if c.international >= MIN_INTERNATIONAL {
      ClampWithin(c.prefixNovel as real / c.international as real, 0.005, 0.3);
      ClampWithin(c.rangeNovel as real / c.international as real, 0.02, 0.4);
    }
  }

  lemma RatesFitIsValid(p: Params, rates: map<Ip, real>)
    requires p.Valid() && p.Standard()
    ensures var q := FitRates(p, rates); q.Valid() && q.Standard()
  {
    hide Mean, SquaredDistances;
  }

  /** Whatever the counters and the sources' rates, refitting yields ordered hypotheses:
      0 < theta0 < theta1 < 1 for every arm, and theta0u <= theta0c. */
  lemma FittedIsValid(st: State)
    requires st.Valid()
    ensures Fitted(st).Valid() && Fitted(st).Standard()
  {
    hide FitCounters, FitRates, PeerState.Valid;
    CountersFitIsValid(st.params, st.stats.calls);
    RatesFitIsValid(FitCounters(st.params, st.stats.calls), Rates(st.peers));
  }

  lemma RecalibratedKeepsValid(w: World, st: State)
    requires st.Valid()
    ensures Recalibrated(w, st).Valid()
  {
    hide Fitted, Detectors.Detector.Valid, Detectors.Detector.Recalibrated;
    FittedIsValid(st);
    forall ip | ip in st.peers ensures Recalibrated(w, st).peers[ip].Valid() {
      Detectors.StepKeepsValid(w.num, st.peers[ip].anomaly, Detectors.Calibrated(Fitted(st)));
      DetectorNumbers(st.peers[ip].anomaly);
    }
  }

  lemma ImportedKeepsValid(w: World, st: State, peer: Ip, row: Detectors.Snapshot)
    requires st.Valid() && row.Valid()
    ensures Imported(w, st, peer, row).Valid()
  {
    hide Detectors.Detector.Valid, Pending.Valid;
    Detectors.RestoredIsFresh(w.num, st.params, row);
    PeerOfIsValid(w, st, peer);
    FreshIsValid(Detectors.FromSnapshot(w.num, st.params, row));
  }

  lemma FreshIsValid(d: Detectors.Detector)
    requires d.Fresh()
    ensures d.Valid()
  {
  }

  lemma StepKeepsValid(w: World, st: State, op: Op)
    requires st.Valid() && op.Valid()
    ensures Step(w, st, op).Valid()
  {
    hide Observe, Recalibrated, Imported, PeerState.Valid;
    match op
    case Receive(p) => ObserveKeepsValid(w, st, p);
    case Recalibrate => RecalibratedKeepsValid(w, st);
    case SetMode(mode) =>
    case Declare(peer, plan) =>
      DefaultsAreValid(w.num);
      NewPeerIsValid(w, plan, Defaults(w.num));
      DeclaredKeepsValid(w, st, peer, plan);
    case Import(peer, row) => ImportedKeepsValid(w, st, peer, row);
    case MarkClean => CleanedKeepsValid(st);
  }

  lemma DeclaredKeepsValid(w: World, st: State, peer: Ip, plan: nat)
    requires st.Valid()
    ensures Declared(w, st, peer, plan).Valid()
  {
    DefaultsAreValid(w.num);
    NewPeerIsValid(w, plan, Defaults(w.num));
  }

  lemma CleanedKeepsValid(st: State)
    requires st.Valid()
    ensures Cleaned(st).Valid()
  {
    forall ip | ip in st.peers ensures Cleaned(st).peers[ip].Valid() {
      assert st.peers[ip].Valid();
    }
  }

  lemma InitialIsValid(w: World, mode: Mode)
    ensures Initial(w, mode).Valid()
  {
    DefaultsAreValid(w.num);
  }

  /** In every reachable state the calibrated hypotheses are ordered and the unroutable rate
      is no larger than the failure rate. */
  lemma HypothesesStayOrdered(w: World, mode: Mode, ops: seq<Op>, n: nat)
    requires n <= |ops| && AllValid(ops)
    ensures Initial(w, mode).Valid()
    ensures var p := Run(w, Initial(w, mode), ops, n).params;
            && 0.0 < p.theta0Prefix < p.theta1 < 1.0
            && 0.0 < p.theta0Range < p.theta1
            && 0.0 < p.theta0u <= p.theta0c < p.theta1c < 1.0
  {
    InitialIsValid(w, mode);
  }
}
