/** The engine beside its store: incremental checkpoints of the sources that changed, and the
    rows a restart finds and loads. */
module Checkpoints {
  import opened Numerics
  import opened Calibration
  import opened EngineModel
  import opened EngineRuns
  import opened EngineEffects
  import EngineBlock
  import EngineKnown
  import Detectors

  /** How long a row outlives the last checkpoint that wrote it. */
  const RETENTION_SECS: nat := 90 * 24 * 3600

  // ---- what an operation does to a source's durable state ----

  /** A source is dirty afterwards, or its durable state and its flag are as they were. */
  predicate Kept(st: State, after: State, s: Ip) {
    s in st.peers ==>
      && s in after.peers
      && (after.peers[s].dirty
          || (after.peers[s].anomaly.Saved() == st.peers[s].anomaly.Saved() && after.peers[s].dirty == st.peers[s].dirty))
  }

  lemma PacketKeeps(w: World, st: State, op: Op, s: Ip)
    requires st.Valid() && op.Receive? && op.Valid()
    ensures Kept(st, Step(w, st, op), s)
  {
    hide Step, Observe, PeerState.Valid, AskedTables, AnsweredTables, CallMade, OutcomeHeard, Claims, Detectors.Detector.Observe,
         Detectors.Detector.ObserveCompletion, Detectors.Detector.Saved, NewPeer;
    SourceEffect(w, st, op, s);
    EngineKnown.PacketIsItsStep(w, st, op);
    EngineKnown.PacketSources(w, st, op.p);
  }

  lemma AdministrationKeeps(w: World, st: State, op: Op, s: Ip)
    requires st.Valid() && op.Valid() && !op.Receive? && !op.Import? && !op.MarkClean?
    ensures Kept(st, Step(w, st, op), s)
  {
    hide Fitted, PeerState.Valid;
    FittedIsValid(st);
    DefaultsAreValid(w.num);
    if s in st.peers {
      NumbersAreValid(st.peers[s]);
    }
  }

  lemma LiveKeeps(w: World, st: State, op: Op, s: Ip)
    requires st.Valid() && op.Valid() && !op.Import? && !op.MarkClean?
    ensures Kept(st, Step(w, st, op), s)
  {
    hide Step, Kept;
    if op.Receive? {
      PacketKeeps(w, st, op, s);
    } else {
      AdministrationKeeps(w, st, op, s);
    }
  }

  /** A source is marked changed exactly by what its detector observes, a call or the outcome of one,
      and stays marked. */
  lemma DirtyIsObserved(w: World, st: State, op: Op, s: Ip)
    requires st.Valid() && op.Valid() && !op.Import? && !op.MarkClean? && s in Step(w, st, op).peers
    ensures Step(w, st, op).peers[s].dirty
       <==> || (s in st.peers && st.peers[s].dirty)
            || (EngineBlock.EventOf(w, st, op, s).Some? && !EngineBlock.EventOf(w, st, op, s).value.Calibrated?)
  {
    hide Step, PeerState.Valid, AskedTables, AnsweredTables, CallMade, OutcomeHeard, Claims, Detectors.Detector.Observe,
         Detectors.Detector.ObserveCompletion, Fitted;
    if op.Receive? {
      StepKeepsValid(w, st, op);
      SourceEffect(w, st, op, s);
      NewIsClean(w, st, s);
    } else {
      AdministrationKeepsFlag(w, st, op, s);
    }
  }

  lemma NewIsClean(w: World, st: State, s: Ip)
    requires st.Valid()
    ensures PeerOf(w, st, s).dirty == (s in st.peers && st.peers[s].dirty)
  {
    hide Detectors.New;
  }

  lemma AdministrationKeepsFlag(w: World, st: State, op: Op, s: Ip)
    requires st.Valid() && op.Valid() && !op.Receive? && !op.Import? && !op.MarkClean? && s in Step(w, st, op).peers
    ensures Step(w, st, op).peers[s].dirty == (s in st.peers && st.peers[s].dirty)
  {
    hide Fitted, PeerState.Valid, Detectors.New, Detectors.Detector.Recalibrated;
    FittedIsValid(st);
    DefaultsAreValid(w.num);
    if s in st.peers {
      NumbersAreValid(st.peers[s]);
    }
  }

  // ---- the engine and its store ----

  datatype Row = Row(saved: Detectors.Snapshot, lastSeen: nat)

  /** The engine, its rows, and for the record: which sources were ever dirty or restored in
      this process, when each one's row was last written, and the latest pruning cutoff. */
  datatype System = System(engine: State, rows: map<Ip, Row>, touched: set<Ip>, written: map<Ip, nat>, cutoff: nat) {
    ghost predicate Valid() {
      engine.Valid() && forall s :: s in rows ==> rows[s].saved.Valid()
    }
  }

  /** A restart declares the configured dial plans and then loads the rows it can read, in the
      order the store returns them: a corrupt row is missing from the order, and so is every row
      while the behavioural layer is off. */
  datatype Act =
    | Live(op: Op)
    | Checkpoint(committed: bool, now: nat)
    | Restart(mode: Mode, plans: seq<(Ip, nat)>, order: seq<Ip>, now: nat)
  {
    /** Live operations are the ones traffic and the operator cause; marking clean and
        restoring happen only through the store. */
    predicate Valid() {
      Live? ==> op.Valid() && !op.Import? && !op.MarkClean?
    }
  }

  function DirtyOnes(st: State): set<Ip> {
    set s | s in st.peers && st.peers[s].dirty
  }

  /** A committed checkpoint writes one row for every dirty source, clears the flags, and prunes
      what is too old; a failed one leaves rows and flags alone. */
  function Checkpointed(sys: System, now: nat): System {
    var cutoff := SatSub(now, RETENTION_SECS);
    var update := map s | s in DirtyOnes(sys.engine) :: Row(sys.engine.peers[s].anomaly.Saved(), now);
    var rows := sys.rows + update;
    System(Cleaned(sys.engine),
           map s | s in rows && rows[s].lastSeen >= cutoff :: rows[s],
           sys.touched,
           sys.written + (map s | s in DirtyOnes(sys.engine) :: now),
           if cutoff > sys.cutoff then cutoff else sys.cutoff)
  }

  /** The engine with the first k dial plans declared. */
  function Booted(w: World, mode: Mode, plans: seq<(Ip, nat)>, k: nat): State
    requires k <= |plans|
  {
    if k == 0 then Initial(w, mode) else Declared(w, Booted(w, mode, plans, k - 1), plans[k - 1].0, plans[k - 1].1)
  }

  /** A row a boot at `now` still loads: not silent past retention. */
  predicate Fresh(rows: map<Ip, Row>, s: Ip, now: nat) {
    s in rows && rows[s].lastSeen >= SatSub(now, RETENTION_SECS)
  }

  predicate RowsValid(rows: map<Ip, Row>) {
    forall s :: s in rows ==> rows[s].saved.Valid()
  }

  /** The engine with the first k rows loaded, honouring the peer ceiling. */
  function Loaded(w: World, st: State, rows: map<Ip, Row>, order: seq<Ip>, now: nat, k: nat): (r: State)
    requires k <= |order| && st.params.Valid()
    ensures r.params == st.params
  {
    if k == 0 then st
    else
      var before := Loaded(w, st, rows, order, now, k - 1);
      if Fresh(rows, order[k - 1], now) then Imported(w, before, order[k - 1], rows[order[k - 1]].saved) else before
  }

  /** The sources the first k rows restored. */
  function Restored(w: World, st: State, rows: map<Ip, Row>, order: seq<Ip>, now: nat, k: nat): set<Ip>
    requires k <= |order| && st.params.Valid()
  {
    if k == 0 then {}
    else
      Restored(w, st, rows, order, now, k - 1)
      + (if Fresh(rows, order[k - 1], now) && Loaded(w, st, rows, order, now, k - 1).HasRoomFor(order[k - 1])
         then {order[k - 1]} else {})
  }

  ghost function Acted(w: World, sys: System, act: Act): System
    requires sys.Valid() && act.Valid()
  {
    match act
    case Live(op) =>
      var after := Step(w, sys.engine, op);
      sys.(engine := after, touched := sys.touched + DirtyOnes(after))
    case Checkpoint(committed, now) => if committed then Checkpointed(sys, now) else sys
    case Restart(mode, plans, order, now) =>
      BootedIsValid(w, mode, plans, |plans|);
      var booted := Booted(w, mode, plans, |plans|);
      sys.(engine := Loaded(w, booted, sys.rows, order, now, |order|),
           touched := Restored(w, booted, sys.rows, order, now, |order|))
  }

  predicate AllValid(acts: seq<Act>) {
    forall i :: 0 <= i < |acts| ==> acts[i].Valid()
  }

  function Boot(w: World, mode: Mode): System {
    System(Initial(w, mode), map[], {}, map[], 0)
  }

  lemma {:induction false} BootedIsValid(w: World, mode: Mode, plans: seq<(Ip, nat)>, k: nat)
    requires k <= |plans|
    ensures Booted(w, mode, plans, k).Valid()
  {
    hide Declared, Initial;
    if k == 0 {
      InitialIsValid(w, mode);
    } else {
      BootedIsValid(w, mode, plans, k - 1);
      DeclaredKeepsValid(w, Booted(w, mode, plans, k - 1), plans[k - 1].0, plans[k - 1].1);
    }
  }

  lemma {:induction false} LoadedIsValid(w: World, st: State, rows: map<Ip, Row>, order: seq<Ip>, now: nat, k: nat)
    requires k <= |order| && st.Valid() && RowsValid(rows)
    ensures Loaded(w, st, rows, order, now, k).Valid()
  {
    hide Imported, PeerState.Valid;
    if k > 0 {
      LoadedIsValid(w, st, rows, order, now, k - 1);
      if Fresh(rows, order[k - 1], now) {
        ImportedKeepsValid(w, Loaded(w, st, rows, order, now, k - 1), order[k - 1], rows[order[k - 1]].saved);
      }
    }
  }

  lemma SavedIsValid(ps: PeerState)
    requires ps.Valid()
    ensures ps.anomaly.Saved().Valid()
  {
  }

  lemma CheckpointKeepsValid(sys: System, now: nat)
    requires sys.Valid()
    ensures Checkpointed(sys, now).Valid()
  {
    hide Detectors.Detector.Saved, PeerState.Valid;
    CleanedKeepsValid(sys.engine);
    forall s | s in DirtyOnes(sys.engine) ensures sys.engine.peers[s].anomaly.Saved().Valid() {
      SavedIsValid(sys.engine.peers[s]);
    }
  }

  lemma ActKeepsValid(w: World, sys: System, act: Act)
    requires sys.Valid() && act.Valid()
    ensures Acted(w, sys, act).Valid()
  {
    hide Step, Imported, Checkpointed, Booted, Loaded, Restored, PeerState.Valid;
    match act
    case Live(op) => StepKeepsValid(w, sys.engine, op);
    case Checkpoint(_, now) => CheckpointKeepsValid(sys, now);
    case Restart(mode, plans, order, now) =>
      BootedIsValid(w, mode, plans, |plans|);
      LoadedIsValid(w, Booted(w, mode, plans, |plans|), sys.rows, order, now, |order|);
  }

  ghost function Run(w: World, mode: Mode, acts: seq<Act>, n: nat): (r: System)
    requires n <= |acts| && AllValid(acts)
    ensures r.Valid()
  {
    InitialIsValid(w, mode);
    if n == 0 then Boot(w, mode)
    else
      var before := Run(w, mode, acts, n - 1);
      ActKeepsValid(w, before, acts[n - 1]);
      Acted(w, before, acts[n - 1])
  }

  /** Checkpoints come in time order. */
  predicate Clocked(acts: seq<Act>) {
    forall i, j :: 0 <= i < j < |acts| && acts[i].Checkpoint? && acts[j].Checkpoint? ==> acts[i].now <= acts[j].now
  }

  // ---- what a restart brings back ----

  function PlanOwners(plans: seq<(Ip, nat)>, k: nat): set<Ip>
    requires k <= |plans|
  {
    if k == 0 then {} else PlanOwners(plans, k - 1) + {plans[k - 1].0}
  }

  /** The sources present from the start, and those the first k rows ask for. */
  function Arrivals(declared: set<Ip>, rows: map<Ip, Row>, order: seq<Ip>, now: nat, k: nat): set<Ip>
    requires k <= |order|
  {
    if k == 0 then declared
    else Arrivals(declared, rows, order, now, k - 1) + (if Fresh(rows, order[k - 1], now) then {order[k - 1]} else {})
  }

  /** The row of `s` is loaded: it is not past retention, and when one of its turns comes fewer
      than ten thousand sources are declared or come before it, or `s` itself is declared. */
  ghost predicate Loads(declared: set<Ip>, rows: map<Ip, Row>, order: seq<Ip>, now: nat, n: nat, s: Ip)
    requires n <= |order|
  {
    && Fresh(rows, s, now)
    && exists k :: 0 <= k < n && order[k] == s && (|Arrivals(declared, rows, order, now, k)| < 10_000 || s in declared)
  }

  lemma SetBelow(a: set<Ip>, b: set<Ip>)
    requires a <= b
    ensures |a| <= |b|
  {
    assert b == a + (b - a);
  }

  /** Is there room for `s` beside these sources? */
  predicate Room(sources: set<Ip>, s: Ip) {
    |sources| < MAX_PEERS || s in sources
  }

  function Taken(taken: bool, s: Ip): set<Ip> {
    if taken then {s} else {}
  }

  /** One more row, on the set of sources. */
  lemma ImportedSources(w: World, st: State, s: Ip, row: Detectors.Snapshot)
    requires st.params.Valid()
    ensures Imported(w, st, s, row).peers.Keys == st.peers.Keys + Taken(Room(st.peers.Keys, s), s)
    ensures st.HasRoomFor(s) <==> Room(st.peers.Keys, s)
  {
    hide Detectors.FromSnapshot, NewPeer;
  }

  /** While the ceiling is not reached every row finds room: the entries are the arrivals until
      then, and at least ten thousand after. */
  predicate Fits(sources: set<Ip>, arrivals: set<Ip>) {
    sources <= arrivals && (sources == arrivals || |sources| >= MAX_PEERS)
  }

  lemma TakenIs(taken: bool, r: Ip, s: Ip)
    ensures s in Taken(taken, r) <==> taken && s == r
  {
  }

  lemma FitsOnce(sources: set<Ip>, arrivals: set<Ip>, s: Ip, recent: bool)
    requires Fits(sources, arrivals)
    ensures Fits(sources + Taken(recent && Room(sources, s), s), arrivals + Taken(recent, s))
    ensures Room(sources, s) <==> |arrivals| < MAX_PEERS || s in sources
  {
    SetBelow(sources, arrivals);
    SetBelow(sources, sources + {s});
  }

  lemma LoadedOnce(w: World, st: State, rows: map<Ip, Row>, order: seq<Ip>, now: nat, k: nat)
    requires 0 < k <= |order| && st.params.Valid()
    ensures var s, sources := order[k - 1], Loaded(w, st, rows, order, now, k - 1).peers.Keys;
            Loaded(w, st, rows, order, now, k).peers.Keys == sources + Taken(Fresh(rows, s, now) && Room(sources, s), s)
  {
    hide Imported, Restored, Arrivals, Params.Valid, State.HasRoomFor, Room;
    var before, s := Loaded(w, st, rows, order, now, k - 1), order[k - 1];
    if Fresh(rows, s, now) {
      ImportedSources(w, before, s, rows[s].saved);
    }
  }

  lemma RestoredOnce(w: World, st: State, rows: map<Ip, Row>, order: seq<Ip>, now: nat, k: nat)
    requires 0 < k <= |order| && st.params.Valid()
    ensures var s, sources := order[k - 1], Loaded(w, st, rows, order, now, k - 1).peers.Keys;
            Restored(w, st, rows, order, now, k)
            == Restored(w, st, rows, order, now, k - 1) + Taken(Fresh(rows, s, now) && Room(sources, s), s)
  {
    hide Loaded, Fresh, Params.Valid;
  }

  lemma ArrivedOnce(declared: set<Ip>, rows: map<Ip, Row>, order: seq<Ip>, now: nat, k: nat)
    requires 0 < k <= |order|
    ensures Arrivals(declared, rows, order, now, k)
         == Arrivals(declared, rows, order, now, k - 1) + Taken(Fresh(rows, order[k - 1], now), order[k - 1])
  {
    hide Fresh;
  }

  lemma NothingLoadedYet(w: World, st: State, rows: map<Ip, Row>, order: seq<Ip>, now: nat)
    requires st.params.Valid()
    ensures Loaded(w, st, rows, order, now, 0) == st && Restored(w, st, rows, order, now, 0) == {}
    ensures Fits(st.peers.Keys, Arrivals(st.peers.Keys, rows, order, now, 0))
  {
    hide Imported, Params.Valid;
  }

  lemma {:induction false} LoadedSources(w: World, st: State, rows: map<Ip, Row>, order: seq<Ip>, now: nat, k: nat)
    requires k <= |order| && st.params.Valid()
    ensures Fits(Loaded(w, st, rows, order, now, k).peers.Keys, Arrivals(st.peers.Keys, rows, order, now, k))
    ensures Loaded(w, st, rows, order, now, k).peers.Keys == st.peers.Keys + Restored(w, st, rows, order, now, k)
  {
    hide Loaded, Restored, Arrivals, Fresh, Fits, Room, Taken, Params.Valid;
    if k == 0 {
      NothingLoadedYet(w, st, rows, order, now);
    } else {
      LoadedSources(w, st, rows, order, now, k - 1);
      LoadedOnce(w, st, rows, order, now, k);
      RestoredOnce(w, st, rows, order, now, k);
      ArrivedOnce(st.peers.Keys, rows, order, now, k);
      FitsOnce(Loaded(w, st, rows, order, now, k - 1).peers.Keys, Arrivals(st.peers.Keys, rows, order, now, k - 1), order[k - 1],
               Fresh(rows, order[k - 1], now));
    }
  }

  lemma LoadsOnce(declared: set<Ip>, rows: map<Ip, Row>, order: seq<Ip>, now: nat, n: nat, s: Ip)
    requires 0 < n <= |order|
    ensures Loads(declared, rows, order, now, n, s)
       <==> (|| Loads(declared, rows, order, now, n - 1, s)
             || (&& Fresh(rows, s, now) && order[n - 1] == s
                 && (|Arrivals(declared, rows, order, now, n - 1)| < MAX_PEERS || s in declared)))
  {
    hide Arrivals, Fresh;
  }

  lemma NothingLoads(declared: set<Ip>, rows: map<Ip, Row>, order: seq<Ip>, now: nat, s: Ip)
    ensures !Loads(declared, rows, order, now, 0, s)
  {
  }

  /** Who is restored, read off the sources present when the row's turn comes. */
  lemma RestoredNow(w: World, st: State, rows: map<Ip, Row>, order: seq<Ip>, now: nat, n: nat, s: Ip)
    requires 0 < n <= |order| && st.params.Valid()
    ensures var before := Restored(w, st, rows, order, now, n - 1);
            s in Restored(w, st, rows, order, now, n)
            <==> s in before
                 || (order[n - 1] == s && Fresh(rows, s, now)
                     && (|Arrivals(st.peers.Keys, rows, order, now, n - 1)| < MAX_PEERS || s in st.peers.Keys || s in before))
  {
    hide Loaded, Restored, Arrivals, Fresh, Fits, Room, Taken, Params.Valid;
    var sources := Loaded(w, st, rows, order, now, n - 1).peers.Keys;
    RestoredOnce(w, st, rows, order, now, n);
    TakenIs(Fresh(rows, order[n - 1], now) && Room(sources, order[n - 1]), order[n - 1], s);
    LoadedSources(w, st, rows, order, now, n - 1);
    FitsOnce(sources, Arrivals(st.peers.Keys, rows, order, now, n - 1), s, true);
  }

  lemma {:induction false} LoadsWhatFits(w: World, st: State, rows: map<Ip, Row>, order: seq<Ip>, now: nat, n: nat, s: Ip)
    requires n <= |order| && st.params.Valid()
    ensures s in Restored(w, st, rows, order, now, n) <==> Loads(st.peers.Keys, rows, order, now, n, s)
  {
    hide Loaded, Restored, Arrivals, Fresh, Fits, Loads, Params.Valid;
    if n == 0 {
      NothingLoadedYet(w, st, rows, order, now);
      NothingLoads(st.peers.Keys, rows, order, now, s);
    } else {
      LoadsWhatFits(w, st, rows, order, now, n - 1, s);
      RestoredNow(w, st, rows, order, now, n, s);
      LoadsOnce(st.peers.Keys, rows, order, now, n, s);
    }
  }

  /** A restored source has its row's durable state, and is clean. */
  predicate Holds(st: State, rows: map<Ip, Row>, s: Ip) {
    s in st.peers && s in rows && st.peers[s].anomaly.Saved() == rows[s].saved && !st.peers[s].dirty
  }

  lemma ImportHolds(w: World, st: State, rows: map<Ip, Row>, r: Ip, s: Ip)
    requires st.params.Valid() && r in rows
    ensures var after := Imported(w, st, r, rows[r].saved);
            && (s == r && st.HasRoomFor(r) ==> Holds(after, rows, s))
            && (s != r || !st.HasRoomFor(r) ==> (s in after.peers <==> s in st.peers)
                                                && (s in st.peers ==> after.peers[s] == st.peers[s]))
  {
    hide Detectors.FromSnapshot, NewPeer, Detectors.Detector.Saved;
    Detectors.SnapshotRoundTrip(w.num, st.params, rows[r].saved);
  }

  lemma SameHolds(st: State, after: State, rows: map<Ip, Row>, s: Ip)
    requires Holds(st, rows, s)
    ensures s in st.peers
    ensures s in after.peers && after.peers[s] == st.peers[s] ==> Holds(after, rows, s)
  {
  }

  /** A source is as its row says, or as it was before the first row. */
  predicate AsLoaded(st: State, after: State, rows: map<Ip, Row>, restored: bool, s: Ip) {
    if restored then Holds(after, rows, s)
    else (s in after.peers <==> s in st.peers) && (s in st.peers ==> after.peers[s] == st.peers[s])
  }

  lemma AsLoadedOnce(w: World, st: State, before: State, rows: map<Ip, Row>, r: Ip, restored: bool, s: Ip)
    requires before.params.Valid() && r in rows && AsLoaded(st, before, rows, restored, s)
    ensures AsLoaded(st, Imported(w, before, r, rows[r].saved), rows, restored || (s == r && before.HasRoomFor(r)), s)
  {
    hide Imported, Holds;
    ImportHolds(w, before, rows, r, s);
    if restored {
      SameHolds(before, Imported(w, before, r, rows[r].saved), rows, s);
    }
  }

  lemma {:induction false} RestoredHolds(w: World, st: State, rows: map<Ip, Row>, order: seq<Ip>, now: nat, k: nat, s: Ip)
    requires k <= |order| && st.params.Valid()
    ensures AsLoaded(st, Loaded(w, st, rows, order, now, k), rows, s in Restored(w, st, rows, order, now, k), s)
  {
    if k > 0 {
      hide Imported, AsLoaded, State.HasRoomFor;
      RestoredHolds(w, st, rows, order, now, k - 1, s);
      if Fresh(rows, order[k - 1], now) {
        AsLoadedOnce(w, st, Loaded(w, st, rows, order, now, k - 1), rows, order[k - 1],
                     s in Restored(w, st, rows, order, now, k - 1), s);
      }
    }
  }

  /** A source only its dial plan knows. */
  predicate IsNew(w: World, ps: PeerState) {
    Defaults(w.num).Valid() && ps.anomaly == Detectors.New(w.num, Defaults(w.num)) && !ps.dirty
  }

  lemma DeclaredSources(w: World, st: State, ip: Ip, plan: nat, s: Ip)
    requires st.params == Defaults(w.num) && st.params.Valid()
    ensures Declared(w, st, ip, plan).peers.Keys == st.peers.Keys + {ip}
    ensures Declared(w, st, ip, plan).params == st.params
    ensures (s in Declared(w, st, ip, plan).peers && (s in st.peers ==> IsNew(w, st.peers[s])))
            ==> IsNew(w, Declared(w, st, ip, plan).peers[s])
  {
    hide Detectors.New;
  }

  lemma {:induction false} BootedSources(w: World, mode: Mode, plans: seq<(Ip, nat)>, k: nat, s: Ip)
    requires k <= |plans|
    ensures Booted(w, mode, plans, k).peers.Keys == PlanOwners(plans, k)
    ensures Booted(w, mode, plans, k).params == Defaults(w.num) && Defaults(w.num).Valid()
    ensures s in Booted(w, mode, plans, k).peers ==> IsNew(w, Booted(w, mode, plans, k).peers[s])
  {
    hide Declared, IsNew;
    DefaultsAreValid(w.num);
    if k > 0 {
      BootedSources(w, mode, plans, k - 1, s);
      DeclaredSources(w, Booted(w, mode, plans, k - 1), plans[k - 1].0, plans[k - 1].1, s);
    }
  }

  /** The sources a restart's configuration declares. */
  function DeclaredBy(act: Act): set<Ip>
    requires act.Restart?
  {
    PlanOwners(act.plans, |act.plans|)
  }

  /** A restart restores exactly the sources whose rows load, each to its row's durable state,
      and forgets every other one: it is absent, or starts over under its declared plan. */
  lemma RestartRestoresExactly(w: World, sys: System, act: Act, s: Ip)
    requires sys.Valid() && act.Restart?
    ensures var after := Acted(w, sys, act);
            && (s in after.touched <==> Loads(DeclaredBy(act), sys.rows, act.order, act.now, |act.order|, s))
            && (if s in after.touched then Holds(after.engine, sys.rows, s)
                else (s in after.engine.peers <==> s in DeclaredBy(act))
                     && (s in after.engine.peers ==> IsNew(w, after.engine.peers[s])))
  {
    hide Booted, Loaded, Restored, Loads, Holds, PlanOwners, IsNew, System.Valid, State.Valid;
    var booted := Booted(w, act.mode, act.plans, |act.plans|);
    BootedSources(w, act.mode, act.plans, |act.plans|, s);
    LoadsWhatFits(w, booted, sys.rows, act.order, act.now, |act.order|, s);
    RestoredHolds(w, booted, sys.rows, act.order, act.now, |act.order|, s);
  }

  // ---- incremental checkpoints ----

  /** A clean source that was ever dirty or restored has its durable state in its row, unless
      the row grew too old and was pruned. */
  predicate InStep(sys: System, s: Ip) {
    s in sys.touched && s in sys.engine.peers && !sys.engine.peers[s].dirty ==>
      && s in sys.written
      && (if sys.written[s] >= sys.cutoff then s in sys.rows && sys.rows[s].saved == sys.engine.peers[s].anomaly.Saved()
          else s !in sys.rows)
  }

  /** Rows are dated by their last writing and none is older than the cutoff. */
  predicate Dated(sys: System, s: Ip) {
    s in sys.rows ==> s in sys.written && sys.rows[s].lastSeen == sys.written[s] >= sys.cutoff
  }

  /** Everything the induction carries about one source. */
  predicate Inv(sys: System, s: Ip, now: nat) {
    && InStep(sys, s) && Dated(sys, s) && sys.cutoff <= now
    && (s in sys.touched ==> s in sys.engine.peers)
    && (s in sys.engine.peers && sys.engine.peers[s].dirty ==> s in sys.touched)
  }

  lemma LiveKeepsInv(w: World, sys: System, op: Op, s: Ip, now: nat)
    requires sys.Valid() && Live(op).Valid() && Inv(sys, s, now)
    ensures Inv(Acted(w, sys, Live(op)), s, now)
  {
    hide Step, PeerState.Valid, Detectors.Detector.Saved;
    LiveKeeps(w, sys.engine, op, s);
  }

  /** A committed checkpoint keeps every clean source in step with its row. */
  lemma CheckpointKeepsInv(sys: System, now: nat, s: Ip, before: nat)
    requires sys.Valid() && Inv(sys, s, before) && before <= now
    ensures Inv(Checkpointed(sys, now), s, now)
  {
    hide PeerState.Valid, Detectors.Detector.Saved;
  }

  lemma RestartKeepsInv(w: World, sys: System, act: Act, s: Ip, now: nat)
    requires sys.Valid() && act.Restart? && Inv(sys, s, now)
    ensures Inv(Acted(w, sys, act), s, now)
  {
    hide Acted, Loads, DeclaredBy, Detectors.Detector.Saved, Detectors.New, System.Valid, Defaults;
    RestartRestoresExactly(w, sys, act, s);
    RestartKeepsRows(w, sys, act);
  }

  lemma RestartKeepsRows(w: World, sys: System, act: Act)
    requires sys.Valid() && act.Restart?
    ensures var after := Acted(w, sys, act); after.rows == sys.rows && after.written == sys.written && after.cutoff == sys.cutoff
  {
    hide Booted, Loaded, Restored, State.Valid;
  }

  /** The latest checkpoint time among the first n acts. */
  function Latest(acts: seq<Act>, n: nat): nat
    requires n <= |acts|
  {
    if n == 0 then 0 else if acts[n - 1].Checkpoint? then acts[n - 1].now else Latest(acts, n - 1)
  }

  lemma {:induction false} LatestIsEarlier(acts: seq<Act>, n: nat, m: nat)
    requires n <= m < |acts| && Clocked(acts) && acts[m].Checkpoint?
    ensures Latest(acts, n) <= acts[m].now
  {
    if n > 0 && !acts[n - 1].Checkpoint? {
      LatestIsEarlier(acts, n - 1, m);
    }
  }

  lemma ActKeepsInv(w: World, sys: System, act: Act, s: Ip, before: nat, now: nat)
    requires sys.Valid() && act.Valid() && Inv(sys, s, before)
    requires if act.Checkpoint? then before <= act.now == now else before == now
    ensures Inv(Acted(w, sys, act), s, now)
  {
    hide Step, PeerState.Valid, Detectors.Detector.Saved, InStep, Checkpointed, Booted, Loaded, Restored;
    match act
    case Live(op) => LiveKeepsInv(w, sys, op, s, now);
    case Checkpoint(committed, at) =>
      if committed {
        CheckpointKeepsInv(sys, at, s, before);
      }
    case Restart(_, _, _, _) => RestartKeepsInv(w, sys, act, s, now);
  }

  lemma BootIsInStep(w: World, mode: Mode, acts: seq<Act>, s: Ip)
    requires AllValid(acts)
    ensures Inv(Run(w, mode, acts, 0), s, 0)
  {
  }

  lemma {:induction false} SystemStaysInStep(w: World, mode: Mode, acts: seq<Act>, n: nat, s: Ip)
    requires n <= |acts| && AllValid(acts) && Clocked(acts)
    ensures Inv(Run(w, mode, acts, n), s, Latest(acts, n))
  {
    hide Acted, Inv, System.Valid, Clocked;
    if n == 0 {
      BootIsInStep(w, mode, acts, s);
    } else {
      SystemStaysInStep(w, mode, acts, n - 1, s);
      if acts[n - 1].Checkpoint? {
        LatestIsEarlier(acts, n - 1, n - 1);
      }
      ActKeepsInv(w, Run(w, mode, acts, n - 1), acts[n - 1], s, Latest(acts, n - 1), Latest(acts, n));
    }
  }

  /** Incremental checkpoints are as good as full ones: in every run of traffic,
      recalibrations, committed and failed checkpoints and restarts, a source that was ever dirty
      or restored and is clean now has a row equal to its durable state, as long as that row is
      not past retention; and past retention it has none. */
  lemma IncrementalCheckpointsAreFull(w: World, mode: Mode, acts: seq<Act>, n: nat, s: Ip)
    requires n <= |acts| && AllValid(acts) && Clocked(acts)
    ensures var sys := Run(w, mode, acts, n);
            s in sys.touched ==>
              && s in sys.engine.peers
              && (!sys.engine.peers[s].dirty ==>
                    && s in sys.written
                    && (if sys.written[s] >= sys.cutoff
                        then s in sys.rows && sys.rows[s].saved == sys.engine.peers[s].anomaly.Saved()
                        else s !in sys.rows))
  {
    hide Run;
    SystemStaysInStep(w, mode, acts, n, s);
  }

  /** A committed checkpoint leaves no source marked changed, and the engine otherwise as it was; it
      writes a row exactly for every source that was, with its durable state and the instant. */
  lemma CheckpointWritesTheDirty(sys: System, now: nat, s: Ip)
    requires sys.Valid()
    ensures var after := Checkpointed(sys, now);
            && after.engine == sys.engine.(peers := after.engine.peers)
            && (s in after.engine.peers <==> s in sys.engine.peers)
            && (s in sys.engine.peers ==> after.engine.peers[s] == sys.engine.peers[s].(dirty := false))
            && (s in sys.engine.peers && sys.engine.peers[s].dirty ==>
                  s in after.rows && after.rows[s] == Row(sys.engine.peers[s].anomaly.Saved(), now))
            && (!(s in sys.engine.peers && sys.engine.peers[s].dirty) ==>
                  if s in sys.rows && sys.rows[s].lastSeen + 90 * 86_400 >= now then s in after.rows && after.rows[s] == sys.rows[s]
                  else s !in after.rows)
  {
    hide PeerState.Valid, Detectors.Detector.Saved;
  }

  /** Act i is a committed checkpoint that finds the source dirty. */
  ghost predicate Writes(w: World, mode: Mode, acts: seq<Act>, i: nat, s: Ip)
    requires i < |acts| && AllValid(acts)
  {
    && acts[i].Checkpoint? && acts[i].committed
    && s in Run(w, mode, acts, i).engine.peers && Run(w, mode, acts, i).engine.peers[s].dirty
  }

  /** The latest of the first n acts that writes the row of `s`. */
  ghost function LastWriting(w: World, mode: Mode, acts: seq<Act>, n: nat, s: Ip): (i: Option<nat>)
    requires n <= |acts| && AllValid(acts)
    ensures i.Some? ==> i.value < n
  {
    if n == 0 then None
    else if Writes(w, mode, acts, n - 1, s) then Some(n - 1)
    else LastWriting(w, mode, acts, n - 1, s)
  }

  /** The dates the laws speak of: a row's is that of the latest committed checkpoint that found its
      source dirty, and the cutoff lies ninety days before the latest committed checkpoint. */
  lemma {:induction false} DatesAreCheckpoints(w: World, mode: Mode, acts: seq<Act>, n: nat, s: Ip)
    requires n <= |acts| && AllValid(acts) && Clocked(acts)
    ensures var sys, i := Run(w, mode, acts, n), LastWriting(w, mode, acts, n, s);
            && (s in sys.written <==> i.Some?)
            && (s in sys.written ==> acts[i.value].Checkpoint? && sys.written[s] == acts[i.value].now)
            && sys.cutoff == LatestCutoff(acts, n)
  {
    hide Run, Acted;
    if n == 0 {
      NothingWritten(w, mode, acts);
    } else {
      DatesAreCheckpoints(w, mode, acts, n - 1, s);
      DatesOnce(w, mode, acts, n - 1, s);
    }
  }

  /** Ninety days before the latest committed checkpoint among the first n acts. */
  function LatestCutoff(acts: seq<Act>, n: nat): nat
    requires n <= |acts|
  {
    if n == 0 then 0
    else if acts[n - 1].Checkpoint? && acts[n - 1].committed then SatSub(acts[n - 1].now, 90 * 86_400)
    else LatestCutoff(acts, n - 1)
  }

  lemma {:induction false} CutoffIsEarlier(acts: seq<Act>, n: nat, m: nat)
    requires n <= m < |acts| && Clocked(acts) && acts[m].Checkpoint?
    ensures LatestCutoff(acts, n) <= SatSub(acts[m].now, 90 * 86_400)
  {
    if n > 0 && !(acts[n - 1].Checkpoint? && acts[n - 1].committed) {
      CutoffIsEarlier(acts, n - 1, m);
    }
  }

  lemma NothingWritten(w: World, mode: Mode, acts: seq<Act>)
    requires AllValid(acts)
    ensures Run(w, mode, acts, 0).written == map[] && Run(w, mode, acts, 0).cutoff == 0
  {
  }

  lemma DatesOnce(w: World, mode: Mode, acts: seq<Act>, n: nat, s: Ip)
    requires n < |acts| && AllValid(acts) && Clocked(acts) && Run(w, mode, acts, n).cutoff == LatestCutoff(acts, n)
    ensures var before, after := Run(w, mode, acts, n), Run(w, mode, acts, n + 1);
            && (if Writes(w, mode, acts, n, s) then s in after.written && after.written[s] == acts[n].now
                else (s in after.written <==> s in before.written)
                     && (s in before.written ==> after.written[s] == before.written[s]))
            && after.cutoff == LatestCutoff(acts, n + 1)
  {
    hide Step, Booted, Loaded, Restored, PeerState.Valid, Detectors.Detector.Saved;
    if acts[n].Checkpoint? {
      CutoffIsEarlier(acts, n, n);
    }
    OneMoreAct(w, mode, acts, n);
  }

  lemma OneMoreAct(w: World, mode: Mode, acts: seq<Act>, n: nat)
    requires n < |acts| && AllValid(acts)
    ensures Run(w, mode, acts, n + 1) == Acted(w, Run(w, mode, acts, n), acts[n])
  {
    hide Acted;
  }

  /** What a restart at any instant keeps of a clean source: its durable state exactly when its
      row was last written within the retention of both the last pruning and the boot, the row is
      read, and when its turn comes there is room; otherwise the source starts over. */
  lemma RestartKeepsWhatIsFresh(w: World, mode: Mode, acts: seq<Act>, n: nat, s: Ip, restart: Act)
    requires n <= |acts| && AllValid(acts) && Clocked(acts) && restart.Restart?
    requires var sys := Run(w, mode, acts, n); s in sys.touched && s in sys.engine.peers && !sys.engine.peers[s].dirty
    ensures var sys := Run(w, mode, acts, n);
            var after := Acted(w, sys, restart).engine;
            && s in sys.written
            && (if && sys.written[s] >= sys.cutoff && sys.written[s] >= SatSub(restart.now, 90 * 86_400)
                   && exists k :: 0 <= k < |restart.order| && restart.order[k] == s
                        && (|Arrivals(DeclaredBy(restart), sys.rows, restart.order, restart.now, k)| < 10_000
                            || s in DeclaredBy(restart))
                then s in after.peers && after.peers[s].anomaly.Saved() == sys.engine.peers[s].anomaly.Saved()
                else s in after.peers ==> IsNew(w, after.peers[s]))
  {
    hide Run, Acted, Arrivals, DeclaredBy, Detectors.Detector.Saved, IsNew, System.Valid;
    SystemStaysInStep(w, mode, acts, n, s);
    RestartRestoresExactly(w, Run(w, mode, acts, n), restart, s);
  }
}
