/** The distinct extensions one source has probed with REGISTER, in sixteen slots. */
module RegProbes {
  import opened Numerics
  import opened Counting

  const SIZE: nat := 16
  const WINDOW_SECS: nat := 600
  const SCAN_EXTENSIONS: nat := 10

  /** The mark of an emptied slot. */
  const NOBODY: Hash := TWO_TO_THE_64 - 1

  datatype Slot = Slot(id: Hash, at: nat)

  datatype Ring = Ring(slots: seq<Slot>, len: nat, next: nat) {
    predicate Valid() {
      |slots| == SIZE && len <= SIZE && next < SIZE
    }

    predicate IsLive(i: nat, now: nat, span: nat)
      requires Valid() && i < len
    {
      SatSub(now, slots[i].at) < span
    }

    /** The first slot, from i on, holding a live probe of `id`. */
    function Find(i: nat, id: Hash, now: nat, span: nat): (r: Option<nat>)
      requires Valid() && i <= len
      ensures r.Some? ==> r.value < len && slots[r.value].id == id && IsLive(r.value, now, span)
      ensures r.None? ==> forall j :: i <= j < len && slots[j].id == id ==> !IsLive(j, now, span)
      decreases len - i
    {
      if i == len then None
      else if slots[i].id == id && IsLive(i, now, span) then Some(i)
      else Find(i + 1, id, now, span)
    }

    /** A live probe of the same extension is refreshed; any other takes the next slot. */
    function Recorded(id: Hash, now: nat, span: nat): (r: Ring)
      requires Valid()
      ensures r.Valid()
    {
      match Find(0, id, now, span)
      case Some(i) => this.(slots := slots[i := Slot(id, now)])
      case None => Ring(slots[next := Slot(id, now)], if len < SIZE then len + 1 else len, (next + 1) % SIZE)
    }

    /** Forgets one accepted extension. */
    function Removed(id: Hash): (r: Ring)
      requires Valid()
      ensures r.Valid()
    {
      this.(slots := seq(SIZE, i requires 0 <= i < SIZE =>
        if i < len && slots[i].id == id then Slot(NOBODY, 0) else slots[i]))
    }

    function Live(now: nat, span: nat): set<nat>
      requires Valid()
    {
      set i: nat | i < len && IsLive(i, now, span)
    }
  }

  function Empty(): (r: Ring)
    ensures r.Valid()
  {
    Ring(seq(SIZE, i => Slot(0, 0)), 0, 0)
  }

  /** What one packet means to the ring. */
  datatype Op = Probe(id: Hash, at: nat) | Remove(id: Hash) | Quiet

  function Stepped(ring: Ring, op: Op, span: nat): (r: Ring)
    requires ring.Valid()
    ensures r.Valid()
  {
    match op
    case Probe(id, at) => ring.Recorded(id, at, span)
    case Remove(id) => ring.Removed(id)
    case Quiet => ring
  }

  function Run(ops: seq<Op>, n: nat, span: nat): (r: Ring)
    requires n <= |ops|
    ensures r.Valid()
  {
    if n == 0 then Empty() else Stepped(Run(ops, n - 1, span), ops[n - 1], span)
  }

  /** Probes come in time order and never before one whole span has passed: an emptied slot
      is stamped zero and must not read as recent. */
  predicate Clocked(ops: seq<Op>, span: nat) {
    && (forall i :: 0 <= i < |ops| && ops[i].Probe? ==> span <= ops[i].at)
    && (forall i, j :: 0 <= i < j < |ops| && ops[i].Probe? && ops[j].Probe? ==> ops[i].at <= ops[j].at)
  }

  /** All probes among the first n operations happened by instant `now`. */
  predicate PastBy(ops: seq<Op>, n: nat, now: nat)
    requires n <= |ops|
  {
    forall i :: 0 <= i < n && ops[i].Probe? ==> ops[i].at <= now
  }

  /** When `id` was last probed, unless a removal came after. */
  function LastProbe(ops: seq<Op>, n: nat, id: Hash): Option<nat>
    requires n <= |ops|
  {
    if n == 0 then None
    else if ops[n - 1].Quiet? || ops[n - 1].id != id then LastProbe(ops, n - 1, id)
    else if ops[n - 1].Probe? then Some(ops[n - 1].at)
    else None
  }

  /** The extensions whose last event is a probe inside the span. */
  function Active(ops: seq<Op>, n: nat, now: nat, span: nat): set<Hash>
    requires n <= |ops|
  {
    set i | 0 <= i < n && ops[i].Probe? && IsActive(ops, n, ops[i].id, now, span) :: ops[i].id
  }

  predicate IsActive(ops: seq<Op>, n: nat, id: Hash, now: nat, span: nat)
    requires n <= |ops|
  {
    LastProbe(ops, n, id).Some? && SatSub(now, LastProbe(ops, n, id).value) < span
  }

  /** Every live slot stands for the last probe of its extension, and no extension has two. */
  predicate Sound(ring: Ring, ops: seq<Op>, n: nat, now: nat, span: nat)
    requires n <= |ops| && ring.Valid()
  {
    && (forall i :: 0 <= i < ring.len && ring.IsLive(i, now, span) ==>
          LastProbe(ops, n, ring.slots[i].id) == Some(ring.slots[i].at))
    && (forall i, j :: 0 <= i < j < ring.len && ring.IsLive(i, now, span) && ring.IsLive(j, now, span) ==>
          ring.slots[i].id != ring.slots[j].id)
  }

  predicate LenShape(ring: Ring) {
    ring.Valid() && (ring.len < SIZE ==> ring.next == ring.len)
  }

  lemma {:induction false} RingHasShape(ops: seq<Op>, n: nat, span: nat)
    requires n <= |ops|
    ensures LenShape(Run(ops, n, span))
  {
    if n > 0 {
      RingHasShape(ops, n - 1, span);
    }
  }

  lemma ProbeKeepsSound(ring: Ring, ops: seq<Op>, n: nat, now: nat, span: nat)
    requires n < |ops| && LenShape(ring) && ops[n].Probe? && ops[n].at <= now
    requires Sound(ring, ops, n, ops[n].at, span)
    ensures Sound(Stepped(ring, ops[n], span), ops, n + 1, now, span)
  {
    var id, at := ops[n].id, ops[n].at;
    var r := Stepped(ring, ops[n], span);
    var found := ring.Find(0, id, at, span);
    var s := if found.Some? then found.value else ring.next;
    assert r.slots == ring.slots[s := Slot(id, at)];
    forall i | 0 <= i < r.len && i != s && r.IsLive(i, now, span)
      ensures i < ring.len && r.slots[i] == ring.slots[i] && ring.IsLive(i, at, span) && r.slots[i].id != id
    {
    }
  }

  lemma OtherKeepsSound(ring: Ring, ops: seq<Op>, n: nat, now: nat, span: nat)
    requires n < |ops| && ring.Valid() && !ops[n].Probe? && span <= now
    requires Sound(ring, ops, n, now, span)
    ensures Sound(Stepped(ring, ops[n], span), ops, n + 1, now, span)
  {
  }

  lemma {:induction false} RingIsSound(ops: seq<Op>, n: nat, now: nat, span: nat)
    requires n <= |ops| && Clocked(ops, span) && span <= now && PastBy(ops, n, now)
    ensures Sound(Run(ops, n, span), ops, n, now, span)
  {
    if n > 0 {
      if ops[n - 1].Probe? {
        RingIsSound(ops, n - 1, ops[n - 1].at, span);
        RingHasShape(ops, n - 1, span);
        ProbeKeepsSound(Run(ops, n - 1, span), ops, n - 1, now, span);
      } else {
        RingIsSound(ops, n - 1, now, span);
        OtherKeepsSound(Run(ops, n - 1, span), ops, n - 1, now, span);
      }
    }
  }

  /** An extension that still counts was probed at the recorded instant, and not removed
      since. */
  lemma {:induction false} ActiveWasProbed(ops: seq<Op>, n: nat, id: Hash) returns (i: nat)
    requires n <= |ops| && LastProbe(ops, n, id).Some?
    ensures i < n && ops[i] == Probe(id, LastProbe(ops, n, id).value)
    ensures forall j :: i < j < n ==> ops[j] != Remove(id) && !(ops[j].Probe? && ops[j].id == id)
  {
    if ops[n - 1].Quiet? || ops[n - 1].id != id {
      i := ActiveWasProbed(ops, n - 1, id);
    } else {
      i := n - 1;
    }
  }

  /** The count never exceeds the number of distinct extensions whose last event is a probe
      inside the span. */
  lemma CountIsSound(ops: seq<Op>, n: nat, now: nat, span: nat)
    requires n <= |ops| && Clocked(ops, span) && span <= now && PastBy(ops, n, now)
    ensures |Run(ops, n, span).Live(now, span)| <= |Active(ops, n, now, span)|
  {
    var ring := Run(ops, n, span);
    RingIsSound(ops, n, now, span);
    var name := map i | i in ring.Live(now, span) :: ring.slots[i].id;
    forall i | i in ring.Live(now, span) ensures name[i] in Active(ops, n, now, span) {
      var j := ActiveWasProbed(ops, n, name[i]);
      assert ops[j].id == name[i];
    }
    InjectionSize(ring.Live(now, span), Active(ops, n, now, span), name);
  }

  // ---- a real spray is caught ----

  /** Does the operation at position i take a new slot? */
  predicate Inserts(ops: seq<Op>, i: nat, span: nat)
    requires i < |ops|
  {
    ops[i].Probe? && Run(ops, i, span).Find(0, ops[i].id, ops[i].at, span).None?
  }

  /** How many probes from position m to n take a new slot. */
  function Insertions(ops: seq<Op>, m: nat, n: nat, span: nat): nat
    requires m <= n <= |ops|
  {
    if m == n then 0 else Insertions(ops, m, n - 1, span) + (if Inserts(ops, n - 1, span) then 1 else 0)
  }

  /** The slot written k insertions ago carries a probe from position m on. */
  predicate NewestAreRecent(ring: Ring, k: nat, since: nat)
    requires ring.Valid() && k <= SIZE
  {
    k <= ring.len && forall j :: 0 < j <= k ==> Back(ring.next, j, SIZE) < ring.len && ring.slots[Back(ring.next, j, SIZE)].at >= since
  }

  lemma StepKeepsRecent(ring: Ring, op: Op, span: nat, k: nat, since: nat)
    requires LenShape(ring) && op.Probe? && since <= op.at && k <= SIZE
    requires NewestAreRecent(ring, k, since)
    ensures NewestAreRecent(Stepped(ring, op, span),
                            if ring.Find(0, op.id, op.at, span).Some? || k == SIZE then k else k + 1, since)
  {
    var r := Stepped(ring, op, span);
    if ring.Find(0, op.id, op.at, span).None? {
      var k' := if k == SIZE then k else k + 1;
      forall j | 0 < j <= k'
        ensures Back(r.next, j, SIZE) < r.len && r.slots[Back(r.next, j, SIZE)].at >= since
      {
        if j > 1 {
          assert Back(r.next, j, SIZE) == Back(ring.next, j - 1, SIZE);
        }
      }
    }
  }

  lemma {:induction false} InsertionsStay(ops: seq<Op>, m: nat, n: nat, span: nat, since: nat)
    requires m <= n <= |ops|
    requires forall i :: m <= i < n ==> !ops[i].Remove? && (ops[i].Probe? ==> since <= ops[i].at)
    ensures NewestAreRecent(Run(ops, n, span),
                            if Insertions(ops, m, n, span) < SIZE then Insertions(ops, m, n, span) else SIZE, since)
  {
    RingHasShape(ops, n, span);
    if m < n {
      InsertionsStay(ops, m, n - 1, span, since);
      RingHasShape(ops, n - 1, span);
      var k := if Insertions(ops, m, n - 1, span) < SIZE then Insertions(ops, m, n - 1, span) else SIZE;
      if ops[n - 1].Probe? {
        StepKeepsRecent(Run(ops, n - 1, span), ops[n - 1], span, k, since);
      }
    }
  }

  /** With no removal from position m on, as many of the probes since then as took a new slot
      inside the span, up to sixteen, are counted. */
  lemma InsertionsAreCounted(ops: seq<Op>, m: nat, n: nat, now: nat, span: nat, k: nat)
    requires m <= n <= |ops| && k <= SIZE && k <= Insertions(ops, m, n, span)
    requires forall i :: m <= i < n ==> !ops[i].Remove? && (ops[i].Probe? ==> now - span < ops[i].at)
    requires span > 0
    ensures |Run(ops, n, span).Live(now, span)| >= k
  {
    var since := SatSub(now + 1, span);
    InsertionsStay(ops, m, n, span, since);
    var ring := Run(ops, n, span);
    var ages := Interval(1, k + 1);
    var slot := map j | j in ages :: Back(ring.next, j, SIZE);
    forall j | j in ages ensures slot[j] in ring.Live(now, span) {}
    forall i, j | i in ages && j in ages && slot[i] == slot[j] ensures i == j {
      BackIsInjective(ring.next, i, j, SIZE);
    }
    InjectionSize(ages, ring.Live(now, span), slot);
  }

  /** How many probes stand from position m to n. */
  function Probes(ops: seq<Op>, m: nat, n: nat): nat
    requires m <= n <= |ops|
  {
    if m == n then 0 else Probes(ops, m, n - 1) + (if ops[n - 1].Probe? then 1 else 0)
  }

  /** From position m to n nothing is removed, and the probes are of pairwise different
      extensions, none of which was active when position m was reached. */
  predicate FreshSpray(ops: seq<Op>, m: nat, n: nat, span: nat)
    requires m <= n <= |ops|
  {
    && (forall i :: m <= i < n ==> !ops[i].Remove?)
    && (forall i :: m <= i < n && ops[i].Probe? ==> !IsActive(ops, m, ops[i].id, ops[i].at, span))
    && (forall i, j :: m <= i < j < n && ops[i].Probe? && ops[j].Probe? ==> ops[i].id != ops[j].id)
  }

  lemma {:induction false} SprayedIsUntouched(ops: seq<Op>, m: nat, i: nat, id: Hash)
    requires m <= i <= |ops|
    requires forall j :: m <= j < i ==> !ops[j].Remove? && (ops[j].Probe? ==> ops[j].id != id)
    ensures LastProbe(ops, i, id) == LastProbe(ops, m, id)
  {
    if m < i {
      SprayedIsUntouched(ops, m, i - 1, id);
    }
  }

  lemma {:induction false} FreshSprayInserts(ops: seq<Op>, m: nat, n: nat, span: nat)
    requires m <= n <= |ops| && Clocked(ops, span) && FreshSpray(ops, m, n, span)
    ensures Insertions(ops, m, n, span) == Probes(ops, m, n)
  {
    if m < n {
      FreshSprayInserts(ops, m, n - 1, span);
      var op := ops[n - 1];
      if op.Probe? {
        RingIsSound(ops, n - 1, op.at, span);
        SprayedIsUntouched(ops, m, n - 1, op.id);
        assert Run(ops, n - 1, span).Find(0, op.id, op.at, span).None?;
      }
    }
  }

  /** Ten fresh extensions probed inside the span reach the scan threshold, whatever the ring
      held before. */
  lemma TenFreshProbesAreAScan(ops: seq<Op>, m: nat, n: nat, now: nat, span: nat)
    requires m <= n <= |ops| && Clocked(ops, span) && span > 0
    requires FreshSpray(ops, m, n, span) && Probes(ops, m, n) >= SCAN_EXTENSIONS
    requires forall i :: m <= i < n && ops[i].Probe? ==> now - span < ops[i].at
    ensures |Run(ops, n, span).Live(now, span)| >= SCAN_EXTENSIONS
  {
    FreshSprayInserts(ops, m, n, span);
    InsertionsAreCounted(ops, m, n, now, span, SCAN_EXTENSIONS);
  }

  /** The ring as the source keeps it. */
  class ProbeRing {
    const ids: array<Hash>
    const stamps: array<nat>
    var len: nat
    var next: nat

    ghost predicate Valid()
      reads this
    {
      ids.Length == SIZE && stamps.Length == SIZE && len <= SIZE && next < SIZE
    }

    ghost function Value(): (r: Ring)
      requires Valid()
      reads this, ids, stamps
      ensures r.Valid()
    {
      Ring(seq(SIZE, i requires 0 <= i < SIZE reads this, ids, stamps => Slot(ids[i], stamps[i])), len, next)
    }

    constructor ()
      ensures Valid() && Value() == Empty() && fresh(ids) && fresh(stamps)
    {
      ids := new Hash[SIZE](_ => 0);
      stamps := new nat[SIZE](_ => 0);
      len, next := 0, 0;
      new;
      assert Value().slots == Empty().slots;
    }

    /** Records a probe and reports how many distinct extensions fall inside the span. */
    method Record(id: Hash, now: nat, span: nat) returns (count: nat)
      requires Valid()
      modifies this, ids, stamps
      ensures Valid() && Value() == old(Value()).Recorded(id, now, span)
      ensures count == |Value().Live(now, span)|
    {
      ghost var before := Value();
      for i := 0 to len
        invariant before.Find(0, id, now, span) == before.Find(i, id, now, span)
        invariant Value() == before
      {
        if ids[i] == id && SatSub(now, stamps[i]) < span {
          stamps[i] := now;
          assert Value().slots == before.slots[i := Slot(id, now)];
          count := CountWithin(now, span);
          return;
        }
      }
      ids[next] := id;
      stamps[next] := now;
      assert Value().slots == before.slots[next := Slot(id, now)];
      next := (next + 1) % SIZE;
      if len < SIZE {
        len := len + 1;
      }
      count := CountWithin(now, span);
    }

    method CountWithin(now: nat, span: nat) returns (count: nat)
      requires Valid()
      ensures count == |Value().Live(now, span)|
    {
      count := 0;
      ghost var seen: set<nat> := {};
      for i := 0 to len
        invariant seen == set k: nat | k < i && SatSub(now, Value().slots[k].at) < span
        invariant count == |seen|
      {
        if SatSub(now, stamps[i]) < span {
          count := count + 1;
          seen := seen + {i};
        }
      }
      assert seen == Value().Live(now, span);
    }

    /** Empties the slots of one accepted extension and no other. */
    method Remove(id: Hash)
      requires Valid()
      modifies ids, stamps
      ensures Valid() && Value() == old(Value()).Removed(id)
    {
      ghost var before := Value();
      for i := 0 to len
        invariant forall k :: 0 <= k < i ==>
                    Slot(ids[k], stamps[k]) == if before.slots[k].id == id then Slot(NOBODY, 0) else before.slots[k]
        invariant forall k :: i <= k < SIZE ==> Slot(ids[k], stamps[k]) == before.slots[k]
      {
        if ids[i] == id {
          ids[i] := NOBODY;
          stamps[i] := 0;
        }
      }
      assert Value().slots == before.Removed(id).slots;
    }
  }
}
