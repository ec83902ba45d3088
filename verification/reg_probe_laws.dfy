/** Exactly which extensions the probe ring counts: those probed inside the span and not accepted
    since, that took one of the last sixteen slots. */
module RegProbeLaws {
  import opened Numerics
  import opened Counting
  import opened RegProbes

  /** The probe at position j took a slot, fewer than sixteen slots were taken since, and its extension
      was not accepted since. */
  predicate Standing(ops: seq<Op>, j: nat, n: nat, span: nat)
    requires n <= |ops|
  {
    && j < n && Inserts(ops, j, span) && Insertions(ops, j + 1, n, span) < 16
    && forall i :: j < i < n ==> ops[i] != Remove(ops[j].id)
  }

  /** The slot the probe at position j took. */
  function SlotOf(ops: seq<Op>, j: nat, span: nat): nat
    requires j <= |ops|
  {
    Insertions(ops, 0, j, span) % SIZE
  }

  lemma RunOnce(ops: seq<Op>, n: nat, span: nat)
    requires n < |ops|
    ensures Run(ops, n + 1, span) == Stepped(Run(ops, n, span), ops[n], span)
  {
    hide Stepped;
  }

  lemma InsertionOnce(ops: seq<Op>, m: nat, n: nat, span: nat)
    requires m <= n < |ops|
    ensures Insertions(ops, m, n + 1, span) == Insertions(ops, m, n, span) + if Inserts(ops, n, span) then 1 else 0
    ensures Insertions(ops, n, n, span) == 0
  {
    hide Inserts;
  }

  lemma {:induction false} InsertionsAdd(ops: seq<Op>, lo: nat, mid: nat, hi: nat, span: nat)
    requires lo <= mid <= hi <= |ops|
    ensures Insertions(ops, lo, hi, span) == Insertions(ops, lo, mid, span) + Insertions(ops, mid, hi, span)
  {
    hide Inserts;
    if mid < hi {
      InsertionsAdd(ops, lo, mid, hi - 1, span);
    }
  }

  lemma NextStep(ring: Ring, op: Op, span: nat)
    requires ring.Valid()
    ensures var r, inserts := Stepped(ring, op, span), op.Probe? && ring.Find(0, op.id, op.at, span).None?;
            && r.next == (if inserts then (ring.next + 1) % SIZE else ring.next)
            && r.len == (if inserts && ring.len < SIZE then ring.len + 1 else ring.len)
  {
    hide Ring.Find;
  }

  lemma NextSlot(a: nat)
    ensures (a % SIZE + 1) % SIZE == (a + 1) % SIZE
  {
  }

  /** The ring's hand counts the insertions, and its length shows them up to sixteen. */
  lemma {:induction false} HandCounts(ops: seq<Op>, n: nat, span: nat)
    requires n <= |ops|
    ensures Run(ops, n, span).next == Insertions(ops, 0, n, span) % SIZE
    ensures Run(ops, n, span).len == if Insertions(ops, 0, n, span) < SIZE then Insertions(ops, 0, n, span) else SIZE
  {
    hide Stepped, Ring.Find;
    if n > 0 {
      HandCounts(ops, n - 1, span);
      RunOnce(ops, n - 1, span);
      InsertionOnce(ops, 0, n - 1, span);
      NextStep(Run(ops, n - 1, span), ops[n - 1], span);
      NextSlot(Insertions(ops, 0, n - 1, span));
    }
  }

  lemma OtherSlot(a: nat, t: nat)
    requires 0 < t < SIZE
    ensures (a + t) % SIZE != a % SIZE
  {
  }

  /** An insertion that is not the sixteenth since takes another slot. */
  lemma HandIsElsewhere(ops: seq<Op>, j: nat, n: nat, span: nat)
    requires j < n < |ops| && Inserts(ops, j, span) && Inserts(ops, n, span)
    ensures SlotOf(ops, n, span) != SlotOf(ops, j, span) || Insertions(ops, j + 1, n + 1, span) >= 16
  {
    hide Inserts;
    InsertionsAdd(ops, 0, j, n, span);
    InsertionsAdd(ops, j, j + 1, n, span);
    InsertionOnce(ops, j, j, span);
    InsertionOnce(ops, j + 1, n, span);
    var since := Insertions(ops, j + 1, n, span);
    if since + 1 < 16 {
      OtherSlot(Insertions(ops, 0, j, span), since + 1);
    }
  }

  /** What one operation leaves in one slot in use. */
  function SlotAfter(ring: Ring, op: Op, span: nat, slot: nat): Slot
    requires ring.Valid() && slot < ring.len
  {
    match op
    case Quiet => ring.slots[slot]
    case Remove(id) => if ring.slots[slot].id == id then Slot(NOBODY, 0) else ring.slots[slot]
    case Probe(id, at) =>
      var found := ring.Find(0, id, at, span);
      if slot == (if found.Some? then found.value else ring.next) then Slot(id, at) else ring.slots[slot]
  }

  lemma SlotStep(ring: Ring, op: Op, span: nat, slot: nat)
    requires ring.Valid() && slot < ring.len
    ensures slot < Stepped(ring, op, span).len && Stepped(ring, op, span).slots[slot] == SlotAfter(ring, op, span, slot)
  {
    hide Ring.Find;
  }

  lemma FreshSlot(ring: Ring, op: Op, span: nat)
    requires ring.Valid() && LenShape(ring) && op.Probe? && ring.Find(0, op.id, op.at, span).None?
    ensures var r := Stepped(ring, op, span); ring.next < r.len && r.slots[ring.next] == Slot(op.id, op.at)
  {
    hide Ring.Find;
  }

  lemma StandsOn(ops: seq<Op>, j: nat, n: nat, span: nat)
    requires n < |ops| && j < n
    ensures Standing(ops, j, n + 1, span)
       <==> Standing(ops, j, n, span) && ops[n] != Remove(ops[j].id) && Insertions(ops, j + 1, n + 1, span) < 16
  {
    hide Inserts;
    InsertionOnce(ops, j + 1, n, span);
  }

  lemma JustInserted(ops: seq<Op>, n: nat, span: nat)
    requires n < |ops| && Inserts(ops, n, span)
    ensures Standing(ops, n, n + 1, span)
  {
    hide Inserts;
    assert Insertions(ops, n + 1, n + 1, span) == 0;
  }

  // ---- every live slot stands for an insertion ----

  /** A live slot holds the extension of an insertion that still stands. */
  lemma {:induction false} LiveSlotStands(ops: seq<Op>, n: nat, now: nat, span: nat, slot: nat) returns (j: nat)
    requires n <= |ops| && Clocked(ops, span) && span <= now && PastBy(ops, n, now)
    requires slot < Run(ops, n, span).len && Run(ops, n, span).IsLive(slot, now, span)
    ensures Standing(ops, j, n, span) && SlotOf(ops, j, span) == slot && Run(ops, n, span).slots[slot].id == ops[j].id
  {
    hide Run, Stepped, Inserts, Ring.Find, Standing, SlotOf;
    if n == 0 {
      NothingHeld(ops, span);
      assert false;
    }
    var before, op := Run(ops, n - 1, span), ops[n - 1];
    RunOnce(ops, n - 1, span);
    RingHasShape(ops, n - 1, span);
    HandIsNext(ops, n - 1, span);
    InsertsIsFinding(ops, n - 1, span);
    if Inserts(ops, n - 1, span) && slot == before.next {
      j := n - 1;
      FreshSlot(before, op, span);
      JustInserted(ops, n - 1, span);
    } else {
      UsedBefore(before, op, span, slot);
      SlotStep(before, op, span, slot);
      var when := if op.Probe? && slot == FoundAt(before, op, span) then op.at else now;
      FoundIsLive(before, op, span);
      j := LiveSlotStands(ops, n - 1, when, span, slot);
      StillFewer(ops, j, n - 1, span, slot);
      StandsOn(ops, j, n - 1, span);
    }
  }

  function FoundAt(ring: Ring, op: Op, span: nat): nat
    requires ring.Valid() && op.Probe?
  {
    match ring.Find(0, op.id, op.at, span) case None => ring.next case Some(i) => i
  }

  lemma FoundIsLive(ring: Ring, op: Op, span: nat)
    requires ring.Valid()
    ensures op.Probe? && ring.Find(0, op.id, op.at, span).Some? ==>
              var i := FoundAt(ring, op, span); i < ring.len && ring.slots[i].id == op.id && ring.IsLive(i, op.at, span)
  {
  }

  lemma InsertsIsFinding(ops: seq<Op>, n: nat, span: nat)
    requires n < |ops|
    ensures Inserts(ops, n, span) <==> ops[n].Probe? && Run(ops, n, span).Find(0, ops[n].id, ops[n].at, span).None?
  {
  }

  lemma NothingHeld(ops: seq<Op>, span: nat)
    ensures Run(ops, 0, span).len == 0
  {
  }

  lemma HandIsNext(ops: seq<Op>, n: nat, span: nat)
    requires n <= |ops|
    ensures Run(ops, n, span).next == SlotOf(ops, n, span)
  {
    HandCounts(ops, n, span);
  }

  lemma UsedBefore(ring: Ring, op: Op, span: nat, slot: nat)
    requires ring.Valid() && LenShape(ring) && slot < Stepped(ring, op, span).len
    requires op.Probe? && ring.Find(0, op.id, op.at, span).None? ==> slot != ring.next
    ensures slot < ring.len
  {
    hide Ring.Find;
  }

  lemma StillFewer(ops: seq<Op>, j: nat, n: nat, span: nat, slot: nat)
    requires n < |ops| && Standing(ops, j, n, span) && SlotOf(ops, j, span) == slot
    requires Inserts(ops, n, span) ==> slot != SlotOf(ops, n, span)
    ensures j < n && Insertions(ops, j + 1, n + 1, span) < 16
  {
    hide Inserts;
    InsertionOnce(ops, j + 1, n, span);
    if Inserts(ops, n, span) {
      InsertionsAdd(ops, 0, j, n, span);
      InsertionsAdd(ops, j, j + 1, n, span);
      InsertionOnce(ops, j, j, span);
      SlotTurn(Insertions(ops, 0, j, span), Insertions(ops, j + 1, n, span));
    }
  }

  lemma SlotTurn(a: nat, since: nat)
    requires since < SIZE && (a + 1 + since) % SIZE != a % SIZE
    ensures since + 1 < 16
  {
  }

  // ---- every insertion that stands has its slot ----

  /** The slot of the latest insertion of an extension, while it stands, is dated by the latest probe of
      the extension. */
  lemma {:induction false} LatestIsDated(ops: seq<Op>, j: nat, n: nat, span: nat)
    requires n <= |ops| && Clocked(ops, span) && Standing(ops, j, n, span)
    requires forall i :: j < i < n && Inserts(ops, i, span) ==> ops[i].id != ops[j].id
    ensures LastProbe(ops, n, ops[j].id).Some?
    ensures var ring := Run(ops, n, span);
            SlotOf(ops, j, span) < ring.len && ring.slots[SlotOf(ops, j, span)] == Slot(ops[j].id, LastProbe(ops, n, ops[j].id).value)
  {
    hide Run, Stepped, Inserts, Ring.Find, Standing, SlotOf, LastProbe, Clocked;
    StandsInside(ops, j, n, span);
    var before, op := Run(ops, n - 1, span), ops[n - 1];
    RunOnce(ops, n - 1, span);
    RingHasShape(ops, n - 1, span);
    HandIsNext(ops, n - 1, span);
    InsertsIsFinding(ops, n - 1, span);
    LastProbeOnce(ops, n - 1, ops[j].id);
    if j == n - 1 {
      FreshSlot(before, op, span);
    } else {
      StandsOn(ops, j, n - 1, span);
      LatestIsDated(ops, j, n - 1, span);
      SlotStep(before, op, span, SlotOf(ops, j, span));
      if Inserts(ops, n - 1, span) {
        HandIsElsewhere(ops, j, n - 1, span);
        FewerThanSixteen(ops, j, n, span);
      } else if op.Probe? {
        FoundIsLive(before, op, span);
        if op.id == ops[j].id {
          OneLiveSlot(ops, n - 1, span, SlotOf(ops, j, span), FoundAt(before, op, span));
        }
      } else if op.Remove? {
        NotRemoved(ops, j, n, span);
      }
    }
  }

  lemma StandsInside(ops: seq<Op>, j: nat, n: nat, span: nat)
    requires n <= |ops| && Standing(ops, j, n, span)
    ensures j < n && Inserts(ops, j, span)
  {
  }

  lemma NotRemoved(ops: seq<Op>, j: nat, n: nat, span: nat)
    requires n <= |ops| && Standing(ops, j, n, span) && j < n - 1
    ensures ops[n - 1] != Remove(ops[j].id)
  {
  }

  lemma FewerThanSixteen(ops: seq<Op>, j: nat, n: nat, span: nat)
    requires n <= |ops| && Standing(ops, j, n, span)
    ensures Insertions(ops, j + 1, n, span) < 16
  {
  }

  lemma LastProbeOnce(ops: seq<Op>, n: nat, id: Hash)
    requires n < |ops|
    ensures LastProbe(ops, n + 1, id)
         == if ops[n].Quiet? || ops[n].id != id then LastProbe(ops, n, id) else if ops[n].Probe? then Some(ops[n].at) else None
  {
  }

  /** A probe finds the slot that is dated by the latest probe of its extension. */
  lemma OneLiveSlot(ops: seq<Op>, n: nat, span: nat, slot: nat, found: nat)
    requires n < |ops| && Clocked(ops, span) && ops[n].Probe?
    requires LastProbe(ops, n, ops[n].id).Some?
    requires var ring := Run(ops, n, span);
             && slot < ring.len && ring.slots[slot] == Slot(ops[n].id, LastProbe(ops, n, ops[n].id).value)
             && found < ring.len && ring.slots[found].id == ops[n].id && ring.IsLive(found, ops[n].at, span)
    ensures found == slot
  {
    hide Run, LastProbe;
    RingIsSound(ops, n, ops[n].at, span);
  }

  // ---- the count, exactly ----

  /** The extension is remembered: an insertion of it still stands. */
  predicate Remembered(ops: seq<Op>, n: nat, id: Hash, span: nat)
    requires n <= |ops|
  {
    exists j :: 0 <= j < n && Standing(ops, j, n, span) && ops[j].id == id
  }

  /** The extensions that count: probed inside the span, not accepted since, and remembered. */
  function Counted(ops: seq<Op>, n: nat, now: nat, span: nat): set<Hash>
    requires n <= |ops|
  {
    set id | id in Active(ops, n, now, span) && Remembered(ops, n, id, span)
  }

  /** Of the insertions that stand for an extension, the latest stands too. */
  lemma {:induction false} LatestInsertion(ops: seq<Op>, i: nat, n: nat, m: nat, span: nat) returns (j: nat)
    requires i < m <= n <= |ops| && Standing(ops, i, n, span)
    ensures i <= j < m && Standing(ops, j, n, span) && ops[j].id == ops[i].id
    ensures forall k :: j < k < m && Inserts(ops, k, span) ==> ops[k].id != ops[i].id
  {
    StandsInside(ops, i, n, span);
    if m - 1 == i {
      j := i;
    } else if Inserts(ops, m - 1, span) && ops[m - 1].id == ops[i].id {
      j := m - 1;
      InsertionsAdd(ops, i + 1, m, n, span);
    } else {
      j := LatestInsertion(ops, i, n, m - 1, span);
    }
  }

  lemma CountedHasASlot(ops: seq<Op>, n: nat, now: nat, span: nat, id: Hash) returns (slot: nat)
    requires n <= |ops| && Clocked(ops, span) && id in Counted(ops, n, now, span)
    ensures slot < Run(ops, n, span).len && Run(ops, n, span).IsLive(slot, now, span) && Run(ops, n, span).slots[slot].id == id
  {
    hide Run, SlotOf, LastProbe, Clocked, Ring.Find;
    var i :| 0 <= i < n && Standing(ops, i, n, span) && ops[i].id == id;
    var j := LatestInsertion(ops, i, n, n, span);
    LatestIsDated(ops, j, n, span);
    slot := SlotOf(ops, j, span);
  }

  /** The ring counts exactly the extensions probed inside the span and not accepted since that it
      still remembers: no more and no fewer. */
  lemma CountIsExact(ops: seq<Op>, n: nat, now: nat, span: nat)
    requires n <= |ops| && Clocked(ops, span) && span <= now && PastBy(ops, n, now)
    ensures |Run(ops, n, span).Live(now, span)| == |Counted(ops, n, now, span)|
  {
    hide Run, Counted, Clocked, Ring.Live;
    NoMoreThanCounted(ops, n, now, span);
    NoFewerThanCounted(ops, n, now, span);
  }

  lemma NoMoreThanCounted(ops: seq<Op>, n: nat, now: nat, span: nat)
    requires n <= |ops| && Clocked(ops, span) && span <= now && PastBy(ops, n, now)
    ensures |Run(ops, n, span).Live(now, span)| <= |Counted(ops, n, now, span)|
  {
    hide Run, Counted, Sound, Clocked;
    var ring := Run(ops, n, span);
    RingIsSound(ops, n, now, span);
    NamesDiffer(ops, n, now, span);
    var name := map slot | slot in ring.Live(now, span) :: ring.slots[slot].id;
    forall slot | slot in ring.Live(now, span) ensures name[slot] in Counted(ops, n, now, span) {
      LiveIsCounted(ops, n, now, span, slot);
    }
    InjectionSize(ring.Live(now, span), Counted(ops, n, now, span), name);
  }

  lemma NoFewerThanCounted(ops: seq<Op>, n: nat, now: nat, span: nat)
    requires n <= |ops| && Clocked(ops, span) && span <= now && PastBy(ops, n, now)
    ensures |Run(ops, n, span).Live(now, span)| >= |Counted(ops, n, now, span)|
  {
    hide Run, Counted, Clocked, HasPlace;
    var ring, counted := Run(ops, n, span), Counted(ops, n, now, span);
    forall id | id in counted ensures HasPlace(ring, now, span, id) {
      var slot := CountedHasASlot(ops, n, now, span, id);
      PlaceFound(ring, now, span, id, slot);
    }
    var place := map id: nat | id in counted :: PlaceOf(ring, now, span, id);
    InjectionSize(counted, ring.Live(now, span), place);
  }

  lemma PlaceFound(ring: Ring, now: nat, span: nat, id: nat, slot: nat)
    requires ring.Valid() && slot < ring.len && ring.IsLive(slot, now, span) && ring.slots[slot].id == id
    ensures HasPlace(ring, now, span, id)
  {
    assert slot in ring.Live(now, span);
  }

  lemma LiveIsCounted(ops: seq<Op>, n: nat, now: nat, span: nat, slot: nat)
    requires n <= |ops| && Clocked(ops, span) && span <= now && PastBy(ops, n, now)
    requires slot < Run(ops, n, span).len && Run(ops, n, span).IsLive(slot, now, span)
    ensures Run(ops, n, span).slots[slot].id in Counted(ops, n, now, span)
  {
    hide Run, Standing, LastProbe, Clocked, Ring.Find;
    RingIsSound(ops, n, now, span);
    var id := Run(ops, n, span).slots[slot].id;
    var j := LiveSlotStands(ops, n, now, span, slot);
    var i := ActiveWasProbed(ops, n, id);
    assert ops[i].Probe? && ops[i].id == id;
    StandsInside(ops, j, n, span);
  }

  lemma NamesDiffer(ops: seq<Op>, n: nat, now: nat, span: nat)
    requires n <= |ops| && Sound(Run(ops, n, span), ops, n, now, span)
    ensures var ring := Run(ops, n, span);
            forall x, y :: x in ring.Live(now, span) && y in ring.Live(now, span) && ring.slots[x].id == ring.slots[y].id ==> x == y
  {
    hide Run, LastProbe;
  }

  ghost predicate HasPlace(ring: Ring, now: nat, span: nat, id: nat)
    requires ring.Valid()
  {
    exists slot :: slot in ring.Live(now, span) && ring.slots[slot].id == id
  }

  ghost function PlaceOf(ring: Ring, now: nat, span: nat, id: nat): (slot: nat)
    requires ring.Valid() && HasPlace(ring, now, span, id)
    ensures slot in ring.Live(now, span) && ring.slots[slot].id == id
  {
    var slot :| slot in ring.Live(now, span) && ring.slots[slot].id == id;
    slot
  }

  /** A probe takes a slot exactly when its extension does not count just then. */
  lemma InsertsWhatDoesNotCount(ops: seq<Op>, n: nat, span: nat)
    requires n < |ops| && Clocked(ops, span) && ops[n].Probe?
    ensures Inserts(ops, n, span) <==> ops[n].id !in Counted(ops, n, ops[n].at, span)
  {
    hide Run, Standing, Inserts, LastProbe, Ring.Find;
    InsertsIsFinding(ops, n, span);
    var ring := Run(ops, n, span);
    if ops[n].id in Counted(ops, n, ops[n].at, span) {
      var slot := CountedHasASlot(ops, n, ops[n].at, span, ops[n].id);
    } else if ring.Find(0, ops[n].id, ops[n].at, span).Some? {
      FoundIsLive(ring, ops[n], span);
      var slot := FoundAt(ring, ops[n], span);
      RingIsSound(ops, n, ops[n].at, span);
      var j := LiveSlotStands(ops, n, ops[n].at, span, slot);
      var i := ActiveWasProbed(ops, n, ops[n].id);
      StandsInside(ops, j, n, span);
      assert false;
    }
  }
}
