/** The last sixteen B-numbers reported as new, kept to tell a redial from a new number. */
module NumberRing {
  import opened Numerics

  const SIZE: nat := 16

  /** Slot value zero is empty: a zero hash is nudged off it. */
  function Nudged(h: Hash): (n: nat)
    ensures n > 0
  {
    if h == 0 then 1 else h
  }

  datatype Ring = Ring(slots: seq<nat>, next: nat) {
    predicate Valid() {
      |slots| == SIZE && next < SIZE
    }

    predicate IsNew(h: Hash) {
      Nudged(h) !in slots
    }

    function Observed(h: Hash): (r: Ring)
      requires Valid()
      ensures r.Valid()
    {
      if IsNew(h) then Ring(slots[next := Nudged(h)], (next + 1) % SIZE) else this
    }
  }

  function Empty(): (r: Ring)
    ensures r.Valid()
  {
    Ring(seq(SIZE, i => 0), 0)
  }

  /** The ring after the first n events; `None` is an event that is no call. */
  function Run(numbers: seq<Option<Hash>>, n: nat): (r: Ring)
    requires n <= |numbers|
    ensures r.Valid()
  {
    if n == 0 then Empty()
    else if numbers[n - 1].None? then Run(numbers, n - 1)
    else Run(numbers, n - 1).Observed(numbers[n - 1].value)
  }

  predicate Reported(numbers: seq<Option<Hash>>, i: nat)
    requires i < |numbers|
  {
    numbers[i].Some? && Run(numbers, i).IsNew(numbers[i].value)
  }

  /** How many calls at positions lo to hi are reported as new numbers. */
  function Reports(numbers: seq<Option<Hash>>, lo: nat, hi: nat): nat
    requires lo <= hi <= |numbers|
  {
    if lo == hi then 0 else Reports(numbers, lo, hi - 1) + (if Reported(numbers, hi - 1) then 1 else 0)
  }

  lemma RunOnce(numbers: seq<Option<Hash>>, n: nat)
    requires n < |numbers|
    ensures var r := Run(numbers, n);
            Run(numbers, n + 1)
            == if Reported(numbers, n) then Ring(r.slots[r.next := Nudged(numbers[n].value)], (r.next + 1) % SIZE) else r
  {
    hide Nudged;
  }

  lemma NextSlot(a: nat)
    ensures (a % SIZE + 1) % SIZE == (a + 1) % SIZE
  {
  }

  lemma {:induction false} NextCountsReports(numbers: seq<Option<Hash>>, n: nat)
    requires n <= |numbers|
    ensures Run(numbers, n).next == Reports(numbers, 0, n) % SIZE
  {
    if n > 0 {
      hide Run, Reported;
      NextCountsReports(numbers, n - 1);
      RunOnce(numbers, n - 1);
      NextSlot(Reports(numbers, 0, n - 1));
    }
  }

  lemma {:induction false} ReportsAdd(numbers: seq<Option<Hash>>, lo: nat, mid: nat, hi: nat)
    requires lo <= mid <= hi <= |numbers|
    ensures Reports(numbers, lo, hi) == Reports(numbers, lo, mid) + Reports(numbers, mid, hi)
  {
    if mid < hi {
      ReportsAdd(numbers, lo, mid, hi - 1);
    }
  }

  lemma OtherSlot(a: nat, t: nat)
    requires 0 < t < SIZE
    ensures (a + t) % SIZE != a % SIZE
  {
  }

  lemma KeptUnlessOverwritten(ring: Ring, number: Option<Hash>, slot: nat)
    requires ring.Valid() && slot < SIZE && slot != ring.next
    ensures number.Some? ==> ring.Observed(number.value).slots[slot] == ring.slots[slot]
  {
  }

  /** A reported number stays in its slot until sixteen more numbers are reported. */
  lemma {:induction false} ReportedStays(numbers: seq<Option<Hash>>, i: nat, n: nat)
    requires i < n <= |numbers| && Reported(numbers, i) && Reports(numbers, i + 1, n) < SIZE
    ensures Run(numbers, n).slots[Reports(numbers, 0, i) % SIZE] == Nudged(numbers[i].value)
  {
    hide Nudged;
    NextCountsReports(numbers, n - 1);
    if n > i + 1 {
      ReportedStays(numbers, i, n - 1);
      if Reported(numbers, n - 1) {
        ReportsAdd(numbers, 0, i, n - 1);
        ReportsAdd(numbers, i, i + 1, n - 1);
        assert Reports(numbers, i, i + 1) == Reports(numbers, i, i) + 1;
        OtherSlot(Reports(numbers, 0, i), Reports(numbers, i + 1, n - 1) + 1);
        KeptUnlessOverwritten(Run(numbers, n - 1), numbers[n - 1], Reports(numbers, 0, i) % SIZE);
      }
    }
  }

  /** The ring is first-in first-out over reported numbers: one reported as new is not
      reported again until at least sixteen others were. */
  lemma SixteenReportsBetween(numbers: seq<Option<Hash>>, i: nat, j: nat)
    requires i < j < |numbers| && Reported(numbers, i) && Reported(numbers, j)
    requires numbers[i].value == numbers[j].value
    ensures Reports(numbers, i + 1, j) >= SIZE
  {
    if Reports(numbers, i + 1, j) < SIZE {
      ReportedStays(numbers, i, j);
    }
  }

  /** The same hash; but hash 0 reads as 1, zero being the mark of an empty slot. */
  predicate OneNumber(g: Hash, h: Hash) {
    g == h || (g <= 1 && h <= 1)
  }

  lemma NudgedTogether(g: Hash, h: Hash)
    ensures Nudged(g) == Nudged(h) <==> OneNumber(g, h)
  {
  }

  /** Number h is one of the last sixteen reported among the first n calls. */
  ghost predicate Recent(numbers: seq<Option<Hash>>, n: nat, h: Hash)
    requires n <= |numbers|
  {
    exists i :: 0 <= i < n && Reported(numbers, i) && OneNumber(numbers[i].value, h) && Reports(numbers, i + 1, n) < 16
  }

  /** The report a slot holds: fewer than sixteen came after it. */
  predicate Holds(numbers: seq<Option<Hash>>, n: nat, slot: nat, i: nat)
    requires n <= |numbers| && slot < SIZE
  {
    && i < n && Reported(numbers, i) && Reports(numbers, i + 1, n) < SIZE
    && Reports(numbers, 0, i) % SIZE == slot && Run(numbers, n).slots[slot] == Nudged(numbers[i].value)
  }

  lemma SlotTurn(a: nat, since: nat)
    requires since < SIZE && (a + 1 + since) % SIZE != a % SIZE
    ensures since + 1 < SIZE
  {
  }

  lemma HoldsOn(numbers: seq<Option<Hash>>, n: nat, slot: nat, i: nat)
    requires n < |numbers| && slot < SIZE && Holds(numbers, n, slot, i)
    requires Reported(numbers, n) ==> slot != Run(numbers, n).next
    ensures Holds(numbers, n + 1, slot, i)
  {
    hide Nudged, Run;
    RunOnce(numbers, n);
    NextCountsReports(numbers, n);
    ReportsAdd(numbers, 0, i, n);
    ReportsAdd(numbers, i, i + 1, n);
    assert Reports(numbers, i, i + 1) == Reports(numbers, i, i) + 1;
    if Reported(numbers, n) {
      SlotTurn(Reports(numbers, 0, i), Reports(numbers, i + 1, n));
    }
  }

  /** A slot in use holds one of the last sixteen reports. */
  lemma {:induction false} SlotIsAReport(numbers: seq<Option<Hash>>, n: nat, slot: nat) returns (i: nat)
    requires n <= |numbers| && slot < SIZE && Run(numbers, n).slots[slot] != 0
    ensures Holds(numbers, n, slot, i)
  {
    hide Nudged, Holds, Reported;
    if n == 0 {
      assert false;
    }
    hide Run;
    RunOnce(numbers, n - 1);
    NextCountsReports(numbers, n - 1);
    if Reported(numbers, n - 1) && slot == Run(numbers, n - 1).next {
      i := n - 1;
      NewestHolds(numbers, n, slot);
    } else {
      i := SlotIsAReport(numbers, n - 1, slot);
      HoldsOn(numbers, n - 1, slot, i);
    }
  }

  lemma NewestHolds(numbers: seq<Option<Hash>>, n: nat, slot: nat)
    requires 0 < n <= |numbers| && slot < SIZE && Reported(numbers, n - 1) && slot == Run(numbers, n - 1).next
    ensures Holds(numbers, n, slot, n - 1)
  {
    hide Nudged, Run;
    RunOnce(numbers, n - 1);
    NextCountsReports(numbers, n - 1);
  }

  /** A number is reported as new exactly when it is none of the last sixteen reported. */
  lemma NewIsNotRecent(numbers: seq<Option<Hash>>, n: nat, h: Hash)
    requires n <= |numbers|
    ensures Run(numbers, n).IsNew(h) <==> !Recent(numbers, n, h)
  {
    hide Nudged, Run;
    if i :| 0 <= i < n && Reported(numbers, i) && OneNumber(numbers[i].value, h) && Reports(numbers, i + 1, n) < 16 {
      ReportedStays(numbers, i, n);
      NudgedTogether(numbers[i].value, h);
    }
    if !Run(numbers, n).IsNew(h) {
      var slot :| 0 <= slot < SIZE && Run(numbers, n).slots[slot] == Nudged(h);
      var i := SlotIsAReport(numbers, n, slot);
      NudgedTogether(numbers[i].value, h);
    }
  }
}
