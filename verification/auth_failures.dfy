/** Rejected credentials of one source, tracked per account in five shared slots. */
module AuthFailures {
  import opened Numerics
  import opened Counting

  const SIZE: nat := 5
  const WINDOW_SECS: nat := 600

  /** The mark of an emptied slot. */
  const NOBODY: Hash := TWO_TO_THE_64 - 1

  datatype Entry = Entry(aor: Hash, at: nat)

  datatype Ring = Ring(entries: seq<Entry>, len: nat, next: nat) {
    predicate Valid() {
      |entries| == SIZE && len <= SIZE && next < SIZE
    }

    function Recorded(aor: Hash, now: nat): (r: Ring)
      requires Valid()
      ensures r.Valid()
    {
      Ring(entries[next := Entry(aor, now)], if len < SIZE then len + 1 else len, (next + 1) % SIZE)
    }

    /** Forgets the failures of one accepted account. */
    function Forgiven(aor: Hash): (r: Ring)
      requires Valid()
      ensures r.Valid()
    {
      this.(entries := seq(SIZE, i requires 0 <= i < SIZE =>
        if i < len && entries[i].aor == aor then Entry(NOBODY, 0) else entries[i]))
    }

    /** The slots holding a failure of `aor` inside the span. */
    function Live(aor: Hash, now: nat, span: nat): set<nat>
      requires Valid()
    {
      set i: nat | i < len && entries[i].aor == aor && SatSub(now, entries[i].at) < span
    }
  }

  /** Forgiving an account leaves none of its failures live and every other account's as they
      were; an emptied slot is dated zero, outside the span. */
  lemma ForgivenLive(ring: Ring, accepted: Hash, other: Hash, now: nat, span: nat)
    requires ring.Valid() && span <= now
    ensures ring.Forgiven(accepted).Live(other, now, span) == if accepted == other then {} else ring.Live(other, now, span)
  {
  }

  function Empty(): (r: Ring)
    ensures r.Valid()
  {
    Ring(seq(SIZE, i => Entry(0, 0)), 0, 0)
  }

  /** What one packet means to the ring. */
  datatype Op = Reject(aor: Hash, at: nat) | Accept(aor: Hash) | Quiet

  function Stepped(ring: Ring, op: Op): (r: Ring)
    requires ring.Valid()
    ensures r.Valid()
  {
    match op
    case Reject(aor, at) => ring.Recorded(aor, at)
    case Accept(aor) => ring.Forgiven(aor)
    case Quiet => ring
  }

  function Run(ops: seq<Op>, n: nat): (r: Ring)
    requires n <= |ops|
    ensures r.Valid()
  {
    if n == 0 then Empty() else Stepped(Run(ops, n - 1), ops[n - 1])
  }

  /** Where the rejections stand among the first n operations. */
  function Rejections(ops: seq<Op>, n: nat): (where: seq<nat>)
    requires n <= |ops|
    ensures forall k :: 0 <= k < |where| ==> where[k] < n && ops[where[k]].Reject?
    ensures forall k, l :: 0 <= k < l < |where| ==> where[k] < where[l]
  {
    if n == 0 then []
    else Rejections(ops, n - 1) + (if ops[n - 1].Reject? then [n - 1] else [])
  }

  /** The k-th newest rejection among the first n operations. */
  function Newest(ops: seq<Op>, n: nat, k: nat): (i: nat)
    requires n <= |ops| && 0 < k <= |Rejections(ops, n)|
    ensures i < n && ops[i].Reject?
  {
    Rejections(ops, n)[|Rejections(ops, n)| - k]
  }

  /** Has the account rejected at position i been accepted since, before position n? */
  predicate Pardoned(ops: seq<Op>, i: nat, n: nat)
    requires i < n <= |ops| && ops[i].Reject?
  {
    exists j :: i < j < n && ops[j] == Accept(ops[i].aor)
  }

  function EntryOf(ops: seq<Op>, i: nat, n: nat): Entry
    requires i < n <= |ops| && ops[i].Reject?
  {
    if Pardoned(ops, i, n) then Entry(NOBODY, 0) else Entry(ops[i].aor, ops[i].at)
  }

  /** The ring holds the five newest rejections, each emptied once its account was accepted. */
  predicate Tracks(ring: Ring, ops: seq<Op>, n: nat)
    requires n <= |ops|
  {
    && ring.Valid()
    && ring.len == (if |Rejections(ops, n)| < SIZE then |Rejections(ops, n)| else SIZE)
    && (ring.len < SIZE ==> ring.next == ring.len)
    && forall k :: 0 < k <= ring.len ==> ring.entries[Back(ring.next, k, SIZE)] == EntryOf(ops, Newest(ops, n, k), n)
  }

  lemma EntryAfterStep(ops: seq<Op>, i: nat, n: nat)
    requires i < n < |ops| && ops[i].Reject?
    ensures EntryOf(ops, i, n + 1)
         == (if ops[n].Accept? && EntryOf(ops, i, n).aor == ops[n].aor then Entry(NOBODY, 0) else EntryOf(ops, i, n))
  {
    if Pardoned(ops, i, n) {
      var j :| i < j < n && ops[j] == Accept(ops[i].aor);
      assert Pardoned(ops, i, n + 1);
    } else if ops[n] == Accept(ops[i].aor) {
      assert Pardoned(ops, i, n + 1);
    }
  }

  lemma NewestAfterStep(ops: seq<Op>, n: nat, k: nat)
    requires n < |ops| && 0 < k <= |Rejections(ops, n + 1)|
    ensures |Rejections(ops, n + 1)| == |Rejections(ops, n)| + (if ops[n].Reject? then 1 else 0)
    ensures Newest(ops, n + 1, k)
         == (if !ops[n].Reject? then Newest(ops, n, k) else if k == 1 then n else Newest(ops, n, k - 1))
  {
    if !ops[n].Reject? {
      assert Rejections(ops, n + 1) == Rejections(ops, n);
    }
  }

  lemma RejectionsGrow(ops: seq<Op>, n: nat)
    requires n < |ops|
    ensures |Rejections(ops, n + 1)| == |Rejections(ops, n)| + (if ops[n].Reject? then 1 else 0)
  {
  }

  lemma RejectTracks(ring: Ring, ops: seq<Op>, n: nat)
    requires n < |ops| && Tracks(ring, ops, n) && ops[n].Reject?
    ensures Tracks(ring.Recorded(ops[n].aor, ops[n].at), ops, n + 1)
  {
    hide Rejections, Newest, EntryOf;
    var r := ring.Recorded(ops[n].aor, ops[n].at);
    RejectionsGrow(ops, n);
    forall k {:trigger Newest(ops, n + 1, k)} | 0 < k <= r.len
      ensures r.entries[Back(r.next, k, SIZE)] == EntryOf(ops, Newest(ops, n + 1, k), n + 1)
    {
      NewestAfterStep(ops, n, k);
      if k > 1 {
        assert Back(r.next, k, SIZE) == Back(ring.next, k - 1, SIZE);
        EntryAfterStep(ops, Newest(ops, n, k - 1), n);
      } else {
        FreshEntry(ops, n);
      }
    }
  }

  lemma FreshEntry(ops: seq<Op>, n: nat)
    requires n < |ops| && ops[n].Reject?
    ensures EntryOf(ops, n, n + 1) == Entry(ops[n].aor, ops[n].at)
  {
  }

  lemma OtherTracks(ring: Ring, ops: seq<Op>, n: nat)
    requires n < |ops| && Tracks(ring, ops, n) && !ops[n].Reject?
    ensures Tracks(Stepped(ring, ops[n]), ops, n + 1)
  {
    hide Rejections, Newest, EntryOf;
    var r := Stepped(ring, ops[n]);
    RejectionsGrow(ops, n);
    forall k {:trigger Newest(ops, n + 1, k)} | 0 < k <= r.len
      ensures r.entries[Back(r.next, k, SIZE)] == EntryOf(ops, Newest(ops, n + 1, k), n + 1)
    {
      NewestAfterStep(ops, n, k);
      EntryAfterStep(ops, Newest(ops, n, k), n);
      assert Back(r.next, k, SIZE) < ring.len;
    }
  }

  lemma NothingTracked(ops: seq<Op>)
    ensures Tracks(Run(ops, 0), ops, 0)
  {
    assert Rejections(ops, 0) == [];
  }

  lemma RunOnce(ops: seq<Op>, n: nat)
    requires n < |ops|
    ensures Run(ops, n + 1) == Stepped(Run(ops, n), ops[n])
  {
    hide Stepped;
  }

  lemma {:induction false} RingTracksHistory(ops: seq<Op>, n: nat)
    requires n <= |ops|
    ensures Tracks(Run(ops, n), ops, n)
  {
    hide Tracks, Run, Ring.Recorded, Ring.Forgiven;
    if n == 0 {
      NothingTracked(ops);
    } else {
      RingTracksHistory(ops, n - 1);
      RunOnce(ops, n - 1);
      if ops[n - 1].Reject? {
        RejectTracks(Run(ops, n - 1), ops, n - 1);
      } else {
        OtherTracks(Run(ops, n - 1), ops, n - 1);
      }
    }
  }

  /** The five newest rejections among the first n operations are all of one account, all
      inside the span at instant `now`, and the account was not accepted since the first. */
  predicate FiveInARow(ops: seq<Op>, n: nat, aor: Hash, now: nat, span: nat)
    requires n <= |ops|
  {
    && |Rejections(ops, n)| >= SIZE
    && (forall k :: 0 < k <= SIZE ==>
          var i := Newest(ops, n, k);
          ops[i].aor == aor && SatSub(now, ops[i].at) < span)
    && (forall j :: Newest(ops, n, SIZE) < j < n ==> ops[j] != Accept(aor))
  }

  lemma NewestDescends(ops: seq<Op>, n: nat, k: nat)
    requires n <= |ops| && 0 < k <= SIZE <= |Rejections(ops, n)|
    ensures Newest(ops, n, SIZE) <= Newest(ops, n, k)
  {
  }

  lemma SlotsAreFive(ring: Ring, aor: Hash, now: nat, span: nat)
    requires ring.Valid()
    ensures |ring.Live(aor, now, span)| >= SIZE <==> forall i :: 0 <= i < SIZE ==> i in ring.Live(aor, now, span)
  {
    var live, all := ring.Live(aor, now, span), Interval(0, SIZE);
    if all <= live {
      SubsetSize(all, live);
    } else {
      var i :| i in all && i !in live;
      SubsetSize(live, all - {i});
    }
  }

  lemma SlotIsLive(ops: seq<Op>, n: nat, aor: Hash, now: nat, span: nat, k: nat)
    requires n <= |ops| && span <= now && |Rejections(ops, n)| >= SIZE && 0 < k <= SIZE
    ensures var i := Newest(ops, n, k);
            Back(Run(ops, n).next, k, SIZE) in Run(ops, n).Live(aor, now, span)
            <==> ops[i].aor == aor && SatSub(now, ops[i].at) < span && !Pardoned(ops, i, n)
  {
    RingTracksHistory(ops, n);
  }

  /** The ring reaches its threshold exactly when the last five rejections, of any account,
      all concern this account inside the span with no acceptance in between. */
  lemma ThresholdIsFiveInARow(ops: seq<Op>, n: nat, aor: Hash, now: nat, span: nat)
    requires n <= |ops| && span <= now
    ensures |Run(ops, n).Live(aor, now, span)| >= SIZE <==> FiveInARow(ops, n, aor, now, span)
  {
    RingTracksHistory(ops, n);
    var ring := Run(ops, n);
    SlotsAreFive(ring, aor, now, span);
    if |Rejections(ops, n)| >= SIZE {
      if FiveInARow(ops, n, aor, now, span) {
        forall i | 0 <= i < SIZE ensures i in ring.Live(aor, now, span) {
          var k := Age(ring.next, i, SIZE);
          NewestDescends(ops, n, k);
          SlotIsLive(ops, n, aor, now, span, k);
          assert Back(ring.next, k, SIZE) == i;
        }
      } else if forall i :: 0 <= i < SIZE ==> i in ring.Live(aor, now, span) {
        forall k {:trigger Newest(ops, n, k)} | 0 < k <= SIZE
          ensures var i := Newest(ops, n, k);
                  ops[i].aor == aor && SatSub(now, ops[i].at) < span && !Pardoned(ops, i, n)
        {
          SlotIsLive(ops, n, aor, now, span, k);
        }
        assert !Pardoned(ops, Newest(ops, n, SIZE), n);
        assert FiveInARow(ops, n, aor, now, span);
      }
    } else {
      assert SIZE - 1 !in ring.Live(aor, now, span);
    }
  }

  lemma {:induction false} AllRejections(ops: seq<Op>, n: nat)
    requires n <= |ops| && forall i :: 0 <= i < n ==> ops[i].Reject?
    ensures |Rejections(ops, n)| == n && forall i :: 0 <= i < n ==> Rejections(ops, n)[i] == i
  {
    if n > 0 {
      AllRejections(ops, n - 1);
    }
  }

  /** Five rejections of one account inside the span, with no acceptance, that do not reach the
      threshold: a second account was rejected in between. */
  lemma FiveRejectionsCanPassUnseen(aor: Hash, other: Hash, now: nat) returns (ops: seq<Op>)
    requires aor != other && now >= WINDOW_SECS
    ensures |ops| == 6 && forall i :: 0 <= i < 6 ==> ops[i] == Reject(if i == 2 then other else aor, now)
    ensures |Run(ops, 6).Live(aor, now, WINDOW_SECS)| < SIZE
  {
    hide Run, Rejections;
    ops := [Reject(aor, now), Reject(aor, now), Reject(other, now), Reject(aor, now), Reject(aor, now), Reject(aor, now)];
    AllRejections(ops, 6);
    ThresholdIsFiveInARow(ops, 6, aor, now, WINDOW_SECS);
    assert ops[Newest(ops, 6, 4)] == ops[2];
  }

  /** The five rejections as a list, oldest first; the newest is the last operation when that
      was a rejection. */
  lemma FiveListed(ops: seq<Op>, n: nat, aor: Hash, now: nat, span: nat) returns (where: seq<nat>)
    requires n <= |ops| && FiveInARow(ops, n, aor, now, span)
    ensures |where| == SIZE
    ensures forall k :: 0 <= k < SIZE ==>
              where[k] < n && ops[where[k]].Reject? && ops[where[k]].aor == aor && SatSub(now, ops[where[k]].at) < span
    ensures forall k, l :: 0 <= k < l < SIZE ==> where[k] < where[l]
    ensures forall j :: where[0] < j < n ==> ops[j] != Accept(aor)
    ensures n > 0 && ops[n - 1].Reject? ==> where[SIZE - 1] == n - 1
  {
    var all := Rejections(ops, n);
    where := all[|all| - SIZE..];
    forall k | 0 <= k < SIZE ensures where[k] == Newest(ops, n, SIZE - k) {}
  }

  /** The ring as the source keeps it. */
  class FailureRing {
    const entries: array<Entry>
    var len: nat
    var next: nat

    ghost function Value(): Ring
      reads this, entries
    {
      Ring(entries[..], len, next)
    }

    ghost predicate Valid()
      reads this, entries
    {
      Value().Valid()
    }

    constructor ()
      ensures Valid() && Value() == Empty() && fresh(entries)
    {
      entries := new Entry[SIZE](_ => Entry(0, 0));
      len, next := 0, 0;
      new;
      assert entries[..] == Empty().entries;
    }

    /** Records a rejection; reports how many of that account fall inside the span. */
    method Record(aor: Hash, now: nat, span: nat) returns (count: nat, reached: bool)
      requires Valid()
      modifies this, entries
      ensures Valid() && Value() == old(Value()).Recorded(aor, now)
      ensures count == |Value().Live(aor, now, span)| && (reached <==> count >= SIZE)
    {
      ghost var before := entries[..];
      entries[next] := Entry(aor, now);
      assert entries[..] == before[next := Entry(aor, now)];
      next := (next + 1) % SIZE;
      if len < SIZE {
        len := len + 1;
      }
      count := CountWithin(aor, now, span);
      reached := count >= SIZE;
    }

    method CountWithin(aor: Hash, now: nat, span: nat) returns (count: nat)
      requires Valid()
      ensures count == |Value().Live(aor, now, span)|
    {
      count := 0;
      ghost var seen: set<nat> := {};
      for i := 0 to len
        invariant seen == set k: nat | k < i && entries[..][k].aor == aor && SatSub(now, entries[..][k].at) < span
        invariant count == |seen|
      {
        if entries[i].aor == aor && SatSub(now, entries[i].at) < span {
          count := count + 1;
          seen := seen + {i};
        }
      }
      assert seen == Value().Live(aor, now, span);
    }

    /** Empties the slots of one accepted account and no other. */
    method ClearAor(aor: Hash)
      requires Valid()
      modifies entries
      ensures Valid() && Value() == old(Value()).Forgiven(aor)
    {
      ghost var before := entries[..];
      for i := 0 to len
        invariant forall k :: 0 <= k < i ==> entries[k] == if before[k].aor == aor then Entry(NOBODY, 0) else before[k]
        invariant forall k :: i <= k < SIZE ==> entries[k] == before[k]
      {
        if entries[i].aor == aor {
          entries[i] := Entry(NOBODY, 0);
        }
      }
      assert entries[..] == old(Value()).Forgiven(aor).entries;
    }
  }
}
