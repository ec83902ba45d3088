/** A sliding count of the last N events, sized exactly to the threshold it serves. */
module SlidingCounts {
  import opened Numerics
  import opened Counting

  /** N timestamps, how many are in use, and the slot written next. */
  datatype Ring = Ring(stamps: seq<nat>, len: nat, next: nat) {
    predicate Valid() {
      0 < |stamps| <= 255 && len <= |stamps| && next < |stamps|
    }

    function Recorded(now: nat): (r: Ring)
      requires Valid()
      ensures r.Valid() && |r.stamps| == |stamps|
    {
      Ring(stamps[next := now], if len < |stamps| then len + 1 else len, (next + 1) % |stamps|)
    }

    function Cleared(): Ring {
      this.(len := 0, next := 0)
    }

    /** The slots whose event is inside the span. */
    function Live(now: nat, span: nat): set<nat>
      requires Valid()
    {
      set i: nat | i < len && SatSub(now, stamps[i]) < span
    }
  }

  function Empty(size: nat): Ring {
    Ring(seq(size, i => 0), 0, 0)
  }

  datatype Event = Hit(at: nat) | Clear

  function Stepped(ring: Ring, e: Event): (r: Ring)
    requires ring.Valid()
    ensures r.Valid() && |r.stamps| == |ring.stamps|
  {
    match e
    case Hit(at) => ring.Recorded(at)
    case Clear => ring.Cleared()
  }

  /** A ring of `size` slots after the whole history. */
  function Run(size: nat, history: seq<Event>, n: nat): (r: Ring)
    requires 0 < size <= 255 && n <= |history|
    ensures r.Valid() && |r.stamps| == size
  {
    if n == 0 then Empty(size) else Stepped(Run(size, history, n - 1), history[n - 1])
  }

  /** The events recorded since the last clear, oldest first: the unbounded history the ring
      stands for. */
  function Hits(history: seq<Event>, n: nat): seq<nat>
    requires n <= |history|
  {
    if n == 0 then []
    else if history[n - 1].Clear? then []
    else Hits(history, n - 1) + [history[n - 1].at]
  }

  predicate InOrder(history: seq<Event>) {
    forall i, j :: 0 <= i < j < |history| && history[i].Hit? && history[j].Hit? ==> history[i].at <= history[j].at
  }

  /** The k-th newest of a list of events. */
  function Newest(hits: seq<nat>, k: nat): nat
    requires 0 < k <= |hits|
  {
    hits[|hits| - k]
  }

  /** The ring holds the newest events of its history, each in the slot its age gives it. */
  predicate Tracks(ring: Ring, hits: seq<nat>) {
    && ring.Valid()
    && ring.len == (if |hits| < |ring.stamps| then |hits| else |ring.stamps|)
    && (ring.len < |ring.stamps| ==> ring.next == ring.len)
    && forall k :: 0 < k <= ring.len ==> ring.stamps[Back(ring.next, k, |ring.stamps|)] == Newest(hits, k)
  }

  lemma RecordTracks(ring: Ring, hits: seq<nat>, now: nat)
    requires Tracks(ring, hits)
    ensures Tracks(ring.Recorded(now), hits + [now])
  {
    var n, r := |ring.stamps|, ring.Recorded(now);
    var longer := hits + [now];
    Advance(ring.next, n);
    forall k {:trigger Newest(longer, k)} | 0 < k <= r.len
      ensures r.stamps[Back(r.next, k, n)] == Newest(longer, k)
    {
      if k > 1 {
        assert Back(r.next, k, n) == Back(ring.next, k - 1, n);
        assert Newest(longer, k) == Newest(hits, k - 1);
      }
    }
  }

  lemma {:induction false} RingTracksHistory(size: nat, history: seq<Event>, n: nat)
    requires 0 < size <= 255 && n <= |history|
    ensures Tracks(Run(size, history, n), Hits(history, n))
  {
    if n > 0 {
      RingTracksHistory(size, history, n - 1);
      match history[n - 1]
      case Hit(at) => RecordTracks(Run(size, history, n - 1), Hits(history, n - 1), at);
      case Clear =>
    }
  }

  /** How many of the events fall inside the span. */
  function Inside(hits: seq<nat>, now: nat, span: nat): nat {
    if hits == [] then 0
    else Inside(hits[..|hits| - 1], now, span) + (if SatSub(now, hits[|hits| - 1]) < span then 1 else 0)
  }

  predicate Sorted(hits: seq<nat>) {
    forall i, j :: 0 <= i <= j < |hits| ==> hits[i] <= hits[j]
  }

  /** In time order, the events inside the span are exactly the newest ones. */
  lemma {:induction false} InsideIsASuffix(hits: seq<nat>, now: nat, span: nat)
    requires Sorted(hits)
    ensures Inside(hits, now, span) <= |hits|
    ensures forall k :: 0 < k <= |hits| ==> (SatSub(now, Newest(hits, k)) < span <==> k <= Inside(hits, now, span))
  {
    if hits != [] {
      var before := hits[..|hits| - 1];
      InsideIsASuffix(before, now, span);
      if SatSub(now, hits[|hits| - 1]) >= span && before != [] {
        assert SatSub(now, Newest(before, 1)) >= span;
      }
      forall k {:trigger Newest(hits, k)} | 0 < k <= |hits|
        ensures SatSub(now, Newest(hits, k)) < span <==> k <= Inside(hits, now, span)
      {
        if k > 1 {
          assert Newest(hits, k) == Newest(before, k - 1);
        }
      }
    }
  }

  lemma SlotIsLive(ring: Ring, hits: seq<nat>, now: nat, span: nat, k: nat)
    requires Tracks(ring, hits) && Sorted(hits) && 0 < k <= ring.len
    ensures Back(ring.next, k, |ring.stamps|) in ring.Live(now, span) <==> k <= Inside(hits, now, span)
  {
    InsideIsASuffix(hits, now, span);
    assert ring.stamps[Back(ring.next, k, |ring.stamps|)] == Newest(hits, k);
  }

  lemma AgeIsInside(ring: Ring, hits: seq<nat>, now: nat, span: nat, i: nat)
    requires Tracks(ring, hits) && Sorted(hits) && i in ring.Live(now, span)
    ensures 0 < Age(ring.next, i, |ring.stamps|) <= Inside(hits, now, span)
  {
    SlotIsLive(ring, hits, now, span, Age(ring.next, i, |ring.stamps|));
  }

  lemma LiveIsAtLeast(ring: Ring, hits: seq<nat>, now: nat, span: nat, m: nat)
    requires Tracks(ring, hits) && Sorted(hits)
    requires m <= Inside(hits, now, span) && m <= ring.len
    ensures |ring.Live(now, span)| >= m
  {
    hide Tracks, Inside, Ring.Live, Sorted, Back;
    InsideIsBounded(ring, hits, now, span);
    var ages := Interval(1, m + 1);
    var slot := map k | k in ages :: Back(ring.next, k, |ring.stamps|);
    forall k | k in ages ensures slot[k] in ring.Live(now, span) {
      SlotIsLive(ring, hits, now, span, k);
    }
    forall k, l | k in ages && l in ages && slot[k] == slot[l] ensures k == l {
      BackIsInjective(ring.next, k, l, |ring.stamps|);
    }
    InjectionSize(ages, ring.Live(now, span), slot);
  }

  lemma LiveIsAtMost(ring: Ring, hits: seq<nat>, now: nat, span: nat)
    requires Tracks(ring, hits) && Sorted(hits)
    ensures |ring.Live(now, span)| <= Inside(hits, now, span) && |ring.Live(now, span)| <= |ring.stamps|
  {
    hide Tracks, Inside, Ring.Live, Sorted;
    InsideIsBounded(ring, hits, now, span);
    var live := ring.Live(now, span);
    var age := map i | i in live :: Age(ring.next, i, |ring.stamps|);
    forall i | i in live ensures age[i] in Interval(1, Inside(hits, now, span) + 1) {
      AgeIsInside(ring, hits, now, span, i);
    }
    InjectionSize(live, Interval(1, Inside(hits, now, span) + 1), age);
    InjectionSize(live, Interval(0, |ring.stamps|), map i | i in live :: i);
  }

  /** The live slots of a tracking ring are as many as the history has events inside the
      span, up to the ring's size. */
  lemma LiveCountsHistory(ring: Ring, hits: seq<nat>, now: nat, span: nat)
    requires Tracks(ring, hits) && Sorted(hits)
    ensures |ring.Live(now, span)|
         == (if Inside(hits, now, span) < |ring.stamps| then Inside(hits, now, span) else |ring.stamps|)
  {
    hide Tracks, Inside, Ring.Live, Sorted;
    InsideIsBounded(ring, hits, now, span);
    LiveIsAtMost(ring, hits, now, span);
    LiveIsAtLeast(ring, hits, now, span,
                  if Inside(hits, now, span) < |ring.stamps| then Inside(hits, now, span) else |ring.stamps|);
  }

  lemma InsideIsBounded(ring: Ring, hits: seq<nat>, now: nat, span: nat)
    requires Tracks(ring, hits) && Sorted(hits)
    ensures ring.Valid() && Inside(hits, now, span) <= |hits|
    ensures ring.len == (if |hits| < |ring.stamps| then |hits| else |ring.stamps|)
    ensures forall i :: i in ring.Live(now, span) ==> i < |ring.stamps|
  {
    InsideIsASuffix(hits, now, span);
  }

  lemma {:induction false} HitsAreSorted(history: seq<Event>, n: nat)
    requires n <= |history| && InOrder(history)
    ensures Sorted(Hits(history, n))
    ensures forall x :: x in Hits(history, n) ==> exists i :: 0 <= i < n && history[i] == Hit(x)
  {
    if n > 0 {
      HitsAreSorted(history, n - 1);
      if history[n - 1].Hit? {
        assert history[n - 1] == Hit(history[n - 1].at);
        var before := Hits(history, n - 1);
        forall i | 0 <= i < |before| ensures before[i] <= history[n - 1].at {
          assert before[i] in before;
          var j :| 0 <= j < n - 1 && history[j] == Hit(before[i]);
        }
      }
    }
  }

  /** N slots answer for the whole history: recording an event returns the number of events
      since the last clear that fall inside the span, up to N, and signals the threshold
      exactly when that history holds at least N of them. */
  lemma RecordRefinesHistory(size: nat, history: seq<Event>, n: nat, span: nat)
    requires 0 < size <= 255 && n < |history| && InOrder(history) && history[n].Hit?
    ensures var hits := Hits(history, n + 1);
            var count := |Run(size, history, n + 1).Live(history[n].at, span)|;
            && count == (if Inside(hits, history[n].at, span) < size then Inside(hits, history[n].at, span) else size)
            && (count >= size <==> Inside(hits, history[n].at, span) >= size)
  {
    RingTracksHistory(size, history, n + 1);
    HitsAreSorted(history, n + 1);
    LiveCountsHistory(Run(size, history, n + 1), Hits(history, n + 1), history[n].at, span);
  }

  /** The ring as the source keeps it. */
  class SlidingCount {
    const stamps: array<nat>
    var len: nat
    var next: nat

    ghost function Value(): Ring
      reads this, stamps
    {
      Ring(stamps[..], len, next)
    }

    ghost predicate Valid()
      reads this, stamps
    {
      Value().Valid()
    }

    constructor (size: nat)
      requires 0 < size <= 255
      ensures Valid() && Value() == Empty(size) && fresh(stamps)
    {
      stamps := new nat[size](_ => 0);
      len, next := 0, 0;
      new;
      assert stamps[..] == Empty(size).stamps;
    }

    /** Records an event; reports how many fall inside the span and whether that is all N. */
    method Record(now: nat, span: nat) returns (count: nat, reached: bool)
      requires Valid()
      modifies this, stamps
      ensures Valid() && Value() == old(Value()).Recorded(now)
      ensures count == |Value().Live(now, span)| && (reached <==> count >= stamps.Length)
    {
      ghost var before := stamps[..];
      stamps[next] := now;
      assert stamps[..] == before[next := now];
      next := (next + 1) % stamps.Length;
      if len < stamps.Length {
        len := len + 1;
      }
      count := CountWithin(now, span);
      reached := count >= stamps.Length;
    }

    method CountWithin(now: nat, span: nat) returns (count: nat)
      requires Valid()
      ensures count == |Value().Live(now, span)|
    {
      count := 0;
      ghost var seen: set<nat> := {};
      for i := 0 to len
        invariant seen == set k: nat | k < i && SatSub(now, stamps[..][k]) < span
        invariant count == |seen|
      {
        if SatSub(now, stamps[i]) < span {
          count := count + 1;
          seen := seen + {i};
        }
      }
      assert seen == Value().Live(now, span);
    }

    method Clear()
      modifies `len, `next
      ensures Value() == old(Value()).Cleared()
    {
      len, next := 0, 0;
    }
  }
}
