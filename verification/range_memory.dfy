/** The destination-range arm's memory: two Bloom filters rotated lazily, so that a range is
    remembered for at least one window, and a count of first contacts in the current one. */
module RangeMemory {
  import opened Numerics
  import opened Bitmaps
  import opened Windows

  const WINDOW_SECS: nat := 900

  /** One call: the hash of its destination range (None for a number too short to have
      one), and when it was placed. */
  datatype Dial = Dial(range: Option<Hash>, at: nat)

  datatype Memory = Memory(current: set<nat>, previous: set<nat>, window: nat, novel: nat) {
    /** Rotation happens on a call, never on a timer: one window of memory is kept, and a
        silence of two windows drops both. */
    function Rotated(now: nat): Memory {
      if window == 0 then this.(window := now)
      else
        var elapsed := SatSub(now, window);
        if elapsed < WINDOW_SECS then this
        else if elapsed >= 2 * WINDOW_SECS then Memory({}, {}, now, 0)
        else Memory({}, current, now, 0)
    }

    predicate Knows(h: Hash) {
      Positions(h) <= current || Positions(h) <= previous
    }

    /** Would this call be reported as a first contact? */
    predicate IsFirst(d: Dial) {
      d.range.Some? && !Rotated(d.at).Knows(d.range.value)
    }

    function Observed(d: Dial): Memory {
      var m := Rotated(d.at);
      if IsFirst(d) then
        m.(current := m.current + Positions(d.range.value), novel := SatInc(m.novel))
      else m
    }
  }

  const EMPTY := Memory({}, {}, 0, 0)

  /** The memory after the first n events; an event that is no call leaves it alone. */
  function Remembered(dials: seq<Option<Dial>>, n: nat): Memory
    requires n <= |dials|
  {
    if n == 0 then EMPTY
    else
      var m := Remembered(dials, n - 1);
      match dials[n - 1]
      case None => m
      case Some(d) => m.Observed(d)
  }

  /** Calls come in time order and never at instant zero, which marks an unset window. */
  predicate Clocked(dials: seq<Option<Dial>>) {
    && (forall i :: 0 <= i < |dials| && dials[i].Some? ==> dials[i].value.at > 0)
    && (forall i, j :: 0 <= i < j < |dials| && dials[i].Some? && dials[j].Some? ==> dials[i].value.at <= dials[j].value.at)
  }

  /** Call i is reported as the first contact with its range. */
  predicate Reported(dials: seq<Option<Dial>>, i: nat)
    requires i < |dials|
  {
    dials[i].Some? && Remembered(dials, i).IsFirst(dials[i].value)
  }

  /** Where a reported range can be found after n events: in the current filter, in the
      previous one, or nowhere - and then the window has moved a full 900 s past it. */
  predicate Retained(dials: seq<Option<Dial>>, i: nat, m: Memory)
    requires i < |dials| && Reported(dials, i)
  {
    var h, at := dials[i].value.range.value, dials[i].value.at;
    || (Positions(h) <= m.current && m.window <= at < m.window + WINDOW_SECS)
    || (Positions(h) <= m.previous && at <= m.window)
    || at + WINDOW_SECS <= m.window
  }

  lemma RotationRetains(dials: seq<Option<Dial>>, i: nat, m: Memory, now: nat)
    requires i < |dials| && Reported(dials, i) && Retained(dials, i, m)
    requires m.window > 0 && dials[i].value.at <= now
    ensures Retained(dials, i, m.Rotated(now))
  {
  }

  lemma {:induction false} WindowIsSet(dials: seq<Option<Dial>>, n: nat)
    requires n <= |dials| && Clocked(dials)
    ensures (exists i :: 0 <= i < n && dials[i].Some?) ==> Remembered(dials, n).window > 0
    ensures forall i :: n <= i < |dials| && dials[i].Some? ==> Remembered(dials, n).window <= dials[i].value.at
    ensures Remembered(dials, n).window == 0 ==> Remembered(dials, n) == EMPTY
  {
    if n > 0 {
      WindowIsSet(dials, n - 1);
    }
  }

  lemma {:induction false} ReportsAreRetained(dials: seq<Option<Dial>>, n: nat, i: nat)
    requires i < n <= |dials| && Clocked(dials) && Reported(dials, i)
    ensures Retained(dials, i, Remembered(dials, n))
  {
    hide Positions;
    WindowIsSet(dials, n - 1);
    var m := Remembered(dials, n - 1);
    if n == i + 1 {
      var r := m.Rotated(dials[i].value.at);
      assert r.window <= dials[i].value.at < r.window + WINDOW_SECS;
    } else {
      ReportsAreRetained(dials, n - 1, i);
      if dials[n - 1].Some? {
        RotationRetains(dials, i, m, dials[n - 1].value.at);
      }
    }
  }

  /** A range reported as a first contact is never reported again inside the next 900
      seconds, whatever calls and rotations come in between. */
  lemma ReportedRangeIsRemembered(dials: seq<Option<Dial>>, i: nat, j: nat)
    requires i < j < |dials| && Clocked(dials)
    requires Reported(dials, i) && Reported(dials, j)
    requires dials[i].value.range == dials[j].value.range
    ensures dials[i].value.at + WINDOW_SECS <= dials[j].value.at
  {
    hide Positions;
    ReportsAreRetained(dials, j, i);
    WindowIsSet(dials, j);
    RotationRetains(dials, i, Remembered(dials, j), dials[j].value.at);
  }

  /** `where` lists calls in order, each with its own range, all inside the window that
      began at `start`. */
  predicate DistinctRanges(dials: seq<Option<Dial>>, where: seq<nat>, start: nat) {
    && (forall k :: 0 <= k < |where| ==>
          && where[k] < |dials| && Reported(dials, where[k])
          && start <= dials[where[k]].value.at < start + WINDOW_SECS)
    && (forall k, l :: 0 <= k < l < |where| ==>
          && where[k] < where[l]
          && dials[where[k]].value.range != dials[where[l]].value.range)
  }

  lemma OneMoreRange(dials: seq<Option<Dial>>, where: seq<nat>, start: nat, n: nat)
    requires n < |dials| && DistinctRanges(dials, where, start) && Reported(dials, n)
    requires start <= dials[n].value.at < start + WINDOW_SECS
    requires forall k :: 0 <= k < |where| ==> where[k] < n && dials[where[k]].value.range != dials[n].value.range
    ensures DistinctRanges(dials, where + [n], start)
  {
    hide Remembered, Memory.IsFirst;
  }

  lemma NoRangeYet(dials: seq<Option<Dial>>, start: nat)
    ensures DistinctRanges(dials, [], start) && Remembered(dials, 0).novel == 0
  {
  }

  lemma RememberedOnce(dials: seq<Option<Dial>>, n: nat)
    requires n < |dials|
    ensures Remembered(dials, n + 1)
         == (if dials[n].Some? then Remembered(dials, n).Observed(dials[n].value) else Remembered(dials, n))
    ensures dials[n].Some? && Remembered(dials, n).IsFirst(dials[n].value) ==> Reported(dials, n)
  {
    hide Memory.Observed, Memory.IsFirst;
  }

  /** The window count is backed by reported calls to pairwise distinct ranges, all placed
      inside the window. */
  lemma {:induction false} NovelRangesAreDistinct(dials: seq<Option<Dial>>, n: nat) returns (where: seq<nat>)
    requires n <= |dials| && Clocked(dials)
    ensures |where| >= Remembered(dials, n).novel
    ensures DistinctRanges(dials, where, Remembered(dials, n).window)
    ensures forall k :: 0 <= k < |where| ==> where[k] < n
  {
    hide Positions, Remembered, DistinctRanges, Reported, Memory.Observed, Memory.Rotated, Memory.IsFirst;
    where := [];
    NoRangeYet(dials, Remembered(dials, n).window);
    if n > 0 {
      where := NovelRangesAreDistinct(dials, n - 1);
      RememberedOnce(dials, n - 1);
      if dials[n - 1].Some? {
        var m, d := Remembered(dials, n - 1), dials[n - 1].value;
        WindowIsSetBefore(dials, n - 1);
        ObservedShape(m, d);
        if m.Rotated(d.at).window != m.window {
          where := [];
        }
        if m.IsFirst(d) {
          DistinctFromReported(dials, where, n - 1);
          OneMoreRange(dials, where, m.Rotated(d.at).window, n - 1);
          where := where + [n - 1];
        }
      }
    }
  }

  lemma WindowIsSetBefore(dials: seq<Option<Dial>>, n: nat)
    requires n < |dials| && Clocked(dials) && dials[n].Some?
    ensures var m := Remembered(dials, n);
            0 < dials[n].value.at && m.window <= dials[n].value.at && (m.window == 0 ==> m.novel == 0)
  {
    hide Remembered;
    WindowIsSet(dials, n);
  }

  /** A call either stays inside the window with the count so far, or starts a new one at its
      own instant with nothing counted; a first contact then counts one more. */
  lemma ObservedShape(m: Memory, d: Dial)
    requires d.at > 0 && m.window <= d.at && (m.window == 0 ==> m.novel == 0)
    ensures var r := m.Rotated(d.at);
            && m.Observed(d).window == r.window <= d.at < r.window + WINDOW_SECS
            && m.Observed(d).novel == (if m.IsFirst(d) then SatInc(r.novel) else r.novel)
            && r.novel == (if r.window == m.window then m.novel else 0)
            && (r.window != m.window ==> r.window == d.at)
  {
    hide Positions;
  }

  /** The window is the latest call's: no call lies past its end. */
  lemma {:induction false} WindowHoldsTheLatest(dials: seq<Option<Dial>>, n: nat)
    requires n <= |dials| && Clocked(dials)
    ensures forall j :: 0 <= j < n && dials[j].Some? ==> dials[j].value.at < Remembered(dials, n).window + WINDOW_SECS
  {
    hide Positions, Memory.Observed, Memory.Rotated, Memory.IsFirst;
    if n > 0 {
      WindowHoldsTheLatest(dials, n - 1);
      if dials[n - 1].Some? {
        WindowIsSet(dials, n - 1);
        ObservedShape(Remembered(dials, n - 1), dials[n - 1].value);
      }
    }
  }

  /** A new report's range is none of those reported inside the window it falls in. */
  lemma DistinctFromReported(dials: seq<Option<Dial>>, where: seq<nat>, n: nat)
    requires n < |dials| && Clocked(dials) && Reported(dials, n)
    requires DistinctRanges(dials, where, Remembered(dials, n).Rotated(dials[n].value.at).window)
    requires forall k :: 0 <= k < |where| ==> where[k] < n
    ensures forall k :: 0 <= k < |where| ==> dials[where[k]].value.range != dials[n].value.range
  {
    hide Positions, Remembered, Memory.IsFirst;
    WindowIsSet(dials, n);
    forall k | 0 <= k < |where| ensures dials[where[k]].value.range != dials[n].value.range {
      if dials[where[k]].value.range == dials[n].value.range {
        ReportedRangeIsRemembered(dials, where[k], n);
      }
    }
  }

  // ---- first contacts, told from the calls alone ----

  function Times(dials: seq<Option<Dial>>): (times: seq<Option<nat>>)
    ensures |times| == |dials|
    ensures forall i :: 0 <= i < |dials| ==> times[i] == if dials[i].Some? then Some(dials[i].value.at) else None
  {
    seq(|dials|, i requires 0 <= i < |dials| => if dials[i].Some? then Some(dials[i].value.at) else None)
  }

  function Opened(dials: seq<Option<Dial>>, n: nat): (o: Option<nat>)
    requires n <= |dials|
    ensures o.Some? ==> o.value < n && dials[o.value].Some?
  {
    Opening(Times(dials), 900, n)
  }

  /** Call i is the first contact with its range: the positions of its hash are covered neither by the
      first contacts of the window it falls in, nor by those of the window before. */
  predicate FirstContact(dials: seq<Option<Dial>>, i: nat)
    requires i < |dials|
    decreases i, 2
  {
    && dials[i].Some? && dials[i].value.range.Some? && Opened(dials, i + 1).Some?
    && var h, o := dials[i].value.range.value, Opened(dials, i + 1).value;
       !(Positions(h) <= Contacts(dials, o, i)) && !(Positions(h) <= Earlier(dials, o))
  }

  /** The positions of the first contacts among the calls lo to hi. */
  function Contacts(dials: seq<Option<Dial>>, lo: nat, hi: nat): set<nat>
    requires lo <= hi <= |dials|
    decreases hi, 0
  {
    if lo == hi then {}
    else Contacts(dials, lo, hi - 1) + if FirstContact(dials, hi - 1) then Positions(dials[hi - 1].value.range.value) else {}
  }

  /** What a window opened by call o still knows of the one before: its first contacts, unless that
      one was opened 1,800 seconds or more before. */
  function Earlier(dials: seq<Option<Dial>>, o: nat): set<nat>
    requires o < |dials| && dials[o].Some?
    decreases o, 1
  {
    match Opened(dials, o)
    case None => {}
    case Some(p) => if dials[o].value.at < dials[p].value.at + 1800 then Contacts(dials, p, o) else {}
  }

  function ContactsInWindow(dials: seq<Option<Dial>>, n: nat): nat
    requires n <= |dials|
  {
    match Opened(dials, n) case None => 0 case Some(o) => CountContacts(dials, o, n)
  }

  function CountContacts(dials: seq<Option<Dial>>, lo: nat, hi: nat): nat
    requires lo <= hi <= |dials|
  {
    if lo == hi then 0 else CountContacts(dials, lo, hi - 1) + (if FirstContact(dials, hi - 1) then 1 else 0)
  }

  /** The memory is what the first contacts of its window and of the one before leave. */
  predicate Holds(dials: seq<Option<Dial>>, n: nat, m: Memory)
    requires n <= |dials|
  {
    match Opened(dials, n)
    case None => m == EMPTY
    case Some(o) =>
      && m.window == dials[o].value.at && m.current == Contacts(dials, o, n) && m.previous == Earlier(dials, o)
      && m.novel == Shown(ContactsInWindow(dials, n))
  }

  /** Rotation finds the window the next call falls in. */
  lemma RotatedHolds(dials: seq<Option<Dial>>, n: nat, m: Memory)
    requires n < |dials| && Clocked(dials) && dials[n].Some? && Holds(dials, n, m)
    ensures Opened(dials, n + 1).Some?
    ensures var r, o := m.Rotated(dials[n].value.at), Opened(dials, n + 1).value;
            && r.window == dials[o].value.at && r.current == Contacts(dials, o, n) && r.previous == Earlier(dials, o)
            && r.novel == if o == n then 0 else Shown(ContactsInWindow(dials, n))
  {
    hide Contacts, Times, ContactsInWindow;
    NoContacts(dials, n);
  }

  lemma NoContacts(dials: seq<Option<Dial>>, n: nat)
    requires n < |dials|
    ensures Contacts(dials, n, n) == {} && CountContacts(dials, n, n) == 0
  {
  }

  lemma ContactOnce(dials: seq<Option<Dial>>, lo: nat, n: nat)
    requires lo <= n < |dials|
    ensures CountContacts(dials, lo, n + 1) == CountContacts(dials, lo, n) + (if FirstContact(dials, n) then 1 else 0)
    ensures Contacts(dials, lo, n + 1)
         == Contacts(dials, lo, n) + if FirstContact(dials, n) then Positions(dials[n].value.range.value) else {}
  {
    hide FirstContact;
  }

  lemma ObservedHolds(dials: seq<Option<Dial>>, n: nat, m: Memory)
    requires n < |dials| && Clocked(dials) && dials[n].Some? && Holds(dials, n, m)
    ensures m.IsFirst(dials[n].value) <==> FirstContact(dials, n)
    ensures Holds(dials, n + 1, m.Observed(dials[n].value))
  {
    hide Positions, Contacts, Earlier, CountContacts, Memory.Rotated, Opened;
    RotatedHolds(dials, n, m);
    var o := Opened(dials, n + 1).value;
    NoContacts(dials, n);
    ContactOnce(dials, o, n);
    ShownOnce(if o == n then 0 else ContactsInWindow(dials, n));
    SameWindow(dials, n, o);
  }

  lemma SameWindow(dials: seq<Option<Dial>>, n: nat, o: nat)
    requires n < |dials| && Opened(dials, n + 1) == Some(o)
    ensures o != n ==> Opened(dials, n) == Some(o)
  {
    hide Times;
  }

  lemma QuietHolds(dials: seq<Option<Dial>>, n: nat, m: Memory)
    requires n < |dials| && dials[n].None? && Holds(dials, n, m)
    ensures Holds(dials, n + 1, m) && !FirstContact(dials, n)
  {
    hide Times, Contacts, CountContacts;
    assert Opened(dials, n + 1) == Opened(dials, n);
    if Opened(dials, n).Some? {
      ContactOnce(dials, Opened(dials, n).value, n);
    }
  }

  /** A call is reported exactly when it is the first contact with its range, and both filters, the
      window and its count are exactly what the first contacts of this window and the one before
      leave. */
  lemma {:induction false} ReportsAreFirstContacts(dials: seq<Option<Dial>>, n: nat)
    requires n <= |dials| && Clocked(dials)
    ensures Holds(dials, n, Remembered(dials, n))
    ensures n < |dials| ==> (Reported(dials, n) <==> FirstContact(dials, n))
  {
    hide Holds, FirstContact, Memory.Observed, Memory.IsFirst;
    if n == 0 {
      NothingHolds(dials);
    } else {
      ReportsAreFirstContacts(dials, n - 1);
      if dials[n - 1].Some? {
        ObservedHolds(dials, n - 1, Remembered(dials, n - 1));
      } else {
        QuietHolds(dials, n - 1, Remembered(dials, n - 1));
      }
    }
    if n < |dials| {
      if dials[n].Some? {
        ObservedHolds(dials, n, Remembered(dials, n));
      } else {
        QuietHolds(dials, n, Remembered(dials, n));
      }
    }
  }

  lemma NothingHolds(dials: seq<Option<Dial>>)
    ensures Holds(dials, 0, Remembered(dials, 0))
  {
  }
}
