/** The dialling-prefix arm's memory: a lifetime set of prefix slots and a count of
    first-ever prefixes in the current hard-floor window. */
module PrefixMemory {
  import opened Numerics
  import opened Windows

  const WINDOW_SECS: nat := 900
  const SLOTS: nat := 64

  /** One call: the 6-bit slot of its dialling prefix, and when it was placed. */
  datatype Use = Use(slot: nat, at: nat)

  datatype Memory = Memory(seen: set<nat>, window: nat, novel: nat) {
    /** Starts the window on first use, and restarts it once it is 900 s old. */
    function Rotated(now: nat): Memory {
      if window == 0 then this.(window := now)
      else if SatSub(now, window) >= WINDOW_SECS then this.(window := now, novel := 0)
      else this
    }

    predicate IsFirst(slot: nat) {
      slot !in seen
    }

    function Observed(u: Use): Memory {
      var m := Rotated(u.at);
      m.(seen := m.seen + {u.slot}, novel := if IsFirst(u.slot) then SatInc(m.novel) else m.novel)
    }
  }

  const EMPTY := Memory({}, 0, 0)

  /** The memory after the first n events; an event that is no call leaves it alone. */
  function Remembered(uses: seq<Option<Use>>, n: nat): Memory
    requires n <= |uses|
  {
    if n == 0 then EMPTY
    else
      var m := Remembered(uses, n - 1);
      match uses[n - 1]
      case None => m
      case Some(u) => m.Observed(u)
  }

  /** Calls come in time order and never at instant zero, which marks an unset window. */
  predicate Clocked(uses: seq<Option<Use>>) {
    && (forall i :: 0 <= i < |uses| && uses[i].Some? ==> uses[i].value.at > 0)
    && (forall i, j :: 0 <= i < j < |uses| && uses[i].Some? && uses[j].Some? ==> uses[i].value.at <= uses[j].value.at)
  }

  /** Call i is the first ever to use its slot. */
  predicate FirstEver(uses: seq<Option<Use>>, i: nat)
    requires i < |uses|
  {
    && uses[i].Some?
    && forall j :: 0 <= j < i && uses[j].Some? ==> uses[j].value.slot != uses[i].value.slot
  }

  /** `where` lists calls in order, each the first ever on its slot, all inside the window
      that began at `start`. */
  predicate FirstUses(uses: seq<Option<Use>>, where: seq<nat>, start: nat) {
    && (forall k :: 0 <= k < |where| ==>
          && where[k] < |uses| && FirstEver(uses, where[k])
          && start <= uses[where[k]].value.at < start + WINDOW_SECS)
    && (forall k, l :: 0 <= k < l < |where| ==> where[k] < where[l])
  }

  lemma {:induction false} SeenIsUsed(uses: seq<Option<Use>>, n: nat)
    requires n <= |uses|
    ensures Remembered(uses, n).seen == set i | 0 <= i < n && uses[i].Some? :: uses[i].value.slot
  {
    if n > 0 {
      SeenIsUsed(uses, n - 1);
    }
  }

  /** The window is unset exactly while there was no call, and otherwise began at a call. */
  predicate WindowBegan(uses: seq<Option<Use>>, n: nat, m: Memory)
    requires n <= |uses|
  {
    if m.window == 0 then m.novel == 0 && forall i :: 0 <= i < n ==> uses[i].None?
    else exists i :: 0 <= i < n && uses[i].Some? && uses[i].value.at == m.window
  }

  lemma {:induction false} WindowBegins(uses: seq<Option<Use>>, n: nat)
    requires n <= |uses| && Clocked(uses)
    ensures WindowBegan(uses, n, Remembered(uses, n))
  {
    if n > 0 {
      WindowBegins(uses, n - 1);
      if uses[n - 1].Some? {
        var m, m' := Remembered(uses, n - 1), Remembered(uses, n);
        if m'.window != m.window {
          assert uses[n - 1].value.at == m'.window;
        }
      }
    }
  }

  /** Every unit of the window count is a call that was the first ever on its slot and was
      placed inside the window. */
  lemma {:induction false} NovelPrefixesAreFirstUses(uses: seq<Option<Use>>, n: nat) returns (where: seq<nat>)
    requires n <= |uses| && Clocked(uses)
    ensures |where| >= Remembered(uses, n).novel
    ensures FirstUses(uses, where, Remembered(uses, n).window)
    ensures forall k :: 0 <= k < |where| ==> where[k] < n
  {
    hide Memory.Observed, Memory.Rotated, Memory.IsFirst, FirstEver;
    where := [];
    if n > 0 {
      where := NovelPrefixesAreFirstUses(uses, n - 1);
      if uses[n - 1].Some? {
        var m, u := Remembered(uses, n - 1), uses[n - 1].value;
        FirstIsFirstEver(uses, n - 1);
        WindowIsNotAhead(uses, n - 1);
        ObservedShape(m, u);
        if m.Rotated(u.at).window != m.window {
          where := [];
        }
        if m.IsFirst(u.slot) {
          where := where + [n - 1];
        }
      }
    }
  }

  /** The window is the latest call's: no call lies past its end. */
  lemma {:induction false} WindowHoldsTheLatest(uses: seq<Option<Use>>, n: nat)
    requires n <= |uses| && Clocked(uses)
    ensures forall j :: 0 <= j < n && uses[j].Some? ==> uses[j].value.at < Remembered(uses, n).window + WINDOW_SECS
  {
    hide Memory.Observed, Memory.Rotated;
    if n > 0 {
      WindowHoldsTheLatest(uses, n - 1);
      if uses[n - 1].Some? {
        WindowIsNotAhead(uses, n - 1);
        ObservedShape(Remembered(uses, n - 1), uses[n - 1].value);
      }
    }
  }

  lemma FirstIsFirstEver(uses: seq<Option<Use>>, n: nat)
    requires n < |uses| && uses[n].Some?
    ensures Remembered(uses, n).IsFirst(uses[n].value.slot) <==> FirstEver(uses, n)
  {
    hide Remembered;
    SeenIsUsed(uses, n);
  }

  lemma WindowIsNotAhead(uses: seq<Option<Use>>, n: nat)
    requires n < |uses| && Clocked(uses) && uses[n].Some?
    ensures Remembered(uses, n).window <= uses[n].value.at && uses[n].value.at > 0
    ensures Remembered(uses, n).window == 0 ==> Remembered(uses, n).novel == 0
  {
    hide Remembered;
    WindowBegins(uses, n);
  }

  /** A call either stays inside the window with the count so far, or starts a new one at its
      own instant with nothing counted; a first use then counts one more. */
  lemma ObservedShape(m: Memory, u: Use)
    requires u.at > 0 && m.window <= u.at && (m.window == 0 ==> m.novel == 0)
    ensures var r := m.Rotated(u.at);
            && m.Observed(u).window == r.window <= u.at < r.window + WINDOW_SECS
            && m.Observed(u).novel == (if m.IsFirst(u.slot) then SatInc(r.novel) else r.novel)
            && r.novel == (if r.window == m.window then m.novel else 0)
            && (r.window != m.window ==> r.window == u.at)
  {
  }

  // ---- the count, exactly ----

  function Times(uses: seq<Option<Use>>): (times: seq<Option<nat>>)
    ensures |times| == |uses|
    ensures forall i :: 0 <= i < |uses| ==> times[i] == if uses[i].Some? then Some(uses[i].value.at) else None
  {
    seq(|uses|, i requires 0 <= i < |uses| => if uses[i].Some? then Some(uses[i].value.at) else None)
  }

  /** How many of the calls at positions lo to hi are the first ever on their slot. */
  function Firsts(uses: seq<Option<Use>>, lo: nat, hi: nat): nat
    requires lo <= hi <= |uses|
  {
    if lo == hi then 0 else Firsts(uses, lo, hi - 1) + (if FirstEver(uses, hi - 1) then 1 else 0)
  }

  /** How many first-ever prefixes the window in force holds. */
  function NovelInWindow(uses: seq<Option<Use>>, n: nat): nat
    requires n <= |uses|
  {
    match Opening(Times(uses), 900, n) case None => 0 case Some(o) => Firsts(uses, o, n)
  }

  lemma WindowOnce(uses: seq<Option<Use>>, n: nat)
    requires n < |uses| && Clocked(uses) && uses[n].Some?
    requires var m, o := Remembered(uses, n), Opening(Times(uses), 900, n);
             if o.None? then m.window == 0 && m.novel == 0 else m.window == uses[o.value].value.at && m.window > 0
    ensures var m, m', o, o' := Remembered(uses, n), Remembered(uses, n + 1), Opening(Times(uses), 900, n), Opening(Times(uses), 900, n + 1);
            && o'.Some? && m'.window == uses[o'.value].value.at
            && m'.novel == (if FirstEver(uses, n) then SatInc(if o' == o then m.novel else 0) else if o' == o then m.novel else 0)
  {
    hide FirstEver, Times;
    FirstIsFirstEver(uses, n);
    WindowIsNotAhead(uses, n);
  }

  lemma FirstsOnce(uses: seq<Option<Use>>, n: nat)
    requires n < |uses| && uses[n].Some?
    ensures NovelInWindow(uses, n + 1)
         == (if Opening(Times(uses), 900, n + 1) == Opening(Times(uses), 900, n) then NovelInWindow(uses, n) else 0)
            + (if FirstEver(uses, n) then 1 else 0)
  {
    hide FirstEver, Times;
    assert Firsts(uses, n, n) == 0;
  }

  lemma NoFirst(uses: seq<Option<Use>>, n: nat)
    requires n < |uses| && uses[n].None?
    ensures NovelInWindow(uses, n + 1) == NovelInWindow(uses, n)
  {
  }

  /** The count is exactly that of the first-ever prefixes among the calls of the window in force,
      as far as the counter shows it, and the window is dated by the call that opened it. */
  lemma {:induction false} NovelIsCounted(uses: seq<Option<Use>>, n: nat)
    requires n <= |uses| && Clocked(uses)
    ensures var m, o := Remembered(uses, n), Opening(Times(uses), 900, n);
            && m.window == (if o.None? then 0 else uses[o.value].value.at)
            && m.novel == Shown(NovelInWindow(uses, n))
  {
    hide FirstEver, Times, Memory.Observed, Firsts;
    if n > 0 {
      NovelIsCounted(uses, n - 1);
      if uses[n - 1].Some? {
        WindowOnce(uses, n - 1);
        FirstsOnce(uses, n - 1);
        ShownOnce(NovelInWindow(uses, n - 1));
        ShownOnce(0);
      } else {
        NoFirst(uses, n - 1);
      }
    }
  }
}
