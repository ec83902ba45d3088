/** What a run leaves in the record, how much of it a reading cannot read, and which bans a starting
    daemon places again, each told from the files and actions themselves. */
module ManualRecord {
  import opened Numerics
  import opened Calendar
  import opened ManualLog

  // ---- the bans placed again ----

  /** The action is a ban that has not lapsed, and this is what is left of it. */
  predicate LeavesBan(a: Action, now: Seconds, r: Reapply) {
    && a.verb == Ban && a.ip == r.ip && a.source == r.source
    && match a.expires
       case None => r.ttl == 0
       case Some(e) => e > now && e == now + r.ttl
  }

  /** A ban is placed again exactly when it is what is left of the newest action of its address, the
      last one on a tie. */
  lemma PlanIsWhatIsLeft(actions: seq<Action>, now: Seconds, r: Reapply)
    ensures StandingFor(Latest(actions), now, r.ip) == Some(r)
       <==> exists i :: 0 <= i < |actions| && IsNewest(actions, |actions|, i) && LeavesBan(actions[i], now, r)
  {
    hide LatestIn, Standing, LeavesBan, IsNewest;
    LatestIsNewest(actions, |actions|, r.ip);
    if i :| 0 <= i < |actions| && IsNewest(actions, |actions|, i) && LeavesBan(actions[i], now, r) {
      IsOfItsAddress(actions[i], now, r);
      var j :| 0 <= j < |actions| && actions[j] == Latest(actions)[r.ip] && actions[j].ip == r.ip && IsNewest(actions, |actions|, j);
      OneNewest(actions, i, j);
      StandingIsLeft(actions[j], now, r);
    }
    if StandingFor(Latest(actions), now, r.ip) == Some(r) {
      var j :| 0 <= j < |actions| && actions[j] == Latest(actions)[r.ip] && actions[j].ip == r.ip && IsNewest(actions, |actions|, j);
      StandingIsLeft(actions[j], now, r);
    }
  }

  lemma IsOfItsAddress(a: Action, now: Seconds, r: Reapply)
    requires LeavesBan(a, now, r)
    ensures a.ip == r.ip
  {
  }

  lemma StandingIsLeft(a: Action, now: Seconds, r: Reapply)
    ensures Standing(a, now) == Some(r) <==> LeavesBan(a, now, r)
  {
  }

  lemma OneNewest(actions: seq<Action>, i: nat, j: nat)
    requires i < |actions| && j < |actions| && actions[i].ip == actions[j].ip
    requires IsNewest(actions, |actions|, i) && IsNewest(actions, |actions|, j)
    ensures i == j
  {
  }

  // ---- what is written stays ----

  /** Line i of the month's file is this action, and its line end was written. */
  predicate Whole(dir: Directory, m: Month, i: nat, a: Action) {
    && m in dir && dir[m].Lines? && i < |dir[m].lines|
    && dir[m].lines[i].Recorded? && dir[m].lines[i].a == a
    && (i == |dir[m].lines| - 1 ==> !dir[m].cut)
  }

  /** The month's file can be opened, and its last line, if any, has its end. */
  predicate Ended(dir: Directory, m: Month) {
    m in dir ==> dir[m].Lines? && (dir[m].cut ==> dir[m].lines == [])
  }

  /** The operation takes the month away: its file becomes unreadable, or is past retention. */
  predicate Takes(op: Op, m: Month) {
    match op
    case Lock(locked) => locked == m
    case Prune(now, window) => MonthEnd(m / 12, m % 12 + 1) < SatSub(now, window)
    case _ => false
  }

  lemma WholeStays(dir: Directory, op: Op, m: Month, i: nat, a: Action)
    requires Whole(dir, m, i, a) && !Takes(op, m)
    ensures Whole(Step(dir, op), m, i, a)
  {
    hide MonthFileOf, MonthEnd;
  }

  lemma AppendIsWhole(dir: Directory, a: Action, joined: Option<Ip>)
    requires Ended(dir, MonthFileOf(a.ts))
    ensures Whole(Step(dir, Append(a, joined)), MonthFileOf(a.ts), |LinesOf(dir, MonthFileOf(a.ts))|, a)
  {
    hide MonthFileOf;
  }

  function LinesOf(dir: Directory, m: Month): seq<Line> {
    if m in dir && dir[m].Lines? then dir[m].lines else []
  }

  lemma {:induction false} WholeIsRead(lines: seq<Line>, n: nat, i: nat)
    requires i < n <= |lines| && lines[i].Recorded?
    ensures lines[i].a in ActionsOf(lines, n)
  {
    if i < n - 1 {
      WholeIsRead(lines, n - 1, i);
    }
  }

  lemma {:induction false} FileIsRead(dir: Directory, k: nat, m: Month, a: Action)
    requires m < k <= MONTHS && m in dir && a in FileActions(dir[m])
    ensures a in Actions(dir, k)
  {
    hide FileActions;
    if m < k - 1 {
      FileIsRead(dir, k - 1, m, a);
    }
  }

  lemma {:induction false} WholeOverRun(ops: seq<Op>, i: nat, n: nat, m: Month, at: nat, a: Action)
    requires i <= n <= |ops| && Whole(Run(ops, i), m, at, a)
    requires forall j :: i <= j < n ==> !Takes(ops[j], m)
    ensures Whole(Run(ops, n), m, at, a)
  {
    hide Step, Whole, Takes;
    if i < n {
      WholeOverRun(ops, i, n - 1, m, at, a);
      WholeStays(Run(ops, n - 1), ops[n - 1], m, at, a);
    }
  }

  /** What was written whole stays: an action appended to a file that can be opened and ends in a line
      end is read from the record after any further operations, appends and interrupted writes among
      them, as long as its month is not past retention and its file stays readable. */
  lemma WrittenIsRead(ops: seq<Op>, i: nat, n: nat, a: Action)
    requires i < n <= |ops| && ops[i].Append? && ops[i].a == a && Ended(Run(ops, i), MonthFileOf(a.ts))
    requires forall j :: i < j < n ==> !Takes(ops[j], MonthFileOf(a.ts))
    ensures a in Actions(Run(ops, n), MONTHS)
  {
    hide MonthFileOf, Takes, Step, Ended, ActionsOf;
    var m, at := MonthFileOf(a.ts), |LinesOf(Run(ops, i), MonthFileOf(a.ts))|;
    AppendIsWhole(Run(ops, i), a, ops[i].joined);
    WholeOverRun(ops, i + 1, n, m, at, a);
    var after := Run(ops, n);
    WholeIsRead(after[m].lines, |after[m].lines|, at);
    FileIsRead(after, MONTHS, m, a);
  }

  /** What is written after an interrupted write is lost with it: an append to a file whose last line
      has no end joins that line, and the two are neither's action but one corrupt line; every line
      before stays. */
  lemma JoinedIsLost(dir: Directory, a: Action, joined: Option<Ip>)
    requires var m := MonthFileOf(a.ts); m in dir && dir[m].Lines? && !Ended(dir, m)
    ensures var m, after := MonthFileOf(a.ts), Step(dir, Append(a, joined));
            var lines, last := LinesOf(dir, m), |LinesOf(dir, m)| - 1;
            && |LinesOf(after, m)| == |lines| && Ended(after, m) && LinesOf(after, m)[last].Corrupt?
            && forall i :: 0 <= i < last ==> LinesOf(after, m)[i] == lines[i]
    ensures forall m :: m in dir && m != MonthFileOf(a.ts) ==> m in Step(dir, Append(a, joined)) && Step(dir, Append(a, joined))[m] == dir[m]
  {
    hide MonthFileOf;
  }

  lemma LockedOnce(dir: Directory, op: Op, m: Month)
    requires (m in dir && dir[m].Unreadable? && (op.Prune? ==> !Takes(op, m))) || (op == Lock(m) && m in dir)
    ensures m in Step(dir, op) && Step(dir, op)[m].Unreadable?
  {
    hide MonthFileOf, MonthEnd;
  }

  /** A file that became unreadable stays so, whatever is appended since, until its month is past
      retention: nothing is added to it and nothing read from it. */
  lemma {:induction false} LockedStays(ops: seq<Op>, i: nat, n: nat, m: Month)
    requires i < n <= |ops| && ops[i] == Lock(m) && m in Run(ops, i)
    requires forall j :: i < j < n && ops[j].Prune? ==> !Takes(ops[j], m)
    ensures m in Run(ops, n) && Run(ops, n)[m].Unreadable? && FileActions(Run(ops, n)[m]) == []
  {
    hide Step, Takes;
    if i < n - 1 {
      LockedStays(ops, i, n - 1, m);
    }
    LockedOnce(Run(ops, n - 1), ops[n - 1], m);
  }

  /** The operation writes this action, with or without its line end. */
  predicate Writes(op: Op, a: Action) {
    match op
    case Append(written, _) => written == a
    case Interrupt(_, line) => line.Recorded? && line.a == a
    case _ => false
  }

  lemma LineIsWritten(dir: Directory, op: Op, m: Month, i: nat)
    requires var after := Step(dir, op);
             m in after && after[m].Lines? && i < |after[m].lines| && after[m].lines[i].Recorded?
    ensures var a := Step(dir, op)[m].lines[i].a;
            || Writes(op, a)
            || (m in dir && dir[m].Lines? && i < |dir[m].lines| && dir[m].lines[i].Recorded? && dir[m].lines[i].a == a)
  {
    hide MonthFileOf, MonthEnd;
  }

  lemma {:induction false} LinesAreWritten(ops: seq<Op>, n: nat, m: Month, i: nat) returns (j: nat)
    requires n <= |ops|
    requires var dir := Run(ops, n); m in dir && dir[m].Lines? && i < |dir[m].lines| && dir[m].lines[i].Recorded?
    ensures j < n && Writes(ops[j], Run(ops, n)[m].lines[i].a)
  {
    hide Step, Writes;
    LineIsWritten(Run(ops, n - 1), ops[n - 1], m, i);
    j := n - 1;
    if !Writes(ops[n - 1], Run(ops, n)[m].lines[i].a) {
      j := LinesAreWritten(ops, n - 1, m, i);
    }
  }

  lemma {:induction false} ActionIsALine(lines: seq<Line>, n: nat, a: Action) returns (i: nat)
    requires n <= |lines| && a in ActionsOf(lines, n)
    ensures i < n && lines[i].Recorded? && lines[i].a == a
  {
    i := n - 1;
    if !(lines[n - 1].Recorded? && lines[n - 1].a == a) {
      i := ActionIsALine(lines, n - 1, a);
    }
  }

  /** Nothing else is read: every action of the record was appended, or written whole but for its line
      end. */
  lemma ReadIsWritten(ops: seq<Op>, n: nat, a: Action) returns (j: nat)
    requires n <= |ops| && a in Actions(Run(ops, n), MONTHS)
    ensures j < n && Writes(ops[j], a)
  {
    hide Step, ActionsOf, Writes;
    var m := ReadFromAFile(Run(ops, n), MONTHS, a);
    var i := ActionIsALine(Run(ops, n)[m].lines, |Run(ops, n)[m].lines|, a);
    j := LinesAreWritten(ops, n, m, i);
  }

  lemma {:induction false} ReadFromAFile(dir: Directory, k: nat, a: Action) returns (m: Month)
    requires k <= MONTHS && a in Actions(dir, k)
    ensures m < k && m in dir && dir[m].Lines? && a in ActionsOf(dir[m].lines, |dir[m].lines|)
  {
    hide ActionsOf;
    if k - 1 in dir && a in FileActions(dir[k - 1]) {
      m := k - 1;
    } else {
      m := ReadFromAFile(dir, k - 1, a);
    }
  }

  // ---- what a reading cannot read, counted ----

  /** The wanted addresses no later month has a line about. */
  function Unanswered(dir: Directory, wanted: set<Ip>, m: nat): set<Ip> {
    set ip | ip in wanted && !SpokenAfter(dir, m, ip)
  }

  predicate SpokenAfter(dir: Directory, m: nat, ip: Ip) {
    exists later :: later in dir && m < later && Speaks(dir[later], ip)
  }

  /** What is lost of a file, place by place: 0 for the whole file, and i + 1 for line i, when it is
      corrupt and may be about one of these addresses; or whatever it is about, when everything is
      read. */
  function Losses(f: File, asked: Option<set<Ip>>): set<nat> {
    match f
    case Unreadable => {0}
    case Lines(lines, _) =>
      set i | 0 <= i < |lines| && lines[i].Corrupt? && (asked.Some? && lines[i].quick.Some? ==> lines[i].quick.value in asked.value)
        :: i + 1
  }

  /** The losses of a search for these addresses: it opens a month only while one of them is
      unanswered. */
  function SearchLosses(dir: Directory, wanted: set<Ip>, k: nat): set<(nat, nat)> {
    set m, place | m in dir && k <= m && Unanswered(dir, wanted, m) != {} && place in Losses(dir[m], Some(Unanswered(dir, wanted, m)))
      :: (m, place)
  }

  /** The losses of reading the months before k. */
  function ReadingLosses(dir: Directory, k: nat): set<(nat, nat)> {
    set m, place | m in dir && m < k && place in Losses(dir[m], None) :: (m, place)
  }

  function LostBefore(lines: seq<Line>, n: nat, asked: Option<set<Ip>>): set<nat>
    requires n <= |lines|
  {
    set i | 0 <= i < n && lines[i].Corrupt? && (asked.Some? && lines[i].quick.Some? ==> lines[i].quick.value in asked.value) :: i + 1
  }

  lemma {:induction false} LinesLost(lines: seq<Line>, n: nat, asked: Option<set<Ip>>)
    requires n <= |lines|
    ensures |LostBefore(lines, n, asked)| == match asked case None => CorruptLines(lines, n) case Some(ips) => NoticedLines(lines, n, ips)
  {
    if n == 0 {
      assert LostBefore(lines, 0, asked) == {};
    } else {
      LinesLost(lines, n - 1, asked);
      var last := lines[n - 1];
      if last.Corrupt? && (asked.Some? && last.quick.Some? ==> last.quick.value in asked.value) {
        assert LostBefore(lines, n, asked) == LostBefore(lines, n - 1, asked) + {n};
      } else {
        assert LostBefore(lines, n, asked) == LostBefore(lines, n - 1, asked);
      }
    }
  }

  lemma LossesAreCounted(f: File, asked: Option<set<Ip>>)
    ensures |Losses(f, asked)| == match asked case None => BrokenIn(f) case Some(ips) => NoticedIn(f, ips)
  {
    if f.Lines? {
      LinesLost(f.lines, |f.lines|, asked);
      assert Losses(f, asked) == LostBefore(f.lines, |f.lines|, asked);
    }
  }

  /** The places of one month. */
  function At(m: nat, places: set<nat>): set<(nat, nat)> {
    set place | place in places :: (m, place)
  }

  lemma {:induction false} AsManyPlaces(m: nat, places: set<nat>)
    ensures |At(m, places)| == |places|
  {
    if places == {} {
      assert At(m, places) == {};
    } else {
      var p :| p in places;
      AsManyPlaces(m, places - {p});
      assert At(m, places) == At(m, places - {p}) + {(m, p)};
    }
  }

  lemma DisjointSizes<T>(a: set<T>, b: set<T>)
    requires a !! b
    ensures |a + b| == |a| + |b|
  {
    assert a + b - a == b;
  }

  /** Reading everything counts exactly the unreadable files and the corrupt lines. */
  lemma {:induction false} BrokenIsCounted(dir: Directory, k: nat)
    requires k <= MONTHS
    ensures Broken(dir, k) == |ReadingLosses(dir, k)|
  {
    hide Losses, BrokenIn;
    if k == 0 {
      assert ReadingLosses(dir, 0) == {};
    } else {
      BrokenIsCounted(dir, k - 1);
      if k - 1 in dir {
        var month := At(k - 1, Losses(dir[k - 1], None));
        LossesAreCounted(dir[k - 1], None);
        AsManyPlaces(k - 1, Losses(dir[k - 1], None));
        assert ReadingLosses(dir, k) == ReadingLosses(dir, k - 1) + month;
        DisjointSizes(ReadingLosses(dir, k - 1), month);
      } else {
        assert ReadingLosses(dir, k) == ReadingLosses(dir, k - 1);
      }
    }
  }

  lemma {:induction false} AnsweredFromMonth(dir: Directory, k: nat, ip: Ip)
    requires k <= MONTHS
    ensures ip in LatestFrom(dir, k) <==> exists later :: later in dir && k <= later && Speaks(dir[later], ip)
    decreases MONTHS - k
  {
    hide Latest, FileActions, Speaks;
    if k < MONTHS {
      AnsweredFromMonth(dir, k + 1, ip);
      if k in dir {
        SpokenIsLatest(dir[k], ip);
      }
    }
  }

  lemma OpenIsUnanswered(dir: Directory, wanted: set<Ip>, k: nat)
    requires k < MONTHS
    ensures Open(dir, wanted, k + 1) == Unanswered(dir, wanted, k)
  {
    hide Latest, FileActions, Speaks, LatestFrom;
    forall ip ensures ip in Open(dir, wanted, k + 1) <==> ip in Unanswered(dir, wanted, k) {
      AnsweredFromMonth(dir, k + 1, ip);
    }
  }

  /** The newest-first search counts exactly the losses of the months it opens. */
  lemma {:induction false} MissedIsCounted(dir: Directory, wanted: set<Ip>, k: nat)
    requires k <= MONTHS
    ensures Missed(dir, wanted, k) == |SearchLosses(dir, wanted, k)|
    decreases MONTHS - k
  {
    hide Losses, NoticedIn, Open, Unanswered;
    if k == MONTHS {
      assert SearchLosses(dir, wanted, k) == {};
    } else {
      MissedIsCounted(dir, wanted, k + 1);
      OpenIsUnanswered(dir, wanted, k);
      var asked := Unanswered(dir, wanted, k);
      if k in dir && asked != {} {
        var month := At(k, Losses(dir[k], Some(asked)));
        LossesAreCounted(dir[k], Some(asked));
        AsManyPlaces(k, Losses(dir[k], Some(asked)));
        assert SearchLosses(dir, wanted, k) == SearchLosses(dir, wanted, k + 1) + month;
        DisjointSizes(SearchLosses(dir, wanted, k + 1), month);
      } else {
        assert SearchLosses(dir, wanted, k) == SearchLosses(dir, wanted, k + 1);
      }
    }
  }
}
