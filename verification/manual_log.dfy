/** The record of manual bans and unbans: a directory of one file per month, read newest
    month first, and pruned a whole month at a time. */
module ManualLog {
  import opened Numerics
  import opened Calendar

  /** A 32-bit Unix time. */
  type Seconds = t: nat | t <= U32_MAX

  datatype Verb = Ban | Unban

  datatype Action = Action(ts: Seconds, verb: Verb, ip: Ip, source: string, reason: Option<string>, expires: Option<Seconds>)

  /** One line of a month file: blank, an action, or something that parses as none. `quick` is
      the address read off the line without parsing it, when the shortcut applies; `text` says
      whether the line is well-formed text. */
  datatype Line =
    | Blank
    | Recorded(a: Action, quick: Option<Ip>)
    | Corrupt(quick: Option<Ip>, text: bool)
  {
    predicate IsText() {
      Corrupt? ==> text
    }
  }

  /** A month file: unreadable, or its lines and whether the last one lacks its line end. */
  datatype File = Unreadable | Lines(lines: seq<Line>, cut: bool) {
    predicate IsText() {
      Lines? ==> forall i :: 0 <= i < |lines| ==> lines[i].IsText()
    }
  }

  /** The months a file name can spell: four digits of year, two of month. */
  const MONTHS: nat := 120_000

  type Month = m: nat | m < MONTHS

  type Directory = map<Month, File>

  /** The month file an action of this instant belongs in. */
  function MonthFileOf(ts: Seconds): Month {
    MonthsOfTheClock(ts);
    MonthOf(ts)
  }

  // ---- the latest action of each address ----

  /** The first n actions, folded: a later one wins unless the held one is strictly newer. */
  function LatestIn(actions: seq<Action>, n: nat): map<Ip, Action>
    requires n <= |actions|
  {
    if n == 0 then map[] else Updated(LatestIn(actions, n - 1), actions[n - 1])
  }

  function Updated(latest: map<Ip, Action>, a: Action): map<Ip, Action> {
    if a.ip in latest && latest[a.ip].ts > a.ts then latest else latest[a.ip := a]
  }

  function Latest(actions: seq<Action>): map<Ip, Action> {
    LatestIn(actions, |actions|)
  }

  /** Position i holds the newest action of its address, the last of them on a tie. */
  predicate IsNewest(actions: seq<Action>, n: nat, i: nat)
    requires i < n <= |actions|
  {
    forall j :: 0 <= j < n && actions[j].ip == actions[i].ip ==>
      actions[j].ts < actions[i].ts || (actions[j].ts == actions[i].ts && j <= i)
  }

  /** The fold finds, for every address that acted at all, its newest action. */
  lemma {:induction false} LatestIsNewest(actions: seq<Action>, n: nat, ip: Ip)
    requires n <= |actions|
    ensures ip in LatestIn(actions, n) <==> exists i :: 0 <= i < n && actions[i].ip == ip
    ensures ip in LatestIn(actions, n) ==>
              exists i :: 0 <= i < n && actions[i] == LatestIn(actions, n)[ip] && actions[i].ip == ip && IsNewest(actions, n, i)
  {
    if n > 0 {
      LatestIsNewest(actions, n - 1, ip);
      var a, before := actions[n - 1], LatestIn(actions, n - 1);
      if ip in before {
        var i :| 0 <= i < n - 1 && actions[i] == before[ip] && actions[i].ip == ip && IsNewest(actions, n - 1, i);
        if a.ip == ip && !(before[ip].ts > a.ts) {
          assert IsNewest(actions, n, n - 1);
        } else {
          assert IsNewest(actions, n, i);
        }
      } else if a.ip == ip {
        assert IsNewest(actions, n, n - 1);
      }
    }
  }

  lemma {:induction false} LatestIsHeld(actions: seq<Action>, n: nat)
    requires n <= |actions|
    ensures forall ip :: ip in LatestIn(actions, n) ==> LatestIn(actions, n)[ip] in actions && LatestIn(actions, n)[ip].ip == ip
  {
    if n > 0 {
      LatestIsHeld(actions, n - 1);
    }
  }

  lemma {:induction false} LatestOfPrefix(xs: seq<Action>, ys: seq<Action>, n: nat)
    requires n <= |xs|
    ensures LatestIn(xs + ys, n) == LatestIn(xs, n)
  {
    if n > 0 {
      LatestOfPrefix(xs, ys, n - 1);
    }
  }

  lemma UpdateOverrides(older: map<Ip, Action>, newer: map<Ip, Action>, a: Action)
    requires a.ip in older ==> older[a.ip].ts <= a.ts
    ensures Updated(older + newer, a) == older + Updated(newer, a)
  {
  }

  /** When everything in the second list is newer, its answers override the first's. */
  lemma {:induction false} LatestOfNewer(xs: seq<Action>, ys: seq<Action>, n: nat)
    requires n <= |ys|
    requires forall x, y :: x in xs && y in ys ==> x.ts <= y.ts
    ensures LatestIn(xs + ys, |xs| + n) == Latest(xs) + LatestIn(ys, n)
  {
    if n == 0 {
      LatestOfPrefix(xs, ys, |xs|);
      assert LatestIn(ys, 0) == map[];
    } else {
      hide Updated;
      LatestOfNewer(xs, ys, n - 1);
      var a := ys[n - 1];
      assert (xs + ys)[|xs| + n - 1] == a;
      LatestIsHeld(xs, |xs|);
      UpdateOverrides(Latest(xs), LatestIn(ys, n - 1), a);
    }
  }

  // ---- reading ----

  /** The actions among the first n lines. */
  function ActionsOf(lines: seq<Line>, n: nat): seq<Action>
    requires n <= |lines|
  {
    if n == 0 then []
    else ActionsOf(lines, n - 1) + (if lines[n - 1].Recorded? then [lines[n - 1].a] else [])
  }

  function FileActions(f: File): seq<Action> {
    if f.Unreadable? then [] else ActionsOf(f.lines, |f.lines|)
  }

  /** The actions in the readable files of the months before k, oldest month first, reading
      lines as bytes. */
  function Actions(dir: Directory, k: nat): seq<Action>
    requires k <= MONTHS
  {
    if k == 0 then []
    else Actions(dir, k - 1) + (if k - 1 in dir then FileActions(dir[k - 1]) else [])
  }

  /** The files that are not text turned unreadable: what reading as text makes of a
      directory. */
  function AsText(dir: Directory): Directory {
    map m | m in dir :: if dir[m].IsText() then dir[m] else Unreadable
  }

  /** How many of the first n lines are corrupt. */
  function CorruptLines(lines: seq<Line>, n: nat): nat
    requires n <= |lines|
  {
    if n == 0 then 0 else CorruptLines(lines, n - 1) + (if lines[n - 1].Corrupt? then 1 else 0)
  }

  /** What could not be read in the months before k: whole files and single lines. */
  function Broken(dir: Directory, k: nat): nat
    requires k <= MONTHS
  {
    if k == 0 then 0
    else Broken(dir, k - 1) + (if k - 1 in dir then BrokenIn(dir[k - 1]) else 0)
  }

  function BrokenIn(f: File): nat {
    if f.Unreadable? then 1 else CorruptLines(f.lines, |f.lines|)
  }

  /** The corrupt lines among the first n that a search for these addresses notices: it cannot
      tell by the shortcut that they are about some other address. */
  function NoticedLines(lines: seq<Line>, n: nat, asked: set<Ip>): nat
    requires n <= |lines|
  {
    if n == 0 then 0
    else
      NoticedLines(lines, n - 1, asked)
      + (if lines[n - 1].Corrupt? && (lines[n - 1].quick.None? || lines[n - 1].quick.value in asked) then 1 else 0)
  }

  function NoticedIn(f: File, asked: set<Ip>): nat {
    if f.Unreadable? then 1 else NoticedLines(f.lines, |f.lines|, asked)
  }

  /** Every action lies in the file of its own month, and the quick reader agrees with the
      parser where it reads anything. */
  predicate Filed(dir: Directory) {
    forall m :: m in dir ==> FileFiled(m, dir[m])
  }

  predicate FileFiled(m: Month, f: File) {
    f.Lines? ==>
      forall i :: 0 <= i < |f.lines| && f.lines[i].Recorded? ==>
        && MonthOf(f.lines[i].a.ts) == m
        && (f.lines[i].quick.Some? ==> f.lines[i].quick.value == f.lines[i].a.ip)
  }

  lemma AsTextIsFiled(dir: Directory)
    requires Filed(dir)
    ensures Filed(AsText(dir))
  {
  }

  lemma {:induction false} FileActionsAreFiled(lines: seq<Line>, n: nat, m: Month)
    requires n <= |lines| && FileFiled(m, Lines(lines, false))
    ensures forall a :: a in ActionsOf(lines, n) ==> MonthOf(a.ts) == m
  {
    if n > 0 {
      FileActionsAreFiled(lines, n - 1, m);
    }
  }

  lemma MonthFileIsFiled(dir: Directory, m: Month)
    requires Filed(dir) && m in dir
    ensures forall a :: a in FileActions(dir[m]) ==> MonthOf(a.ts) == m
  {
    hide MonthOf;
    if dir[m].Lines? {
      assert FileFiled(m, Lines(dir[m].lines, false));
      FileActionsAreFiled(dir[m].lines, |dir[m].lines|, m);
    }
  }

  lemma {:induction false} ActionsAreFiled(dir: Directory, k: nat)
    requires k <= MONTHS && Filed(dir)
    ensures forall a :: a in Actions(dir, k) ==> MonthOf(a.ts) < k
  {
    hide MonthOf, FileActions, Filed;
    if k > 0 {
      ActionsAreFiled(dir, k - 1);
      if k - 1 in dir {
        MonthFileIsFiled(dir, k - 1);
      }
    }
  }

  /** The latest actions of the months from k on. */
  function LatestFrom(dir: Directory, k: nat): map<Ip, Action>
    requires k <= MONTHS
    decreases MONTHS - k
  {
    if k == MONTHS then map[]
    else (if k in dir then Latest(FileActions(dir[k])) else map[]) + LatestFrom(dir, k + 1)
  }

  lemma MonthOverrides(dir: Directory, k: nat)
    requires k < MONTHS && Filed(dir) && k in dir
    ensures Latest(Actions(dir, k + 1)) == Latest(Actions(dir, k)) + Latest(FileActions(dir[k]))
  {
    hide MonthOf, FileActions, Filed, LatestIn;
    var xs, ys := Actions(dir, k), FileActions(dir[k]);
    ActionsAreFiled(dir, k);
    MonthFileIsFiled(dir, k);
    forall x, y | x in xs && y in ys ensures x.ts <= y.ts {
      EarlierMonthIsEarlier(x.ts, y.ts);
    }
    LatestOfNewer(xs, ys, |ys|);
  }

  /** Because months are monotone in time, the whole record's answers are the older months'
      answers overridden by the newer months'. */
  lemma {:induction false} RecordSplits(dir: Directory, k: nat)
    requires k <= MONTHS && Filed(dir)
    ensures Latest(Actions(dir, MONTHS)) == Latest(Actions(dir, k)) + LatestFrom(dir, k)
    decreases MONTHS - k
  {
    hide FileActions, Filed, LatestIn, Actions;
    if k < MONTHS {
      RecordSplits(dir, k + 1);
      if k in dir {
        MonthOverrides(dir, k);
      } else {
        SkippedMonth(dir, k);
      }
    }
  }

  lemma SkippedMonth(dir: Directory, k: nat)
    requires k < MONTHS && k !in dir
    ensures Actions(dir, k + 1) == Actions(dir, k)
  {
  }

  function Restricted(latest: map<Ip, Action>, wanted: set<Ip>): map<Ip, Action> {
    map ip | ip in latest && ip in wanted :: latest[ip]
  }

  /** What the newest-first search gives: the byte reading's latest, restricted to the wanted
      addresses. */
  function Answer(dir: Directory, wanted: set<Ip>): map<Ip, Action> {
    Restricted(Latest(Actions(dir, MONTHS)), wanted)
  }

  /** The wanted addresses no month from k on answers. */
  function Open(dir: Directory, wanted: set<Ip>, k: nat): set<Ip>
    requires k <= MONTHS
  {
    wanted - LatestFrom(dir, k).Keys
  }

  /** What a newest-first search cannot read in the months from k on: it opens a month only
      while some wanted address is unanswered, and then notices what may be about one. */
  function Missed(dir: Directory, wanted: set<Ip>, k: nat): nat
    requires k <= MONTHS
    decreases MONTHS - k
  {
    if k == MONTHS then 0
    else
      var asked := Open(dir, wanted, k + 1);
      Missed(dir, wanted, k + 1) + (if k in dir && asked != {} then NoticedIn(dir[k], asked) else 0)
  }

  lemma {:induction false} NoticedIsCorrupt(lines: seq<Line>, n: nat, asked: set<Ip>)
    requires n <= |lines|
    ensures NoticedLines(lines, n, asked) <= CorruptLines(lines, n)
  {
    if n > 0 {
      NoticedIsCorrupt(lines, n - 1, asked);
    }
  }

  /** The search never reports more than there is to report. */
  lemma {:induction false} MissedIsBroken(dir: Directory, wanted: set<Ip>, k: nat)
    requires k <= MONTHS
    ensures Missed(dir, wanted, k) + Broken(dir, k) <= Broken(dir, MONTHS)
    decreases MONTHS - k
  {
    hide Open, CorruptLines, NoticedLines;
    if k < MONTHS {
      MissedIsBroken(dir, wanted, k + 1);
      if k in dir && dir[k].Lines? {
        NoticedIsCorrupt(dir[k].lines, |dir[k].lines|, Open(dir, wanted, k + 1));
      }
    }
  }

  /** Once every wanted address is answered nothing more is read. */
  lemma {:induction false} NothingMoreMissed(dir: Directory, wanted: set<Ip>, j: nat, k: nat)
    requires j <= k <= MONTHS && Open(dir, wanted, k) == {}
    ensures Missed(dir, wanted, j) == Missed(dir, wanted, k) && Open(dir, wanted, j) == {}
    decreases k - j
  {
    hide Latest, FileActions;
    if j < k {
      NothingMoreMissed(dir, wanted, j + 1, k);
      OpenShrinks(dir, wanted, j);
    }
  }

  lemma OpenShrinks(dir: Directory, wanted: set<Ip>, k: nat)
    requires k < MONTHS
    ensures Open(dir, wanted, k) <= Open(dir, wanted, k + 1)
  {
    hide Latest, FileActions;
  }

  // ---- the readers ----

  /** The months that have a file, in order. */
  function Listing(dir: Directory, k: nat): (ms: seq<Month>)
    requires k <= MONTHS
    ensures forall i :: 0 <= i < |ms| ==> ms[i] < k && ms[i] in dir
    ensures forall m :: m in dir && m < k ==> m in ms
    ensures forall i, j :: 0 <= i < j < |ms| ==> ms[i] < ms[j]
  {
    if k == 0 then [] else Listing(dir, k - 1) + (if k - 1 in dir then [k - 1] else [])
  }

  lemma {:induction false} NothingBetween(dir: Directory, a: nat, b: nat)
    requires a <= b <= MONTHS && forall m :: a <= m < b ==> m !in dir
    ensures Actions(dir, a) == Actions(dir, b) && Broken(dir, a) == Broken(dir, b)
    ensures LatestFrom(dir, a) == LatestFrom(dir, b)
    decreases b - a
  {
    if a < b {
      NothingBetween(dir, a, b - 1);
    }
  }

  lemma {:induction false} NothingMissedBetween(dir: Directory, wanted: set<Ip>, a: nat, b: nat)
    requires a <= b <= MONTHS && forall m :: a <= m < b ==> m !in dir
    ensures Missed(dir, wanted, a) == Missed(dir, wanted, b)
    decreases b - a
  {
    hide Open;
    if a < b {
      NothingMissedBetween(dir, wanted, a, b - 1);
    }
  }

  /** The first month not covered by the i oldest files, and the first covered by the rest. */
  function After(ms: seq<Month>, i: nat): (k: nat)
    requires i <= |ms|
    ensures k <= MONTHS
  {
    if i == 0 then 0 else ms[i - 1] as nat + 1
  }

  function Until(ms: seq<Month>, i: nat): (k: nat)
    requires i <= |ms|
    ensures k <= MONTHS
  {
    if i == |ms| then MONTHS else ms[i]
  }

  lemma ListedNext(dir: Directory, ms: seq<Month>, i: nat)
    requires ms == Listing(dir, MONTHS) && i <= |ms|
    ensures After(ms, i) <= Until(ms, i) && forall m :: After(ms, i) <= m < Until(ms, i) ==> m !in dir
  {
    hide Listing;
    forall j | 0 <= j < |ms| ensures ms[j] < After(ms, i) || ms[j] >= Until(ms, i) {
    }
  }

  /** One month's actions, line by line, and its corrupt lines. */
  method ReadMonth(f: File) returns (actions: seq<Action>, unreadable: nat)
    requires f.Lines?
    ensures actions == FileActions(f) && unreadable == BrokenIn(f)
  {
    actions, unreadable := [], 0;
    for j := 0 to |f.lines|
      invariant actions == ActionsOf(f.lines, j)
      invariant unreadable == CorruptLines(f.lines, j)
    {
      match f.lines[j]
      case Blank =>
      case Recorded(a, _) => actions := actions + [a];
      case Corrupt(_, _) => unreadable := unreadable + 1;
    }
  }

  /** What one more file adds to both readings. */
  lemma OneMoreFile(dir: Directory, files: seq<Month>, i: nat)
    requires files == Listing(dir, MONTHS) && i < |files|
    ensures After(files, i + 1) == files[i] as nat + 1
    ensures Actions(AsText(dir), After(files, i + 1))
         == Actions(AsText(dir), After(files, i)) + FileActions(AsText(dir)[files[i]])
    ensures Broken(AsText(dir), After(files, i + 1)) == Broken(AsText(dir), After(files, i)) + BrokenIn(AsText(dir)[files[i]])
  {
    hide Listing, ActionsOf, CorruptLines, BrokenIn;
    ListedNext(dir, files, i);
    NothingBetween(AsText(dir), After(files, i), files[i]);
  }

  /** Every recorded action, oldest file first, and how much could not be read. */
  method ReadAll(dir: Directory) returns (actions: seq<Action>, unreadable: nat)
    ensures actions == Actions(AsText(dir), MONTHS)
    ensures unreadable == Broken(AsText(dir), MONTHS)
  {
    hide Listing, Actions, Broken, After, ActionsOf, CorruptLines;
    var files := Listing(dir, MONTHS);
    ghost var text := AsText(dir);
    actions, unreadable := [], 0;
    NothingRecorded(text, files);
    for i := 0 to |files|
      invariant actions == Actions(text, After(files, i))
      invariant unreadable == Broken(text, After(files, i))
    {
      OneMoreFile(dir, files, i);
      var f := dir[files[i]];
      if !f.IsText() || f.Unreadable? {
        unreadable := unreadable + 1;
      } else {
        var more, broken := ReadMonth(f);
        actions, unreadable := actions + more, unreadable + broken;
      }
    }
    ListedNext(dir, files, |files|);
    NothingBetween(text, After(files, |files|), MONTHS);
  }

  lemma NothingRecorded(dir: Directory, files: seq<Month>)
    ensures Actions(dir, After(files, 0)) == [] && Broken(dir, After(files, 0)) == 0
  {
  }

  /** The latest action per address, by time. */
  method LatestByIp(actions: seq<Action>) returns (latest: map<Ip, Action>)
    ensures latest == Latest(actions)
  {
    latest := map[];
    for i := 0 to |actions|
      invariant latest == LatestIn(actions, i)
    {
      var a := actions[i];
      if !(a.ip in latest && latest[a.ip].ts > a.ts) {
        latest := latest[a.ip := a];
      }
    }
  }

  /** What one more line adds to a month's latest actions. */
  lemma OneMoreLine(lines: seq<Line>, i: nat)
    requires i < |lines|
    ensures var before, after := Latest(ActionsOf(lines, i)), Latest(ActionsOf(lines, i + 1));
            && after == (if lines[i].Recorded? then Updated(before, lines[i].a) else before)
            && forall ip :: ip in before ==> before[ip].ip == ip
  {
    var before := ActionsOf(lines, i);
    LatestIsHeld(before, |before|);
    if lines[i].Recorded? {
      LatestOfPrefix(before, [lines[i].a], |before|);
    } else {
      assert ActionsOf(lines, i + 1) == before;
    }
  }

  /** A new action moves the answers only when its address is wanted and not settled. */
  lemma SettledWins(latest: map<Ip, Action>, a: Action, wanted: set<Ip>, settled: map<Ip, Action>)
    requires forall ip :: ip in latest ==> latest[ip].ip == ip
    ensures var held := Restricted(latest, wanted) + settled;
            Restricted(Updated(latest, a), wanted) + settled
            == if a.ip in wanted && a.ip !in settled then Updated(held, a) else held
  {
  }

  /** One month's lines, for the wanted addresses no newer month has settled. */
  method ScanMonth(m: Month, f: File, wanted: set<Ip>, settled: map<Ip, Action>)
    returns (byIp: map<Ip, Action>, unreadable: nat)
    requires f.Lines? && FileFiled(m, f) && settled.Keys <= wanted
    ensures byIp == Restricted(Latest(FileActions(f)), wanted) + settled
    ensures unreadable == NoticedIn(f, wanted - settled.Keys)
  {
    hide MonthOf, ActionsOf, Latest, Restricted;
    byIp, unreadable := settled, 0;
    NoLineYet(f.lines, wanted, settled);
    for i := 0 to |f.lines|
      invariant byIp == Restricted(Latest(ActionsOf(f.lines, i)), wanted) + settled
      invariant unreadable == NoticedLines(f.lines, i, wanted - settled.Keys)
    {
      OneMoreLine(f.lines, i);
      match f.lines[i]
      case Blank =>
      case Corrupt(quick, _) =>
        if quick.None? || (quick.value in wanted && quick.value !in settled) {
          unreadable := unreadable + 1;
        }
      case Recorded(a, quick) =>
        SettledWins(Latest(ActionsOf(f.lines, i)), a, wanted, settled);
        if quick.None? || (quick.value in wanted && quick.value !in settled) {
          if a.ip in wanted && a.ip !in settled && !(a.ip in byIp && byIp[a.ip].ts > a.ts) {
            byIp := byIp[a.ip := a];
          }
        }
    }
  }

  lemma NoLineYet(lines: seq<Line>, wanted: set<Ip>, settled: map<Ip, Action>)
    ensures Restricted(Latest(ActionsOf(lines, 0)), wanted) + settled == settled
  {
    assert ActionsOf(lines, 0) == [];
  }

  /** A month's own answers, overridden by the newer months', answer from that month on. */
  lemma MonthAnswered(dir: Directory, k: nat, wanted: set<Ip>)
    requires k < MONTHS && k in dir && Open(dir, wanted, k + 1) != {}
    ensures var settled := Restricted(LatestFrom(dir, k + 1), wanted);
            && settled.Keys <= wanted
            && Restricted(LatestFrom(dir, k), wanted) == Restricted(Latest(FileActions(dir[k])), wanted) + settled
            && Missed(dir, wanted, k) == Missed(dir, wanted, k + 1) + NoticedIn(dir[k], wanted - settled.Keys)
            && (dir[k].Unreadable? ==> Restricted(LatestFrom(dir, k), wanted) == settled)
  {
    hide NoticedIn;
    if dir[k].Unreadable? {
      NothingRead(dir[k]);
    }
    assert wanted - Restricted(LatestFrom(dir, k + 1), wanted).Keys == Open(dir, wanted, k + 1);
  }

  lemma NothingRead(f: File)
    requires f.Unreadable?
    ensures Latest(FileActions(f)) == map[]
    ensures forall asked :: NoticedIn(f, asked) == 1
  {
  }

  /** The answers found so far tell whether anything is left to ask. */
  lemma OpenIsUnanswered(dir: Directory, k: nat, wanted: set<Ip>)
    requires k <= MONTHS
    ensures |Restricted(LatestFrom(dir, k), wanted)| == |wanted| <==> Open(dir, wanted, k) == {}
  {
    hide LatestFrom;
    var answered := Restricted(LatestFrom(dir, k), wanted).Keys;
    assert wanted == answered + Open(dir, wanted, k);
    assert |Restricted(LatestFrom(dir, k), wanted)| == |answered|;
  }

  /** Once every wanted address is answered from month k on, older months change nothing. */
  lemma AnsweredFrom(dir: Directory, k: nat, wanted: set<Ip>)
    requires k <= MONTHS && Filed(dir)
    requires k == 0 || Open(dir, wanted, k) == {}
    ensures Restricted(LatestFrom(dir, k), wanted) == Answer(dir, wanted)
    ensures Missed(dir, wanted, k) == Missed(dir, wanted, 0)
  {
    hide Filed, LatestFrom;
    RecordSplits(dir, k);
    if k == 0 {
      assert Latest(Actions(dir, 0)) == map[];
    } else {
      NothingMoreMissed(dir, wanted, 0, k);
      assert forall ip :: ip in wanted ==> ip in LatestFrom(dir, k) by {
        forall ip | ip in wanted ensures ip in LatestFrom(dir, k) {
          assert ip !in Open(dir, wanted, k);
        }
      }
    }
  }

  lemma NobodyWanted(dir: Directory)
    ensures Answer(dir, {}) == map[] && Missed(dir, {}, 0) == 0
  {
    NothingMoreMissed(dir, {}, 0, MONTHS);
  }

  lemma NothingLater(dir: Directory, wanted: set<Ip>)
    ensures Restricted(LatestFrom(dir, MONTHS), wanted) == map[]
    ensures Missed(dir, wanted, MONTHS) == 0 && Open(dir, wanted, MONTHS) == wanted
  {
  }

  /** What one more file, going back in time, adds to the search. */
  lemma NextMonth(dir: Directory, files: seq<Month>, i: nat, wanted: set<Ip>)
    requires files == Listing(dir, MONTHS) && 0 < i <= |files| && Open(dir, wanted, Until(files, i)) != {}
    ensures var k, later := files[i - 1], Until(files, i);
            var settled, f := Restricted(LatestFrom(dir, later), wanted), dir[k];
            && settled.Keys <= wanted
            && Restricted(LatestFrom(dir, k), wanted)
               == (if f.Unreadable? then settled else Restricted(Latest(FileActions(f)), wanted) + settled)
            && Missed(dir, wanted, k)
               == Missed(dir, wanted, later) + (if f.Unreadable? then 1 else NoticedIn(f, wanted - settled.Keys))
            && (Open(dir, wanted, k) == {} <==> |Restricted(LatestFrom(dir, k), wanted)| == |wanted|)
            && (f.Unreadable? ==> Open(dir, wanted, k) != {})
  {
    hide Listing, Latest, Actions, FileActions, NoticedIn, Missed, Open, Restricted, LatestFrom, Broken;
    var k: nat := files[i - 1];
    ListedNext(dir, files, i);
    NothingBetween(dir, k + 1, Until(files, i));
    NothingMissedBetween(dir, wanted, k + 1, Until(files, i));
    OpenIsUnanswered(dir, Until(files, i), wanted);
    OpenIsUnanswered(dir, k + 1, wanted);
    OpenIsUnanswered(dir, k, wanted);
    MonthAnswered(dir, k, wanted);
    if dir[k].Unreadable? {
      NothingRead(dir[k]);
    }
  }

  /** When every file has been read. */
  lemma SearchEnds(dir: Directory, files: seq<Month>, wanted: set<Ip>)
    requires files == Listing(dir, MONTHS) && Filed(dir)
    ensures Restricted(LatestFrom(dir, Until(files, 0)), wanted) == Answer(dir, wanted)
    ensures Missed(dir, wanted, Until(files, 0)) == Missed(dir, wanted, 0)
  {
    hide Listing, Filed, Actions, Missed, Restricted, LatestFrom, Answer, Broken;
    ListedNext(dir, files, 0);
    NothingBetween(dir, 0, Until(files, 0));
    NothingMissedBetween(dir, wanted, 0, Until(files, 0));
    AnsweredFrom(dir, 0, wanted);
  }

  /** The latest action of each wanted address, reading the newest month first, skipping lines
      about settled addresses, and stopping once every wanted address is answered: exactly
      what reading every line of every month and taking the latest gives. */
  method LatestFor(dir: Directory, wanted: set<Ip>) returns (byIp: map<Ip, Action>, unreadable: nat)
    requires Filed(dir)
    ensures byIp == Answer(dir, wanted)
    ensures unreadable == Missed(dir, wanted, 0)
  {
    hide Listing, Latest, Actions, FileFiled, FileActions, NoticedIn, Missed, Open, Restricted, LatestFrom, Answer;
    byIp, unreadable := map[], 0;
    NothingLater(dir, wanted);
    if wanted == {} {
      NobodyWanted(dir);
      return;
    }
    var files := Listing(dir, MONTHS);
    var i: nat := |files|;
    while i > 0
      invariant i <= |files|
      invariant byIp == Restricted(LatestFrom(dir, Until(files, i)), wanted)
      invariant unreadable == Missed(dir, wanted, Until(files, i))
      invariant Open(dir, wanted, Until(files, i)) != {}
    {
      NextMonth(dir, files, i, wanted);
      i := i - 1;
      var f := dir[files[i]];
      if f.Unreadable? {
        unreadable := unreadable + 1;
        continue;
      }
      var more: nat;
      byIp, more := ScanMonth(files[i], f, wanted, byIp);
      unreadable := unreadable + more;
      if |byIp| == |wanted| {
        AnsweredFrom(dir, files[i], wanted);
        return;
      }
    }
    SearchEnds(dir, files, wanted);
  }

  // ---- reading as text ----

  /** Is this the month of a file some of whose lines are gone from `thin`? */
  predicate Gone(dir: Directory, thin: Directory, m: int) {
    0 <= m < MONTHS && m in dir && (m !in thin || thin[m] != dir[m])
  }

  /** The second directory is the first with some files emptied or removed. */
  predicate Thins(dir: Directory, thin: Directory) {
    && thin.Keys <= dir.Keys
    && forall m :: m in thin ==> thin[m] == dir[m] || FileActions(thin[m]) == []
  }

  /** What losing whole files does to the answer for one address. */
  predicate ThinnedAnswer(dir: Directory, thin: Directory, full: map<Ip, Action>, rest: map<Ip, Action>, ip: Ip) {
    && (ip in rest ==> && ip in full && rest[ip].ts <= full[ip].ts
                       && !Gone(dir, thin, MonthOf(rest[ip].ts)))
    && (ip in full ==> if Gone(dir, thin, MonthOf(full[ip].ts)) then ip !in rest || rest[ip] != full[ip]
                       else ip in rest && rest[ip] == full[ip])
  }

  lemma {:induction false} ThinnedLatest(dir: Directory, thin: Directory, k: nat, ip: Ip)
    requires k <= MONTHS && Filed(dir) && Filed(thin) && Thins(dir, thin)
    ensures ThinnedAnswer(dir, thin, Latest(Actions(dir, k)), Latest(Actions(thin, k)), ip)
  {
    hide MonthOf, FileActions, Filed, LatestIn, Actions;
    if k == 0 {
      NothingIn(dir);
      NothingIn(thin);
    } else {
      ThinnedLatest(dir, thin, k - 1, ip);
      ThinnedMonth(dir, thin, k - 1, ip);
    }
  }

  lemma NothingIn(dir: Directory)
    ensures Latest(Actions(dir, 0)) == map[]
  {
  }

  /** One more month: its answers override. */
  lemma WithMonth(dir: Directory, k: nat, ip: Ip)
    requires k < MONTHS && Filed(dir)
    ensures var month := if k in dir then Latest(FileActions(dir[k])) else map[];
            && Latest(Actions(dir, k + 1)) == Latest(Actions(dir, k)) + month
            && (ip in month ==> MonthOf(month[ip].ts) == k)
            && (ip in Latest(Actions(dir, k)) ==> MonthOf(Latest(Actions(dir, k))[ip].ts) < k)
  {
    hide MonthOf, FileActions, Filed, LatestIn;
    ActionsAreFiled(dir, k);
    LatestIsHeld(Actions(dir, k), |Actions(dir, k)|);
    if k in dir {
      MonthOverrides(dir, k);
      MonthFileIsFiled(dir, k);
      LatestIsHeld(FileActions(dir[k]), |FileActions(dir[k])|);
    } else {
      SkippedMonth(dir, k);
    }
  }

  lemma ThinnedMonth(dir: Directory, thin: Directory, k: nat, ip: Ip)
    requires k < MONTHS && Filed(dir) && Filed(thin) && Thins(dir, thin)
    requires ThinnedAnswer(dir, thin, Latest(Actions(dir, k)), Latest(Actions(thin, k)), ip)
    ensures ThinnedAnswer(dir, thin, Latest(Actions(dir, k + 1)), Latest(Actions(thin, k + 1)), ip)
  {
    hide MonthOf, FileActions, Filed, Latest, Actions;
    WithMonth(dir, k, ip);
    WithMonth(thin, k, ip);
    EmptyLatest();
    if ip in Latest(Actions(dir, k + 1)) && ip in Latest(Actions(thin, k + 1)) {
      var x, y := Latest(Actions(thin, k + 1))[ip], Latest(Actions(dir, k + 1))[ip];
      if MonthOf(x.ts) < MonthOf(y.ts) {
        EarlierMonthIsEarlier(x.ts, y.ts);
      }
    }
  }

  lemma EmptyLatest()
    ensures Latest([]) == map[]
  {
  }

  /** A readable file with a line about the address. */
  predicate Speaks(f: File, ip: Ip) {
    f.Lines? && exists i :: 0 <= i < |f.lines| && f.lines[i].Recorded? && f.lines[i].a.ip == ip
  }

  /** Month m is the newest before k whose file has a line about the address. */
  predicate NewestMonth(dir: Directory, k: nat, m: Month, ip: Ip) {
    && m < k && m in dir && Speaks(dir[m], ip)
    && forall later :: later in dir && m < later < k ==> !Speaks(dir[later], ip)
  }

  /** For each wanted address, the newest month with a line about it is a text file. */
  predicate NewestAreText(dir: Directory, wanted: set<Ip>) {
    forall m, ip :: m in dir && ip in wanted && NewestMonth(dir, MONTHS, m, ip) ==> dir[m].IsText()
  }

  lemma {:induction false} SpokenIsRead(lines: seq<Line>, n: nat, ip: Ip)
    requires n <= |lines|
    ensures (exists a :: a in ActionsOf(lines, n) && a.ip == ip)
       <==> exists i :: 0 <= i < n && lines[i].Recorded? && lines[i].a.ip == ip
  {
    if n > 0 {
      SpokenIsRead(lines, n - 1, ip);
      if lines[n - 1].Recorded? && lines[n - 1].a.ip == ip {
        assert lines[n - 1].a in ActionsOf(lines, n);
      } else if a :| a in ActionsOf(lines, n - 1) && a.ip == ip {
        assert a in ActionsOf(lines, n);
      }
    }
  }

  lemma SpokenIsLatest(f: File, ip: Ip)
    ensures ip in Latest(FileActions(f)) <==> Speaks(f, ip)
  {
    if f.Lines? {
      hide ActionsOf;
      var actions := FileActions(f);
      SpokenIsRead(f.lines, |f.lines|, ip);
      LatestIsNewest(actions, |actions|, ip);
      if a :| a in actions && a.ip == ip {
        var i :| 0 <= i < |actions| && actions[i] == a;
      }
    }
  }

  /** The newest action of an address lies in the newest month with a line about it. */
  lemma {:induction false} NewestMonthHoldsLatest(dir: Directory, k: nat, m: Month, ip: Ip)
    requires k <= MONTHS && Filed(dir)
    ensures NewestMonth(dir, k, m, ip)
       <==> ip in Latest(Actions(dir, k)) && MonthOf(Latest(Actions(dir, k))[ip].ts) == m
  {
    hide MonthOf, FileActions, Filed, Speaks, Latest, Actions;
    if k == 0 {
      NothingIn(dir);
    } else {
      NewestMonthHoldsLatest(dir, k - 1, m, ip);
      WithMonth(dir, k - 1, ip);
      if k - 1 in dir {
        SpokenIsLatest(dir[k - 1], ip);
      }
    }
  }

  lemma AsTextThins(dir: Directory)
    ensures Thins(dir, AsText(dir))
  {
  }

  /** The search is documented to agree with reading every file as text and taking the latest.
      It does exactly when, for each wanted address, the newest month with a line about it is
      text; the text reading loses a file that is not text whole. */
  lemma SearchAgreesWithTextReading(dir: Directory, wanted: set<Ip>)
    requires Filed(dir)
    ensures Answer(dir, wanted) == Restricted(Latest(Actions(AsText(dir), MONTHS)), wanted) <==> NewestAreText(dir, wanted)
  {
    hide MonthOf, Filed, Actions, Latest, NewestMonth;
    AsTextIsFiled(dir);
    AsTextThins(dir);
    var full, rest := Latest(Actions(dir, MONTHS)), Latest(Actions(AsText(dir), MONTHS));
    forall ip: Ip ensures ThinnedAnswer(dir, AsText(dir), full, rest, ip) {
      ThinnedLatest(dir, AsText(dir), MONTHS, ip);
    }
    if NewestAreText(dir, wanted) {
      forall ip | ip in wanted ensures ip in full <==> ip in rest
        ensures ip in full ==> full[ip] == rest[ip]
      {
        assert ThinnedAnswer(dir, AsText(dir), full, rest, ip);
        if ip in full {
          var m := MonthFileOf(full[ip].ts);
          NewestMonthHoldsLatest(dir, MONTHS, m, ip);
        }
      }
    } else {
      var m, ip :| m in dir && ip in wanted && NewestMonth(dir, MONTHS, m, ip) && !dir[m].IsText();
      NewestMonthHoldsLatest(dir, MONTHS, m, ip);
      assert Gone(dir, AsText(dir), m) && ThinnedAnswer(dir, AsText(dir), full, rest, ip);
      assert ip in Answer(dir, wanted) && Answer(dir, wanted)[ip] == full[ip];
    }
  }

  /** When every file is text the two always agree. */
  lemma TextRecordsAgree(dir: Directory, wanted: set<Ip>)
    requires Filed(dir) && forall m :: m in dir ==> dir[m].IsText()
    ensures Answer(dir, wanted) == Restricted(Latest(Actions(AsText(dir), MONTHS)), wanted)
  {
    hide MonthOf, Filed, Actions, Latest;
    SearchAgreesWithTextReading(dir, wanted);
  }

  // ---- what happens to a record directory ----

  /** The directory's lines for a month: none before its file exists. */
  function LinesIn(dir: Directory, m: Month): File {
    if m in dir then dir[m] else Lines([], false)
  }

  datatype Op =
    | Append(a: Action, joined: Option<Ip>)
    | Interrupt(ts: Seconds, line: Line)
    | Prune(now: Seconds, window: nat)
    | Lock(m: Month)
  {
    /** What an interrupted write of one action leaves: text that is no action, or the whole
        line without its end. */
    predicate Valid() {
      Interrupt? && line.Recorded? ==> line.a.ts == ts && line.quick == Some(line.a.ip)
    }
  }

  /** A line is added to the file of its month; after an interrupted write it joins the
      unfinished line and both are lost. Nothing is added to a file that cannot be opened. */
  function Added(dir: Directory, ts: Seconds, line: Line, cut: bool, joined: Option<Ip>): Directory {
    var m := MonthFileOf(ts);
    match LinesIn(dir, m)
    case Unreadable => dir
    case Lines(lines, unfinished) =>
      if unfinished && lines != [] then
        dir[m := Lines(lines[|lines| - 1 := Corrupt(joined, lines[|lines| - 1].IsText() && line.IsText())], cut)]
      else dir[m := Lines(lines + [line], cut)]
  }

  function MonthsEnd(m: Month): nat {
    MonthEnd(m / 12, m % 12 + 1)
  }

  /** A month whose last second is older than the window. */
  predicate Expired(m: Month, now: nat, window: nat) {
    MonthsEnd(m) < SatSub(now, window)
  }

  /** The files of expired months are deleted. */
  function Pruned(dir: Directory, now: nat, window: nat): Directory {
    map m | m in dir && !Expired(m, now, window) :: dir[m]
  }

  /** The files of expired months among the first k listed are deleted. */
  function PrunedUntil(dir: Directory, files: seq<Month>, k: nat, now: nat, window: nat): Directory
    requires k <= |files|
  {
    map m | m in dir && !(m in files[..k] && Expired(m, now, window)) :: dir[m]
  }

  function Step(dir: Directory, op: Op): Directory {
    match op
    case Append(a, joined) => Added(dir, a.ts, Recorded(a, Some(a.ip)), false, joined)
    case Interrupt(ts, line) => Added(dir, ts, line, true, None)
    case Prune(now, window) => Pruned(dir, now, window)
    case Lock(m) => if m in dir then dir[m := Unreadable] else dir
  }

  function Run(ops: seq<Op>, n: nat): Directory
    requires n <= |ops|
  {
    if n == 0 then map[] else Step(Run(ops, n - 1), ops[n - 1])
  }

  lemma StepKeepsFiled(dir: Directory, op: Op)
    requires Filed(dir) && op.Valid()
    ensures Filed(Step(dir, op))
  {
    hide MonthOf, MonthsEnd;
  }

  /** Every directory the program writes, through appends, interrupted appends, retention and
      files becoming unreadable, keeps each action in its own month's file. */
  lemma {:induction false} RunIsFiled(ops: seq<Op>, n: nat)
    requires n <= |ops| && forall i :: 0 <= i < n ==> ops[i].Valid()
    ensures Filed(Run(ops, n))
  {
    hide Step, FileFiled, Op.Valid;
    if n > 0 {
      RunIsFiled(ops, n - 1);
      StepKeepsFiled(Run(ops, n - 1), ops[n - 1]);
    }
  }

  // ---- retention ----

  /** A month's file is deleted exactly when the month is over, and every second of it lies
      before the window. Months before 1970 have no seconds and are never deleted. */
  lemma PruneIsExact(dir: Directory, now: Seconds, window: nat, m: Month)
    requires m in dir && MonthIndex(1970, 1) <= m
    ensures m !in Pruned(dir, now, window) ==> forall ts: Seconds :: MonthOf(ts) == m ==> ts < SatSub(now, window)
    ensures m in Pruned(dir, now, window) ==> MonthsEnd(m) == U32_MAX || exists ts: Seconds :: MonthOf(ts) == m && ts >= SatSub(now, window)
  {
    hide MonthOf, MonthEnd;
    var cutoff := SatSub(now, window);
    if m in Pruned(dir, now, window) {
      if MonthsEnd(m) < U32_MAX {
        MonthHoldsItsEnd(m / 12, m % 12 + 1);
        var end: Seconds := MonthsEnd(m);
        assert MonthOf(end) == m;
      }
    } else {
      forall ts: Seconds | MonthOf(ts) == m ensures ts < cutoff {
        OwnMonthHasNotEnded(ts, m / 12, m % 12 + 1);
      }
    }
  }

  /** Retention never deletes the current month's file, nor any file that may hold an action
      at or after the cutoff. */
  lemma PruneIsSafe(dir: Directory, now: Seconds, window: nat, ts: Seconds)
    requires MonthFileOf(ts) in dir && (ts >= SatSub(now, window) || MonthOf(ts) == MonthOf(now))
    ensures MonthFileOf(ts) in Pruned(dir, now, window)
  {
    hide MonthOf, MonthEnd;
    MonthsOfTheClock(ts);
    var m := MonthFileOf(ts);
    OwnMonthHasNotEnded(ts, m / 12, m % 12 + 1);
    if MonthOf(ts) == MonthOf(now) {
      OwnMonthHasNotEnded(now, m / 12, m % 12 + 1);
    }
  }

  lemma RemoveOne(dir: Directory, m: Month)
    requires m in dir
    ensures |dir - {m}| == |dir| - 1
  {
    assert dir.Keys == (dir - {m}).Keys + {m};
    assert |dir| == |dir.Keys| && |dir - {m}| == |(dir - {m}).Keys|;
  }

  /** The files of a directory, in whatever order it lists them. */
  predicate IsListing(dir: Directory, files: seq<Month>) {
    && dir.Keys == (set m | m in files)
    && (forall i, j :: 0 <= i < j < |files| ==> files[i] != files[j])
  }

  lemma PrunedOnce(dir: Directory, files: seq<Month>, i: nat, now: nat, window: nat)
    requires IsListing(dir, files) && i < |files|
    ensures var left := PrunedUntil(dir, files, i, now, window);
            && files[i] in left
            && PrunedUntil(dir, files, i + 1, now, window) == if Expired(files[i], now, window) then left - {files[i]} else left
  {
    hide MonthsEnd, Expired;
    assert files[..i + 1] == files[..i] + [files[i]];
  }

  /** Deletes, file by file in the order the directory lists them, the months wholly older than
      the window, and gives up at the first one that cannot be deleted. */
  method Prune(dir: Directory, files: seq<Month>, stuck: set<Month>, now: Seconds, window: nat)
    returns (left: Directory, removed: nat, failed: Option<Month>)
    requires IsListing(dir, files)
    ensures removed == |dir| - |left|
    ensures failed.None? ==> left == Pruned(dir, now, window) && forall m :: m in dir && m in stuck ==> !Expired(m, now, window)
    ensures failed.Some? ==>
              exists k :: 0 <= k < |files| && files[k] == failed.value && files[k] in stuck && Expired(files[k], now, window)
                     && left == PrunedUntil(dir, files, k, now, window)
                     && forall j :: 0 <= j < k && Expired(files[j], now, window) ==> files[j] !in stuck
  {
    hide MonthsEnd;
    var cutoff := SatSub(now, window);
    left, removed, failed := dir, 0, None;
    NonePruned(dir, files, now, window);
    for i := 0 to |files|
      invariant left == PrunedUntil(dir, files, i, now, window)
      invariant removed + |left| == |dir|
      invariant forall j :: 0 <= j < i && Expired(files[j], now, window) ==> files[j] !in stuck
    {
      PrunedOnce(dir, files, i, now, window);
      if MonthsEnd(files[i]) < cutoff {
        if files[i] in stuck {
          failed := Some(files[i]);
          return;
        }
        RemoveOne(left, files[i]);
        left := left - {files[i]};
        removed := removed + 1;
      }
    }
    AllPruned(dir, files, now, window);
  }

  lemma NonePruned(dir: Directory, files: seq<Month>, now: nat, window: nat)
    ensures PrunedUntil(dir, files, 0, now, window) == dir
  {
  }

  lemma AllPruned(dir: Directory, files: seq<Month>, now: nat, window: nat)
    requires IsListing(dir, files)
    ensures PrunedUntil(dir, files, |files|, now, window) == Pruned(dir, now, window)
    ensures files[..|files|] == files
  {
    hide Expired;
    assert files[..|files|] == files;
  }

  lemma PruneKeepsFiled(dir: Directory, now: nat, window: nat)
    requires Filed(dir)
    ensures Filed(Pruned(dir, now, window)) && Thins(dir, Pruned(dir, now, window))
  {
    hide MonthOf, Expired;
  }

  lemma {:induction false} SpokenSomewhere(dir: Directory, k: nat, ip: Ip)
    requires k <= MONTHS && Filed(dir)
    ensures ip in Latest(Actions(dir, k)) <==> exists m :: m in dir && m < k && Speaks(dir[m], ip)
  {
    hide MonthOf, FileActions, Filed, Speaks, Latest, Actions;
    if k == 0 {
      NothingIn(dir);
    } else {
      SpokenSomewhere(dir, k - 1, ip);
      WithMonth(dir, k - 1, ip);
      if k - 1 in dir {
        SpokenIsLatest(dir[k - 1], ip);
      }
    }
  }

  /** Retention that gives up half way: an address whose latest action is deleted falls back on
      an older one exactly when some older month with a line about it was not deleted. */
  lemma StoppedPruneFallsBack(dir: Directory, files: seq<Month>, k: nat, now: nat, window: nat, ip: Ip)
    requires Filed(dir) && k <= |files|
    ensures var left := PrunedUntil(dir, files, k, now, window);
            var full, rest := Latest(Actions(dir, MONTHS)), Latest(Actions(left, MONTHS));
            if ip in full && MonthFileOf(full[ip].ts) in left then ip in rest && rest[ip] == full[ip]
            else (ip in rest <==> ip in full && exists m :: m in left && m < MonthFileOf(full[ip].ts) && Speaks(left[m], ip))
                 && (ip in rest ==> rest[ip].ts < full[ip].ts)
  {
    hide MonthOf, Expired, Filed, Actions, Latest, Speaks;
    var left := PrunedUntil(dir, files, k, now, window);
    StoppedPruneKeepsFiled(dir, files, k, now, window);
    ThinnedLatest(dir, left, MONTHS, ip);
    SpokenSomewhere(left, MONTHS, ip);
    var full, rest := Latest(Actions(dir, MONTHS)), Latest(Actions(left, MONTHS));
    if ip in full {
      HeldInAFile(dir, ip);
      var m := MonthFileOf(full[ip].ts);
      NewestMonthHoldsLatest(dir, MONTHS, m, ip);
      if ip in rest && m !in left {
        HeldInAFile(left, ip);
        NewestMonthHoldsLatest(left, MONTHS, MonthFileOf(rest[ip].ts), ip);
        EarlierMonthIsEarlier(rest[ip].ts, full[ip].ts);
      }
    }
  }

  lemma StoppedPruneKeepsFiled(dir: Directory, files: seq<Month>, k: nat, now: nat, window: nat)
    requires Filed(dir) && k <= |files|
    ensures var left := PrunedUntil(dir, files, k, now, window); Filed(left) && Thins(dir, left)
  {
    hide MonthOf, Expired;
  }

  /** Under a retention that deletes what it should, an address's latest action survives
      unchanged exactly when its month does, and is otherwise forgotten altogether: no older
      action of the address ever resurfaces. */
  lemma PruneForgetsWholly(dir: Directory, now: Seconds, window: nat, ip: Ip)
    requires Filed(dir)
    ensures var full, rest := Latest(Actions(dir, MONTHS)), Latest(Actions(Pruned(dir, now, window), MONTHS));
            if ip in full && MonthsEnd(MonthFileOf(full[ip].ts)) >= SatSub(now, window) then ip in rest && rest[ip] == full[ip]
            else ip !in rest
  {
    hide MonthOf, MonthsEnd, Filed, Actions, Latest;
    var thin := Pruned(dir, now, window);
    PruneKeepsFiled(dir, now, window);
    ThinnedLatest(dir, thin, MONTHS, ip);
    var full, rest := Latest(Actions(dir, MONTHS)), Latest(Actions(thin, MONTHS));
    if ip in full {
      HeldInAFile(dir, ip);
      if ip in rest {
        HeldInAFile(thin, ip);
        LaterFileEndsLater(rest[ip].ts, full[ip].ts);
      }
    }
  }

  lemma HeldInAFile(dir: Directory, ip: Ip)
    requires Filed(dir) && ip in Latest(Actions(dir, MONTHS))
    ensures MonthFileOf(Latest(Actions(dir, MONTHS))[ip].ts) in dir
  {
    hide MonthOf, Filed, Actions, LatestIn;
    LatestIsHeld(Actions(dir, MONTHS), |Actions(dir, MONTHS)|);
    ActionHasAFile(dir, MONTHS, Latest(Actions(dir, MONTHS))[ip]);
  }

  lemma {:induction false} ActionHasAFile(dir: Directory, k: nat, a: Action)
    requires k <= MONTHS && Filed(dir) && a in Actions(dir, k)
    ensures MonthFileOf(a.ts) in dir
  {
    hide MonthOf, Filed, FileActions;
    if k - 1 in dir && a in FileActions(dir[k - 1]) {
      MonthFileIsFiled(dir, k - 1);
    } else {
      ActionHasAFile(dir, k - 1, a);
    }
  }

  lemma LaterFileEndsLater(t: Seconds, t': Seconds)
    requires t <= t'
    ensures MonthsEnd(MonthFileOf(t)) <= MonthsEnd(MonthFileOf(t'))
  {
    hide MonthOf, MonthEnd;
    MonthsOfTheClock(t);
    MonthIsMonotone(t, t');
    var m, m' := MonthFileOf(t), MonthFileOf(t');
    MonthEndIsMonotone(m / 12, m % 12 + 1, m' / 12, m' % 12 + 1);
  }

  // ---- bans a starting daemon places again ----

  datatype Reapply = Reapply(ip: Ip, ttl: nat, source: string)

  /** A ban still standing at an instant, and the seconds it has left: zero for one that never
      lapses. */
  function Standing(a: Action, now: Seconds): Option<Reapply> {
    if a.verb == Unban then None
    else match a.expires
      case None => Some(Reapply(a.ip, 0, a.source))
      case Some(e) => if e > now then Some(Reapply(a.ip, e - now, a.source)) else None
  }

  /** What the latest actions leave standing for one address. */
  function StandingFor(latest: map<Ip, Action>, now: Seconds, ip: Ip): Option<Reapply> {
    if ip in latest then Standing(latest[ip], now) else None
  }

  predicate Ascending(plan: seq<Reapply>) {
    forall i, j :: 0 <= i < j < |plan| ==> plan[i].ip < plan[j].ip
  }

  /** A head before everything in an ascending list. */
  lemma HeadFirst(head: Reapply, rest: seq<Reapply>)
    requires Ascending(rest) && forall x :: x in rest ==> head.ip < x.ip
    ensures Ascending([head] + rest)
    ensures forall x :: x in [head] + rest <==> x == head || x in rest
  {
    forall i | 0 <= i < |rest| ensures head.ip < rest[i].ip {
      assert rest[i] in rest;
    }
  }

  lemma HeadAndTail(plan: seq<Reapply>)
    requires plan != [] && Ascending(plan)
    ensures Ascending(plan[1..]) && forall x :: x in plan <==> x == plan[0] || x in plan[1..]
    ensures forall x :: x in plan[1..] ==> plan[0].ip < x.ip
  {
    assert plan == [plan[0]] + plan[1..];
  }

  /** Puts one entry in its place by address. */
  function Inserted(plan: seq<Reapply>, r: Reapply): (longer: seq<Reapply>)
    requires Ascending(plan) && forall x :: x in plan ==> x.ip != r.ip
    ensures Ascending(longer)
    ensures forall x :: x in longer <==> x == r || x in plan
  {
    if plan == [] then [r]
    else
      HeadAndTail(plan);
      assert plan[0] in plan;
      if r.ip < plan[0].ip then
        HeadFirst(r, plan);
        [r] + plan
      else
        var rest := Inserted(plan[1..], r);
        HeadFirst(plan[0], rest);
        [plan[0]] + rest
  }

  /** The manual bans still in force, by address: for each address exactly what its latest
      action leaves standing. */
  method ReapplyPlan(actions: seq<Action>, now: Seconds) returns (plan: seq<Reapply>)
    ensures Ascending(plan)
    ensures forall r :: r in plan <==> StandingFor(Latest(actions), now, r.ip) == Some(r)
  {
    hide LatestIn;
    var latest := LatestByIp(actions);
    LatestIsHeld(actions, |actions|);
    plan := [];
    var left := latest.Keys;
    while left != {}
      invariant left <= latest.Keys
      invariant Ascending(plan)
      invariant forall r :: r in plan <==> r.ip !in left && StandingFor(latest, now, r.ip) == Some(r)
      decreases |left|
    {
      var ip :| ip in left;
      left := left - {ip};
      var a := latest[ip];
      if a.verb == Ban && (a.expires.None? || a.expires.value > now) {
        plan := Inserted(plan, Reapply(a.ip, if a.expires.None? then 0 else a.expires.value - now, a.source));
      }
    }
  }

  lemma PrunedAsText(dir: Directory, now: nat, window: nat)
    ensures AsText(Pruned(dir, now, window)) == Pruned(AsText(dir), now, window)
  {
    hide MonthsEnd;
  }

  /** Retention reaches the bans a restart places again: one that still stands is kept, as it
      was, exactly when the month of its action is within the window, and otherwise the address
      is not re-banned, not even by an older action. */
  lemma RetentionBoundsStandingBans(dir: Directory, now: Seconds, window: nat, later: Seconds, ip: Ip)
    requires Filed(dir)
    ensures var before := Latest(Actions(AsText(dir), MONTHS));
            StandingFor(Latest(Actions(AsText(Pruned(dir, now, window)), MONTHS)), later, ip)
            == if ip in before && MonthsEnd(MonthFileOf(before[ip].ts)) >= SatSub(now, window) then StandingFor(before, later, ip)
               else None
  {
    hide MonthOf, MonthsEnd, Filed, Actions, Latest;
    AsTextIsFiled(dir);
    PrunedAsText(dir, now, window);
    PruneForgetsWholly(AsText(dir), now, window, ip);
  }
}
