/** Short reachable records on which the program does not do what one would expect of it. */
module ManualCases {
  import opened Numerics
  import opened Calendar
  import opened ManualLog

  const JANUARY: Month := 23_640
  const FEBRUARY: Month := 23_641

  lemma FirstMonths()
    ensures MonthFileOf(0) == JANUARY && MonthsEnd(JANUARY) == 2_678_399
    ensures MonthFileOf(2_678_400) == FEBRUARY && MonthsEnd(FEBRUARY) == 5_097_599
  {
    hide MonthOf, MonthEnd;
    ClockStarts();
    FirstMonthEnds();
    MonthEndIsItsLastSecond(2_678_400, 1970, 1);
    MonthEndIsItsLastSecond(2_678_400, 1970, 2);
  }

  lemma FirstMonthEnds()
    ensures MonthEnd(1970, 1) == 2_678_399 && MonthEnd(1970, 2) == 5_097_599
  {
    hide DaysFromCivil;
    FirstOfFebruary();
    FirstOfMarch();
  }

  lemma FirstOfFebruary()
    ensures DaysFromCivil(Date(1970, 2, 1)) == 31
  {
  }

  lemma FirstOfMarch()
    ensures DaysFromCivil(Date(1970, 3, 1)) == 59
  {
  }

  /** A complete line about one action. */
  function LineOf(a: Action): Line {
    Recorded(a, Some(a.ip))
  }

  /** The first action of its month starts the month's file. */
  lemma FirstLine(dir: Directory, a: Action)
    requires MonthFileOf(a.ts) !in dir
    ensures Step(dir, Append(a, None)) == dir[MonthFileOf(a.ts) := Lines([LineOf(a)], false)]
  {
    hide MonthOf;
    assert [] + [LineOf(a)] == [LineOf(a)];
  }

  lemma RunOnce(ops: seq<Op>, n: nat)
    requires n < |ops|
    ensures Run(ops, n + 1) == Step(Run(ops, n), ops[n]) && Run(ops, 0) == map[]
  {
    hide Step;
  }

  lemma LatestOfOne(a: Action)
    ensures Latest([a]) == map[a.ip := a]
  {
    assert LatestIn([a], 1) == Updated(LatestIn([a], 0), a);
  }

  /** A month with one action, over what came before it. */
  lemma MonthOfOne(dir: Directory, m: Month, a: Action)
    requires Filed(dir) && m in dir && FileActions(dir[m]) == [a]
    ensures Latest(Actions(dir, m as nat + 1)) == Latest(Actions(dir, m))[a.ip := a]
    ensures MonthFileOf(a.ts) == m
  {
    hide MonthOf, FileActions, Filed, Actions, LatestIn;
    assert a in [a];
    MonthFileIsFiled(dir, m);
    WithMonth(dir, m, a.ip);
    LatestOfOne(a);
  }

  /** A record of one month with one action. */
  lemma OneAction(dir: Directory, m: Month, a: Action)
    requires Filed(dir) && dir.Keys == {m} && FileActions(dir[m]) == [a]
    ensures Latest(Actions(dir, MONTHS)) == map[a.ip := a] && MonthFileOf(a.ts) == m
  {
    hide MonthOf, FileActions, Filed, Actions, Latest, Broken, LatestFrom;
    NothingIn(dir);
    NothingBetween(dir, 0, m);
    MonthOfOne(dir, m, a);
    NothingBetween(dir, m as nat + 1, MONTHS);
  }

  /** A record of two months with one action each. */
  lemma TwoActions(dir: Directory, m: Month, a: Action, m': Month, a': Action)
    requires Filed(dir) && m < m' && dir.Keys == {m, m'} && FileActions(dir[m]) == [a] && FileActions(dir[m']) == [a']
    ensures Latest(Actions(dir, MONTHS)) == map[a.ip := a][a'.ip := a']
  {
    hide MonthOf, FileActions, Filed, Actions, Latest, Broken, LatestFrom;
    NothingIn(dir);
    NothingBetween(dir, 0, m);
    MonthOfOne(dir, m, a);
    NothingBetween(dir, m as nat + 1, m');
    MonthOfOne(dir, m', a');
    NothingBetween(dir, m' as nat + 1, MONTHS);
  }

  lemma OneLine(a: Action, cut: bool)
    ensures FileActions(Lines([LineOf(a)], cut)) == [a] && Lines([LineOf(a)], cut).IsText()
  {
    assert ActionsOf([LineOf(a)], 0) == [];
  }

  lemma ThenCorrupt(a: Action, line: Line, cut: bool)
    requires line.Corrupt?
    ensures FileActions(Lines([LineOf(a), line], cut)) == [a]
  {
    assert ActionsOf([LineOf(a), line], 1) == ActionsOf([LineOf(a), line], 0) + [a];
  }

  lemma AllText(dir: Directory)
    requires forall m :: m in dir ==> dir[m].IsText()
    ensures AsText(dir) == dir
  {
  }

  lemma CutLine(dir: Directory, m: Month, first: Line, line: Line)
    requires m in dir && dir[m] == Lines([first], false) && MonthFileOf(0) == m
    ensures Step(dir, Interrupt(0, line)) == dir[m := Lines([first, line], true)]
  {
    hide MonthOf;
    assert [first] + [line] == [first, line];
  }

  lemma CutRecord(a: Action, broken: Line) returns (ops: seq<Op>)
    requires a.ts == 0 && broken.Corrupt?
    ensures ops == [Append(a, None), Interrupt(0, broken)]
    ensures Run(ops, 2) == map[JANUARY := Lines([LineOf(a), broken], true)] && Filed(Run(ops, 2))
  {
    hide MonthOf, MonthsEnd, Run, Step, Filed;
    ops := [Append(a, None), Interrupt(0, broken)];
    FirstMonths();
    RunOnce(ops, 0);
    RunOnce(ops, 1);
    FirstLine(map[], a);
    CutLine(Run(ops, 1), JANUARY, LineOf(a), broken);
    RunIsFiled(ops, 2);
  }

  /** A reachable record on which the two readings disagree: a ban recorded in a month, and a
      later append interrupted inside a character of its reason. */
  lemma TextReadingCanLoseABan() returns (ops: seq<Op>, ip: Ip)
    ensures |ops| == 2 && ops[0].Valid() && ops[1].Valid()
    ensures Answer(Run(ops, 2), {ip}) != Restricted(Latest(Actions(AsText(Run(ops, 2)), MONTHS)), {ip})
  {
    hide MonthOf, Actions, Latest, Run, Step, Filed, FileActions, NewestMonth, Answer, AsText;
    ip := 1;
    var a, broken := Action(0, Ban, ip, "", None, None), Corrupt(Some(ip), false);
    ops := CutRecord(a, broken);
    var dir := Run(ops, 2);
    ThenCorrupt(a, broken, true);
    OneAction(dir, JANUARY, a);
    NewestMonthHoldsLatest(dir, MONTHS, JANUARY, ip);
    SearchAgreesWithTextReading(dir, {ip});
    assert !dir[JANUARY].lines[1].IsText();
  }

  /** A ban placed for good, still standing and due to be placed again by every restart, is
      forgotten by the retention of ninety days. */
  lemma BanForGoodIsForgotten() returns (ops: seq<Op>, ip: Ip, now: Seconds)
    ensures |ops| == 2 && ops[0].Append? && ops[0].a.verb == Ban && ops[0].a.expires.None?
    ensures ops[0].Valid() && ops[1] == Op.Prune(now, 90 * 24 * 3600)
    ensures StandingFor(Latest(Actions(AsText(Run(ops, 1)), MONTHS)), now, ip).Some?
    ensures StandingFor(Latest(Actions(AsText(Run(ops, 2)), MONTHS)), now, ip).None?
  {
    hide MonthOf, MonthsEnd, Actions, Latest, Run, Filed, FileActions;
    ip, now := 1, 10_454_400;
    var a := Action(0, Ban, ip, "", None, None);
    ops := [Append(a, None), Op.Prune(now, 90 * 24 * 3600)];
    FirstMonths();
    RunOnce(ops, 0);
    RunOnce(ops, 1);
    FirstLine(map[], a);
    RunIsFiled(ops, 1);
    OneLine(a, false);
    OneAction(Run(ops, 1), JANUARY, a);
    AllText(Run(ops, 1));
    RetentionBoundsStandingBans(Run(ops, 1), now, 90 * 24 * 3600, now, ip);
  }

  /** A ban lifted the month after stands again when retention, taking the newer month first,
      cannot delete the older one. */
  lemma LiftedBanCanStandAgain()
    returns (ops: seq<Op>, ip: Ip, files: seq<Month>, stuck: set<Month>, now: Seconds)
    ensures |ops| == 2 && ops[0].Valid() && ops[1].Valid()
    ensures IsListing(Run(ops, 2), files) && |files| == 2 && files[0] !in stuck && files[1] in stuck
    ensures Expired(files[0], now, 90 * 24 * 3600) && Expired(files[1], now, 90 * 24 * 3600)
    ensures StandingFor(Latest(Actions(AsText(Run(ops, 2)), MONTHS)), now, ip).None?
    ensures StandingFor(Latest(Actions(AsText(PrunedUntil(Run(ops, 2), files, 1, now, 90 * 24 * 3600)), MONTHS)), now, ip).Some?
  {
    hide MonthOf, MonthsEnd, Actions, Latest, Run, Step, Filed, FileActions;
    ip, now := 1, 20_000_000;
    var ban, lifted := Action(0, Ban, ip, "", None, None), Action(2_678_400, Unban, ip, "", None, None);
    ops, files, stuck := [Append(ban, None), Append(lifted, None)], [FEBRUARY, JANUARY], {JANUARY};
    FirstMonths();
    RunOnce(ops, 0);
    RunOnce(ops, 1);
    FirstLine(map[], ban);
    FirstLine(Run(ops, 1), lifted);
    OneLine(ban, false);
    OneLine(lifted, false);
    var dir := Run(ops, 2);
    RunIsFiled(ops, 2);
    TwoActions(dir, JANUARY, ban, FEBRUARY, lifted);
    AllText(dir);
    var left := PrunedUntil(dir, files, 1, now, 90 * 24 * 3600);
    assert files[..1] == [FEBRUARY];
    StoppedPruneKeepsFiled(dir, files, 1, now, 90 * 24 * 3600);
    OneAction(left, JANUARY, ban);
    AllText(left);
  }
}
