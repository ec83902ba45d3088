/** What the verdict on an event says, read off the whole history of its source arm by arm: the sum
    of what each arm past its floor has gathered, against the bound. */
module Verdicts {
  import opened Numerics
  import opened SequentialTest
  import opened Detectors
  import opened DetectorRuns
  import PrefixMemory
  import RangeMemory
  import NumberRing
  import CompletionArm
  import CompletionWalks
  import ScanWalks
  import VolumeArm

  /** Where a walk stands after its first n trials, when that is evidence for scanning. */
  function Gathered(w: Walk, trials: seq<Sample>, n: nat): real
    requires n <= |trials|
  {
    Max(Walked(w, trials, n).llr, 0.0)
  }

  /** The prefix scan speaks past four first-ever prefixes in the window in force. */
  function PrefixShare(num: Primitives, d: Detector, events: seq<Event>, n: nat): real
    requires n <= |events| && AllValid(events)
  {
    if PrefixMemory.NovelInWindow(PrefixUses(num, events), n) >= 4
    then Gathered(d.prefixScan, ScanWalks.Trials(num, d, ScanWalks.Prefixes, events), n) else 0.0
  }

  /** The range scan speaks past ten first contacts in the window in force. */
  function RangeShare(num: Primitives, d: Detector, events: seq<Event>, n: nat): real
    requires n <= |events| && AllValid(events)
  {
    if RangeMemory.ContactsInWindow(Dials(num, events), n) >= 10
    then Gathered(d.rangeScan, ScanWalks.Trials(num, d, ScanWalks.Ranges, events), n) else 0.0
  }

  /** The completion arm speaks past ten counted failures in the run in force. */
  function CompletionShare(num: Primitives, d: Detector, events: seq<Event>, n: nat): real
    requires n <= |events| && AllValid(events)
  {
    if CompletionArm.FailuresInRun(Answers(events), n) >= 10
    then Gathered(d.completion.walk, CompletionWalks.Trials(num, d.completion, Answers(events)), n) else 0.0
  }

  /** The counts of the closed hours, of windows opened by these calls. */
  function Hours(events: seq<Event>, n: nat, starts: seq<nat>): seq<nat>
    requires n <= |events| && VolumeArm.Openings(CallTimes(events), n, starts)
  {
    if starts == [] then [] else VolumeArm.Closed(CallTimes(events), starts, |starts| - 1)
  }

  /** The volume arm speaks past six closed hours: the surprise of each, halved for every hour closed
      after it, in nats. */
  function VolumeShare(num: Primitives, d: Detector, events: seq<Event>, n: nat, starts: seq<nat>): real
    requires n <= |events| && VolumeArm.Openings(CallTimes(events), n, starts)
  {
    var hours := Hours(events, n, starts);
    if |hours| >= 6 then VolumeArm.Aged(VolumeArm.Scores(num, d.volume.rate, hours), 0.5, |hours|, |hours|) * num.ln(2.0) else 0.0
  }

  /** Every calibration keeps the bounds and the bound the verdict fires at. */
  predicate Steady(num: Primitives, d: Detector, events: seq<Event>)
    requires AllValid(events)
  {
    && ScanWalks.SameBounds(num, d.prefixScan, events) && ScanWalks.SameBounds(num, d.rangeScan, events)
    && ScanWalks.SameBounds(num, d.completion.walk, events)
    && forall i :: 0 <= i < |events| && events[i].Calibrated? ==> events[i].p.fireBits == d.fireBits
  }

  lemma {:induction false} BoundStays(num: Primitives, d: Detector, events: seq<Event>, n: nat)
    requires n <= |events| && AllValid(events) && d.numbers.Valid() && Steady(num, d, events)
    ensures Run(num, d, events, n).fireBits == d.fireBits
  {
    hide ScanWalks.SameBounds;
    if n > 0 {
      BoundStays(num, d, events, n - 1);
    }
  }

  // ---- each arm's share is its own ----

  lemma UsesAreClocked(num: Primitives, events: seq<Event>)
    requires Clocked(events)
    ensures PrefixMemory.Clocked(PrefixUses(num, events)) && RangeMemory.Clocked(Dials(num, events))
    ensures CompletionArm.Clocked(Answers(events)) && VolumeArm.Clocked(CallTimes(events))
  {
    hide PrefixSlot, DialOf;
    forall i | 0 <= i < |events| && PrefixUses(num, events)[i].Some?
      ensures events[i].Invite? && PrefixUses(num, events)[i].value.at == events[i].at {}
    forall i | 0 <= i < |events| && Dials(num, events)[i].Some?
      ensures events[i].Invite? && Dials(num, events)[i].value.at == events[i].at {
      DialIsDated(num, events, i);
    }
  }

  lemma DialIsDated(num: Primitives, events: seq<Event>, i: nat)
    requires i < |events| && Dials(num, events)[i].Some?
    ensures events[i].Invite? && Dials(num, events)[i].value.at == events[i].at
  {
  }

  lemma StandingShows(w: Walk, steps: ScanWalks.Steps)
    ensures ScanWalks.Standing(w, steps).Evidence() == Max(w.llr, 0.0)
  {
  }

  lemma PrefixSpeaks(num: Primitives, d: Detector, events: seq<Event>, n: nat)
    requires n <= |events| && AllValid(events) && Clocked(events) && d.Fresh() && d.Valid() && Steady(num, d, events)
    ensures var r := Run(num, d, events, n);
            PrefixShare(num, d, events, n) == if r.prefix.novel >= PREFIX_MIN_NOVEL then r.prefixScan.Evidence() else 0.0
  {
    hide Run, ScanWalks.Trials, ScanWalks.SameBounds, ScanWalks.Standing, ScanWalks.InForce, Walked, PrefixUses, PrefixMemory.Remembered,
         PrefixMemory.NovelInWindow, Detector.Valid, Walk.Evidence;
    ArmsRunApart(num, d, events, n);
    UsesAreClocked(num, events);
    PrefixMemory.NovelIsCounted(PrefixUses(num, events), n);
    ScanWalks.ScanIsAWalk(num, d, ScanWalks.Prefixes, events, n);
    StandingShows(Walked(d.prefixScan, ScanWalks.Trials(num, d, ScanWalks.Prefixes, events), n),
                  ScanWalks.InForce(num, d, ScanWalks.Prefixes, events, n));
  }

  lemma RangeSpeaks(num: Primitives, d: Detector, events: seq<Event>, n: nat)
    requires n <= |events| && AllValid(events) && Clocked(events) && d.Fresh() && d.Valid() && Steady(num, d, events)
    ensures var r := Run(num, d, events, n);
            RangeShare(num, d, events, n) == if r.range.novel >= RANGE_MIN_NOVEL then r.rangeScan.Evidence() else 0.0
  {
    hide Run, ScanWalks.Trials, ScanWalks.SameBounds, ScanWalks.Standing, ScanWalks.InForce, Walked, Dials, RangeMemory.Remembered,
         RangeMemory.ContactsInWindow, Detector.Valid, Walk.Evidence;
    ArmsRunApart(num, d, events, n);
    UsesAreClocked(num, events);
    RangeMemory.ReportsAreFirstContacts(Dials(num, events), n);
    RangeCounts(Dials(num, events), n);
    ScanWalks.ScanIsAWalk(num, d, ScanWalks.Ranges, events, n);
    StandingShows(Walked(d.rangeScan, ScanWalks.Trials(num, d, ScanWalks.Ranges, events), n),
                  ScanWalks.InForce(num, d, ScanWalks.Ranges, events, n));
  }

  lemma RangeCounts(dials: seq<Option<RangeMemory.Dial>>, n: nat)
    requires n <= |dials| && RangeMemory.Holds(dials, n, RangeMemory.Remembered(dials, n))
    ensures RangeMemory.Remembered(dials, n).novel >= 10 <==> RangeMemory.ContactsInWindow(dials, n) >= 10
  {
    hide RangeMemory.Remembered, RangeMemory.Contacts;
  }

  lemma CompletionSpeaks(num: Primitives, d: Detector, events: seq<Event>, n: nat)
    requires n <= |events| && AllValid(events) && Clocked(events) && d.Fresh() && d.Valid() && Steady(num, d, events)
    ensures CompletionShare(num, d, events, n) == Run(num, d, events, n).completion.Bits()
  {
    hide Run, CompletionArm.Run, CompletionWalks.Trials, ScanWalks.SameBounds, CompletionWalks.SameBounds, CompletionWalks.InForce, Walked, Answers,
         CompletionArm.FailuresInRun, CompletionArm.Arm.Valid;
    ArmsRunApart(num, d, events, n);
    UsesAreClocked(num, events);
    CompletionArm.FailuresAreCounted(num, d.completion, Answers(events), n);
    AnswersKeepBounds(num, events, d.completion.walk);
    CompletionWalks.ArmIsAWalk(num, d.completion, Answers(events), n);
  }

  lemma AnswersKeepBounds(num: Primitives, events: seq<Event>, w: Walk)
    requires AllValid(events) && ScanWalks.SameBounds(num, w, events)
    ensures CompletionArm.AllValid(Answers(events)) && CompletionWalks.SameBounds(num, w, Answers(events))
  {
    forall i | 0 <= i < |events| && Answers(events)[i].Refit?
      ensures events[i].Calibrated? && Answers(events)[i].p == events[i].p
    {
    }
  }

  lemma VolumeSpeaks(num: Primitives, d: Detector, events: seq<Event>, n: nat) returns (starts: seq<nat>)
    requires n <= |events| && AllValid(events) && Clocked(events) && d.Fresh()
    ensures VolumeArm.Openings(CallTimes(events), n, starts)
    ensures VolumeShare(num, d, events, n, starts) == Run(num, d, events, n).volume.Bits(num)
  {
    hide Run, VolumeArm.Run, VolumeArm.Openings, VolumeArm.Closed, VolumeArm.Folded, VolumeArm.Standing, VolumeArm.Aged, VolumeArm.Scores,
         VolumeArm.Calls, VolumeArm.Sum, CallTimes, VolumeArm.Arm.Bits, VolumeShare;
    ArmsRunApart(num, d, events, n);
    UsesAreClocked(num, events);
    var hours;
    starts, hours := VolumeArm.CallsAreConserved(num, d.volume.rate, CallTimes(events), n);
    SixPeriods(d.volume.rate, hours);
    VolumeArm.StandingIsAged(num, d.volume.rate, hours);
    ArmSpeaks(num, d, events, n, starts, Run(num, d, events, n).volume);
  }

  lemma SixPeriods(rate: VolumeArm.Posterior, hours: seq<nat>)
    requires rate.periods == 0
    ensures VolumeArm.Folded(rate, hours).periods >= 6 <==> |hours| >= 6
  {
    hide VolumeArm.Folded, VolumeArm.Aged, VolumeArm.Faded;
    VolumeArm.PosteriorIsAged(rate, hours);
  }

  lemma ArmSpeaks(num: Primitives, d: Detector, events: seq<Event>, n: nat, starts: seq<nat>, arm: VolumeArm.Arm)
    requires n <= |events| && VolumeArm.Openings(CallTimes(events), n, starts)
    requires var hours := Hours(events, n, starts);
             && (arm.rate.periods >= 6 <==> |hours| >= 6)
             && arm.evidence == VolumeArm.Aged(VolumeArm.Scores(num, d.volume.rate, hours), 0.5, |hours|, |hours|)
    ensures VolumeShare(num, d, events, n, starts) == arm.Bits(num)
  {
    hide VolumeArm.Openings, VolumeArm.Closed, VolumeArm.Aged, VolumeArm.Scores;
  }

  // ---- the verdict ----

  /** The evidence on a history of n events. */
  function Total(num: Primitives, d: Detector, events: seq<Event>, n: nat, starts: seq<nat>): real
    requires n <= |events| && AllValid(events) && VolumeArm.Openings(CallTimes(events), n, starts)
  {
    PrefixShare(num, d, events, n) + RangeShare(num, d, events, n) + CompletionShare(num, d, events, n)
    + VolumeShare(num, d, events, n, starts)
  }

  lemma Fusing(num: Primitives, d: Detector, e: Event)
    requires d.numbers.Valid() && e.Valid() && !e.Calibrated?
    ensures var v, r := VerdictOf(num, d, e), After(num, d, e);
            && v.prefixBits == (if r.prefix.novel >= PREFIX_MIN_NOVEL then r.prefixScan.Evidence() else 0.0)
            && v.rangeBits == (if r.range.novel >= RANGE_MIN_NOVEL then r.rangeScan.Evidence() else 0.0)
            && v.completionBits == r.completion.Bits() && v.volumeBits == r.volume.Bits(num)
            && v.evidence == v.prefixBits + v.rangeBits + v.completionBits + v.volumeBits
            && (v.fired <==> v.evidence >= r.fireBits) && v.countries == r.nCountries
  {
    hide Walk.Evidence, CompletionArm.Arm.Bits, VolumeArm.Arm.Bits;
  }

  /** For every history: the verdict on its last event carries each arm's own share, its evidence is
      their sum, and it fires exactly when that reaches the bound. */
  lemma VerdictIsTheSum(num: Primitives, d: Detector, events: seq<Event>, m: nat) returns (starts: seq<nat>)
    requires m < |events| && AllValid(events) && Clocked(events) && d.Fresh() && d.Valid() && d.numbers.Valid() && Steady(num, d, events)
    requires !events[m].Calibrated?
    ensures VolumeArm.Openings(CallTimes(events), m + 1, starts)
    ensures var v := VerdictOf(num, Run(num, d, events, m), events[m]);
            && v.prefixBits == PrefixShare(num, d, events, m + 1) && v.rangeBits == RangeShare(num, d, events, m + 1)
            && v.completionBits == CompletionShare(num, d, events, m + 1)
            && v.volumeBits == VolumeShare(num, d, events, m + 1, starts)
            && v.evidence == Total(num, d, events, m + 1, starts)
            && (v.fired <==> Total(num, d, events, m + 1, starts) >= d.fireBits)
  {
    hide Run, After, VerdictOf, Steady, Detector.Valid, Detector.Fresh, PrefixShare, RangeShare, CompletionShare, VolumeShare,
         VolumeArm.Openings, Walk.Evidence, CompletionArm.Arm.Bits, VolumeArm.Arm.Bits;
    OneMoreEvent(num, d, events, m);
    Fusing(num, Run(num, d, events, m), events[m]);
    PrefixSpeaks(num, d, events, m + 1);
    RangeSpeaks(num, d, events, m + 1);
    CompletionSpeaks(num, d, events, m + 1);
    starts := VolumeSpeaks(num, d, events, m + 1);
    BoundStays(num, d, events, m + 1);
  }

  // ---- the countries ----

  /** The countries the first n events called. */
  function Called(events: seq<Event>, n: nat): set<nat>
    requires n <= |events|
  {
    if n == 0 then {} else Called(events, n - 1) + if events[n - 1].Invite? then {events[n - 1].call.country} else {}
  }

  /** The country set is what was there and every country called since, and the number of countries a
      verdict reports grew by exactly those that were new. */
  lemma {:induction false} CountriesAreCalled(num: Primitives, d: Detector, events: seq<Event>, n: nat)
    requires n <= |events| && AllValid(events) && d.numbers.Valid()
    ensures var r := Run(num, d, events, n);
            r.countries == d.countries + Called(events, n) && r.nCountries == d.nCountries + |Called(events, n) - d.countries|
  {
    hide After, Run, Called;
    if n == 0 {
      NoneCalled(num, d, events);
    } else {
      CountriesAreCalled(num, d, events, n - 1);
      OneMoreEvent(num, d, events, n - 1);
      OneMoreCalled(num, d, Run(num, d, events, n - 1), events, n - 1);
    }
  }

  lemma OneMoreCalled(num: Primitives, d: Detector, r: Detector, events: seq<Event>, n: nat)
    requires n < |events| && r.numbers.Valid() && events[n].Valid()
    requires r.countries == d.countries + Called(events, n) && r.nCountries == d.nCountries + |Called(events, n) - d.countries|
    ensures var r' := After(num, r, events[n]);
            && r'.countries == d.countries + Called(events, n + 1)
            && r'.nCountries == d.nCountries + |Called(events, n + 1) - d.countries|
  {
    hide After;
    CountryStep(num, r, events[n]);
    if events[n].Invite? {
      OneMoreCountry(d.countries, Called(events, n), events[n].call.country);
    } else {
      assert Called(events, n + 1) == Called(events, n);
    }
  }

  lemma NoneCalled(num: Primitives, d: Detector, events: seq<Event>)
    requires AllValid(events) && d.numbers.Valid()
    ensures Run(num, d, events, 0) == d && d.countries + Called(events, 0) == d.countries && Called(events, 0) - d.countries == {}
  {
  }

  lemma OneMoreCountry(known: set<nat>, before: set<nat>, c: nat)
    ensures known + (before + {c}) == known + before + {c}
    ensures |before + {c} - known| == |before - known| + if c in known + before then 0 else 1
  {
    if c in known + before {
      assert before + {c} - known == before - known;
    } else {
      assert before + {c} - known == before - known + {c};
    }
  }

  lemma CountryStep(num: Primitives, d: Detector, e: Event)
    requires d.numbers.Valid() && e.Valid()
    ensures var r := After(num, d, e);
            if e.Invite? then
              r.countries == d.countries + {e.call.country}
              && r.nCountries == d.nCountries + if e.call.country in d.countries then 0 else 1
            else r.countries == d.countries && r.nCountries == d.nCountries
  {
  }

  lemma CountriesReported(num: Primitives, d: Detector, events: seq<Event>, m: nat)
    requires m < |events| && AllValid(events) && d.numbers.Valid() && !events[m].Calibrated?
    ensures VerdictOf(num, Run(num, d, events, m), events[m]).countries == d.nCountries + |Called(events, m + 1) - d.countries|
  {
    hide Run, After, VerdictOf;
    OneMoreEvent(num, d, events, m);
    Fusing(num, Run(num, d, events, m), events[m]);
    CountriesAreCalled(num, d, events, m + 1);
  }

  // ---- what a verdict reports new ----

  lemma NoveltyOfEvent(num: Primitives, d: Detector, e: Event)
    requires d.numbers.Valid() && !e.Calibrated?
    ensures var v := VerdictOf(num, d, e);
            && v.firstTime == (e.Invite? && e.call.country !in d.countries)
            && v.firstPrefix == (e.Invite? && d.prefix.IsFirst(PrefixSlot(num, e.call.prefix)))
            && v.firstRange == (e.Invite? && d.range.IsFirst(DialOf(num, e.call.digits, e.at)))
            && v.firstNumber == (e.Invite? && d.numbers.IsNew(num.hash(e.call.digits)))
  {
    hide Detector.Called, PrefixSlot, DialOf, RangeMemory.Memory.IsFirst, NumberRing.Ring.IsNew;
  }

  /** A verdict on a call reports a country new exactly when the source never called it, a prefix exactly
      when no call before was on its slot, a range exactly when the call is the first contact with it,
      and a number exactly when it is none of the last sixteen reported; one on an answer reports
      nothing new. */
  lemma NoveltyIsTold(num: Primitives, d: Detector, events: seq<Event>, m: nat)
    requires m < |events| && AllValid(events) && Clocked(events) && d.Fresh() && d.numbers.Valid() && !events[m].Calibrated?
    ensures var v, e := VerdictOf(num, Run(num, d, events, m), events[m]), events[m];
            && (v.firstTime <==> e.Invite? && e.call.country !in d.countries && e.call.country !in Called(events, m))
            && (v.firstPrefix <==> e.Invite? && PrefixMemory.FirstEver(PrefixUses(num, events), m))
            && (v.firstRange <==> e.Invite? && RangeMemory.FirstContact(Dials(num, events), m))
            && (v.firstNumber <==> e.Invite? && !NumberRing.Recent(Numbers(num, events), m, num.hash(e.call.digits)))
  {
    hide Run, VerdictOf, Detector.Fresh, Called, PrefixMemory.Remembered, RangeMemory.Remembered, NumberRing.Run, RangeMemory.FirstContact,
         PrefixMemory.FirstEver, NumberRing.Recent, RangeMemory.Memory.IsFirst, NumberRing.Ring.IsNew, PrefixMemory.Memory.IsFirst,
         PrefixSlot, DialOf, RangeMemory.Holds;
    NoveltyOfEvent(num, Run(num, d, events, m), events[m]);
    if events[m].Invite? {
      ArmsRunApart(num, d, events, m);
      UsesAreClocked(num, events);
      CountriesAreCalled(num, d, events, m);
      PrefixMemory.FirstIsFirstEver(PrefixUses(num, events), m);
      RangeMemory.ReportsAreFirstContacts(Dials(num, events), m);
      NumberRing.NewIsNotRecent(Numbers(num, events), m, num.hash(events[m].call.digits));
    }
  }

  // ---- no share takes from another ----

  lemma SharesAreEvidence(num: Primitives, d: Detector, events: seq<Event>, n: nat, starts: seq<nat>)
    requires n <= |events| && AllValid(events) && VolumeArm.Openings(CallTimes(events), n, starts)
    ensures PrefixShare(num, d, events, n) >= 0.0 && RangeShare(num, d, events, n) >= 0.0
    ensures CompletionShare(num, d, events, n) >= 0.0 && VolumeShare(num, d, events, n, starts) >= 0.0
  {
    hide Walked, ScanWalks.Trials, CompletionWalks.Trials, VolumeArm.Aged, VolumeArm.Scores, VolumeArm.Openings, VolumeArm.Closed,
         PrefixMemory.NovelInWindow, RangeMemory.ContactsInWindow, CompletionArm.FailuresInRun;
    var hours := Hours(events, n, starts);
    VolumeArm.StandingIsBounded(num, d.volume.rate, hours);
    VolumeArm.StandingIsAged(num, d.volume.rate, hours);
    LogSign(num, 2.0, 1.0);
    NonNegativeProduct(VolumeArm.Standing(num, d.volume.rate, hours), num.ln(2.0));
  }

  lemma NonNegativeProduct(x: real, y: real)
    requires x >= 0.0 && y >= 0.0
    ensures x * y >= 0.0
  {
  }
}
