/** The per-source detector as a value: four arms of evidence, a warm-up gate, and the
    verdict that fuses them. */
module Detectors {
  import opened Numerics
  import opened SequentialTest
  import opened Calibration
  import PrefixMemory
  import RangeMemory
  import NumberRing
  import CompletionArm
  import VolumeArm

  const PREFIX_MIN_NOVEL: nat := 4
  const RANGE_MIN_NOVEL: nat := 10
  const RANGE_DIGITS: nat := 4

  /** The bits of a source's country map. */
  const COUNTRY_SLOTS: nat := 256

  type Country = c: nat | c < COUNTRY_SLOTS

  /** One international call: its country, the dialling prefix, the canonical digits. */
  datatype Call = Call(country: Country, prefix: string, digits: string)

  function PrefixSlot(num: Primitives, prefix: string): (slot: nat)
    ensures slot < PrefixMemory.SLOTS
  {
    num.hash(prefix) % PrefixMemory.SLOTS
  }

  /** The destination range: the number without its last four digits, when any are left. */
  function RangeOf(digits: string): Option<string> {
    if |digits| <= RANGE_DIGITS then None else Some(digits[..|digits| - RANGE_DIGITS])
  }

  function DialOf(num: Primitives, digits: string, at: nat): RangeMemory.Dial {
    RangeMemory.Dial(match RangeOf(digits) case None => None case Some(r) => Some(num.hash(r)), at)
  }

  /** Two numbers lie in one destination range exactly when they are equally long, longer than four
      digits, and agree in all but the last four; a shorter number lies in none. */
  lemma NumbersShareARange(x: string, y: string)
    ensures RangeOf(x).None? <==> |x| <= 4
    ensures RangeOf(x).Some? && RangeOf(x) == RangeOf(y)
       <==> |x| == |y| > 4 && forall i :: 0 <= i < |x| - 4 ==> x[i] == y[i]
  {
    if |x| == |y| > 4 && forall i :: 0 <= i < |x| - 4 ==> x[i] == y[i] {
      assert x[..|x| - 4] == y[..|y| - 4];
    }
    if RangeOf(x).Some? && RangeOf(x) == RangeOf(y) {
      assert |RangeOf(x).value| == |x| - 4 && |RangeOf(y).value| == |y| - 4;
      forall i | 0 <= i < |x| - 4 ensures x[i] == y[i] {
        assert RangeOf(x).value[i] == x[i] && RangeOf(y).value[i] == y[i];
      }
    }
  }

  /** What the arms tell apart of a call: its range by that range's hash, its dialling prefix by the low
      six bits of its hash. */
  lemma HashesTellApart(num: Primitives, x: string, y: string, at: nat)
    ensures DialOf(num, x, at).range == DialOf(num, y, at).range
       <==> if |x| <= 4 || |y| <= 4 then |x| <= 4 && |y| <= 4
            else num.hash(x[..|x| - 4]) == num.hash(y[..|y| - 4])
    ensures PrefixSlot(num, x) == PrefixSlot(num, y) <==> (num.hash(x) - num.hash(y)) % 64 == 0
  {
    SameRemainder(num.hash(x), num.hash(y));
  }

  lemma SameRemainder(a: nat, b: nat)
    ensures a % 64 == b % 64 <==> (a - b) % 64 == 0
  {
  }

  /** When the source was first seen, how many calls it placed, and the warm-up it owes. */
  datatype Gate = Gate(firstSeen: nat, callsSeen: nat, warmupSecs: nat, warmupCalls: nat) {
    function Noted(now: nat): Gate {
      this.(firstSeen := if firstSeen == 0 then now else firstSeen, callsSeen := SatInc(callsSeen))
    }

    predicate Warmed(now: nat) {
      firstSeen != 0 && callsSeen >= warmupCalls && SatSub(now, firstSeen) >= warmupSecs
    }
  }

  datatype Verdict = Verdict(
    evidence: real,
    prefixBits: real,
    rangeBits: real,
    volumeBits: real,
    completionBits: real,
    countries: nat,
    firstTime: bool,
    firstPrefix: bool,
    firstRange: bool,
    firstNumber: bool,
    fired: bool,
    warming: bool)

  datatype Detector = Detector(
    countries: set<nat>,
    nCountries: nat,
    prefix: PrefixMemory.Memory,
    prefixScan: Walk,
    range: RangeMemory.Memory,
    rangeScan: Walk,
    numbers: NumberRing.Ring,
    completion: CompletionArm.Arm,
    volume: VolumeArm.Arm,
    lastScan: nat,
    gate: Gate,
    fireBits: real)
  {
    /** How much of the scan walks survives the wait since the last call. */
    function ScanKept(num: Primitives, now: nat): real {
      if lastScan == 0 then 1.0 else Leak(num.perSecond, SatSub(now, lastScan))
    }

    /** The state after one call. */
    function Called(num: Primitives, call: Call, now: nat): Detector
      requires numbers.Valid()
    {
      var kept := ScanKept(num, now);
      var slot := PrefixSlot(num, call.prefix);
      var dial := DialOf(num, call.digits, now);
      this.(
        gate := gate.Noted(now),
        volume := volume.Observed(num, now),
        lastScan := now,
        countries := countries + {call.country},
        nCountries := if call.country in countries then nCountries else nCountries + 1,
        prefix := prefix.Observed(PrefixMemory.Use(slot, now)),
        prefixScan := prefixScan.Leaked(kept).Observed(prefix.IsFirst(slot)),
        range := range.Observed(dial),
        rangeScan := rangeScan.Leaked(kept).Observed(range.IsFirst(dial)),
        numbers := numbers.Observed(num.hash(call.digits)))
    }

    /** Each arm contributes its non-negative evidence once past its hard floor, so no arm
        masks another and none fires on an isolated event. */
    function Fused(num: Primitives, firstTime: bool, now: nat): Verdict {
      var prefixBits := if prefix.novel >= PREFIX_MIN_NOVEL then prefixScan.Evidence() else 0.0;
      var rangeBits := if range.novel >= RANGE_MIN_NOVEL then rangeScan.Evidence() else 0.0;
      var completionBits := completion.Bits();
      var volumeBits := volume.Bits(num);
      var evidence := prefixBits + rangeBits + completionBits + volumeBits;
      Verdict(evidence, prefixBits, rangeBits, volumeBits, completionBits, nCountries, firstTime,
              false, false, false, evidence >= fireBits, !gate.Warmed(now))
    }

    /** One call and its verdict. */
    function Observe(num: Primitives, call: Call, now: nat): (Detector, Verdict)
      requires numbers.Valid()
    {
      var d := Called(num, call, now);
      var v := d.Fused(num, call.country !in countries, now);
      (d, v.(firstPrefix := prefix.IsFirst(PrefixSlot(num, call.prefix)),
             firstRange := range.IsFirst(DialOf(num, call.digits, now)),
             firstNumber := numbers.IsNew(num.hash(call.digits))))
    }

    /** One answer to an earlier call and its verdict. */
    function ObserveCompletion(num: Primitives, outcome: CompletionArm.CallOutcome, novel: CompletionArm.Novelty,
                               now: nat): (Detector, Verdict) {
      var d := this.(completion := completion.Answered(num, outcome, novel, now));
      (d, d.Fused(num, false, now))
    }

    /** Adopts calibrated hypotheses across the arms, keeping their walks and memories. */
    function Recalibrated(num: Primitives, p: Params): Detector
      requires p.Valid()
    {
      this.(prefixScan := SequentialTest.Recalibrated(num, prefixScan, p.theta0Prefix, p.theta1, p.alpha, p.beta),
            rangeScan := SequentialTest.Recalibrated(num, rangeScan, p.theta0Range, p.theta1, p.alpha, p.beta),
            completion := completion.Refitted(num, p),
            fireBits := p.fireBits)
    }

    function LearnedRate(): real
      requires volume.rate.b != 0.0
    {
      volume.rate.Rate()
    }

    /** The slow-moving part worth keeping across restarts. */
    function Saved(): Snapshot {
      Snapshot(countries, nCountries, volume.rate.a, volume.rate.b)
    }

    /** What every reachable detector satisfies. */
    predicate Valid() {
      && numbers.Valid()
      && prefixScan.Valid() && rangeScan.Valid() && completion.Valid()
      && volume.rate.Valid() && volume.rate.b <= 50.0 && volume.rate.decay == 0.98
      && fireBits > 0.0
    }

    /** A detector that has seen nothing since it was created or restored. */
    predicate Fresh() {
      && Valid()
      && prefix == PrefixMemory.EMPTY
      && range == RangeMemory.EMPTY
      && numbers == NumberRing.Empty()
      && completion.failures == 0 && completion.window == 0 && completion.last == 0
      && volume == VolumeArm.New(volume.rate) && volume.rate.periods == 0
      && lastScan == 0
      && gate.firstSeen == 0 && gate.callsSeen == 0
    }
  }

  /** The durable part of a detector: a weight and a rate are never zero. */
  datatype Snapshot = Snapshot(countries: set<nat>, nCountries: nat, rateA: real, rateB: real) {
    predicate Valid() {
      0.0 < rateA && 0.0 < rateB <= 50.0
    }
  }

  function New(num: Primitives, p: Params): Detector
    requires p.Valid()
  {
    Detector(
      {}, 0,
      PrefixMemory.EMPTY, NewWalk(num, p.theta0Prefix, p.theta1, p.alpha, p.beta),
      RangeMemory.EMPTY, NewWalk(num, p.theta0Range, p.theta1, p.alpha, p.beta),
      NumberRing.Empty(),
      CompletionArm.New(num, p),
      VolumeArm.New(VolumeArm.Prior(p.priorMean, p.priorStrength, p.decay)),
      0,
      Gate(0, 0, p.warmupSecs, p.warmupCalls),
      p.fireBits)
  }

  /** Rebuilds a detector at boot: the warm-up starts over. */
  function FromSnapshot(num: Primitives, p: Params, s: Snapshot): Detector
    requires p.Valid()
  {
    var d := New(num, p);
    d.(countries := s.countries, nCountries := s.nCountries,
       volume := d.volume.(rate := d.volume.rate.(a := s.rateA, b := s.rateB)))
  }

  /** Restoring a snapshot and taking one again gives the same snapshot. */
  lemma SnapshotRoundTrip(num: Primitives, p: Params, s: Snapshot)
    requires p.Valid()
    ensures FromSnapshot(num, p, s).Saved() == s
  {
  }

  lemma NewIsFresh(num: Primitives, p: Params)
    requires p.Valid()
    ensures New(num, p).Fresh()
  {
    StepSigns(num, p.theta0Prefix, p.theta1, p.alpha, p.beta);
    StepSigns(num, p.theta0Range, p.theta1, p.alpha, p.beta);
    StepSigns(num, p.theta0c, p.theta1c, p.alpha, p.beta);
    UnroutableStepIsItsOwnRatio(num, p);
    assert 0.0 < p.priorMean * p.priorStrength;
  }

  lemma NewIsValid(num: Primitives, p: Params)
    requires p.Valid()
    ensures New(num, p).Valid()
  {
    hide New, Detector.Valid;
    NewIsFresh(num, p);
  }

  lemma RestoredIsFresh(num: Primitives, p: Params, s: Snapshot)
    requires p.Valid() && s.Valid()
    ensures FromSnapshot(num, p, s).Fresh()
  {
    NewIsFresh(num, p);
  }

  // ---- runs of one source ----

  datatype Event =
    | Invite(call: Call, at: nat)
    | Outcome(outcome: CompletionArm.CallOutcome, novel: CompletionArm.Novelty, at: nat)
    | Calibrated(p: Params)
  {
    predicate Valid() {
      Calibrated? ==> p.Valid()
    }
  }

  predicate AllValid(events: seq<Event>) {
    forall i :: 0 <= i < |events| ==> events[i].Valid()
  }

  /** Packets come in time order and never at instant zero. */
  predicate Clocked(events: seq<Event>) {
    && (forall i :: 0 <= i < |events| && !events[i].Calibrated? ==> events[i].at > 0)
    && (forall i, j :: 0 <= i < j < |events| && !events[i].Calibrated? && !events[j].Calibrated? ==>
          events[i].at <= events[j].at)
  }

  function After(num: Primitives, d: Detector, e: Event): (r: Detector)
    requires d.numbers.Valid() && e.Valid()
    ensures r.numbers.Valid()
  {
    match e
    case Invite(call, at) => d.Called(num, call, at)
    case Outcome(outcome, novel, at) => d.ObserveCompletion(num, outcome, novel, at).0
    case Calibrated(p) => d.Recalibrated(num, p)
  }

  /** The verdict a call or an answer gets. */
  function VerdictOf(num: Primitives, d: Detector, e: Event): Verdict
    requires d.numbers.Valid() && !e.Calibrated?
  {
    match e
    case Invite(call, at) => d.Observe(num, call, at).1
    case Outcome(outcome, novel, at) => d.ObserveCompletion(num, outcome, novel, at).1
  }

  /** The detector after the first n events. */
  function Run(num: Primitives, d: Detector, events: seq<Event>, n: nat): (r: Detector)
    requires n <= |events| && AllValid(events) && d.numbers.Valid()
    ensures r.numbers.Valid()
  {
    if n == 0 then d else After(num, Run(num, d, events, n - 1), events[n - 1])
  }

  lemma ScanKeptBounds(num: Primitives, d: Detector, now: nat)
    ensures 0.0 < d.ScanKept(num, now) <= 1.0
  {
    LeakBounds(num.perSecond, SatSub(now, d.lastScan));
  }

  lemma VolumeKeepsValid(num: Primitives, arm: VolumeArm.Arm, at: nat)
    requires arm.rate.Valid() && arm.rate.b <= 50.0 && arm.rate.decay == 0.98
    ensures var r := arm.Observed(num, at).rate; r.Valid() && r.b <= 50.0 && r.decay == 0.98
  {
    VolumeArm.UpdateKeepsValid(arm.rate, arm.windowCount);
  }

  lemma WalkKeepsValid(w: Walk, kept: real, firstContact: bool)
    requires w.Valid() && 0.0 < kept <= 1.0
    ensures w.Leaked(kept).Observed(firstContact).Valid()
  {
    LeakKeepsTheWell(w, kept);
  }

  lemma CallKeepsValid(num: Primitives, d: Detector, call: Call, at: nat)
    requires d.Valid()
    ensures d.Called(num, call, at).Valid()
  {
    hide Walk.Leaked, Walk.Observed, Walk.Valid, VolumeArm.Arm.Observed;
    ScanKeptBounds(num, d, at);
    VolumeKeepsValid(num, d.volume, at);
    WalkKeepsValid(d.prefixScan, d.ScanKept(num, at), d.prefix.IsFirst(PrefixSlot(num, call.prefix)));
    WalkKeepsValid(d.rangeScan, d.ScanKept(num, at), d.range.IsFirst(DialOf(num, call.digits, at)));
  }

  lemma StepKeepsValid(num: Primitives, d: Detector, e: Event)
    requires d.Valid() && e.Valid()
    ensures After(num, d, e).Valid()
  {
    match e
    case Invite(call, at) => CallKeepsValid(num, d, call, at);
    case Outcome(outcome, novel, at) =>
      CompletionArm.StepKeepsValid(num, d.completion, CompletionArm.Answer(outcome, novel, at));
    case Calibrated(p) =>
      StepSigns(num, p.theta0Prefix, p.theta1, p.alpha, p.beta);
      StepSigns(num, p.theta0Range, p.theta1, p.alpha, p.beta);
      CompletionArm.StepKeepsValid(num, d.completion, CompletionArm.Refit(p));
  }

  /** In every reachable state the walks stand in their wells, the posterior is proper and
      weighs at most fifty periods, and the fire bound is positive. */
  lemma {:induction false} RunKeepsValid(num: Primitives, d: Detector, events: seq<Event>, n: nat)
    requires n <= |events| && AllValid(events) && d.Valid()
    ensures Run(num, d, events, n).Valid()
  {
    hide After;
    if n > 0 {
      RunKeepsValid(num, d, events, n - 1);
      StepKeepsValid(num, Run(num, d, events, n - 1), events[n - 1]);
    }
  }
}
