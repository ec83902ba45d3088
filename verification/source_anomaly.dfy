/** The per-source detector as the source keeps it: one object owning its walks, filters,
    rings and counters, updated in place. Every method is proved against the detector value
    of module Detectors. */
module SourceAnomalies {
  import opened Numerics
  import opened Bitmaps
  import opened SequentialTest
  import opened Calibration
  import opened Detectors
  import PrefixMemory
  import RangeMemory
  import NumberRing
  import CompletionArm
  import VolumeArm


  class SourceAnomaly {
    const seenCountries: array<bool>
    var nCountries: nat
    const seenPrefixes: array<bool>
    const prefixScan: SeqTest
    var prefixWindow: nat
    var prefixNovelInWindow: nat
    var rangeNovelInWindow: nat
    var rangeCurrent: RangeBloom
    var rangePrevious: RangeBloom
    var rangeWindow: nat
    const rangeScan: SeqTest
    const recentNumbers: array<nat>
    var recentNext: nat
    var completionFailures: nat
    var completionFailureWindow: nat
    const completionScan: SeqTest
    var unroutableStep: real
    const rate: VolumeArm.RateModel
    var windowStart: nat
    var windowCount: nat
    var lastScan: nat
    var lastCompletion: nat
    var volumeEvidence: real
    var fireBits: real
    var firstSeen: nat
    var callsSeen: nat
    var warmupSecs: nat
    var warmupCalls: nat

    /** Everything this object owns. */
    ghost function Repr(): set<object>
      reads this
    {
      {this, seenCountries, seenPrefixes, prefixScan, rangeCurrent, rangeCurrent.bits, rangePrevious,
       rangePrevious.bits, rangeScan, recentNumbers, completionScan, rate}
    }

    /** The parts have their sizes and are not shared. */
    ghost predicate Shaped()
      reads Repr()
    {
      && seenCountries.Length == COUNTRY_SLOTS
      && seenPrefixes.Length == PrefixMemory.SLOTS
      && recentNumbers.Length == NumberRing.SIZE && recentNext < NumberRing.SIZE
      && rangeCurrent.Valid() && rangePrevious.Valid()
      && seenCountries != seenPrefixes && rangeCurrent.bits != rangePrevious.bits
      && rangeCurrent.bits !in {seenCountries, seenPrefixes} && rangePrevious.bits !in {seenCountries, seenPrefixes}
      && rangeCurrent != rangePrevious
      && prefixScan != rangeScan && prefixScan != completionScan && rangeScan != completionScan
    }

    ghost predicate Valid()
      reads Repr()
    {
      Shaped() && Value().Valid()
    }

    ghost function Prefixes(): PrefixMemory.Memory
      reads `prefixWindow, `prefixNovelInWindow, seenPrefixes
    {
      PrefixMemory.Memory(Members(seenPrefixes[..]), prefixWindow, prefixNovelInWindow)
    }

    ghost function Ranges(): RangeMemory.Memory
      reads `rangeCurrent, `rangePrevious, `rangeWindow, `rangeNovelInWindow, rangeCurrent.bits, rangePrevious.bits
    {
      RangeMemory.Memory(rangeCurrent.Value(), rangePrevious.Value(), rangeWindow, rangeNovelInWindow)
    }

    ghost function Numbers(): NumberRing.Ring
      reads `recentNext, recentNumbers
    {
      NumberRing.Ring(recentNumbers[..], recentNext)
    }

    ghost function Completion(): CompletionArm.Arm
      reads `completionFailures, `completionFailureWindow, `lastCompletion, `unroutableStep, completionScan
    {
      CompletionArm.Arm(completionFailures, completionFailureWindow, lastCompletion, completionScan.Value(), unroutableStep)
    }

    ghost function Volume(): VolumeArm.Arm
      reads `windowStart, `windowCount, `volumeEvidence, rate
    {
      VolumeArm.Arm(rate.Value(), windowStart, windowCount, volumeEvidence)
    }

    /** The detector this object represents. */
    ghost function Value(): Detector
      reads Repr()
    {
      Detector.Detector(
        Members(seenCountries[..]), nCountries, Prefixes(), prefixScan.Value(), Ranges(), rangeScan.Value(),
        Numbers(), Completion(), Volume(), lastScan, Gate(firstSeen, callsSeen, warmupSecs, warmupCalls), fireBits)
    }

    constructor (num: Primitives, p: Params)
      requires p.Valid()
      ensures Valid() && Value() == New(num, p)
      ensures fresh(seenCountries) && fresh(seenPrefixes) && fresh(recentNumbers)
      ensures fresh(rangeCurrent) && fresh(rangeCurrent.bits) && fresh(rangePrevious) && fresh(rangePrevious.bits)
      ensures fresh(prefixScan) && fresh(rangeScan) && fresh(completionScan) && fresh(rate)
    {
      hide NewWalk, UnroutableStep, VolumeArm.Prior, Detector.Valid, ValidRates, RangeBloom.Value, SeqTest.Value, Walk.Valid;
      seenCountries := new bool[COUNTRY_SLOTS](_ => false);
      nCountries := 0;
      seenPrefixes := new bool[PrefixMemory.SLOTS](_ => false);
      prefixScan := new SeqTest(num, p.theta0Prefix, p.theta1, p.alpha, p.beta);
      prefixWindow, prefixNovelInWindow, rangeNovelInWindow := 0, 0, 0;
      rangeCurrent := new RangeBloom();
      rangePrevious := new RangeBloom();
      rangeWindow := 0;
      rangeScan := new SeqTest(num, p.theta0Range, p.theta1, p.alpha, p.beta);
      recentNumbers := new nat[NumberRing.SIZE](_ => 0);
      recentNext := 0;
      completionFailures, completionFailureWindow := 0, 0;
      completionScan := new SeqTest(num, p.theta0c, p.theta1c, p.alpha, p.beta);
      unroutableStep := UnroutableStep(num, p);
      rate := new VolumeArm.RateModel(p.priorMean, p.priorStrength, p.decay);
      windowStart, windowCount, lastScan, lastCompletion := 0, 0, 0, 0;
      volumeEvidence := 0.0;
      fireBits := p.fireBits;
      firstSeen, callsSeen, warmupSecs, warmupCalls := 0, 0, p.warmupSecs, p.warmupCalls;
      new;
      assert Shaped();
      assert Members(seenCountries[..]) == {};
      assert Prefixes() == PrefixMemory.EMPTY && Ranges() == RangeMemory.EMPTY && Numbers() == NumberRing.Empty();
      assert Completion() == CompletionArm.New(num, p);
      assert Volume() == VolumeArm.New(VolumeArm.Prior(p.priorMean, p.priorStrength, p.decay));
      hide Members, Prefixes, Ranges, Numbers, Completion, Volume, Shaped, CompletionArm.New, VolumeArm.New, NumberRing.Empty;
      NewIsValid(num, p);
    }

    /** Marks the country; true when it was new. */
    method MarkCountry(country: nat) returns (isNew: bool)
      requires seenCountries.Length == COUNTRY_SLOTS && country < COUNTRY_SLOTS
      modifies seenCountries, `nCountries
      ensures isNew <==> country !in old(Members(seenCountries[..]))
      ensures Members(seenCountries[..]) == old(Members(seenCountries[..])) + {country}
      ensures nCountries == old(nCountries) + (if isNew then 1 else 0)
    {
      MembersAfterSet(seenCountries[..], country);
      isNew := !seenCountries[country];
      if isNew {
        ghost var before := seenCountries[..];
        seenCountries[country] := true;
        assert seenCountries[..] == before[country := true];
        nCountries := nCountries + 1;
      }
    }

    method RotatePrefix(now: nat)
      modifies `prefixWindow, `prefixNovelInWindow
      ensures Prefixes() == old(Prefixes()).Rotated(now)
    {
      if prefixWindow == 0 {
        prefixWindow := now;
        return;
      }
      if SatSub(now, prefixWindow) >= PrefixMemory.WINDOW_SECS {
        prefixWindow := now;
        prefixNovelInWindow := 0;
      }
    }

    method PrefixFirstContact(num: Primitives, prefix: string) returns (isNew: bool)
      requires seenPrefixes.Length == PrefixMemory.SLOTS
      modifies seenPrefixes
      ensures isNew <==> old(Prefixes()).IsFirst(PrefixSlot(num, prefix))
      ensures Members(seenPrefixes[..]) == old(Members(seenPrefixes[..])) + {PrefixSlot(num, prefix)}
    {
      var slot := num.hash(prefix) % PrefixMemory.SLOTS;
      MembersAfterSet(seenPrefixes[..], slot);
      isNew := !seenPrefixes[slot];
      if isNew {
        ghost var before := seenPrefixes[..];
        seenPrefixes[slot] := true;
        assert seenPrefixes[..] == before[slot := true];
      }
    }

    /** Rotates lazily: the filters change places, and the new current one is emptied. */
    method RotateRanges(now: nat)
      requires rangeCurrent.Valid() && rangePrevious.Valid()
      requires rangeCurrent.bits != rangePrevious.bits && rangeCurrent != rangePrevious
      modifies `rangeCurrent, `rangePrevious, `rangeWindow, `rangeNovelInWindow, rangeCurrent.bits, rangePrevious.bits
      ensures Ranges() == old(Ranges()).Rotated(now)
      ensures rangeCurrent.Valid() && rangePrevious.Valid()
      ensures (rangeCurrent == old(rangeCurrent) && rangePrevious == old(rangePrevious))
           || (rangeCurrent == old(rangePrevious) && rangePrevious == old(rangeCurrent))
    {
      if rangeWindow == 0 {
        rangeWindow := now;
        return;
      }
      var elapsed := SatSub(now, rangeWindow);
      if elapsed < RangeMemory.WINDOW_SECS {
        return;
      }
      if elapsed >= 2 * RangeMemory.WINDOW_SECS {
        rangePrevious.Clear();
        rangeCurrent.Clear();
      } else {
        rangePrevious, rangeCurrent := rangeCurrent, rangePrevious;
        rangeCurrent.Clear();
      }
      rangeNovelInWindow := 0;
      rangeWindow := now;
    }

    /** Rotates, then reports and records a range met for the first time. */
    method RangeFirstContact(num: Primitives, digits: string, now: nat) returns (isNew: bool)
      requires rangeCurrent.Valid() && rangePrevious.Valid()
      requires rangeCurrent.bits != rangePrevious.bits && rangeCurrent != rangePrevious
      modifies `rangeCurrent, `rangePrevious, `rangeWindow, `rangeNovelInWindow, rangeCurrent.bits, rangePrevious.bits
      ensures isNew <==> old(Ranges()).IsFirst(DialOf(num, digits, now))
      ensures Ranges().(novel := if isNew then SatInc(rangeNovelInWindow) else rangeNovelInWindow)
           == old(Ranges()).Observed(DialOf(num, digits, now))
      ensures rangeCurrent.Valid() && rangePrevious.Valid()
      ensures (rangeCurrent == old(rangeCurrent) && rangePrevious == old(rangePrevious))
           || (rangeCurrent == old(rangePrevious) && rangePrevious == old(rangeCurrent))
    {
      hide Positions;
      RotateRanges(now);
      var end := SatSub(|digits|, RANGE_DIGITS);
      var range := digits[..end];
      if range == [] {
        return false;
      }
      var h := num.hash(range);
      var inCurrent := rangeCurrent.Contains(h);
      var inPrevious := rangePrevious.Contains(h);
      if inCurrent || inPrevious {
        return false;
      }
      rangeCurrent.Insert(h);
      return true;
    }

    /** Reports and records a number that is not among the last sixteen new ones. */
    method NumberFirstContact(num: Primitives, digits: string) returns (isNew: bool)
      requires recentNumbers.Length == NumberRing.SIZE && recentNext < NumberRing.SIZE
      modifies recentNumbers, `recentNext
      ensures isNew <==> old(Numbers()).IsNew(num.hash(digits))
      ensures Numbers() == old(Numbers()).Observed(num.hash(digits))
    {
      var h: nat := if num.hash(digits) == 0 then 1 else num.hash(digits);
      ghost var before := recentNumbers[..];
      for i := 0 to NumberRing.SIZE
        invariant forall j :: 0 <= j < i ==> recentNumbers[j] != h
        invariant Numbers() == old(Numbers())
      {
        if recentNumbers[i] == h {
          return false;
        }
      }
      recentNumbers[recentNext] := h;
      assert recentNumbers[..] == before[recentNext := h];
      recentNext := (recentNext + 1) % NumberRing.SIZE;
      return true;
    }

    /** Closes the volume window when it is an hour old, and counts the call. */
    method CountCall(num: Primitives, now: nat)
      modifies `windowStart, `windowCount, `volumeEvidence, rate
      ensures Volume() == old(Volume()).Observed(num, now)
    {
      if windowStart == 0 {
        windowStart := now;
      } else if SatSub(now, windowStart) >= VolumeArm.WINDOW_SECS {
        var bits := rate.SurpriseBits(num, windowCount);
        rate.Update(windowCount);
        volumeEvidence := volumeEvidence * 0.5 + bits;
        windowStart := now;
        windowCount := 0;
      }
      windowCount := windowCount + 1;
    }

    /** Leaks both scan walks by the time since the last call. */
    method LeakScans(num: Primitives, now: nat)
      requires prefixScan != rangeScan
      modifies prefixScan, rangeScan, `lastScan
      ensures var kept := if old(lastScan) == 0 then 1.0 else Leak(num.perSecond, SatSub(now, old(lastScan)));
              && prefixScan.Value() == old(prefixScan.Value()).Leaked(kept)
              && rangeScan.Value() == old(rangeScan.Value()).Leaked(kept)
      ensures lastScan == now
    {
      if lastScan != 0 {
        var dt := SatSub(now, lastScan);
        prefixScan.Decay(Leak(num.perSecond, dt));
        rangeScan.Decay(Leak(num.perSecond, dt));
      }
      lastScan := now;
    }

    /** Fuses the arms into a verdict. */
    method Fused(num: Primitives, firstTime: bool, now: nat) returns (v: Verdict)
      ensures v == Value().Fused(num, firstTime, now)
    {
      var warmed := firstSeen != 0 && callsSeen >= warmupCalls && SatSub(now, firstSeen) >= warmupSecs;
      var prefixBits := if prefixNovelInWindow >= PREFIX_MIN_NOVEL then Max(prefixScan.llr, 0.0) else 0.0;
      var rangeBits := if rangeNovelInWindow >= RANGE_MIN_NOVEL then Max(rangeScan.llr, 0.0) else 0.0;
      var completionBits :=
        if completionFailures >= CompletionArm.MIN_FAILURES then Max(completionScan.llr, 0.0) else 0.0;
      var volumeBits := if rate.periods >= VolumeArm.MIN_PERIODS then volumeEvidence * num.ln(2.0) else 0.0;
      var evidence := prefixBits + rangeBits + completionBits + volumeBits;
      v := Verdict(evidence, prefixBits, rangeBits, volumeBits, completionBits, nCountries, firstTime,
                   false, false, false, evidence >= fireBits, !warmed);
    }

    /** The dialling-prefix part of a call. */
    method NotePrefix(num: Primitives, prefix: string, now: nat) returns (isNew: bool)
      requires seenPrefixes.Length == PrefixMemory.SLOTS && prefixScan.Value().floor <= prefixScan.Value().upper + 1.0
      modifies `prefixWindow, `prefixNovelInWindow, seenPrefixes, prefixScan
      ensures isNew <==> old(Prefixes()).IsFirst(PrefixSlot(num, prefix))
      ensures Prefixes() == old(Prefixes()).Observed(PrefixMemory.Use(PrefixSlot(num, prefix), now))
      ensures prefixScan.Value() == old(prefixScan.Value()).Observed(isNew)
    {
      hide Members, PrefixSlot, Walk.Observed;
      RotatePrefix(now);
      isNew := PrefixFirstContact(num, prefix);
      if isNew {
        prefixNovelInWindow := SatInc(prefixNovelInWindow);
      }
      var _ := prefixScan.Observe(isNew);
    }

    /** The destination-range part of a call. */
    method NoteRange(num: Primitives, digits: string, now: nat) returns (isNew: bool)
      requires rangeCurrent.Valid() && rangePrevious.Valid() && rangeScan.Value().floor <= rangeScan.Value().upper + 1.0
      requires rangeCurrent.bits != rangePrevious.bits && rangeCurrent != rangePrevious
      modifies `rangeCurrent, `rangePrevious, `rangeWindow, `rangeNovelInWindow, rangeCurrent.bits, rangePrevious.bits,
               rangeScan
      ensures isNew <==> old(Ranges()).IsFirst(DialOf(num, digits, now))
      ensures Ranges() == old(Ranges()).Observed(DialOf(num, digits, now))
      ensures rangeScan.Value() == old(rangeScan.Value()).Observed(isNew)
      ensures rangeCurrent.Valid() && rangePrevious.Valid()
      ensures (rangeCurrent == old(rangeCurrent) && rangePrevious == old(rangePrevious))
           || (rangeCurrent == old(rangePrevious) && rangePrevious == old(rangeCurrent))
    {
      hide Members, Positions, RangeMemory.Memory.Observed, RangeMemory.Memory.IsFirst, DialOf, Walk.Observed;
      isNew := RangeFirstContact(num, digits, now);
      if isNew {
        rangeNovelInWindow := SatInc(rangeNovelInWindow);
      }
      var _ := rangeScan.Observe(isNew);
    }

    /** The clocks, the volume window, the leak of the scan walks, and the country. */
    method StartCall(num: Primitives, country: nat, now: nat) returns (firstTime: bool)
      requires Shaped() && country < COUNTRY_SLOTS
      modifies `firstSeen, `callsSeen, `windowStart, `windowCount, `volumeEvidence, rate, prefixScan, rangeScan,
               `lastScan, seenCountries, `nCountries
      ensures Gate(firstSeen, callsSeen, warmupSecs, warmupCalls)
           == old(Gate(firstSeen, callsSeen, warmupSecs, warmupCalls)).Noted(now)
      ensures Volume() == old(Volume()).Observed(num, now)
      ensures var kept := if old(lastScan) == 0 then 1.0 else Leak(num.perSecond, SatSub(now, old(lastScan)));
              && prefixScan.Value() == old(prefixScan.Value()).Leaked(kept)
              && rangeScan.Value() == old(rangeScan.Value()).Leaked(kept)
      ensures lastScan == now
      ensures firstTime <==> country !in old(Members(seenCountries[..]))
      ensures Members(seenCountries[..]) == old(Members(seenCountries[..])) + {country}
      ensures nCountries == old(nCountries) + (if firstTime then 1 else 0)
    {
      hide Members, VolumeArm.Arm.Observed, Walk.Leaked, Leak, Volume, SeqTest.Value;
      if firstSeen == 0 {
        firstSeen := now;
      }
      callsSeen := SatInc(callsSeen);
      CountCall(num, now);
      LeakScans(num, now);
      firstTime := MarkCountry(country);
    }

    /** The three first-contact memories and the two scan walks. */
    method NoteNovelty(num: Primitives, call: Call, now: nat)
      returns (novelPrefix: bool, novelRange: bool, novelNumber: bool)
      requires Shaped()
      requires prefixScan.Value().floor <= prefixScan.Value().upper + 1.0
      requires rangeScan.Value().floor <= rangeScan.Value().upper + 1.0
      modifies `prefixWindow, `prefixNovelInWindow, seenPrefixes, prefixScan,
               `rangeCurrent, `rangePrevious, `rangeWindow, `rangeNovelInWindow, rangeCurrent.bits, rangePrevious.bits,
               rangeScan, recentNumbers, `recentNext
      ensures novelPrefix == old(Prefixes()).IsFirst(PrefixSlot(num, call.prefix))
      ensures Prefixes() == old(Prefixes()).Observed(PrefixMemory.Use(PrefixSlot(num, call.prefix), now))
      ensures prefixScan.Value() == old(prefixScan.Value()).Observed(novelPrefix)
      ensures novelRange == old(Ranges()).IsFirst(DialOf(num, call.digits, now))
      ensures Ranges() == old(Ranges()).Observed(DialOf(num, call.digits, now))
      ensures rangeScan.Value() == old(rangeScan.Value()).Observed(novelRange)
      ensures novelNumber == old(Numbers()).IsNew(num.hash(call.digits))
      ensures Numbers() == old(Numbers()).Observed(num.hash(call.digits))
      ensures recentNext < NumberRing.SIZE
      ensures rangeCurrent.Valid() && rangePrevious.Valid()
      ensures (rangeCurrent == old(rangeCurrent) && rangePrevious == old(rangePrevious))
           || (rangeCurrent == old(rangePrevious) && rangePrevious == old(rangeCurrent))
    {
      hide Prefixes, Ranges, SeqTest.Value;
      hide Members, PrefixMemory.Memory.Observed, PrefixMemory.Memory.IsFirst, RangeMemory.Memory.Observed,
           RangeMemory.Memory.IsFirst, NumberRing.Ring.IsNew, Walk.Observed, DialOf, PrefixSlot, RangeBloom.Value;
      novelPrefix := NotePrefix(num, call.prefix, now);
      novelRange := NoteRange(num, call.digits, now);
      novelNumber := NumberFirstContact(num, call.digits);
    }

    /** Lets one call move every arm it moves. */
    method NoteCall(num: Primitives, call: Call, now: nat)
      returns (firstTime: bool, novelPrefix: bool, novelRange: bool, novelNumber: bool)
      requires Valid()
      modifies Repr()
      ensures Shaped() && Repr() == old(Repr())
      ensures Value() == old(Value()).Called(num, call, now)
      ensures var d := old(Value());
              && firstTime == (call.country !in d.countries)
              && novelPrefix == d.prefix.IsFirst(PrefixSlot(num, call.prefix))
              && novelRange == d.range.IsFirst(DialOf(num, call.digits, now))
              && novelNumber == d.numbers.IsNew(num.hash(call.digits))
    {
      hide Prefixes, Ranges, Numbers, Completion, Volume, SeqTest.Value;
      hide Members, PrefixMemory.Memory.Observed, PrefixMemory.Memory.IsFirst, RangeMemory.Memory.Observed,
           RangeMemory.Memory.IsFirst, NumberRing.Ring.Observed, NumberRing.Ring.IsNew, VolumeArm.Arm.Observed,
           Walk.Leaked, Walk.Observed, DialOf, PrefixSlot, RangeBloom.Value, Leak;
      ghost var before := Value();
      WalkIsInOrder(before.prefixScan, before.ScanKept(num, now));
      WalkIsInOrder(before.rangeScan, before.ScanKept(num, now));
      firstTime := StartCall(num, call.country, now);
      novelPrefix, novelRange, novelNumber := NoteNovelty(num, call, now);
    }

    /** Observes one international call. */
    method Observe(num: Primitives, call: Call, now: nat) returns (v: Verdict)
      requires Valid()
      modifies Repr()
      ensures Valid() && Repr() == old(Repr())
      ensures (Value(), v) == old(Value()).Observe(num, call, now)
    {
      hide Value, Shaped, Detector.Called, Detector.Fused, Detector.Valid, PrefixMemory.Memory.IsFirst,
           RangeMemory.Memory.IsFirst, NumberRing.Ring.IsNew, DialOf, PrefixSlot;
      ValidNumbers(Value());
      CallKeepsValid(num, Value(), call, now);
      var firstTime, novelPrefix, novelRange, novelNumber := NoteCall(num, call, now);
      v := Fused(num, firstTime, now);
      v := v.(firstPrefix := novelPrefix, firstRange := novelRange, firstNumber := novelNumber);
    }

    /** Applies a counted answer: `None` for a completed call, else the failure's step. */
    method ApplyAnswer(num: Primitives, step: Option<real>, now: nat)
      requires completionScan.Value().Valid()
      modifies `completionFailures, `completionFailureWindow, `lastCompletion, completionScan
      ensures var a := old(Completion()).Waited(num, now);
              Completion() == match step
                case None => a.(failures := 0, window := 0, walk := a.walk.Observed(false))
                case Some(nats) =>
                  a.(failures := SatInc(if a.Stale(now) then 0 else a.failures),
                     window := if a.window == 0 || a.Stale(now) then now else a.window,
                     walk := a.walk.Stepped(nats))
    {
      WalkIsInOrder(completionScan.Value(), 1.0);
      if lastCompletion != 0 {
        completionScan.Decay(Leak(num.perSecond, SatSub(now, lastCompletion)));
      }
      lastCompletion := now;
      match step {
        case None =>
          completionFailures, completionFailureWindow := 0, 0;
          var _ := completionScan.Observe(false);
        case Some(nats) =>
          if completionFailureWindow == 0 {
            completionFailureWindow := now;
          } else if SatSub(now, completionFailureWindow) >= CompletionArm.RUN_SECS {
            completionFailureWindow := now;
            completionFailures := 0;
          }
          completionFailures := SatInc(completionFailures);
          var _ := completionScan.ObserveStep(nats);
      }
    }

    /** The completion arm's part of an answer: one that is no evidence leaves the arm, its run
        and its clock alone. */
    method AnswerOutcome(num: Primitives, outcome: CompletionArm.CallOutcome, novel: CompletionArm.Novelty, now: nat)
      requires completionScan.Value().Valid()
      modifies `completionFailures, `completionFailureWindow, `lastCompletion, completionScan
      ensures Completion() == old(Completion()).Answered(num, outcome, novel, now)
    {
      hide Walk.Observed, Walk.Stepped, Walk.Valid, SeqTest.Value;
      match outcome {
        case Unanswered =>
        case Completed => ApplyAnswer(num, None, now);
        case NoSuchNumber =>
          if novel.range || novel.number {
            ApplyAnswer(num, Some(unroutableStep), now);
          }
        case Refused =>
          if novel.range {
            ApplyAnswer(num, Some(unroutableStep), now);
          }
        case Failed =>
          if novel.range {
            StepOfAFailure();
            ApplyAnswer(num, Some(completionScan.stepHit), now);
          }
      }
    }

    lemma StepOfAFailure()
      ensures Completion().walk.stepHit == completionScan.stepHit
    {
    }

    /** Records the outcome of an earlier call. */
    method ObserveCompletion(num: Primitives, outcome: CompletionArm.CallOutcome, novel: CompletionArm.Novelty, now: nat)
      returns (v: Verdict)
      requires Valid()
      modifies Repr()
      ensures Valid() && Repr() == old(Repr())
      ensures (Value(), v) == old(Value()).ObserveCompletion(num, outcome, novel, now)
    {
      hide Prefixes, Ranges, Numbers, Volume, Completion;
      hide Members, Positions, RangeBloom.Value, SeqTest.Value, Detector.Fused, CompletionArm.Arm.Answered,
           CompletionArm.Arm.Valid, Walk.Valid;
      ValidCompletion();
      CompletionArm.StepKeepsValid(num, Completion(), CompletionArm.Answer(outcome, novel, now));
      AnswerOutcome(num, outcome, novel, now);
      v := Fused(num, false, now);
    }

    lemma ValidCompletion()
      requires Valid()
      ensures Completion().Valid() && completionScan.Value().Valid()
    {
    }

    /** The completion arm's part of a recalibration. */
    method RefitCompletion(num: Primitives, p: Params)
      requires p.Valid()
      modifies completionScan, `unroutableStep
      ensures Completion() == old(Completion()).Refitted(num, p)
    {
      hide SeqTest.Value, SequentialTest.Recalibrated;
      completionScan.Recalibrate(num, p.theta0c, p.theta1c, p.alpha, p.beta);
      unroutableStep := UnroutableStep(num, p);
    }

    /** Adopts calibrated hypotheses across the arms, keeping their walks. */
    method Recalibrate(num: Primitives, p: Params)
      requires Valid() && p.Valid()
      modifies prefixScan, rangeScan, completionScan, `unroutableStep, `fireBits
      ensures Valid() && Repr() == old(Repr())
      ensures Value() == old(Value()).Recalibrated(num, p)
    {
      hide Prefixes, Ranges, Numbers, Volume, Completion;
      hide Members, SeqTest.Value, SequentialTest.Recalibrated, UnroutableStep, Detector.Valid, CompletionArm.Arm.Refitted,
           Walk.Valid, RangeBloom.Value;
      StepKeepsValid(num, Value(), Calibrated(p));
      prefixScan.Recalibrate(num, p.theta0Prefix, p.theta1, p.alpha, p.beta);
      rangeScan.Recalibrate(num, p.theta0Range, p.theta1, p.alpha, p.beta);
      RefitCompletion(num, p);
      fireBits := p.fireBits;
    }
  }

  lemma WalkIsInOrder(w: Walk, kept: real)
    requires w.Valid()
    ensures w.floor <= w.upper + 1.0 && w.Leaked(1.0) == w
    ensures w.Leaked(kept).floor <= w.Leaked(kept).upper + 1.0
  {
  }

  lemma ValidNumbers(d: Detector)
    requires d.Valid()
    ensures d.numbers.Valid()
  {
  }
}
