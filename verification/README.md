# TFPS decision core: a Dafny model

TFPS watches SIP traffic and decides, packet by packet, which sources to block. Its decision core
takes time as an argument and does no I/O. This project models that core and the record of manual
bans beside it, and proves what its verdicts, searches and retention promise over whole runs.

- **The sequential detector** (`sequential_test`, `calibration`, `prefix_memory`, `range_memory`,
  `number_ring`, `bitmaps`, `completion_arm`, `completion_walks`, `volume_arm`, `detector`,
  `detector_runs`, `scan_walks`, `windows`, `verdicts`, `likelihood`, `source_anomaly`): three clamped, decaying likelihood walks, a rotating Bloom
  memory, hard floors counted in windows, a failure run with its own clock and a decaying rate
  posterior. Each part is a value with its laws; `SourceAnomaly` is the object that keeps them all
  and is proved equal to the value, method by method.
- **The engine** (`pending`, `engine_model`, `engine_runs`, `engine_effects`, `engine_*`, `engine`,
  `checkpoints`): a transition system over packets, recalibrations, mode changes, declared dial
  plans and restores, and the system it forms with its store over checkpoints and restarts.
  `engine_effects` says once what a packet does to one source; the theorems about runs build on it.
  The `Engine` class is proved equal to the transition system, method by method.
- **The bounded rings** (`sliding_count`, `reg_probes`, `reg_probe_laws`, `auth_failures`): three fixed-size rings and
  the unbounded histories they answer for.
- **The manual-action record** (`calendar`, `manual_log`, `manual_cases`, `manual_record`): civil dates, month files,
  the newest-first search and retention.
- **The SIP header loop** (`sip_headers`, `sip_names`) and **country resolution** (`country`).

Conventions. `f64` is `real`; logarithm, predictive surprise and the string hash are parameters
(`Numerics.Primitives`) constrained only by what the code relies on: `ln` increasing with
`ln 1 = 0`, surprise in `[0, cap]`, per-second decay in `(0, 1]`, hashes 64-bit. 32-bit saturating
arithmetic is written out (`SatInc`, `SatSub`). A bit table is the set of its set positions. Runs
are clocked: packets come in time order, and where a ring stamps an emptied slot zero, instants are
at least one span after zero, as wall-clock seconds are. `Receive` is one packet; the perimeter's
verdict, the account hash and the transaction key arrive on the request.

A source's history starts when it is created or last restored from a row: a detector keeps none of
its memories across a restart, so "first ever" in a row below means first since then.

Where the code and its documents differ, the model follows the code:

- `DETECTION.md:201-203` says a folded header line is skipped; the code joins it to its header
  (`SipHeaders.FoldedLineIsJoined`).
- RFC 3261 section 7.3.1 gives a folded value the meaning it has on one line. The code joins with one
  space even when a side is blank, so a header folded right after its colon keeps a space before its
  value, and a blank continuation leaves one behind it (`SipHeaders.BlankSideLeavesASpace`;
  `SipHeaders.UnfoldingChangesOnlyTheFlag` gives the exact condition).
- `DETECTION.md:319-321` says failures are counted per account, so that a valid account cannot reset a
  run against another. Only a REGISTER names its account; every other credential of a source counts
  for account 0, so an accepted INVITE credential pardons those of all its other callers
  (`EngineAuth.AcceptanceClearsItsAccount` gives the exact condition,
  `EngineExchanges.CallersShareOneAccount` what it means over runs of calls, and
  `EngineExchanges.OneCallerResetsAnother` a run).
- The failure ring's five slots are shared by all accounts of a source, so rejections of a second
  account in between postpone the verdict on the first (`AuthFailures.ThresholdIsFiveInARow` gives
  the exact condition, `AuthFailures.FiveRejectionsCanPassUnseen` an input).
- The record search is documented to agree with reading everything; it does except when the newest
  month with a line about a wanted address is not UTF-8, because the full reading drops such a file
  whole (`ManualLog.SearchAgreesWithTextReading`, with a reachable counterexample in
  `ManualCases.TextReadingCanLoseABan`).
- Retention deletes by month of action, so a ban with no expiry is forgotten once its month leaves
  the window (`ManualLog.RetentionBoundsStandingBans` gives the exact condition,
  `ManualCases.BanForGoodIsForgotten` a run).
- Retention takes the files in directory order and stops at the first it cannot delete, so a newer
  file can go while an older stays and an action lifted since counts again
  (`ManualLog.StoppedPruneFallsBack` gives the exact condition, `ManualCases.LiftedBanCanStandAgain`
  a record).
- The comment on `prune` says the current month always ends after now; in its very last second it
  ends at now (`Calendar.MonthHoldsItsEnd`), and never earlier (`Calendar.OwnMonthHasNotEnded`). The
  conclusion drawn from it holds (`ManualLog.PruneIsSafe`).
- The comment at `engine.rs:300` says a retransmitted request is the same attempt. A retransmitted
  INVITE is observed as a second call, and what was new about the first is overwritten with what is
  new about the second (`EngineCalls.OutcomeAnswersACall`), so a failure that would be evidence is
  not (`EngineCalls.RetransmissionHidesTheOutcome`; `EngineCalls.SecondLookIsHarmless` gives the exact
  condition under which nothing is lost when no other call comes in between).
- Only a repeat of the credential header that came first is a duplicate; repeats of the other one
  are not (`SipHeaders.RepeatedCredentialIsMissed`).

Running `dafny verify dfyconfig.toml` in this directory checks the whole project.

## Model

| member | source | states |
|---|---|---|
| `EngineAuth.AuthFailureProvesFiveRejections` | crates/tfps-core/src/engine.rs:641-724 | Over every run of packets, recalibrations, mode changes and restores: an authentication verdict on a source yields five different credentialed requests of that source for one account, each remembered as sent and claimed, by no earlier answer, by a 401/407 from the address it was sent to; all five answers inside 600 s, none accepted for that account in between. Credentials other than a REGISTER's all count for account 0 |
| `EngineAuth.VerdictIsFiveInARow` | crates/tfps-core/src/engine.rs:713-724 | The authentication verdict is given if and only if the packet rejects a claimed credential and the last five rejections of the source concern that account, inside the window, with no acceptance of it since the first |
| `EngineAuth.FailureRingIsItsHistory` | crates/tfps-core/src/engine.rs:676-724 | In every reachable state a source's failure ring is the run of its own claimed rejections and acceptances and of nothing else |
| `EngineAuth.WaitingWasSent` | crates/tfps-core/src/engine.rs:289-331 | Every credential still waiting is the latest its source sent under its key, and no answer claimed that key since |
| `EngineWaiting.WaitingCredentials` | crates/tfps-core/src/engine.rs:289-331 | The exact table over every run: a credential waits if and only if some operation sent it while its key waited or fewer than 32 young entries did, and since then nothing was sent or claimed under its key and no credential of its source came 32 s or more after it |
| `EngineWaiting.WaitingCalls` | crates/tfps-core/src/engine.rs:289-331 | The same for calls |
| `EngineWaiting.AnswerJudgesWhatWaits` | crates/tfps-core/src/engine.rs:670-724 | Over every run: a final answer under a key rejects a credential for an account if and only if it is a 401 or 407 and a credential for that account, sent under the key to the answer's sender or to nobody in particular, waits so; it accepts one if and only if it is a 2xx and one waits so |
| `EngineWaiting.AnswerIsTheOutcomeOfWhatWaits` | crates/tfps-core/src/engine.rs:670-751 | Over every run: a final answer reaches the detector as an outcome with a novelty if and only if the behavioural layer runs, its status is that outcome, and a call with that novelty waits under its key for its sender |
| `EngineWaiting.ProvisionalMovesNothing` | crates/tfps-core/src/engine.rs:651-669 | A 1xx response claims nothing, moves no source, known peer or calibration and gets no verdict |
| `EngineAuth.AcceptanceClearsItsAccount` | crates/tfps-core/src/engine.rs:689-724 | The exact law: an accepted credential leaves no live failure of its own account and every live failure of any other; two credentials count for one account if and only if (the account named by a REGISTER, or 0 for any other request) agrees |
| `EngineExchanges.CallersShareOneAccount` | crates/tfps-core/src/engine.rs:859-872 | Over every run of credentials, none a REGISTER's and each with a key, from any callers of one source to one server, each answered at its own instant before the next: the last answer gets the authentication verdict if and only if the last five answers are rejections inside 600 s, whichever callers they were for |
| `EngineExchanges.CallersOfAnyRun` | crates/tfps-core/src/engine.rs:859-872 | Over every run whatever, requests, answers and other packets interleaved, in which no credential of the source is a REGISTER's: all its rejections and acceptances count for account 0, and the verdict is given if and only if this answer rejects one and the last five rejections lie inside 600 s with no acceptance, of whichever caller, since the first of them |
| `EngineExchanges.OneCallerResetsAnother` | crates/tfps-core/src/engine.rs:689-724 | A concrete reachable run: five rejected INVITE credentials of one caller get the verdict, and the same run with one accepted INVITE credential of another caller before the fifth does not |
| `EngineAuth.ForgedAnswerMovesNothing` | crates/tfps-core/src/engine.rs:641-675 | Over every run: a response that has no key, or whose key's latest unanswered credential and latest unanswered call of its recipient were sent to other addresses, leaves every source, every known peer and the calibration as they were, and gets no verdict; whatever was sent to the forger before, under this key or another |
| `EngineScan.ScanProvesTenExtensions` | crates/tfps-core/src/engine.rs:836-857 | Over every run: a registration-scan verdict proves at least ten different extension hashes for each of which the source sent a REGISTER in the last 600 s with no accepted registration of that extension since |
| `EngineScan.TenFreshExtensionsAreCaught` | crates/tfps-core/src/engine.rs:836-857 | Over every run: ten fresh extensions probed inside the window with nothing registered meanwhile force the verdict on the last of them, whatever the ring held before |
| `EngineScan.ScanIsTheHistory` | crates/tfps-core/src/engine.rs:845-857 | The verdict is given if and only if the packet probes and the ring rebuilt from the source's own probe history then has ten live slots |
| `EngineScan.ScanIsExact` | crates/tfps-core/src/engine.rs:836-857 | Over every run: the verdict is given if and only if the packet probes and at least ten extensions were then probed in the last 600 s, not accepted since, and took a slot fewer than sixteen slots ago; and a probe takes a slot if and only if its extension does not count at that moment |
| `EngineScan.ProbeRingIsItsHistory` | crates/tfps-core/src/engine.rs:845-857 | In every reachable state a source's probe ring is the run of its own registrations probed and accepted |
| `EngineKnown.KnownPeersHaveRegistered` | crates/tfps-core/src/engine.rs:689-712 | In every reachable state a known peer is one that sent a credential answered, from the address it was sent to and at the recorded instant, by a success whose own CSeq names REGISTER, and by no later such one; as in the source, that CSeq alone makes it a registration |
| `EngineKnown.KnownStep` | crates/tfps-core/src/engine.rs:689-712 | An operation makes a source known, at its instant, if and only if it is such an accepted registration and there is room or the source is already known |
| `EngineKnown.StateIsBounded` | crates/tfps-core/src/engine.rs:827-829 | In every reachable state there are at most 10,000 sources beside those whose dial plan was declared, 50,000 known peers, and 32 waiting transactions of each kind per source |
| `EngineFeeding.CallIsObserved` | crates/tfps-core/src/engine.rs:885-1000 | An international INVITE to a known foreign country, from a source with an entry or room for one and not stopped by the attempt threshold, reaches its source's detector, marks the source changed, and is remembered with its responder and with exactly what was new about it |
| `EngineFeeding.OutcomeIsObserved` | crates/tfps-core/src/engine.rs:670-751 | A final answer to a waiting international call, whatever else it answers, is fed to the detector with the novelty recorded for that call, and the call waits no longer |
| `EngineFeeding.CredentialIsNoted` | crates/tfps-core/src/engine.rs:859-884 | A credential that is not stopped as a scan is remembered for its answer and recorded in the attempt ring, and is called abuse if and only if that fills the ring's fifty slots inside 60 s |
| `EngineAbuse.AbuseIsFiftyAttempts` | crates/tfps-core/src/engine.rs:859-884 | Over every run: the abuse verdict is given if and only if the packet is an attempt of its source and the source made at least fifty attempts in the last 60 s of the run, this one included |
| `EngineAbuse.AttemptRingIsItsHistory` | crates/tfps-core/src/engine.rs:859-884 | In every reachable state a source's attempt ring is the run of its own attempts |
| `EngineCalls.OutcomeAnswersACall` | crates/tfps-core/src/engine.rs:670-751 | Over every run: each outcome a detector hears answers a call its source placed, the latest under its key, unclaimed until then, from the address it was sent to, judged with what the detector reported new about that very call |
| `EngineCalls.OutcomesOfAHistory` | crates/tfps-core/src/engine.rs:670-751 | So every outcome of a source's history goes back to a call of the source, and no later outcome to the same one |
| `EngineCalls.RetransmissionHidesTheOutcome` | crates/tfps-core/src/engine.rs:298-308 | A first call's failure is evidence, its range and number being new; the same call with its INVITE retransmitted once before the answer is none, whatever the failure, in every deployment and at all instants within the waiting time |
| `EngineCalls.SecondLookIsHarmless` | crates/tfps-core/src/engine.rs:962-984 | A call observed twice within 900 s, with no other call of its source in between, is reported with the same novelty both times if and only if its number is among the last sixteen and its range, when it has one, is remembered at the first call and, without it, still at the second |
| `EngineCalls.NothingIsNewTwiceToASource` | crates/tfps-core/src/anomaly.rs:537-573 | Over the whole history of any reachable source, whatever lies in between: of two calls to one number, the second is a new number if and only if none of the last sixteen reported is it, so not when the first was and fewer than sixteen followed; and not to a new range when the first was, less than 900 s before |
| `EngineBlock.FiringDecisionHasAFloor` | crates/tfps-core/src/engine.rs:744-770 | Over every run of packets: a would-block, warming or block decision comes with the whole history of its source since it was created or last restored, ending in this packet. Every event of it is what a packet or recalibration meant to the source in the state it met (the call its dial plan makes of the dialled string, the outcome of its own waiting call with the novelty recorded for it), and no packet that meant one is left out. That history crosses a floor: four first-ever prefix slots or ten different ranges within 900 s of the latest call, ten counted failures within an hour with no completion since, or six closed hourly windows; it is a block if and only if the engine is not learning and twenty calls lie behind it, one of them a day old |
| `EngineBlock.EverySourceHasAHistory` | crates/tfps-core/src/engine.rs:596-626 | In every reachable state each source has such a complete history, and its detector is the run of exactly those events from the detector it was created or restored with |
| `EngineBlock.DetectorStep` | crates/tfps-core/src/engine.rs:596-626 | Any operation takes the detector of any source by exactly the event it means to it, and otherwise leaves it, sets it up, or restores it |
| `EngineEffects.SourceEffect` | crates/tfps-core/src/engine.rs:641-1016 | One packet moves one source's rings, tables, detector and flag exactly so: as its clean request, as an answer to it, or not at all |
| `EngineEffects.SourceDecision` | crates/tfps-core/src/engine.rs:641-1016 | For every packet in every state: scan, abuse and authentication verdicts exactly as the source's rings say, and would-block, warming or block exactly as the detector's verdict and the mode call for, and none of them otherwise |
| `EngineDecisions.EveryDecision` | crates/tfps-core/src/engine.rs:596-1016 | For every packet in every state: the decision is about a request's sender or a response's recipient; it is condemned if and only if it is a request a filter condemns, with that filter's verdict; scan and abuse with their counts as the rings say; unknown country, with those digits, if and only if no ring stops the INVITE and its international number has no country; pass, with that country, if and only if a foreign call's verdict does not fire, and novel if and only if the source never called the country; a firing verdict with its evidence, countries and country; and out of scope otherwise |
| `EngineDecisions.EveryCounter` | crates/tfps-core/src/engine.rs:596-1016 | For every packet in every state each counter moves exactly so: requests seen and condemned by the packet and the filter, responses, keepalives and other packets by their kind, credentials and calls by what they mean to the source and by the decision; a condemned request moves nothing else |
| `EngineSources.SourcesAreAdmitted` | crates/tfps-core/src/engine.rs:836-950 | An operation leaves a source with an entry if and only if it had one, or its dial plan is declared, or a clean registration, credential or behavioural INVITE of it, or a stored row, asks for one while there are fewer than 10,000 |
| `EngineSources.PlansAreDeclared` | crates/tfps-core/src/engine.rs:836-950 | In every run the calls of a source are read under the dial plan last declared for it, or the default plan |
| `EngineSources.ModeIsSet` | crates/tfps-core/src/engine.rs:744-770 | In every run the mode is the one last set |
| `EngineWalks.SourceScanFiresWithItsCalls` | crates/tfps-core/src/anomaly.rs:578-641 | For every reachable source and its whole history, recalibrations and answers included: each scan walk first stands at its bound after the event at which the age-weighted evidence of its calls, from the beginning or from a moment at the floor, first reaches the bound |
| `EngineWalks.SourceEvidenceIsAged` | crates/tfps-core/src/anomaly.rs:578-641 | And in clock time: that evidence, from any start at any event, is the start and the step of every call since, each weighted once by its age at the latest call |
| `EngineWalks.SourceCompletionFiresWithItsAnswers` | crates/tfps-core/src/anomaly.rs:659-709 | The same first-crossing law for the completion walk of every reachable source, over its whole history |
| `EngineVerdicts.DecisionIsTheEvidence` | crates/tfps-core/src/engine.rs:744-770 | For every packet of every run: one that means no event to its subject announces nothing; one that does ends the source's whole history, and a firing decision is given if and only if the evidence of that history reaches ln(0.99 / 0.0001), summed over the prefix scan past four first-ever prefixes of its window, the range scan past ten first contacts of its window, the completion arm past ten failures of its run and the volume arm past six closed hours. It says would-block if and only if learning has not reached its end, else block if and only if twenty calls and a day-old one lie behind, and reports that sum, the number of different countries called and the country of this call |
| `EngineVerdicts.OneArmIsEnough` | crates/tfps-core/src/anomaly.rs:713-758 | No arm masks another, in every run: when either scan, past its floor, has its age-weighted evidence first reach the bound with this packet, or the completion arm past ten failures does, the decision announces it |
| `EngineVerdicts.EverySourceFiresAtTheBound` | crates/tfps-core/src/anomaly.rs:339-362 | In every reachable state every source's verdict fires at ln(0.99 / 0.0001), the upper bound of its walks |
| `Verdicts.VerdictIsTheSum` | crates/tfps-core/src/anomaly.rs:713-758 | Over every history of one source: each arm's share of a verdict is read off that arm's own trials and its own window, run or hours, the evidence is the sum of the four, and the verdict fires if and only if the sum reaches the bound |
| `Verdicts.NoveltyIsTold` | crates/tfps-core/src/anomaly.rs:578-641 | A verdict reports a country new if and only if the source never called it, a prefix if and only if no earlier call used its slot, a range if and only if the call is its first contact, a number if and only if none of the last sixteen reported is it; a verdict on an answer reports nothing new |
| `Verdicts.CountriesAreCalled` | crates/tfps-core/src/anomaly.rs:502-511 | The country set is what was restored and every country called since, and the reported number grew by exactly the new ones |
| `Likelihood.BoundsAreLikelihoods` | crates/tfps-core/src/anomaly.rs:43-56 | The sequential probability ratio test, for a logarithm of products: the steps of any list of trials add up to the upper bound if and only if scanning makes the trials (1 - beta) / alpha times likelier than the benign hypothesis, and down to the floor if and only if at most beta / (1 - alpha) times as likely |
| `Likelihood.EvidenceIsTheLogRatio` | crates/tfps-core/src/anomaly.rs:43-67 | So the sum of the steps is the log-likelihood ratio of the trials |
| `Likelihood.UnroutableIsALikelihood` | crates/tfps-core/src/anomaly.rs:450-454 | And an unroutable answer steps by the logarithm of how much likelier scanning makes it than the benign unroutable rate |
| `Windows.OpeningsFollow` | crates/tfps-core/src/anomaly.rs:524-555 | Of the windows both scan arms count in: every call from an opening on comes less than the span after it, and each opening a whole span or more after the one before, or first of all; none is in force exactly while there was no call |
| `EngineIsolation.CondemnedRequestsCannotPoison` | crates/tfps-core/src/engine.rs:784-820 | Deleting every noise, injection, scanner and malformed request from any run leaves all sources, known peers, calibration, mode and every other packet's decision unchanged |
| `EngineCounters.CountersAreConserved` | crates/tfps-core/src/engine.rs:289-331 | In every reachable state: accepted + rejected + waiting credentials <= attempts; completed + failed + unanswered + waiting calls + unknown country + home country <= international; unroutable <= failed; novel prefixes and ranges <= international |
| `EngineCounters.FittedRatesAreRates` | crates/tfps-core/src/engine.rs:478-505 | So in every reachable state the quotients recalibration takes are rates between 0 and 1, the unroutable one no larger than the failure one |
| `EngineRuns.HypothesesStayOrdered` | crates/tfps-core/src/engine.rs:478-518 | In every reachable state 0 < theta0 < theta1 < 1 for the prefix, range and completion arms and 0 < theta0u <= theta0c |
| `EngineRuns.FittedIsValid` | crates/tfps-core/src/engine.rs:478-512 | Recalibration from any counters and any source rates yields usable parameters: ordered hypotheses, a positive prior of weight at most 50 |
| `EngineCalibration.RecalibrationFits` | crates/tfps-core/src/engine.rs:478-518 | Over every run, on the parameters after a recalibration: theta0c times the final answers is the failures, and theta0u times them the unroutable ones, whenever the share lies in [0.05, 0.7] or [0.005, 0.3], and the nearer end otherwise, from 200 final answers on; the prefix and range hypotheses likewise against novel prefixes in [0.005, 0.3] and novel ranges in [0.02, 0.4], from 500 international calls on; the prior mean is the mean of the learned rates and its weight the mean over their variance in [0.1, 50], from 20 sources on of which two differ; below those counts each stays; everything else stays, and every source adopts the result |
| `EngineCalibration.CapNeverBinds` | crates/tfps-core/src/engine.rs:489-500 | Unroutable answers being among the failures, the clamped unroutable rate never exceeds the clamped failure rate |
| `EngineCalibration.ColdStart` | crates/tfps-core/src/anomaly.rs:339-362 | Until the first recalibration every reachable state has the cold-start parameters, value by value |
| `EngineCalibration.StepsFollowTheHypotheses` | crates/tfps-core/src/anomaly.rs:761-771 | In every reachable state every walk of every source steps by the log ratios of the hypotheses in force, or of a cold start |
| `EngineModel.ObserveKeepsValid` | crates/tfps-core/src/engine.rs:596-626 | One packet of any kind keeps every source's detector, rings and tables within their bounds |
| `Engines.Engine.constructor` | crates/tfps-core/src/engine.rs:377-389 | A new engine is in the initial state of the transition system |
| `Engines.Engine.ObservePacket` | crates/tfps-core/src/engine.rs:596-626 | One datagram leaves exactly the state, and returns exactly the subject and the decision, of the transition system: a request is about its sender, a response about the party answered |
| `Engines.Engine.ObserveResponse` | crates/tfps-core/src/engine.rs:641-775 | Both tables are claimed, never for a provisional answer; an authentication verdict returns before the call path |
| `Engines.Engine.ObserveRequest` | crates/tfps-core/src/engine.rs:777-827 | The perimeter condemns in its order and touches only its own counter; then credentials, then the call |
| `Engines.Engine.Recalibrate` | crates/tfps-core/src/engine.rs:478-518 | The loops over sources compute the fitted prior and leave every source recalibrated and otherwise unchanged |
| `Engines.Engine.ExportAnomaly` | crates/tfps-core/src/engine.rs:534-548 | Exactly the dirty sources are exported, each with its durable state |
| `Engines.Engine.ImportAnomaly` | crates/tfps-core/src/engine.rs:558-579 | A row replaces the source's detector, clean, creating the source only while there is room |
| `Pending.RememberedLaws` | crates/tfps-core/src/engine.rs:290-317 | Exactly the entries under other keys younger than 32 s stay, and the new one is there if and only if its key was young or fewer than 32 young ones wait; keys stay unique and the table bounded |
| `Pending.ClaimedLaws` | crates/tfps-core/src/engine.rs:323-331 | A claim removes exactly the entry it returns, which has the key and awaits this responder (or anyone), and leaves exactly the entries under other keys; without one nothing changes |
| `Pending.PendingAuth.Remember` | crates/tfps-core/src/engine.rs:290-317 | Prunes entries of 32 s and more, refreshes a retransmission in place, appends only while there is room |
| `Pending.PendingAuth.Claim` | crates/tfps-core/src/engine.rs:323-331 | Returns and removes the first entry the answer may claim |
| `Checkpoints.IncrementalCheckpointsAreFull` | crates/tfps/src/store.rs:575-605 | In every run of traffic, recalibrations, committed and failed checkpoints and restarts, a source ever dirty or restored and now clean has a stored row equal to its durable state, unless that row was pruned past retention, and then it has none |
| `Checkpoints.RestartKeepsWhatIsFresh` | crates/tfps/src/store.rs:616-660 | After any run, a restart at any instant keeps a clean source's durable state if and only if its row was written within retention of the last pruning and of the boot, is among the rows read, and when its turn comes fewer than 10,000 sources are declared or ahead of it (or it is itself declared); otherwise the source starts over |
| `Checkpoints.RestartRestoresExactly` | crates/tfps/src/store.rs:616-660 | A restart restores exactly the sources whose rows load, each clean and with its row's durable state; every other source is absent or starts over under its declared plan |
| `Checkpoints.CheckpointWritesTheDirty` | crates/tfps/src/main.rs:1025-1035 | A committed checkpoint leaves no source marked and the engine otherwise as it was, writes a row exactly for every marked source, and keeps another row if and only if it is at most ninety days old |
| `Checkpoints.DirtyIsObserved` | crates/tfps-core/src/engine.rs:534-556 | Traffic marks a source if and only if its detector observed a call or an outcome, and no live operation unmarks one |
| `Checkpoints.DatesAreCheckpoints` | crates/tfps/src/store.rs:575-605 | Over every run a row is dated by the latest committed checkpoint that found its source marked, and the cutoff lies ninety days before the latest committed checkpoint |
| `Checkpoints.CheckpointKeepsInv` | crates/tfps/src/main.rs:1025-1035 | A committed checkpoint writes the dirty sources, clears the flags and prunes, keeping every clean source in step with its row and every row dated by its last writing |
| `Detectors.SnapshotRoundTrip` | crates/tfps-core/src/anomaly.rs:784-806 | Restoring a snapshot and taking one again is the identity |
| `Detectors.RunKeepsValid` | crates/tfps-core/src/anomaly.rs:578-771 | In every reachable detector the walks stand in their wells, the posterior is proper with weight at most 50, and the fire bound is positive |
| `DetectorRuns.FiringNeedsAFloor` | crates/tfps-core/src/anomaly.rs:713-758 | For every run of one source a fired verdict implies four first-ever prefixes or ten pairwise different ranges within 900 s, that window still holding the latest call, ten counted failures within an hour with no completion since, or six closed hours |
| `DetectorRuns.WarmedVerdictHasAge` | crates/tfps-core/src/anomaly.rs:713-758 | A verdict is out of warm-up if and only if the required number of calls and a call of the required age lie behind it |
| `DetectorRuns.RunIsProductOfProjections` | crates/tfps-core/src/anomaly.rs:578-709 | Any interleaving of calls and answers gives the product of the run of the calls alone and the run of the answers alone |
| `DetectorRuns.InterleavingsAgree` | crates/tfps-core/src/anomaly.rs:578-709 | Two interleavings of the same calls and the same answers end in the same state |
| `DetectorRuns.ArmsRunApart` | crates/tfps-core/src/anomaly.rs:578-709 | Each memory and arm of a run is the run of that memory or arm over its own view of the events |
| `DetectorRuns.GateTellsTheHistory` | crates/tfps-core/src/anomaly.rs:578-600 | The gate counts exactly the calls placed, up to where it saturates, and its date is the first call's instant |
| `ScanWalks.ScanFiresWithItsCalls` | crates/tfps-core/src/anomaly.rs:578-641 | From any valid detector and over any mixture of calls, answers and recalibrations that keep the error rates: a scan walk first stands at its bound after the event at which the age-weighted evidence of the calls, from where the walk stood or from a moment at the floor, first reaches it. A call is a hit if and only if it is the first on its prefix slot as far as the source is remembered, or reported as first contact with its range |
| `ScanWalks.ScanIsAWalk` | crates/tfps-core/src/anomaly.rs:578-641 | Under the same conditions either scan walk is the walk of its trials under the steps in force: each call discounted by the wait before it, answers and recalibrations moving nothing |
| `ScanWalks.EvidenceIsAged` | crates/tfps-core/src/anomaly.rs:578-641 | From any detector, in clock time: the discounted evidence from any start at any event is the start and every call's step since, each weighted once by its age |
| `SourceAnomalies.SourceAnomaly.constructor` | crates/tfps-core/src/anomaly.rs:463-495 | A new object has the value of a new detector, with parts of its own |
| `SourceAnomalies.SourceAnomaly.MarkCountry` | crates/tfps-core/src/anomaly.rs:502-511 | The country bit is set and reported new exactly when it was not |
| `SourceAnomalies.SourceAnomaly.RotatePrefix` | crates/tfps-core/src/anomaly.rs:524-535 | The window starts on first use and restarts at 900 s, clearing the count |
| `SourceAnomalies.SourceAnomaly.PrefixFirstContact` | crates/tfps-core/src/anomaly.rs:514-520 | The slot is set for life and reported first exactly when it was clear |
| `SourceAnomalies.SourceAnomaly.RotateRanges` | crates/tfps-core/src/anomaly.rs:537-555 | One expired window moves the current filter to the previous one; two drop both |
| `SourceAnomalies.SourceAnomaly.RangeFirstContact` | crates/tfps-core/src/anomaly.rs:558-573 | First contact is reported and inserted exactly when neither filter holds the range after rotation |
| `SourceAnomalies.SourceAnomaly.NumberFirstContact` | crates/tfps-core/src/anomaly.rs:644-657 | A number is new exactly when none of the sixteen slots holds it, and only then takes the next slot |
| `SourceAnomalies.SourceAnomaly.CountCall` | crates/tfps-core/src/anomaly.rs:590-602 | An hour-old window is scored against the posterior before being folded in, then the call opens or joins the window |
| `SourceAnomalies.SourceAnomaly.Fused` | crates/tfps-core/src/anomaly.rs:713-758 | Evidence is the sum of the arms past their floors; fired and warming as the bound and the gate say |
| `SourceAnomalies.SourceAnomaly.Observe` | crates/tfps-core/src/anomaly.rs:578-641 | One call leaves exactly the detector, and returns exactly the verdict, of the specification |
| `SourceAnomalies.SourceAnomaly.AnswerOutcome` | crates/tfps-core/src/anomaly.rs:659-709 | The completion arm moves exactly on a completion or a counted failure |
| `SourceAnomalies.SourceAnomaly.ObserveCompletion` | crates/tfps-core/src/anomaly.rs:659-709 | One answer leaves exactly the detector, and returns exactly the verdict, of the specification |
| `SourceAnomalies.SourceAnomaly.Recalibrate` | crates/tfps-core/src/anomaly.rs:761-771 | Walks are clamped into the new wells, steps and bounds replaced, memories kept |
| `SequentialTest.FirstFiringIsFirstSuffixCrossing` | crates/tfps-core/src/anomaly.rs:59-107 | From any start, the clamped, decaying walk first fires at trial n if and only if n is the first trial at which the discounted start plus all discounted trials, or the discounted floor at some k plus the discounted trials after k, reaches the bound |
| `SequentialTest.WalkIsLargestSuffix` | crates/tfps-core/src/anomaly.rs:59-107 | Until it fires the walk equals the largest of the discounted sum from its start and the sums restarted from the floor, as far as the cap shows it |
| `SequentialTest.DiscountIsAge` | crates/tfps-core/src/anomaly.rs:95-97 | Decaying step by step, from any start at any sample, equals weighting the start and each step once by its age |
| `SequentialTest.WalkStaysInItsWell` | crates/tfps-core/src/anomaly.rs:37-112 | Through any run of observe, observe_step, decay and recalibrate the walk stays in [floor, upper + 1] of the bounds in force |
| `SequentialTest.StepSigns` | crates/tfps-core/src/anomaly.rs:43-56 | Ordered hypotheses and error rates make the hit step positive, the miss step negative and the bounds lie on either side of zero |
| `SequentialTest.SeqTest.constructor` | crates/tfps-core/src/anomaly.rs:43-56 | A new test stands at zero with its log-ratio steps and bounds |
| `SequentialTest.SeqTest.Observe` | crates/tfps-core/src/anomaly.rs:59-67 | One trial moves the walk by its step, clamped, and returns the non-negative evidence |
| `SequentialTest.SeqTest.ObserveStep` | crates/tfps-core/src/anomaly.rs:77-81 | The same for a given step |
| `SequentialTest.SeqTest.Recalibrate` | crates/tfps-core/src/anomaly.rs:84-92 | New steps and bounds, the walk clamped between them |
| `SequentialTest.SeqTest.Decay` | crates/tfps-core/src/anomaly.rs:95-97 | The walk is scaled and nothing else moves |
| `PrefixMemory.NovelPrefixesAreFirstUses` | crates/tfps-core/src/anomaly.rs:514-535 | Every unit of the prefix window count is a call that was the first ever on its slot and was placed inside the window |
| `PrefixMemory.NovelIsCounted` | crates/tfps-core/src/anomaly.rs:514-535 | The count is exactly that of the first-ever prefix slots among the calls of the window in force, which opens with the first call and again with each first call 900 s or more after the last opening |
| `RangeMemory.ReportedRangeIsRemembered` | crates/tfps-core/src/anomaly.rs:537-573 | A range reported as first contact at t is never reported again before t + 900 s, whatever calls and rotations come between |
| `RangeMemory.ReportsAreFirstContacts` | crates/tfps-core/src/anomaly.rs:537-573 | A call is reported if and only if the positions of its range are covered neither by the first contacts of the window it falls in nor by those of the window before, if that opened less than 1,800 s before; and both filters and the count are exactly what those first contacts leave |
| `RangeMemory.NovelRangesAreDistinct` | crates/tfps-core/src/anomaly.rs:537-573 | The range window count is backed by reported calls to pairwise distinct ranges inside the window |
| `NumberRing.SixteenReportsBetween` | crates/tfps-core/src/anomaly.rs:644-657 | A number reported new is reported new again only after at least sixteen other reports |
| `NumberRing.NewIsNotRecent` | crates/tfps-core/src/anomaly.rs:644-657 | A number is new if and only if it is none of the last sixteen reported |
| `Bitmaps.RangeBloom.Insert` | crates/tfps-core/src/anomaly.rs:227-232 | Inserting adds exactly the hash's three bit positions |
| `Bitmaps.RangeBloom.Contains` | crates/tfps-core/src/anomaly.rs:223-226 | A hash is contained exactly when all its positions are set |
| `Bitmaps.ProbesAreApart` | crates/tfps-core/src/anomaly.rs:216-222 | The probes of a hash start at the hash and lie an odd stride apart, its upper half made odd, in spite of the wrap-around, so they are three different bits |
| `Detectors.NumbersShareARange` | crates/tfps-core/src/anomaly.rs:558-573 | Two numbers lie in one destination range if and only if they are equally long, longer than four digits, and agree in all but the last four; a shorter number lies in none |
| `Detectors.HashesTellApart` | crates/tfps-core/src/anomaly.rs:514-573 | Calls are told apart by the hash of their range and by the low six bits of the hash of their dialling prefix |
| `CompletionArm.IgnoredAnswersLeaveNoTrace` | crates/tfps-core/src/anomaly.rs:659-709 | Erasing every unanswered call and every uncounted failure from any run leaves the arm identical |
| `CompletionArm.HarsherAnswersNeverHelp` | crates/tfps-core/src/anomaly.rs:450-454 | Replacing novel-range failures by no-such-number or refused anywhere in a run never lowers the completion evidence at any later point, across recalibrations |
| `CompletionArm.FailuresAreARun` | crates/tfps-core/src/anomaly.rs:659-709 | The failure count is backed by counted failures within 3600 s of the first, with no completion from the first on |
| `CompletionArm.FailuresAreCounted` | crates/tfps-core/src/anomaly.rs:659-709 | The failure count is exactly that of the counted failures of the run in force, which a completed call ends and the first counted failure an hour or more after its beginning replaces |
| `CompletionArm.StatusIsWorth` | crates/tfps-core/src/anomaly.rs:162-709 | For every status and novelty: 2xx ends the run and steps the walk back; a number that does not exist, to a new range or itself new, and any other failure but a challenge or an unanswered call, to a new range, joins or begins a run and steps the walk, by the unroutable step for those and for 403; everything else leaves the arm as it was |
| `CompletionWalks.CompletionFiresWithItsAnswers` | crates/tfps-core/src/anomaly.rs:659-709 | From any valid arm and over any mixture of answers, calls and calibrations that keep the error rates: the completion walk first stands at its bound after the input at which the age-weighted evidence of the answers, from where it stood or from a moment at the floor, first reaches it; a counted failure is a hit, of its own weight when unroutable, a completed call a miss, on the arm's own clock |
| `CompletionWalks.ArmIsAWalk` | crates/tfps-core/src/anomaly.rs:659-709 | Under the same conditions the completion walk is the walk of its trials under the steps in force: each discounted by the wait since the arm last moved, ignored answers moving nothing |
| `Calibration.UnroutableStepIsItsOwnRatio` | crates/tfps-core/src/anomaly.rs:450-454 | With theta0u <= theta0c the unroutable step is its own log ratio, and at least the generic failure step |
| `Calibration.DefaultsAreValid` | crates/tfps-core/src/anomaly.rs:339-362 | The cold-start defaults are usable parameters with a positive fire bound |
| `VolumeArm.ArmHoldsItsWindows` | crates/tfps-core/src/anomaly.rs:590-602 | After any run the arm holds exactly the open count, the posterior of all closed counts and the evidence scored against the posterior before each fold, over windows an hour apart |
| `VolumeArm.CallsAreConserved` | crates/tfps-core/src/anomaly.rs:590-602 | Calls seen equal the closed window counts plus the open count |
| `VolumeArm.SpeakingNeedsSixHours` | crates/tfps-core/src/anomaly.rs:259-299 | Six counted periods mean seven calls each at least an hour after the one before |
| `VolumeArm.PosteriorIsAged` | crates/tfps-core/src/anomaly.rs:290-295 | The posterior of any list of counts is the prior faded once for every closed window and every count faded once for every window after it, over as many windows weighted alike; the periods are exactly counted |
| `VolumeArm.StandingIsAged` | crates/tfps-core/src/anomaly.rs:590-602 | The standing evidence is the surprise of every count to the posterior before it, none for an empty window, halved for every window closed after it |
| `VolumeArm.LearnedRateStaysBetween` | crates/tfps-core/src/anomaly.rs:263-299 | The learned rate stays between the extremes of the prior mean and all folded counts |
| `VolumeArm.PosteriorWeightIsBounded` | crates/tfps-core/src/anomaly.rs:290-295 | At decay 0.98 the posterior weight never exceeds 50 |
| `VolumeArm.StandingIsBounded` | crates/tfps-core/src/anomaly.rs:590-602 | Standing volume evidence lies between zero and twice the surprise cap |
| `VolumeArm.RateModel.Update` | crates/tfps-core/src/anomaly.rs:290-295 | Both posterior parameters decay before the count is folded in |
| `SlidingCounts.RecordRefinesHistory` | crates/tfps-core/src/perimeter.rs:369-413 | N slots refine the unbounded history: record returns min(N, events since the last clear inside the span) and signals the threshold if and only if that history holds at least N of them |
| `SlidingCounts.SlidingCount.Record` | crates/tfps-core/src/perimeter.rs:389-398 | The array ring records in place and returns the number of live slots and whether that is all N |
| `SlidingCounts.SlidingCount.CountWithin` | crates/tfps-core/src/perimeter.rs:400-406 | Counts exactly the used slots inside the span |
| `SlidingCounts.SlidingCount.Clear` | crates/tfps-core/src/perimeter.rs:409-412 | Empties the ring |
| `RegProbes.CountIsSound` | crates/tfps-core/src/perimeter.rs:442-480 | The count never exceeds the number of distinct ids whose last event is a probe inside the span |
| `RegProbes.RingIsSound` | crates/tfps-core/src/perimeter.rs:447-480 | Every live slot stands for the last probe of its id, and no id has two live slots |
| `RegProbes.InsertionsAreCounted` | crates/tfps-core/src/perimeter.rs:447-471 | With no removal, as many of the probes inside the span as took a new slot, up to sixteen, are counted |
| `RegProbes.TenFreshProbesAreAScan` | crates/tfps-core/src/perimeter.rs:447-471 | Ten fresh ids probed inside the span reach the threshold whatever the ring held before |
| `RegProbeLaws.CountIsExact` | crates/tfps-core/src/perimeter.rs:442-480 | The sixteen slots count exactly the ids probed inside the span and not removed since that took one of the last sixteen slots |
| `RegProbeLaws.InsertsWhatDoesNotCount` | crates/tfps-core/src/perimeter.rs:447-462 | A probe takes a new slot if and only if its id does not count just then |
| `RegProbes.ProbeRing.Record` | crates/tfps-core/src/perimeter.rs:447-462 | A live probe of the id is refreshed in place, any other takes the next slot; returns the live count |
| `RegProbes.ProbeRing.CountWithin` | crates/tfps-core/src/perimeter.rs:464-470 | Counts exactly the live slots |
| `RegProbes.ProbeRing.Remove` | crates/tfps-core/src/perimeter.rs:473-480 | Empties the slots of that id and no other |
| `AuthFailures.ThresholdIsFiveInARow` | crates/tfps-core/src/perimeter.rs:496-540 | The five shared slots reach the threshold for an account if and only if the last five rejections of any account are all of that one, inside the span, with no acceptance since the first |
| `AuthFailures.FiveRejectionsCanPassUnseen` | crates/tfps-core/src/perimeter.rs:496-540 | A concrete history: five unpardoned rejections of one account at one instant that do not reach the threshold, because a second account was rejected in between |
| `AuthFailures.FailureRing.Record` | crates/tfps-core/src/perimeter.rs:514-523 | The rejection takes the next slot; returns the live count of its account |
| `AuthFailures.FailureRing.CountWithin` | crates/tfps-core/src/perimeter.rs:525-531 | Counts exactly the live slots of the account |
| `AuthFailures.FailureRing.ClearAor` | crates/tfps-core/src/perimeter.rs:533-541 | Pardons the slots of that account and no other |
| `Calendar.DaysRoundTrip` | crates/tfps/src/manual_log.rs:449-471 | Every integer day number becomes a valid Gregorian date and converts back to itself |
| `Calendar.DatesRoundTrip` | crates/tfps/src/manual_log.rs:449-471 | Every valid Gregorian date converts to a day number and back to itself |
| `Calendar.NextDay` | crates/tfps/src/manual_log.rs:449-460 | Day zero is 1970-01-01 and day n + 1 is the calendar's next day after day n, leap years included |
| `Calendar.MonthIsMonotone` | crates/tfps/src/manual_log.rs:443-446 | A later second never has an earlier month |
| `Calendar.EarlierMonthIsEarlier` | crates/tfps/src/manual_log.rs:443-446 | An earlier month holds only strictly earlier seconds |
| `Calendar.MonthEndIsItsLastSecond` | crates/tfps/src/manual_log.rs:431-440 | Below the clamp, a second belongs to a month or an earlier one if and only if it is no later than the month's end |
| `Calendar.OwnMonthHasNotEnded` | crates/tfps/src/manual_log.rs:431-446 | ts <= month_end(year_month(ts)) for every 32-bit timestamp, the saturating end of range included |
| `Calendar.MonthHoldsItsEnd` | crates/tfps/src/manual_log.rs:431-440 | Below the clamp a month's end is a second of that month |
| `Calendar.MonthEndIsMonotone` | crates/tfps/src/manual_log.rs:431-440 | From 1970 on later months end no earlier |
| `ManualLog.LatestFor` | crates/tfps/src/manual_log.rs:204-248 | For every directory filed by month, the newest-first search with its settled set, address shortcut and early stop returns exactly the latest action, over every line of every readable file, of each wanted address, ties included; and counts exactly the lost files and the corrupt lines that may be about an unanswered address, in the months opened while any was |
| `ManualLog.MissedIsBroken` | crates/tfps/src/manual_log.rs:179-187 | The search never counts more unreadable than reading everything would |
| `ManualRecord.MissedIsCounted` | crates/tfps/src/manual_log.rs:204-248 | The search counts exactly the unreadable files, and the corrupt lines not known to be about another address, of the months opened while some wanted address had no line in a later month |
| `ManualRecord.BrokenIsCounted` | crates/tfps/src/manual_log.rs:143-158 | Reading everything counts exactly the unreadable files and the corrupt lines |
| `ManualLog.SearchAgreesWithTextReading` | crates/tfps/src/manual_log.rs:178-204 | The search agrees with latest_by_ip over read_all if and only if, for each wanted address, the newest month whose file has a line about it is a text file |
| `ManualLog.NewestMonthHoldsLatest` | crates/tfps/src/manual_log.rs:178-192 | The newest action of an address lies in the newest month with a line about it, and only there |
| `ManualCases.TextReadingCanLoseABan` | crates/tfps/src/manual_log.rs:143-158 | A concrete reachable record where they differ: a ban, then an append interrupted inside a character, after which reading as text loses the whole month |
| `ManualLog.TextRecordsAgree` | crates/tfps/src/manual_log.rs:178-204 | On records of text files only, the two agree for every set of wanted addresses |
| `ManualLog.RecordSplits` | crates/tfps/src/manual_log.rs:178-192 | Because months are monotone in time, the latest actions are the older months' overridden by the newer months' |
| `ManualLog.LatestIsNewest` | crates/tfps/src/manual_log.rs:165-176 | The fold holds, for every address that acted, its newest action, the last one on a tie |
| `ManualLog.RunIsFiled` | crates/tfps/src/manual_log.rs:110-133 | Every directory reached by appends, interrupted appends, retention and files becoming unreadable keeps each action in the file of its own month |
| `ManualRecord.WrittenIsRead` | crates/tfps/src/manual_log.rs:110-133 | An action appended to a file that opens and ends in a line end is read after any further operations, interrupted writes among them, until its month is past retention or its file becomes unreadable |
| `ManualRecord.ReadIsWritten` | crates/tfps/src/manual_log.rs:110-158 | Every action read was appended, or written whole but for its line end |
| `ManualRecord.JoinedIsLost` | crates/tfps/src/manual_log.rs:110-133 | An append after an interrupted write makes one corrupt line of the two; every line before stays |
| `ManualRecord.LockedStays` | crates/tfps/src/manual_log.rs:110-133 | A file that became unreadable stays so, whatever is appended, until its month is past retention |
| `ManualLog.ReadAll` | crates/tfps/src/manual_log.rs:143-158 | Returns the actions of the text files oldest first and counts corrupt lines and lost files |
| `ManualLog.LatestByIp` | crates/tfps/src/manual_log.rs:165-176 | The loop computes the fold |
| `ManualLog.ScanMonth` | crates/tfps/src/manual_log.rs:213-242 | One month's lines add exactly the month's latest actions of wanted addresses no newer month settled |
| `ManualLog.Prune` | crates/tfps/src/manual_log.rs:399-409 | For any order in which the directory lists its files: deletes exactly the months whose last second is before the cutoff and counts them, unless one of them cannot be deleted; then it stops at the first such file, names it, and only the expired months listed before it are gone |
| `ManualLog.PruneIsExact` | crates/tfps/src/manual_log.rs:399-409 | From 1970 on, a deleted month holds only seconds before the cutoff; a kept one holds a second at or after it, or ends at the clamp |
| `ManualLog.PruneIsSafe` | crates/tfps/src/manual_log.rs:386-409 | The current month's file, and any file that may hold an action at or after the cutoff, is never deleted |
| `ManualLog.PruneForgetsWholly` | crates/tfps/src/manual_log.rs:399-409 | A retention that completes keeps an address's latest action unchanged if and only if its month is kept, and otherwise forgets the address: no older action resurfaces |
| `ManualLog.StoppedPruneFallsBack` | crates/tfps/src/manual_log.rs:399-409 | A retention that stops keeps the latest action if its month is kept; otherwise the address falls back on an older action if and only if an older month with a line about it was not deleted |
| `ManualCases.LiftedBanCanStandAgain` | crates/tfps/src/manual_log.rs:399-409 | A concrete reachable record: a ban and, the month after, its unban; retention deletes the newer file and cannot delete the older, and the lifted ban stands again |
| `ManualLog.ReapplyPlan` | crates/tfps/src/manual_log.rs:281-311 | The plan lists, in strict address order, exactly what each address's latest action leaves standing: an unexpired ban with the seconds it has left, or zero for one that never lapses |
| `ManualRecord.PlanIsWhatIsLeft` | crates/tfps/src/manual_log.rs:281-311 | A re-ban is planned if and only if the newest action of its address, the last on a tie, is a ban by that source that never lapses, with zero, or lapses that many seconds from now |
| `ManualLog.RetentionBoundsStandingBans` | crates/tfps/src/manual_log.rs:281-311 | A standing ban is planned after retention as before if and only if its month is kept |
| `ManualCases.BanForGoodIsForgotten` | crates/tfps/src/manual_log.rs:278-309 | A concrete reachable run: a ban with no expiry, standing, is no longer planned after the ninety-day retention |
| `SipHeaders.OnePassIsItsMeaning` | crates/tfps-core/src/sip.rs:343-482 | For every message each field is the first occurrence of its header, joined with exactly its own continuation lines; folded says a continuation occurred; duplicate names the repeat that comes first |
| `SipHeaders.FirstRepeatIsFirst` | crates/tfps-core/src/sip.rs:425-475 | The repeat reported is the first line that repeats a singleton, and there is none when none is reported |
| `SipNames.NameStartsItsField` | crates/tfps-core/src/sip.rs:400-475 | On the text of a line: each of the nine long and four compact names, in any letter case and with white space around it, starts its own field with the value behind the colon, white space around it dropped; said twice, the repeat is reported under the long form, but for Via |
| `SipNames.OtherNamesStartNothing` | crates/tfps-core/src/sip.rs:400-480 | A line with any other name before its colon starts no field |
| `SipNames.EveryLineIsRead` | crates/tfps-core/src/sip.rs:386-400 | Every line that is no continuation has a colon and is such a name and value, or has none and starts nothing |
| `SipNames.NextLineIsJoined` | crates/tfps-core/src/sip.rs:367-385 | A line that begins with a space or a tab is joined, trimmed, to the header above with one space, and nothing else is |
| `SipHeaders.UnfoldingChangesOnlyTheFlag` | crates/tfps-core/src/sip.rs:360-385 | For every message, with or without a body, whose continuations each follow a header line or another continuation: unfolding leaves no fold to note, changes neither which fields there are nor the duplicate, and keeps a field if and only if its first occurrence is not continued, or has a value that is not blank and no blank continuation |
| `SipHeaders.BlankSideLeavesASpace` | crates/tfps-core/src/sip.rs:485-493 | Two concrete messages the law excludes: a header folded right after its colon is read with a space before its value, and one with a blank continuation with a space behind it; unfolded, both are read without |
| `SipHeaders.FoldedLineIsJoined` | crates/tfps-core/src/sip.rs:367-385 | A concrete message whose folded line is part of its header's value |
| `SipHeaders.RepeatedCredentialIsMissed` | crates/tfps-core/src/sip.rs:455-475 | After an Authorization header, two Proxy-Authorization headers are reported as no duplicate |
| `SipHeaders.BodyIsIgnored` | crates/tfps-core/src/sip.rs:363-366 | Nothing after the empty line is read |
| `SipHeaders.RejoiningIsReading` | crates/tfps-core/src/sip.rs:485-493 | Reading a header with its continuation put back on its line does what reading the two lines did if and only if the header is not one to keep, or neither its value nor the continuation is blank |
| `SipHeaders.ParseHeaders` | crates/tfps-core/src/sip.rs:360-482 | The loop over lines, with its open header and first credential name, computes the reading |
| `Countries.CountryIsTheLongestMatch` | crates/tfps-core/src/country.rs:293-334 | The answer is the longest code that begins the digits, the only such entry, and none if no code does |
| `Countries.FourDigitsDecide` | crates/tfps-core/src/country.rs:300-314 | Only the first four digits matter |
| `Countries.Resolve` | crates/tfps-core/src/country.rs:300-316 | Binary search by decreasing length returns the longest-prefix match, over any strictly sorted table of one-to-four-digit codes |
| `Countries.ResolveLinear` | crates/tfps-core/src/country.rs:321-334 | The linear scan returns the same |
| `Countries.Search` | crates/tfps-core/src/country.rs:307 | The binary search finds a code if and only if the sorted table holds it |

## Left out

- Floating point: rounding, `powf`, `ln` and the surprise tail are real-valued parameters, so no claim covers rounding error.
- `regularized_beta`, `betacf`, `ln_gamma`: transcendental numerics behind the surprise parameter.
- FNV hash quality: hashes are given 64-bit values; claims are over hashes, or derive different strings from different hashes.
- Packing of bit tables into 64-bit words: a table is an array or set of bits, so shifts and masks are not modelled.
- Plain (not saturating) counters, `window_count` and the statistics among them, are unbounded integers; overflow is not modelled.
- Rounding of evidence to whole nats in decisions, the text labels of out-of-scope decisions, and counters kept only for reports.
- Engines.Engine: sources are values in the engine's map, so sharing of one source's object between holders is not captured; the per-source object itself is `SourceAnomaly`.
- Perimeter lists, `uri_addr`, dial plans and the country table in the engine: uninterpreted verdicts and functions of the deployment; `Countries` proves resolution separately.
- Parsing of the request line, response parsing, `uri_user`, `param` and the clipping of `transaction_key`: easy members; keys and accounts arrive on the packet.
- Splitting a datagram into lines and its UTF-8 check: `SipHeaders` starts from the header lines, and its eight optional fields are one map keyed by header.
- EngineKnown.KnownPeersHaveRegistered: known peers loaded at boot (`import_known_peer`), their expiry and the APIBAN feed are not modelled, so the statement is about peers that became known in the run.
- EngineAuth.AuthFailureProvesFiveRejections: requires instants of at least 600 seconds, because an emptied slot is stamped zero and reads as recent before then.
- EngineScan.ScanProvesTenExtensions: the same requirement, for the same reason.
- SipHeaders.UnfoldingChangesOnlyTheFlag: a continuation after a line without a colon, or before any header line, is malformed, and putting it back may spell a header that was not there.
- CompletionWalks.CompletionFiresWithItsAnswers: calibrations must keep the two error rates, as for the scan walks.
- ScanWalks.ScanFiresWithItsCalls: calibrations must keep the two error rates; in service they always do, and `EngineWalks.SourceScanFiresWithItsCalls` needs no such condition.
- EngineBlock.FiringDecisionHasAFloor: requires packets in time order and none at instant zero, which marks an unset window.
- EngineVerdicts.DecisionIsTheEvidence: the same requirement, for the same reason.
- EngineScan.ScanIsExact: requires instants of at least 600 seconds, as the other scan laws do.
- Likelihood.BoundsAreLikelihoods: requires the logarithm of a product to be the sum of the logarithms, which nothing else here relies on.
- Checkpoints.RestartKeepsWhatIsFresh: requires checkpoints in time order and one clock for the store's stamps and the pruning; known peers and the manual record are not part of the stored state here.
- SQLite, JSON text and file permissions: the database is a map of rows, a record directory a map from month to lines; a corrupt row is one a restart does not read; a failed checkpoint changes nothing. A line of non-ASCII white space counts as blank.
- `reapply`, `check_source`, `check_reason`: single loops and case analysis.
- `disposition.rs`, `ignore.rs`, `guard.rs`, `dialplan.rs`, `net.rs`: case analysis that would only add easy members.
- Capture, XDP and eBPF, HTTP and DNS, `tfps_ctl`, configuration, banners, the installer and the website.
