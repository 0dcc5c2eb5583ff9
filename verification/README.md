# CanarySting: verified models of the validation gate and of kernel containment

This Dafny project models two parts of CanarySting and proves what they keep over every run.

**The validation gate** (`internal/testgate`, `cmd/testgate`) loads a manifest of checks with
dependencies, rejects cyclic ones, selects a dependency-closed set, runs it in waves under a job
limit with exclusion and a latched safety stop, folds every command outcome into one status, and
keeps a ledger of the last failed run for replay. The central result joins all of it: whatever the
manifest, the selection, the job count, the cancellations and the command outcomes, a manifest that
validates cannot stall the scheduler.

**Verdict to kernel** (`internal/boot`, `cmd/envoy-adapter`, `internal/sting/containment`,
`bpf/enforce`, `bpf/sockops`, `adapters/envoy`) turns engine verdicts into entries of a per-cookie
eBPF map whose rate limiter is a token bucket in 64-bit arithmetic, orders verdicts by timestamp,
floors them under a kill switch, records them under the scope the engine resolved, and attributes
flows to socket cookies.

Code that mutates state is a class or a method with loops, proved against a specification function;
the theorems are lemmas about that function over all inputs and all runs.

| file | content |
|---|---|
| `Prelude.dfy`, `Lex.dfy` | sequence prefixes and set sizes; the order of check IDs, sorting |
| `Manifest.dfy`, `CycleFinder.dfy`, `Validation.dfy` | checks, dependency walks and ranks, `findCycle`, the graph part of `Validate` |
| `Selection.dfy` | `SelectChecks` and the dependency closure |
| `Execution.dfy` | `execute`, cleanup, result parser, diagnostic retry |
| `Scheduler.dfy`, `SchedulerFacts.dfy`, `SchedulerTheorems.dfy`, `SchedulerLimits.dfy` | one turn of the scheduler loop, its invariants, theorems over runs, and where the natural claims end |
| `Runner.dfy` | the loops of `Run`, and the whole gate |
| `Ledger.dfy` | summaries, LAST_FAILED, the replay driver |
| `Risk.dfy` | `ClassifyRisk` |
| `LogBuffer.dfy`, `Pump.dfy` | bounded log with credential scan; bounded hold |
| `TokenBucket.dfy`, `KernelMap.dfy` | the rate limiter; the verdict map and its loader |
| `Contract.dfy`, `Sequencer.dfy`, `Enforcement.dfy` | verdicts, admission by ordinal, enforcement |
| `Containment.dfy`, `KillSwitch.dfy` | what containment does to packets over whole runs; the kill switch, and enforcement in two steps |
| `Capture.dfy` | captured events and jail records |
| `Attribution.dfy` | flow map, staleness guard, bounded retry |

## Where the code does less than it seems to promise

Each of these is stated with a witness and with the exact condition under which the code does meet
the promise.

- A check can start behind a BLOCKED prerequisite, because the resolve pass is one sweep in ID order
  (`SchedulerLimits.StartsBehindBlocked`); a started check's prerequisites all passed or were skipped
  exactly when each had its result at the loop head (`SchedulerTheorems.StartsSatisfiedIff`), and for
  a pair of IDs it can happen exactly when the dependent sorts first (`SchedulerLimits.StartsBehindIff`).
- A failing cleanup that is not safety critical turns an earlier SAFETY STOP into FAIL
  (`Execution.OverwrittenStop`, `Execution.ViolationAlwaysStopsIff`).
- A fresh run that fails replaces the ledger, so checks it did not select are forgotten
  (`Ledger.ForgottenIff`, `Ledger.DisplacementHappens`).
- Below 1000 bytes per second, traffic with gaps of up to a millisecond starves for ever once its
  packets are longer than the tokens left, which the comment at bpf/enforce/enforce.bpf.c:80-84 sets
  out to avoid
  (`TokenBucket.DenseTrafficStarves`, `TokenBucket.StarvesIff`); above one million bytes per second
  the 64-bit product can wrap (`TokenBucket.ProductFitsIff`, `TokenBucket.WrapLosesCredit`), which only
  ever loses credit (`TokenBucket.RefillBounds`).
- Re-programming an entry with a smaller burst keeps its tokens, so the new burst can be overdrawn
  until a millisecond has elapsed (`KernelMap.LoweredBurstOverdraws`, `TokenBucket.WindowBoundIff`); the
  containment layer never does that (`Containment.ReachableIsSized`).
- "Last writer wins by ordinal, not by arrival order" (cmd/envoy-adapter/main.go:85-98) fails when
  the newest verdict of a flow is admitted but not enforced, being an inline one or one whose map
  operation failed (`Enforcement.OrderIndependentIff`); when a mark was reaped (`Sequencer.ReadmittedIff`,
  `Sequencer.ReadmissionHappens`); and when two admitted verdicts are enforced out of order after the
  lock is released (`KillSwitch.StaleReleaseLiftsJail`,
  `KillSwitch.AtomicUnderEveryScheduleIff`).
- The credential scan is independent of how output is chunked exactly for patterns whose matches have
  a matching part of at most 1025 bytes (`LogBuffer.CaughtUnderEveryChunkingIff`); the pattern in use
  is not one of them (`LogBuffer.CredentialScanDependsOnChunking`).
- Risk levels are read off the normalised path, remote profiles off the path as given
  (`Risk.DotSlashLosesProfile`, `Risk.ProfileIffPlain`).

## Model

| member | source | states |
|---|---|---|
| Manifest.ScenarioCheck | internal/testgate/manifest.go:198-225 | every scenario becomes an adversarial check with scenario metadata and a safety-critical cleanup |
| Manifest.ScenarioCarriedOver | internal/testgate/manifest.go:198-225 | dependencies, privilege, isolation key, cleanup, safety, required tests, affected paths and forms are carried over; the group, parser and safety-critical cleanup are fixed |
| Manifest.ScenarioGates | internal/testgate/manifest.go:207-211 | the four gates that run scenarios |
| Manifest.RankedIsAcyclic | internal/testgate/manifest.go:227-264 | a graph whose dependencies have smaller ranks has no closed dependency walk |
| Manifest.AcyclicIsRanked | internal/testgate/manifest.go:227-264 | conversely every acyclic graph has such a rank |
| CycleFinding.CycleFinder.Visit | internal/testgate/manifest.go:231-252 | a returned list is a simple cycle; otherwise the check and all it reaches are finished and ranked and the stack is restored |
| CycleFinding.FindCycle | internal/testgate/manifest.go:227-264 | terminates on every graph; the answer is empty exactly when no closed walk exists, is otherwise a genuine simple cycle, and an empty answer yields a rank |
| Validation.DuplicateProblems | internal/testgate/manifest.go:77-90 | no duplicate is reported exactly when all check and scenario IDs are distinct |
| Validation.UnknownDependencyProblems | internal/testgate/manifest.go:115-128 | no problem exactly when every dependency names a check; each problem names a real offender |
| Validation.LoadedHolds | internal/testgate/manifest.go:26-50 | the loaded list holds every declared check and the check of every scenario, in order |
| Validation.Validate | internal/testgate/manifest.go:69-137 | accepts exactly the manifests with distinct IDs, known dependencies and no cycle; those have a rank and look up every declared check |
| Selection.DependencyAdder.AddDeps | internal/testgate/select.go:42-50 | closes everything except the checks still on the recursion stack, adding only what every closed superset needs |
| Selection.DependencyAdder.AddAllDeps | internal/testgate/select.go:51-53 | ranging over the growing map in any order yields the least closed superset of the seeds |
| Selection.SelectChecks | internal/testgate/select.go:8-61 | refuses exactly unknown checks and empty selections; otherwise lists, in ID order, exactly the checks that are asked for or that something asked for depends on |
| Selection.SelectedIffWanted | internal/testgate/select.go:15-57 | a check is selected exactly when it is asked for (by name, through the changed files, or by listing the gate; the broad gates ask for the local merge gate's checks) or reachable from one that is |
| Lex.LessIff | internal/testgate/select.go:59 | the sort order: a proper prefix, or the smaller character at the first difference |
| Selection.ClosureIsReachability | internal/testgate/select.go:42-53 | the selection holds exactly the checks a dependency walk reaches from a seed |
| Selection.ClosureUnique | internal/testgate/select.go:42-59 | there is only one such selection |
| Execution.ApplyResultParser | internal/testgate/result_parser.go:16-81 | FAIL "test defect" exactly when the output is malformed or unreadable or a test that the check (or else its scenario) requires reported no pass; SAFETY STOP is kept |
| Execution.ScanEvents | internal/testgate/result_parser.go:24-49 | which required tests have a pass event, and whether every event parsed |
| Execution.Cleanup | internal/testgate/runner.go:341-350 | when cleanup fails and when that failure is a safety matter |
| Execution.FirstExecution | internal/testgate/runner.go:251-297 | the successive overwrites compute a priority table: cleanup, then safety, then failure |
| Execution.DiagnosticRetry | internal/testgate/runner.go:307-337 | the retry only classifies: it keeps FAIL or raises SAFETY STOP |
| Execution.Execute | internal/testgate/runner.go:234-339 | the whole result; PASS exactly when the platform is supported, the command exited 0 in time without a credential or, for scenarios, a residue, every required test reported a pass, and the cleanup was spotless |
| Execution.StatusTable | internal/testgate/runner.go:234-297 | SKIPPED, SAFETY STOP and PASS without a retry, each exactly by the fields of the check and of its commands |
| Execution.RetryTable | internal/testgate/runner.go:306-337 | when the diagnostic retry runs, when it raises SAFETY STOP, what it records, and that it changes nothing else |
| Execution.ClassTable | internal/testgate/runner.go:251-295 | the class of a failure: cleanup defect, test defect, timeout, or the declared one |
| Execution.ScenarioNeedsItsTests | internal/testgate/result_parser.go:20-76 | a scenario passes only if every test it requires reported a pass, and is never skipped |
| Execution.RetryNeverClears | internal/testgate/runner.go:307-337 | turning the retry on changes a status only from FAIL to SAFETY STOP |
| Execution.ViolationAlwaysStopsIff | internal/testgate/runner.go:261-297 | a safety violation ends SAFETY STOP for all cleanup and retry outcomes exactly when the check has no cleanup or a safety-critical one |
| Execution.OverwrittenStop | internal/testgate/runner.go:288-297 | a leaked credential whose ordinary cleanup exits non-zero is reported as FAIL |
| Execution.ScenarioViolationStops | internal/testgate/runner.go:266-297 | a scenario's credential hit or surviving process always ends SAFETY STOP |
| Runner.DependencyBlock | internal/testgate/runner.go:352-368 | finds exactly the prerequisites with a result that is neither PASS nor SKIPPED |
| Runner.DependenciesComplete | internal/testgate/runner.go:370-377 | whether every dependency has a result |
| Runner.ResolvePass | internal/testgate/runner.go:90-104 | the sweep in ID order, and that no progress means no change |
| Runner.PickWave | internal/testgate/runner.go:109-126 | the greedy wave, including that stopping at the job limit loses nothing |
| Runner.RunWave | internal/testgate/runner.go:133-152 | results and safety latch do not depend on the order in which executions complete |
| Runner.InterruptAll | internal/testgate/runner.go:82-89 | a cancelled context blocks everything pending |
| Runner.OneTurn | internal/testgate/runner.go:79-153 | one iteration of the loop is one turn of the model |
| SchedulerFacts.ResolveUnmarked | internal/testgate/runner.go:90-104 | a check left pending has only satisfied results among its dependencies, except ones this sweep marked under a later ID |
| SchedulerFacts.PickIsExclusive | internal/testgate/runner.go:109-126 | a wave stays within the job limit and shares no concurrency group, isolation key or check |
| SchedulerFacts.PickIsMaximal | internal/testgate/runner.go:109-126 | the wave is filled in ID order: a complete check is left out only because an earlier one shares its group or isolation key, or because earlier ones fill the wave |
| SchedulerFacts.TurnKeeps | internal/testgate/runner.go:79-153 | every turn keeps the partition into pending and results, the exact safety latch and all results, and settles at least one check |
| SchedulerFacts.RunKeeps | internal/testgate/runner.go:66-153 | the invariant holds at every loop head of every run |
| SchedulerFacts.RunProgresses | internal/testgate/runner.go:79-153 | between loop heads results are only added and pending shrinks by at least one a turn |
| SchedulerTheorems.NeverStalls | internal/testgate/runner.go:127-132 | with a rank and a closed selection no turn stalls, and every turn that does not finish starts a check |
| SchedulerTheorems.WavesBounded | internal/testgate/runner.go:79-153 | a run has at most as many turns as selected checks |
| SchedulerTheorems.StartCondition | internal/testgate/runner.go:90-126 | a started check has a result for every dependency; those from before the sweep passed or were skipped, the others were marked in this sweep under a later ID |
| SchedulerTheorems.StartsSatisfiedIff | internal/testgate/runner.go:90-126 | all prerequisites of a started check are satisfied exactly when all had results at the loop head |
| SchedulerTheorems.SortedIdsStartSatisfied | internal/testgate/runner.go:90-126 | if IDs sort topologically, nothing starts behind an unsatisfied prerequisite |
| SchedulerTheorems.WavesExclude | internal/testgate/runner.go:109-126 | job limit and exclusion in every wave of every run |
| SchedulerTheorems.StartsOnce | internal/testgate/runner.go:135-152 | no check starts twice and its one result, what executing it in that turn came to, is never overwritten |
| SchedulerTheorems.SafetyStopLatches | internal/testgate/runner.go:93-98 | after a check that ran ended SAFETY STOP, whatever starts is local and not adversarial |
| SchedulerTheorems.SweepDecides | internal/testgate/runner.go:90-104 | what the resolve pass does to each pending check: after a stop non-local and adversarial checks are stopped, whatever their prerequisites; otherwise a failed prerequisite blocks, naming all that had failed; a check left pending has none |
| SchedulerTheorems.CancelledTurnBlocksTheRest | internal/testgate/runner.go:82-89 | a cancelled turn starts nothing, keeps every result and blocks everything else |
| SchedulerTheorems.BlocksOnlyForAReason | internal/testgate/runner.go:90-104 | without cancellation a check is held back only by named failed prerequisites or the latched stop |
| SchedulerLimits.StartsBehindBlocked | internal/testgate/runner.go:90-126 | for IDs a < b < c with a needing b and b needing c, a failing c lets a start behind the BLOCKED b |
| SchedulerLimits.StartsBehindIff | internal/testgate/runner.go:90-126 | some plan and world start a check a behind an unsatisfied prerequisite b exactly when the ID a sorts before b |
| SchedulerLimits.CycleStaysPending | internal/testgate/runner.go:109-132 | with every outcome favourable the checks of a cycle stay pending at every loop head |
| SchedulerLimits.CyclicNeverFinishes | internal/testgate/runner.go:127-132 | so a cyclic selection then ends in the no-progress error |
| SchedulerLimits.StallsIff | internal/testgate/runner.go:79-153 | over all worlds a closed selection can end in the no-progress error exactly when it has a cycle |
| Runner.Run | internal/testgate/runner.go:66-153 | some run leads to the outcome: its last state with nothing pending, or the no-progress error at a stalled turn, which a well-founded selection never yields |
| Runner.OneOutcome | internal/testgate/runner.go:66-153 | two runs of the same plan and world coincide, and so do their outcomes |
| Runner.FinalResults | internal/testgate/runner.go:155-175 | at the end every selected check has exactly one result under its own ID |
| Runner.SelectionIsWellFounded | internal/testgate/select.go:42-59 | selecting from a ranked manifest gives a well-founded plan |
| Runner.RunGate | internal/testgate/runner.go:35-153 | validate, select and run never gets stuck; it rejects exactly invalid graphs, selects nothing exactly when an unknown check or none is asked for, and otherwise reports the results of a run of exactly what is wanted |
| Ledger.Summarize | internal/testgate/runner.go:155-174 | the summary lists each result once, in ID order, and its counts match |
| Ledger.CountsAddUp | internal/testgate/runner.go:166-167 | the status counts add up to the number of results |
| Ledger.GateFailedIff | internal/testgate/artifacts.go:245-247 | the gate failed exactly when some result is FAIL, BLOCKED or SAFETY STOP |
| Ledger.LastFailedIDs | internal/testgate/artifacts.go:266-279 | exactly the failing (adversarial) checks, in order |
| Ledger.ArtifactStore.UpdatePointers | internal/testgate/artifacts.go:218-243 | the new pointers as a function of the old store and the run |
| Ledger.FailureIsRecorded | internal/testgate/artifacts.go:218-233 | a fresh run or a complete replay with a result neither PASS nor SKIPPED is what LAST_FAILED names from then on, and exactly those checks are owed |
| Ledger.SummariesAreKept | internal/testgate/artifacts.go:218-243 | recording a run keeps every earlier one |
| Ledger.RemovedOnlyByResolution | internal/testgate/artifacts.go:227-242 | LAST_FAILED is removed only by a complete replay of the run it names in which every owed check passed or was skipped |
| Ledger.LeavesLedgerAlone | internal/testgate/artifacts.go:227-229 | adversarial-only replays and passing fresh runs leave the ledger unchanged |
| Ledger.ForgottenIff | internal/testgate/artifacts.go:227-242 | an owed check leaves the ledger without passing exactly when a fresh run fails without having selected it |
| Ledger.DisplacementHappens | internal/testgate/artifacts.go:230-233 | such a displacement exists |
| Ledger.NeverForgotten | internal/testgate/artifacts.go:218-243 | over any sequence of runs an owed check that is no longer owed passed, or was displaced by a fresh failing run |
| Ledger.ReplayChecks | cmd/testgate/main.go:112-132 | goes ahead exactly when some failed check matches (before any expansion) and a changed tree affects something; asks for every matching failed check, plus the closure of the affected ones when the tree changed |
| Ledger.PlanCommand | cmd/testgate/main.go:97-133 | goes ahead exactly for a fresh run or a replay of a compatible ledger with something to replay; a replay covers it under the run the ledger names, a complete one everything owed |
| Ledger.RepeatedReplay | cmd/testgate/main.go:134-155 | repeating a complete replay of the run LAST_FAILED names, the pointer moves to the last failing repetition; without one it is gone as soon as one has run |
| Ledger.ClearedByRepetitionIff | cmd/testgate/main.go:134-155 | so the ledger is cleared exactly when at least one repetition ran and all passed |
| Ledger.RunRepeatedly | cmd/testgate/main.go:134-155 | every repetition is made until one is cancelled, and each is recorded; the invocation fails exactly when one failed or was cancelled |
| Ledger.RepetitionsIff | cmd/testgate/main.go:137-151 | how many that is: all, or up to the first after which the context is cancelled |
| Ledger.RanAt | cmd/testgate/main.go:137-151 | each record reports the results of a run of the selected checks in its own world |
| Ledger.FollowHolds | cmd/testgate/main.go:137-151 | the store is what those records, each driven, lead to |
| Ledger.RunCommand | cmd/testgate/main.go:70-158 | refused exactly when there is nothing it could run; otherwise it runs exactly what is asked for, every repetition, and changes the store only by recording those runs; replays name the run the ledger pointed to, and a complete one clears it exactly when it ran and never failed |
| Risk.ClassifyRisk | internal/testgate/risk.go:52-144 | an invalid override is refused; otherwise levels, flags, profiles and the fate of the override are those of the set of findings, independent of order |
| Risk.OrderIndependent | internal/testgate/risk.go:52-144 | the same files in any order give the same report |
| Risk.Monotone | internal/testgate/risk.go:52-144 | more files or a higher override never lower the effective risk, clear a flag or drop the remote run |
| Risk.ReportCovers | internal/testgate/risk.go:52-144 | file by file: the level is at least that of every file and of the override and one of them or LOW, every flag and profile is covered and no flag invented, the override's fate, and when a remote run is needed |
| Risk.LevelByPath | internal/testgate/risk.go:146-183 | CRITICAL, LOW and STANDARD exactly by the paths they cover, in this priority; the rest is HIGH |
| Risk.ImpactByPath | internal/testgate/risk.go:80-90 | kernel, containment and attacker-tool changes and what they require |
| Risk.AttackerImpactByPath | internal/testgate/risk.go:69-79 | attacker loop, scenarios, executor and trace each have their own profile, the loop a live model |
| Risk.ClusterImpactByPath | internal/testgate/risk.go:113-114 | identity, operator and deployment changes need the cluster proof |
| Risk.ConfigImpactByPath | internal/testgate/risk.go:113-114 | so do configuration changes |
| Risk.HarnessByName | internal/testgate/risk.go:91-112 | what a change of a remote harness script requires, by its name |
| Risk.FlagsByPath | internal/testgate/risk.go:65-122 | executable, frontend and gate flags, and that no other flag is lost |
| Risk.FallbackIff | internal/testgate/risk.go:135-137 | without override the fallback profile is reported exactly when some file is critical and no file has a profile |
| Risk.ProfileIffPlain | internal/testgate/risk.go:68-147 | a critical path has a concrete profile exactly when no white space and no "./" is stripped from its front |
| Risk.PlainPathsNeverFallBack | internal/testgate/risk.go:68-137 | without override, critical changes whose paths need no stripping in front get concrete profiles, never the fallback |
| Risk.NormalIsPlain | internal/testgate/risk.go:146-147 | normalised paths are such paths |
| Risk.DotSlashLosesProfile | internal/testgate/risk.go:146-147 | "./bpf/a.c" is critical and has no profile |
| LogBuffer.LimitedBuffer.Write | internal/testgate/process_unix.go:101-127 | log, truncation and scan tail depend only on the stream; the secret flag on the scans of the writes |
| LogBuffer.LimitedBuffer.Bytes | internal/testgate/process_unix.go:129-135 | the first 4 MiB of the stream, marked exactly when something was cut |
| LogBuffer.WindowInsideScan | internal/testgate/process_unix.go:102-114 | every window of at most 1025 bytes lies in the scan of the write that holds its last byte |
| LogBuffer.ChunkIndependent | internal/testgate/process_unix.go:102-114 | for patterns all of whose matches have a short matching part the scan finds exactly what the stream contains, under every chunking |
| LogBuffer.CaughtUnderEveryChunkingIff | internal/testgate/process_unix.go:102-114 | for every pattern that is so exactly when every match has a matching part of at most 1025 bytes |
| LogBuffer.OneSecretIff | internal/testgate/process_unix.go:109-114 | a single secret qualifies exactly up to 1025 bytes |
| LogBuffer.CredentialScanDependsOnChunking | internal/testgate/process_unix.go:19 | the credential pattern itself does not qualify: with 1100 blanks before the equals sign a credential is found or missed depending on the chunking |
| TokenBucket.RefillExact | bpf/enforce/enforce.bpf.c:79-92 | a refill that does not overflow is exact integer arithmetic, capped at the burst |
| TokenBucket.FirstPacket | bpf/enforce/enforce.bpf.c:76-78 | a new bucket opens full: its first packet passes exactly when it fits the burst |
| TokenBucket.LaterPacket | bpf/enforce/enforce.bpf.c:79-101 | a later packet passes exactly when it fits the tokens left plus a thousandth of the rate per whole millisecond, up to the burst, and takes its length |
| TokenBucket.UnmeteredPacket | bpf/enforce/enforce.bpf.c:63-69 | deny and jail drop everything, a zero rate or unknown action passes everything, and neither touches the bucket |
| TokenBucket.BurstPasses | bpf/enforce/enforce.bpf.c:76-97 | from a new bucket packets that add up to at most the burst all pass |
| TokenBucket.TameFits | bpf/enforce/enforce.bpf.c:85-88 | up to a million bytes per second no gap overflows |
| TokenBucket.RefillBounds | bpf/enforce/enforce.bpf.c:79-92 | for every rate, burst and gap the clock advances by the elapsed milliseconds and the credit never exceeds their worth: wrap-around can only lose credit; after a whole millisecond the bucket is within its burst |
| TokenBucket.Conservation | bpf/enforce/enforce.bpf.c:69-101 | for every rate and burst, bytes passed plus tokens left never exceed the starting tokens plus the rate's worth of the credited milliseconds |
| TokenBucket.ConservationFromFirstPacket | bpf/enforce/enforce.bpf.c:76-101 | the same from the first packet, with one burst |
| TokenBucket.NoLostTime | bpf/enforce/enforce.bpf.c:79-92 | after every packet less than a millisecond is uncredited, and each elapsed millisecond is credited once |
| TokenBucket.WindowFromTokens | bpf/enforce/enforce.bpf.c:69-101 | from any state of any limiter, over any window at most the tokens at its first packet plus the rate for its started milliseconds passes |
| TokenBucket.WindowBound | bpf/enforce/enforce.bpf.c:69-101 | a bucket within its burst lets at most one burst plus that through |
| TokenBucket.WindowBoundIff | bpf/enforce/enforce.bpf.c:69-101 | every window beginning at a time is so bounded exactly when the bucket is new, holds at most its burst, or a whole millisecond has elapsed since its last credit |
| TokenBucket.CreditedBetween | bpf/enforce/enforce.bpf.c:85-91 | total credit never exceeds the exact rate, and where no product wraps is at least the whole bytes per millisecond |
| TokenBucket.SteadyTrafficPasses | bpf/enforce/enforce.bpf.c:79-97 | steady one-byte traffic passes without loss once a gap is worth a byte, at any rate that does not wrap |
| TokenBucket.DenseTrafficStarves | bpf/enforce/enforce.bpf.c:80-92 | traffic whose gaps are each worth less than a byte gets nothing through once its packets are longer than the tokens left, for ever, whatever the lengths and times |
| TokenBucket.DemandIsServed | bpf/enforce/enforce.bpf.c:79-97 | packets no longer than the burst are all refused only while the elapsed milliseconds at the whole bytes per millisecond are worth less than the longest |
| TokenBucket.StarvesIff | bpf/enforce/enforce.bpf.c:80-92 | whatever is left in the bucket, all traffic of longer packets with gaps of at most g milliseconds starves exactly when g times the rate is below 1000 or the bucket is full |
| TokenBucket.ProductFitsIff | bpf/enforce/enforce.bpf.c:85-87 | the 64-bit product fits for all clock readings exactly up to a million bytes per second |
| TokenBucket.WrapLosesCredit | bpf/enforce/enforce.bpf.c:87 | a gap whose product wraps earns nothing |
| KernelMap.VerdictMap.Program | bpf/enforce/loader_linux.go:74-86 | refuses cookie 0; writes action, rate and burst and keeps the kernel's fields |
| KernelMap.VerdictMap.Release | bpf/enforce/loader_linux.go:89-97 | removes the entry, idempotently |
| KernelMap.VerdictMap.ReadCounters | bpf/enforce/loader_linux.go:100-106 | reads the drop counters of a present entry |
| KernelMap.VerdictMap.EnforceEgress | bpf/enforce/enforce.bpf.c:53-104 | the decision and the new entry of one packet |
| KernelMap.VerdictMap.EnforceRelease | bpf/enforce/enforce.bpf.c:106-113 | closing a socket deletes its entry |
| KernelMap.EntryIffActive | bpf/enforce/loader_linux.go:66-97 | an entry exists exactly for cookies programmed and not removed since, with the last programmed verdict |
| KernelMap.DropWasProgrammed | bpf/enforce/enforce.bpf.c:53-104 | a dropped packet's cookie is non-zero and programmed, with no removal since |
| KernelMap.OnlyOwnSteps | bpf/enforce/enforce.bpf.c:46-113 | a cookie's entry depends only on the steps that name it |
| KernelMap.DecisionsDependOnOwnSteps | bpf/enforce/enforce.bpf.c:53-104 | so do the decisions about its packets |
| KernelMap.CountersExact | bpf/enforce/enforce.bpf.c:64-65 | the counters are the drops since the entry was created, modulo 2^64 |
| KernelMap.ReprogramIsInvisible | bpf/enforce/loader_linux.go:69-85 | re-emitting the verdict in force changes nothing that follows |
| KernelMap.MapFollowsFlow | bpf/enforce/enforce.bpf.c:69-101 | among other cookies' steps and re-emissions an entry goes exactly through its own packets |
| KernelMap.ThrottleHolds | bpf/enforce/enforce.bpf.c:69-101 | the window bound holds for a cookie within its burst in the middle of everything else |
| KernelMap.LoweredBurstOverdraws | bpf/enforce/loader_linux.go:84-85 | re-programmed with a burst of 10, an entry still lets 500 bytes through before a millisecond has elapsed |
| Sequencer.VerdictSequencer.Admit | cmd/envoy-adapter/main.go:123-145 | admission and the new marks, whatever order the sweep ranges in |
| Sequencer.OutdatesIff | cmd/envoy-adapter/main.go:118-138 | a mark is too old exactly when it is more than 30 minutes back, unless the 64-bit cutoff wraps |
| Sequencer.ReadmittedOnlyAfterReap | cmd/envoy-adapter/main.go:123-145 | after any admitted call an ordinal no newer is admitted again only after a call in between that swept and found the mark too old |
| Sequencer.ReadmittedIff | cmd/envoy-adapter/main.go:123-145 | after the last admitted call it is admitted exactly when a call since then, with more than 4096 marks held, found the mark too old |
| Sequencer.ReadmissionHappens | cmd/envoy-adapter/main.go:129-139 | a run of 4099 calls in which that happens |
| Enforcement.EnforceVerdict | cmd/envoy-adapter/main.go:72-83 | Tier 3 jails, Tier 2 throttles with the configured sizing, Tiers 0 and 1 release; inline and unattributable verdicts and failing operations leave the map alone, no other cookie is touched |
| Enforcement.Configured | internal/sting/containment/containment.go:91-104 | zero stands for 16 KiB/s and 32 KiB, so the throttle is never disabled |
| Enforcement.AskedByTier | internal/sting/containment/containment.go:60-69 | what each tier asks for |
| Enforcement.EnforceVerdictOrdered | cmd/envoy-adapter/main.go:152-158 | a stale verdict does not touch the kernel map; an admitted one is enforced, unless its map operation fails |
| Enforcement.TopDecides | cmd/envoy-adapter/main.go:118-158 | from any node, in a batch within 30 minutes a cookie's newest verdict decides its final entry if it is newer than the node's mark; otherwise the batch leaves the cookie alone |
| Enforcement.NewestWins | cmd/envoy-adapter/main.go:118-158 | if that verdict is async and accepted, exactly what it asks for is in force at the end |
| Enforcement.PacketsDoNotMatter | cmd/envoy-adapter/main.go:118-158 | packets in between change neither what is admitted nor what is in force |
| Enforcement.OrderIndependentIff | cmd/envoy-adapter/main.go:118-158 | from any node and among any packets, every arrival order ends with the same verdicts in force exactly when each cookie's newest verdict is enforced or none asks for anything new |
| Enforcement.SameMapIff | cmd/envoy-adapter/main.go:118-158 | on a map no packet has met, the same condition decides equality of the whole map |
| Containment.ReachableIsSized | internal/sting/containment/containment.go:91-128 | on every reachable node a bucket is within its burst and carries the configured sizing |
| Containment.ContainedIsThrottled | bpf/enforce/enforce.bpf.c:53-104 | for every sizing and bucket state, while an entry is not removed at most one burst plus the rate for the window passes, through jails, re-containment and repeated verdicts |
| Containment.TierTwoThrottles | internal/sting/containment/containment.go:60-128 | an admitted Tier-2 or higher verdict on any reachable node throttles its flow over every window in which it is not removed |
| Containment.NewlyContainedGetsItsBurst | bpf/enforce/enforce.bpf.c:76-97 | a flow newly contained at Tier 2 gets one burst through |
| Containment.TierThreeJails | internal/sting/containment/containment.go:60-128 | an admitted Tier-3 verdict drops every packet until something gentler is programmed or the entry is removed |
| KillSwitch.Submit | internal/boot/boot.go:772-783 | an active switch floors the tier of the emitted copy and nothing else |
| KillSwitch.FlooredReleasesIff | cmd/envoy-adapter/main.go:72-83 | a floored async verdict leaves its cookie free exactly when it is admitted and the release accepted, or the cookie was free |
| KillSwitch.KillSwitchFrees | internal/boot/boot.go:740-783 | from any state the newest floored verdict frees its flow, whose packets pass until programmed again |
| KillSwitch.ActiveSwitchOnlyLifts | internal/boot/boot.go:740-783 | while the switch is active, among packets, closes, evictions and releases, no flow becomes contained and no containment changes |
| KillSwitch.FlooredOnlyRemoves | cmd/envoy-adapter/main.go:72-83 | floored deliveries alone leave what remains untouched down to its counters and tokens |
| KillSwitch.AppliedDecides | cmd/envoy-adapter/main.go:152-158 | with the lock released before enforcing, what is in force is what the last effective verdict enforced asks for |
| KillSwitch.SameAdmissions | cmd/envoy-adapter/main.go:123-145 | the interleaving does not change what is admitted |
| KillSwitch.PhasedIsAtomicIff | cmd/envoy-adapter/main.go:123-158 | from any node a cookie ends one schedule as under atomic delivery exactly when the last effective verdict enforced asks for the same as the last one admitted |
| KillSwitch.AtomicUnderEveryScheduleIff | cmd/envoy-adapter/main.go:123-158 | a batch ends at a cookie as under atomic delivery in every schedule exactly when all its admitted verdicts that take effect ask for the same thing |
| KillSwitch.PhasedMapIff | cmd/envoy-adapter/main.go:123-158 | before any packet the whole map does exactly when that holds for every cookie |
| KillSwitch.InAdmissionOrderIsAtomic | cmd/envoy-adapter/main.go:123-158 | enforcing each cookie's verdicts in admission order gives the atomic outcome |
| KillSwitch.StaleReleaseLiftsJail | cmd/envoy-adapter/main.go:123-158 | an older release enforced last lifts a newer jail |
| Capture.CapturingEngine.Submit | internal/boot/boot.go:882-965 | returns the inner answer; every side effect keys on the resolved scope |
| Capture.CapturingEngine.ReportOutcome | internal/boot/boot.go:972-1026 | drains the pending jail and records it under its resolved scope |
| Capture.CapturedByTier | internal/boot/boot.go:882-965 | an event is captured exactly from Tier 1 up, with what was decided; a Tier 3 jail is marked pending while there is room |
| Capture.JailIsRecorded | internal/boot/boot.go:943-1006 | a pending jail leads to a record under its scope when the outcome comes |
| Capture.WireScopeIsInert | internal/boot/boot.go:882-1026 | changing wire scopes over a whole run changes no event, no jail record and no pending scope, and leaves the amend of a tracked cookie the same at the same place of the store |
| Capture.AmendFollowsWireIff | internal/boot/boot.go:988-998 | an amend follows the wire scope exactly for untracked cookies |
| Capture.RecordHasVerdict | internal/boot/boot.go:943-1006 | every jail record carries a scope resolved at an earlier jail verdict for its cookie |
| Capture.RecordsAreSeparated | internal/boot/boot.go:979-1006 | two records for one cookie have a jail verdict between them |
| Capture.PendingBounded | internal/boot/boot.go:853-856 | at most 4096 jails are pending |
| Attribution.SameCookieIsStable | adapters/envoy/identity/staleguard.go:56-82 | two reads of the same cookie prove the entry was in place throughout |
| Attribution.Resolve | adapters/envoy/identity/staleguard.go:64-82 | answers exactly when one cookie held the tuple in every state between the reads |
| Attribution.ResolveCookie | adapters/envoy/adapter.go:347-358 | at most four guarded lookups; a hit is stable, a miss means none was |
| Pump.PumpStream | adapters/envoy/pump.go:179-215 | the body is the first bytes of the accepted chunks, each is held for its own delay, and the stream is pulled exactly once more |
| Pump.InOrder | adapters/envoy/pump.go:179-215 | body and holds take each chunk's own data and delay, in order |
| Pump.AcceptedIff | adapters/envoy/pump.go:179-215 | how many chunks are accepted: up to the end of the stream or the first cancelled hold |

## Left out

- Validation.Validate: `validateCheck`, `validateScenarioCommand` and the other declaration checks are not modelled; they can only add problems, so a manifest accepted by the whole passes the graph part modelled here.
- Selection.SelectChecks: the path rules of `selectAffected`, `selectPR` and `selectAdversarial` are not modelled; which checks they pick enters as an arbitrary set of declared IDs.
- Risk.ClassifyRisk: the list of reasons with their texts and the parsing of the override text are not modelled.
- Capture.CapturingEngine.Submit: the feature vector, the L7 record and the audit chain are not modelled; they key on the same resolved scope, behind the same tier gate, as the captured event.
- Capture.CapturingEngine.ReportOutcome: the network ledger and the confirmation spool are not modelled; they take the profile that the jail record returns.
- LogBuffer.CredentialScanDependsOnChunking: the credential pattern is modelled on ASCII text; the non-ASCII letters that case folding adds and the decoding of multi-byte characters are not.
- Texts of logs, scenario evidence lists, cache statistics, timings and `replayChanges`: reporting without influence on any status.
- Process spawning, signals, files, JSON and XML, clocks: command outcomes, cancellations, run IDs and packet times are arbitrary parameters; run IDs are taken to be fresh.
- Fingerprint compatibility of a replay: a parameter that may refuse it.
- Concurrent packets of one socket on several CPUs, and the gap between lookup and update in `Program`: each packet and each map operation is one atomic step, as the C file's own comment accepts.
- Operator clear and feedback labels: further releases of one cookie with only easy claims.
- The attrition stream's own generators, Envoy and gRPC wrappers, dashboards and the operator command.
