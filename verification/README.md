# node-doctor: a verified model

node-doctor runs an agent on every node. The agent watches the node through monitors, publishes node conditions
and events, and remediates problems. A controller limits how many nodes remediate at once and correlates problems
across the cluster. This project models the agent's and the controller's in-memory logic in Dafny and proves what
the program relies on over every input and every run.

Code that updates fields becomes a class whose methods are proved against functions on values. Whole-run claims are
lemmas over step systems built from those same functions. Time is an integer that never decreases, and a section
under a lock is one step.

* **Remediation leases** (`LeaseServer`, `LeaseClient`, `LeaseProtocol`, `LeaseGrants`, `LeaseRuns`, `LeaseLimits`): any number
  of Remediate calls against one controller, with lost messages, retries, cancellation, expiry, failed saves, crashes and rehydration
  that may fail. The concurrency limit holds in every interleaving until the first crash, and the exact condition on
  the configuration under which it holds on all runs is proved.
* **Monitor dependencies** (`DependencyGraph`, `KahnSort`, `CycleValidation`, `Detector`): three cycle checks proved
  against one definition of acyclicity and against each other; blocked statuses propagate exactly along transitive
  dependencies.
* **Remediation safety** (`CircuitBreaker`, `RateLimit`, `Registry`, `RemediationGates`, `AttemptOverlap`, and the incident
  policy in `Detector` and `IncidentRuns`): limits on whole runs, serialized and overlapping, and exactly when a
  remediation is attempted.
* **Node conditions** (`NodeConditions`, `ConditionManager`, `ConditionRetries`): the agent never touches a condition it
  does not own; what a flush leaves on the node, type by type; nothing queued is lost to a failed call.
* **Configuration reload** (`ConfigDiff`, `HotReload`): the diff is a patch, and the running monitors follow it.
* **Correlation and events** (`Correlator`, `EventManager`): detection against resolution on one snapshot; an expiring
  cache that answers as a log that never forgets.

## Where the code does not do what one might expect

* A report equal to the last flushed value leaves an earlier pending value queued, so the last report can lose
  (`ConditionManager.LastReportMayLose`); it wins exactly under the condition of `ConditionManager.LastReportWinsIff`.
* A resync between a removal request and its flush can undo the removal (`ConditionManager.ResyncUndoesRemoval`); a
  removal takes effect exactly under `ConditionManager.RemovalSticksIff`.
* Lease fallback removes the concurrency limit, and so does a failed save or rehydrating read followed by a crash: the
  code only logs either failure (`LeaseLimits.CrashExceedsLimit`). It holds on all runs in which no remediation
  outlives its lease exactly under the condition of `LeaseLimits.LimitHoldsIff`; with remediations that do outlive
  their leases, exactly under that of `LeaseLimits.UnconditionalLimitIff`.
* A reload does not apply an edit that touches only a monitor's remediation or dependencies
  (`HotReload.DependencyEditSkipped`); which edits it applies is `HotReload.EditAppliedIff`.
* Injecting a correlation pattern again with other problem types can make a pass resolve the very correlation it has
  just detected (`Correlator.RedetectedMayBeResolved`); the exact condition is `Correlator.RedetectedSurvivesIff`.
* The hourly remediation limit is checked before and recorded after the work, so `k` overlapping calls can exceed it
  by `k - 1` and no more (`RateLimit.OverlapFillsWindow`, `RateLimit.WindowLimited`); it holds on all runs exactly
  when calls do not overlap (`RateLimit.LimitHoldsIff`). The same goes for the number of a problem's attempts
  (`AttemptOverlap.LimitHoldsIff`), for their cooldown (`AttemptOverlap.CooldownKeptIff`) and for creating an event once
  per deduplication window (`EventManager.OncePerWindowIff`).
* The comment above `findNodesWithCascade` asks for the first problem of a chain; the code asks for any two
  (`Correlator.CascadeWithoutRoot`). A hit lacks the first problem exactly under `Correlator.CascadeWithoutRootIff`.
* Two monitors can share an incident, because its key joins a monitor's name and a condition type with a slash. They
  can exactly under the condition of `IncidentRuns.KeysShareIff`; names without a slash never do.
* A status that repeats a condition type can dispatch its key twice, because the clock is read anew for each condition
  and the remediation of an earlier one may outlast the cooldown (`IncidentRuns.RepeatedTypeDispatchesTwice`); it does
  exactly under `IncidentRuns.RepeatDispatchedIff`.
* A half-open circuit is meant to let one remediation through; it lets all through until the first one ends
  (`CircuitBreaker.HalfOpenAdmitsAll`, `CircuitBreaker.ProbesOverlap`).

## Model

| member | source | states |
|---|---|---|
| `LeaseProtocol.ConcurrencyLimited` | pkg/controller/server.go:722-799 | in every reachable state of every interleaving (lost requests, replies and releases, retries, cancellation, expiry, failed saves), with fallback off and no remediation outliving its lease, at most MaxConcurrentRemediations nodes, indeed calls, are between approval and release, until the controller first crashes, and through crashes if saves and the rehydrating read succeed |
| `LeaseProtocol.LeasesSurviveCrashes` | pkg/controller/server.go:1058-1080 | with saves succeeding, every granted, unreleased, unexpired lease is live in the table after every step; with the rehydrating read succeeding too, it is live in memory whenever the controller is up, and such leases never exceed the maximum or share a node |
| `LeaseProtocol.GrantsRespectCooldown` | pkg/controller/server.go:760-799 | with the table readable, a grant comes at least CooldownPeriod after every completion time any row of that node ever carried |
| `LeaseGrants.GrantedIff` | pkg/controller/server.go:725-799 | on every run before the first crash, a well-formed request is granted if and only if fewer leases than the maximum are outstanding by the history of grants and releases, none of them on that node, and, with a cooldown and a readable table, every finished lease of the node completed at least the cooldown ago |
| `LeaseGrants.LiveIffOutstanding` | pkg/controller/server.go:876-888 | until a crash the live leases in memory are exactly the granted, unreleased, unexpired ones |
| `LeaseGrants.ReleaseEnds` | pkg/controller/server.go:876-895 | a release ends the lease at once, and completing it finishes its row at that time |
| `LeaseProtocol.FinishedRowPersists` | pkg/controller/storage.go:464-499 | a completed or expired row stays finished for the same node, has a completion time, and that time never goes back |
| `LeaseLimits.LimitHoldsIff` | pkg/controller/server.go:803-806 | on runs without overstaying, the concurrency limit holds if and only if fallback is off and either saves and the rehydrating read never fail or no lease is ever granted (a maximum of 0, or clients that make no attempt); every failing configuration has a run built for it |
| `LeaseLimits.OverstayExceedsLimit` | pkg/controller/server.go:725-758 | the premise on lease expiry is needed: if remediations may outlive their leases, for every n there is a run with n nodes remediating at once |
| `LeaseLimits.UnconditionalLimitIff` | pkg/controller/server.go:725-758 | on all runs, overstaying included, the limit holds if and only if fallback is off and no lease is ever granted |
| `LeaseLimits.CrashExceedsLimit` | pkg/controller/server.go:1070-1080 | if saves or the rehydrating read may fail, for every n there is a run with crashes and n nodes remediating at once on unexpired leases |
| `LeaseLimits.FallBack` | pkg/remediators/lease_client.go:133-147 | with fallback there is, for every n, a run in which n different nodes remediate without a lease |
| `LeaseProtocol.OwnedStep` | pkg/remediators/registry.go:729-760 | every step keeps: a held or answered lease was granted to that very call, to no other, and is not being released |
| `LeaseProtocol.BackedStep` | pkg/controller/server.go:876-903 | every step keeps outstanding leases live in memory while the controller is up, unless a crash lost what was not saved or not read back |
| `LeaseProtocol.SavedStep` | pkg/controller/server.go:801-807 | every step keeps outstanding leases live in the table if saves succeed |
| `LeaseProtocol.RecordedStep` | pkg/controller/server.go:786-807 | every step keeps: memory and table hold only granted leases with their expiry, and a maximum of 0 or clients without attempts grant none |
| `LeaseProtocol.CappedStep` | pkg/controller/server.go:725-758 | every step keeps outstanding leases within the maximum and on different nodes, as long as nothing was lost in a crash |
| `LeaseProtocol.StampedStep` | pkg/controller/storage.go:464-499 | every step keeps: rows are of granted leases, and finished rows carry a completion time not in the future |
| `LeaseProtocol.RunKeepsInv` | pkg/controller/server.go:710-903 | all six invariants hold in every state of every run |
| `LeaseRuns.ClientFollowsProtocol` | pkg/remediators/lease_client.go:77-147 | whatever the network does to the client's retry loop, protocol steps of that call lead to where the client ends: with a lease, without one under fallback, refused, unreachable or cancelled |
| `LeaseServer.Server.RequestLease` | pkg/controller/server.go:710-843 | refuses for missing fields, capacity, a busy node or cooldown, in that order, changing nothing, a cooldown until exactly the latest completion plus the cooldown; otherwise grants the lease for the requested or default duration in memory and, if the write succeeds, in the table |
| `LeaseServer.Server.CountLive` | pkg/controller/server.go:725-730 | counts exactly the active unexpired leases |
| `LeaseServer.Server.FindNodeLease` | pkg/controller/server.go:746-757 | finds a live lease of the node if and only if there is one |
| `LeaseServer.Server.ReleaseInMemory` | pkg/controller/server.go:876-888 | completes the lease in memory only; unknown leases are reported |
| `LeaseServer.Server.CompleteInStorage` | pkg/controller/server.go:890-895 | completes the row, leaving memory alone |
| `LeaseServer.Server.CleanupExpiredLeases` | pkg/controller/server.go:1016-1045 | expires exactly the overdue active leases, in the table where the write succeeds |
| `LeaseServer.ExpiryExact` | pkg/controller/server.go:1016-1045 | expiring turns exactly the active leases past their time to expired with a completion time, and changes nothing else |
| `LeaseServer.Server.RehydrateFromStorage` | pkg/controller/server.go:1070-1080 | memory becomes what it was overridden by exactly the live rows; a failed read leaves it as it was |
| `LeaseServer.SQLiteStorage.SaveLease` | pkg/controller/storage.go:371-386 | inserts or replaces the row with no completion time, or leaves the table on a failed write |
| `LeaseServer.SQLiteStorage.UpdateLeaseStatus` | pkg/controller/storage.go:464-482 | an existing row gets the status, with a completion time for every status but active, which clears it; a missing row is no error |
| `LeaseServer.SQLiteStorage.ExpireLeases` | pkg/controller/storage.go:485-499 | exactly the overdue active rows expire |
| `LeaseServer.SQLiteStorage.GetLastCompletedLease` | pkg/controller/storage.go:503-535 | a finished lease of the node that no other finished lease completed after, or none if there is none |
| `LeaseClient.LeaseClient.RequestLease` | pkg/remediators/lease_client.go:77-147 | the first answered attempt within maxRetries decides; a cancelled wait is an error; with no answer the call proceeds only under fallback and then without a lease; counters and the active lease follow the outcome |
| `LeaseClient.LeaseClient.ReleaseLease` | pkg/remediators/lease_client.go:150-182 | the lease is forgotten only when the controller acknowledges |
| `DependencyGraph.RankedIffNoClosedWalk` | pkg/types/config.go:1856-1915 | a graph has a strictly decreasing rank if and only if it has no closed walk |
| `DependencyGraph.OrderRanks` | pkg/detector/detector.go:1365-1383 | a duplicate-free list of all names with dependencies first ranks the graph |
| `KahnSort.TopologicalSortMonitors` | pkg/detector/detector.go:1326-1383 | terminates on every list; for unique names, succeeds if and only if the graph is acyclic, and the output is a permutation of the input with every in-list dependency strictly earlier, also with repeated and unknown dependencies |
| `KahnSort.BuildGraph` | pkg/detector/detector.go:1326-1349 | in-degrees are kept for exactly the names of the list; for unique names they count in-list dependencies with repetition, and successor lists are the reversed edges |
| `KahnSort.Emit` | pkg/detector/detector.go:1366-1370 | popping the queue head keeps the drain invariant, with its successors' decrements owed |
| `KahnSort.Decrement` | pkg/detector/detector.go:1370-1375 | one decrement pays one owed edge and queues a name exactly when none is left |
| `KahnSort.FullOutputSorted` | pkg/detector/detector.go:1378-1383 | a full output is a dependency-ordered permutation and proves acyclicity |
| `KahnSort.ShortOutputHasCycle` | pkg/detector/detector.go:1378-1383 | a short output proves that no rank exists |
| `CycleValidation.StartupSearch.Visit` | pkg/types/config.go:1879-1902 | terminates; without error the name and all before it are black and the path is restored; an error's path ends in a closed walk |
| `CycleValidation.DetectCircularDependencies` | pkg/types/config.go:1856-1915 | nil if and only if every dependency exists and the graph is acyclic; a reported cycle ends in a closed walk |
| `CycleValidation.FindMissing` | pkg/types/config.go:1866-1873 | an error if and only if some dependency does not exist |
| `CycleValidation.ReloadSearch.DetectCycle` | pkg/reload/validator.go:509-540 | terminates on every finite graph, also along edges to missing monitors; gray names are exactly those on the path, so the fall-through is unreachable; a returned list is a closed walk |
| `CycleValidation.IndexOnPath` | pkg/reload/validator.go:512-518 | finds a gray name's position on the path, or -1 if it is absent |
| `CycleValidation.FindCycle` | pkg/reload/validator.go:495-505 | finds a cycle if and only if the graph has one, for every order of visiting the map |
| `CycleValidation.ReloadGraphRanked` | pkg/reload/validator.go:478-483 | leaving monitors without dependencies out of the graph does not change acyclicity |
| `CycleValidation.ValidateMonitorDependencies` | pkg/reload/validator.go:472-506 | a missing-dependency error if and only if one is missing, and for unique names a cycle error if and only if the graph is cyclic |
| `CycleValidation.ThreeChecksAgree` | pkg/reload/validator.go:472-540 | on unique names with existing dependencies the Kahn sort, the start-up search and the reload search agree, and succeed if and only if there is no closed walk |
| `CycleValidation.Enter` | pkg/reload/validator.go:529-530 | turning a white name gray and appending it keeps the search invariant |
| `CycleValidation.Leave` | pkg/reload/validator.go:532-539 | turning a finished name black keeps it: black names follow everything they depend on |
| `CycleValidation.GrayClosesWalk` | pkg/reload/validator.go:510-523 | meeting a gray name closes a walk along dependency edges |
| `Detector.RoundPropagates` | pkg/detector/detector.go:538-558 | when all monitors report once in dependency order, from any cached state, a monitor is cached as blocked if and only if some transitive dependency reported a False condition, is otherwise cached as reported, and no blocked one dispatches |
| `Detector.BlockedIff` | pkg/detector/detector.go:1390-1417 | the one-level check on cached statuses decides the transitive question |
| `Detector.FailingUpstreamStep` | pkg/detector/detector.go:1390-1417 | a failing transitive dependency exists if and only if a direct one failed or has one |
| `Detector.BlockedNeverDispatches` | pkg/detector/detector.go:1421-1430 | a synthesized blocked status dispatches under neither trigger rule |
| `Detector.IncidentDispatchesCapped` | pkg/detector/detector.go:754-787 | dispatches between two incident ends never exceed a set MaxAttemptsPerIncident |
| `Detector.DispatchesSpaced` | pkg/detector/detector.go:754-787 | two dispatches of one key are at least Cooldown apart, also across incidents |
| `IncidentRuns.RunDispatchesCapped` | pkg/detector/detector.go:593-693 | in the dispatch log of any run of reports, a key is dispatched at most MaxAttemptsPerIncident times over any stretch that does not end its incident |
| `IncidentRuns.RunDispatchesSpaced` | pkg/detector/detector.go:593-693 | any two dispatches of a key in the log of a run, by different reports or by one, are at least Cooldown apart, also across incidents, with the clock read anew for every condition |
| `IncidentRuns.DispatchedIff` | pkg/detector/detector.go:593-724 | a report of an unblocked monitor, with no incident for the key, dispatches it if and only if the monitor has remediation enabled with a strategy and some condition of that type with its preconditions met is False, or, under a trigger list, listed and True |
| `IncidentRuns.RepeatDispatchedIff` | pkg/detector/detector.go:636-652 | after its first dispatch in a report a key is dispatched again by that report if and only if a later check of it finds the cooldown over, the preconditions met and an attempt left |
| `IncidentRuns.RepeatedTypeDispatchesTwice` | pkg/detector/detector.go:636-676 | two full mounts in one disk status dispatch the same key twice when the first remediation outlasts the cooldown |
| `IncidentRuns.NoDispatchIff` | pkg/detector/detector.go:754-787 | a key's checks dispatch nothing if and only if none finds the cooldown over, the preconditions met and an attempt left since the incident last ended |
| `IncidentRuns.EvaluatedProjects` | pkg/detector/detector.go:636-652 | evaluating a status, each condition on its own reading of clock and preconditions, does to each key's incident exactly what that key's own checks do, and dispatches it at exactly their times |
| `IncidentRuns.KeysShareIff` | pkg/detector/detector.go:641-641 | two different monitors can share an incident key if and only if one's name followed by a slash begins the other's |
| `IncidentRuns.SlashFreeNamesDiffer` | pkg/reload/validator.go:567-590 | names without a slash never share a key |
| `IncidentRuns.OwnPolicyGoverns` | pkg/detector/detector.go:641-641 | unless a configured name begins another with a slash after it, every key is governed by its own monitor's policy |
| `Detector.AttemptsCountDispatches` | pkg/detector/detector.go:735-787 | within an incident the counter grows by exactly its dispatches, so a refused check uses no attempt |
| `Detector.LastAttemptRemembered` | pkg/detector/detector.go:735-745 | the remembered attempt is the latest dispatch, whatever incidents end or begin after it |
| `Detector.ProblemDetector.IsMonitorBlocked` | pkg/detector/detector.go:1390-1417 | blocked if and only if some declared dependency is cached as False or blocked; names the first such |
| `Detector.ProblemDetector.AdmitRemediation` | pkg/detector/detector.go:754-787 | dispatches if and only if cap, cooldown and preconditions allow; the incident counts only dispatches |
| `Detector.ProblemDetector.EndIncident` | pkg/detector/detector.go:735-745 | a known incident restarts its count and keeps its last attempt |
| `Detector.ProblemDetector.EvaluateRemediation` | pkg/detector/detector.go:593-693 | incidents and dispatches over a status's conditions, under both trigger rules, each condition on its own reading of clock and preconditions |
| `Detector.ProblemDetector.ProcessStatus` | pkg/detector/detector.go:538-586 | the effective status is cached before remediation is evaluated on it |
| `CircuitBreaker.CountersBounded` | pkg/remediators/registry.go:957-1010 | in every run closed means failures below Threshold and half-open means successes below SuccessThreshold |
| `CircuitBreaker.NoPassBeforeTimeout` | pkg/remediators/registry.go:863-889 | no check passes within Timeout of an opening unless reset by hand |
| `CircuitBreaker.OpenUntilTimeout` | pkg/remediators/registry.go:863-889 | after an opening the circuit is open with a later or equal opening time, or the timeout has passed |
| `CircuitBreaker.PassesIff` | pkg/remediators/registry.go:863-889 | a check passes if and only if every opening not undone by a reset is at least the timeout ago |
| `CircuitBreaker.OpensIff` | pkg/remediators/registry.go:977-1010 | a closed circuit opens at exactly the failure that makes Threshold of them with no success or reset between |
| `CircuitBreaker.ClosesAfterSuccesses` | pkg/remediators/registry.go:957-974 | half-open closes only after exactly SuccessThreshold successes since it became half-open, with no failure between |
| `CircuitBreaker.HalfOpenHistory` | pkg/remediators/registry.go:870-882 | a half-open circuit has a check that made it so, and its counter is the successes since |
| `CircuitBreaker.HalfOpenAdmitsAll` | pkg/remediators/registry.go:882-884 | in half-open every check passes until the first success, failure or reset |
| `CircuitBreaker.ProbesOverlap` | pkg/remediators/registry.go:882-884 | for every n a run has n overlapping remediations probing one half-open circuit |
| `CircuitBreaker.CircuitBreaker.CheckCircuitBreaker` | pkg/remediators/registry.go:863-889 | passes, and turns half-open, exactly as the run model does |
| `CircuitBreaker.CircuitBreaker.RecordSuccess` | pkg/remediators/registry.go:957-974 | resets failures when closed; counts towards closing when half-open |
| `CircuitBreaker.CircuitBreaker.RecordFailure` | pkg/remediators/registry.go:977-1010 | counts towards opening when closed; reopens from half-open |
| `CircuitBreaker.CircuitBreaker.ResetCircuitBreaker` | pkg/remediators/registry.go:1130-1141 | back to the initial state |
| `CircuitBreaker.CircuitBreaker.SetCircuitBreakerConfig` | pkg/remediators/registry.go:537-560 | rejects exactly the invalid configurations, leaving the old one |
| `RateLimit.WindowLimited` | pkg/remediators/registry.go:893-922 | every one-hour window of any run with at most k overlapping calls holds at most maxPerHour + k - 1 recorded remediations |
| `RateLimit.OverlapFillsWindow` | pkg/remediators/registry.go:893-954 | for all positive limits and overlaps k there is a run with a window of maxPerHour + k - 1 recorded remediations |
| `RateLimit.LimitHoldsIff` | pkg/remediators/registry.go:893-954 | no window of any run exceeds maxPerHour if and only if calls do not overlap (or the window is empty) |
| `RateLimit.WithinAdmit` | pkg/remediators/registry.go:893-922 | admitting a call keeps, for every window, recorded plus in-flight within the bound |
| `RateLimit.WithinRecord` | pkg/remediators/registry.go:945-954 | recording turns one in-flight call into one entry and keeps the bound |
| `RateLimit.ScanBack` | pkg/remediators/registry.go:900-908 | the backward scan that stops at the first old entry counts all entries in the window |
| `RateLimit.CountAfterPruned` | pkg/remediators/registry.go:910-913 | a log pruned of entries outside the window counts as the full log does |
| `RateLimit.Prune` | pkg/remediators/registry.go:900-913 | what is kept is as long as the full log's count in the window |
| `RateLimit.RateLimiter.CheckRateLimit` | pkg/remediators/registry.go:893-922 | allows if and only if the full log has fewer than maxPerHour entries in the window (or no limit is set) |
| `RateLimit.RateLimiter.RecordRateLimitEntry` | pkg/remediators/registry.go:945-954 | appends to the full log when a limit is set |
| `Registry.BodyRunsCapped` | pkg/remediators/registry.go:603-654 | because instances are created once and cached, in every serialized run a problem key's body runs at most maxAttempts times |
| `RemediationGates.AttemptedIff` | pkg/remediators/registry.go:680-814 | in every serialized run a call attempts its remediation if and only if the circuit has not opened within its timeout, the hour has room, the token is there, the lease is granted or not asked for, an instance can be had, the problem has attempts left and is out of its cooldown, and dry-run is off, each stated on the history of the run |
| `RemediationGates.RefusedChangesNothing` | pkg/remediators/registry.go:735-747 | a call whose lease is denied or cannot be asked for attempts nothing and leaves instances and rate log as they were |
| `RemediationGates.BreakerFollows` | pkg/remediators/registry.go:680-814 | the breaker's state is what the outcomes of the calls so far make it |
| `RemediationGates.LogFollows` | pkg/remediators/registry.go:945-954 | the rate log lists exactly the successful calls |
| `RemediationGates.CachedIffUsed` | pkg/remediators/registry.go:603-654 | an instance is cached if and only if an earlier call used one |
| `AttemptOverlap.AttemptsLimited` | pkg/remediators/base.go:137-207 | in every run with at most k overlapping calls a problem key is attempted at most maxAttempts + k - 1 times |
| `AttemptOverlap.LimitHoldsIff` | pkg/remediators/base.go:137-207 | maxAttempts is kept on every run if and only if calls do not overlap or maxAttempts is 0; otherwise a run with maxAttempts + k - 1 attempts is built |
| `AttemptOverlap.CooldownKeptIff` | pkg/remediators/base.go:137-207 | attempts at one problem keep the cooldown on every run if and only if calls do not overlap, there is no cooldown, or nothing may be attempted |
| `AttemptOverlap.AttemptsCoincide` | pkg/remediators/base.go:277-283 | two calls that checked together attempt at the same instant |
| `AttemptOverlap.AttemptTogether` | pkg/remediators/base.go:277-283 | calls that passed the check together all record their attempts |
| `Registry.AttemptsSpaced` | pkg/remediators/base.go:137-207 | two attempts at one key in a serialized run are at least the remediator's cooldown apart |
| `Registry.DryRunAttemptsNothing` | pkg/remediators/registry.go:762-797 | no attempt happens while dry-run was last set on |
| `Registry.HourlyLimit` | pkg/remediators/registry.go:893-954 | in a serialized run through all gates, no window holds more than maxPerHour recorded remediations |
| `Registry.RunTracked` | pkg/remediators/base.go:277-283 | a cached instance keeps its factory's limits and its count equals the attempts of the run so far |
| `Registry.LastAttemptKept` | pkg/remediators/base.go:277-283 | after an attempt the recorded time never falls behind it |
| `Registry.BaseRemediator.CooldownRemaining` | pkg/remediators/base.go:228-245 | positive if and only if the key is in cooldown, and then the exact rest |
| `Registry.BaseRemediator.MayRemediate` | pkg/remediators/base.go:137-153 | true if and only if out of cooldown with attempts left |
| `Registry.BaseRemediator.Remediate` | pkg/remediators/base.go:166-207 | records the attempt before the body, also when the context is cancelled; without a body it fails and records nothing |
| `Registry.RemediatorRegistry.GetOrCreateRemediator` | pkg/remediators/registry.go:603-654 | the cached instance, or a new one with the factory's limits, or none |
| `Registry.RemediatorRegistry.Remediate` | pkg/remediators/registry.go:680-814 | breaker, rate log, trackers and outcome change as the run model's one call does |
| `NodeConditions.SanitizeConditionType` | pkg/exporters/kubernetes/types.go:204-227 | keeps exactly the letters and digits, in order, and capitalises exactly the first letter of each word |
| `NodeConditions.SanitizedAt` | pkg/exporters/kubernetes/types.go:204-227 | the character written for each kept one, by its place in its word |
| `NodeConditions.ConditionTypeStable` | pkg/exporters/kubernetes/types.go:204-262 | a written condition type is always NodeDoctor-prefixed and mapping it again changes nothing |
| `NodeConditions.ConditionTypeAt` | pkg/exporters/kubernetes/types.go:257-262 | the type written for an unprefixed name is the prefix and its kept characters, each written as its place in its word says |
| `NodeConditions.K8sClient.RemoveNodeConditions` | pkg/exporters/kubernetes/client.go:311-374 | removes exactly the owned types asked for, or nothing on a failed call |
| `NodeConditions.K8sClient.PatchNodeConditions` | pkg/exporters/kubernetes/client.go:102-150 | overrides exactly the given types, or nothing on a failed call |
| `ConditionManager.ForeignConditionsUntouched` | pkg/exporters/kubernetes/condition_manager.go:421-512 | over every run, with either API call failing or its reply lost, the node's foreign conditions are exactly what the other writers made them |
| `ConditionManager.FlushKeepsForeign` | pkg/exporters/kubernetes/condition_manager.go:421-512 | no flush adds, changes or removes a foreign condition although the cache holds them |
| `ConditionManager.ExpiredIffUnreported` | pkg/exporters/kubernetes/condition_manager.go:395-418 | in every reachable state a cached owned condition is expired if and only if more than the TTL has passed since its last report (or start), whatever resyncs happened |
| `ConditionManager.RunRemembers` | pkg/exporters/kubernetes/condition_manager.go:156-185 | over every run the refresh map remembers the last report of each type not expired since |
| `ConditionManager.FlushOutcome` | pkg/exporters/kubernetes/condition_manager.go:421-512 | what a flush whose calls succeed leaves on the node for each owned type |
| `ConditionManager.FlushClearsStale` | pkg/exporters/kubernetes/condition_manager.go:395-512 | after such a flush no stale non-heartbeat owned condition without a pending update is on the node |
| `ConditionRetries.RetriesDeliver` | pkg/exporters/kubernetes/condition_manager.go:487-499 | over any run of failed flushes, resyncs and reports of other types a queued owned value stays queued, and the first flush whose patch succeeds puts it on the node, empties the queue and caches it |
| `ConditionRetries.QueuedUntilPatched` | pkg/exporters/kubernetes/condition_manager.go:487-499 | a queued value stays queued as long as no patch succeeds and its type is not touched |
| `ConditionRetries.RemovalUntilDone` | pkg/exporters/kubernetes/condition_manager.go:434-451 | a scheduled removal stays scheduled until a removal call succeeds, and then none is left |
| `ConditionRetries.RemovalTakesEffect` | pkg/exporters/kubernetes/condition_manager.go:658-670 | a removal requested before a successful flush takes effect, whatever was queued for the type |
| `ConditionRetries.ResyncAdoptsDeletion` | pkg/exporters/kubernetes/condition_manager.go:515-545 | a type another writer deleted is not written back after a resync unless it is queued |
| `ConditionRetries.SyncOutcome` | pkg/exporters/kubernetes/condition_manager.go:231-283 | what the start-up sync leaves of each type in the cache, in the queue and among the removals |
| `ConditionRetries.TransitionKept` | pkg/exporters/kubernetes/condition_manager.go:156-181 | a queued report keeps the cached transition time exactly while the status stays the same |
| `ConditionManager.RemovalSticksIff` | pkg/exporters/kubernetes/condition_manager.go:658-670 | the exact condition under which a requested removal takes effect |
| `ConditionManager.ResyncUndoesRemoval` | pkg/exporters/kubernetes/condition_manager.go:515-545 | a removal followed by a resync and a heartbeat is undone by the flush that carries it out |
| `ConditionManager.LastReportWinsIff` | pkg/exporters/kubernetes/condition_manager.go:156-185 | the exact condition under which a report shows on the node after the next successful flush |
| `ConditionManager.LastReportMayLose` | pkg/exporters/kubernetes/condition_manager.go:164-181 | reporting B over a flushed A and then A again leaves B on the node |
| `ConditionManager.ConditionManager.UpdateCondition` | pkg/exporters/kubernetes/condition_manager.go:156-185 | marks the type refreshed, and queues it unless it equals the cached value |
| `ConditionManager.ConditionManager.AddCustomConditions` | pkg/exporters/kubernetes/condition_manager.go:202-228 | queues and refreshes every configured condition |
| `ConditionManager.ConditionManager.PerformInitialSync` | pkg/exporters/kubernetes/condition_manager.go:231-283 | loads the node, queues missing custom conditions unrefreshed, schedules retired ones for removal; a failed read changes nothing |
| `ConditionManager.ConditionManager.ExpireStaleConditions` | pkg/exporters/kubernetes/condition_manager.go:395-418 | moves exactly the stale types from the cache to the removals |
| `ConditionManager.ConditionManager.FlushPendingUpdates` | pkg/exporters/kubernetes/condition_manager.go:421-512 | manager and node change as the flush of the run model does, for every outcome of the two calls, and success is reported if and only if no call it made failed |
| `ConditionManager.ConditionManager.PerformResync` | pkg/exporters/kubernetes/condition_manager.go:515-545 | the cache becomes the node as read; a failed read changes nothing |
| `ConditionManager.ConditionManager.RemoveCondition` | pkg/exporters/kubernetes/condition_manager.go:658-670 | drops the type from cache and updates and schedules its removal |
| `ConfigDiff.DiffIsPatch` | pkg/reload/diff.go:25-64 | added, removed and modified names are disjoint; applying the diff to the old map gives the new one up to the compared fields; it is empty if and only if the two agree that far |
| `ConfigDiff.MonitorsEqual` | pkg/reload/diff.go:85-101 | equal if and only if the two agree once remediation, dependencies and the kinds of config values are stripped, hence an equivalence |
| `ConfigDiff.ConfigMapsEqual` | pkg/reload/diff.go:104-123 | equal if and only if they have the same keys and their values print alike, for every order of visiting the map |
| `ConfigDiff.ComputeConfigDiff` | pkg/reload/diff.go:25-64 | lists each monitor difference exactly once, for every order of visiting the maps, and flags exporters and remediation as changed if and only if a compared field differs |
| `ConfigDiff.NoChangesIff` | pkg/reload/diff.go:67-73 | no change is reported if and only if the configurations agree on everything that is compared |
| `ConfigDiff.ExportersEqual` | pkg/reload/diff.go:125-178 | equal if and only if they agree after stripping the fields no comparison reads |
| `ConfigDiff.MakeMonitorMap` | pkg/reload/diff.go:76-82 | the map by name, later entries winning |
| `HotReload.ReloadFollowsDiff` | pkg/detector/detector.go:1020-1123 | a reload without critical errors takes running monitors matching the old configuration to a duplicate-free set and index matching the new |
| `HotReload.ReloadCriticalIff` | pkg/detector/detector.go:1020-1123 | a reload has a critical error if and only if the added monitors depend on each other in a cycle, a modified one fails to stop, or a modified or added one fails to be created or started |
| `HotReload.EditAppliedIff` | pkg/reload/diff.go:85-101 | after such a reload, from any running state that matches the old configuration, a monitor runs its new configuration if and only if it is new, a compared field changed, or it ran that already; otherwise it goes on with what it ran |
| `HotReload.DependencyEditSkipped` | pkg/reload/diff.go:85-101 | for every two running monitors without dependencies, making one depend on the other is an edit from one valid configuration to another whose diff is empty; the reload succeeds and the monitor goes on without the dependency |
| `HotReload.PhasesReachNew` | pkg/detector/detector.go:1020-1123 | stopping, restarting and starting rewrite the old name map into the new one up to the compared fields |
| `HotReload.StopMatches` | pkg/detector/detector.go:1293-1321 | stopping a monitor keeps handles and index in step |
| `HotReload.AddMatches` | pkg/detector/detector.go:1433-1476 | starting a monitor of a new name keeps handles and index in step |
| `HotReload.MonitorSupervisor.StopMonitorByName` | pkg/detector/detector.go:1293-1321 | the first handle of the name and its index entry go, even when stopping it fails |
| `HotReload.MonitorSupervisor.StartMonitor` | pkg/detector/detector.go:1433-1476 | a handle and an index entry are added only if creating and starting succeed |
| `HotReload.MonitorSupervisor.ApplyConfigReload` | pkg/detector/detector.go:1006-1225 | succeeds if and only if no monitor phase has a critical error and the other phases do not fail; the running monitors end as the three phases say; the configuration is adopted if and only if it succeeds, and then the running monitors match it |
| `Correlator.Correlator.Evaluate` | pkg/controller/correlator.go:227-317 | below the minimum number of reports nothing changes; otherwise every ID, for every visiting order, ends as one merge and resolution on the snapshot says |
| `Correlator.DetectInfrastructureCorrelation` | pkg/controller/correlator.go:330-397 | detects, once each, exactly the problem types whose distinct-node count meets both thresholds, with exactly those nodes |
| `Correlator.InfrastructureIff` | pkg/controller/correlator.go:358-362 | a problem type is detected if and only if some node shows it, at least the minimum of nodes do, and at least the threshold share of all do |
| `Correlator.DetectCommonCauseCorrelation` | pkg/controller/correlator.go:401-467 | detects, once each, exactly the patterns whose problems all appear together on enough nodes |
| `Correlator.CommonCauseIff` | pkg/controller/correlator.go:542-568 | a common-cause correlation lists exactly the nodes that show every problem of its pattern; for two problems, both |
| `Correlator.DetectCascadeCorrelation` | pkg/controller/correlator.go:493-539 | detects, once each, exactly the chains with two links on enough nodes |
| `Correlator.NewSurvivesIff` | pkg/controller/correlator.go:601-657 | a new correlation outlives the pass that creates it if and only if it affects a node |
| `Correlator.NewNotResolved` | pkg/controller/correlator.go:227-317 | with a minimum of at least one node, no new correlation is resolved in the pass that creates it |
| `Correlator.NewResolvedAtOnce` | pkg/controller/correlator.go:401-467 | with a minimum of 0, a built-in pattern no node shows is created and resolved in one pass |
| `Correlator.RedetectedSurvivesIff` | pkg/controller/correlator.go:257-271 | a correlation detected again survives if and only if an affected node shows one of its original problem types |
| `Correlator.RedetectedMayBeResolved` | pkg/controller/correlator.go:704-739 | a re-injected pattern's correlation is detected and resolved in the same pass |
| `Correlator.EvaluationSettlesIff` | pkg/controller/correlator.go:227-317 | evaluating a snapshot again changes an ID if and only if a known correlation is detected and no affected node shows a problem type it was created with; the second pass then creates it anew |
| `Correlator.ResolvedIffOutdated` | pkg/controller/correlator.go:601-657 | a pass resolves what it detects if and only if it was known and no affected node shows one of its recorded problem types |
| `Correlator.UndetectedStaysIff` | pkg/controller/correlator.go:614-655 | a correlation not detected again stays, unchanged, if and only if one of its affected nodes shows one of its problems |
| `Correlator.EvaluationSettles` | pkg/controller/correlator.go:227-317 | from any state, two evaluations of one snapshot reach a fixed point that holds every detected correlation |
| `Correlator.Correlator.ResolveStaleCorrelations` | pkg/controller/correlator.go:601-657 | exactly the correlations remain that have an affected node still showing one of their problems |
| `Correlator.Correlator.MergeDetected` | pkg/controller/correlator.go:255-304 | known correlations get the new affected nodes and keep their problem types; unknown ones are added |
| `Correlator.StillActive` | pkg/controller/correlator.go:617-638 | true if and only if some affected node still shows one of the problems |
| `Correlator.CurrentProblems` | pkg/controller/correlator.go:603-612 | tabulates exactly which node shows which problem |
| `Correlator.FindNodesWithAllProblems` | pkg/controller/correlator.go:542-552 | lists, once each, exactly the nodes that show all the problems |
| `Correlator.FindNodesWithCascade` | pkg/controller/correlator.go:572-598 | lists, once each, exactly the nodes that show at least two links of the chain |
| `Correlator.CascadeWithoutRootIff` | pkg/controller/correlator.go:570-598 | an affected node lacks the first problem of the chain if and only if it shows two later ones and not the first; for three links, both later ones |
| `Correlator.CascadeWithoutRoot` | pkg/controller/correlator.go:570-598 | a node without the kubelet problem is affected by the kubelet cascade |
| `Correlator.GroupByType` | pkg/controller/correlator.go:336-357 | each problem type's group lists exactly the nodes that show it, without repetition |
| `Correlator.Correlator.InjectProblemPattern` | pkg/controller/correlator.go:704-739 | refuses exactly blank names and empty problem lists; otherwise the pattern replaces its namesake and all others stay |
| `Correlator.InForceValid` | pkg/controller/correlator.go:421-435 | the patterns in force are the built-in ones and the injected ones not named like them, with distinct names |
| `Correlator.Correlator.GetReportsCopy` | pkg/controller/correlator.go:320-326 | lists every node's latest report once |
| `EventManager.MinuteLimited` | pkg/exporters/kubernetes/event_manager.go:175-198 | over every run of overlapping calls, no clock minute sees more than maxEventsPerMin admissions |
| `EventManager.RefusedIffFull` | pkg/exporters/kubernetes/event_manager.go:175-198 | a call is refused if and only if its minute already holds maxEventsPerMin admissions |
| `EventManager.CleanupInvisible` | pkg/exporters/kubernetes/event_manager.go:201-280 | at any point of any run, the cleaned cache and one never cleaned give the same duplicate answer now and later |
| `EventManager.OnlyFreshEventsUseQuota` | pkg/exporters/kubernetes/event_manager.go:109-141 | every admission belongs to a call that passed the duplicate check, and every other step leaves admissions and, but for pruning, counters alone |
| `EventManager.CreatedSuppresses` | pkg/exporters/kubernetes/event_manager.go:201-228 | after an event was created, a later check of the same signature passes only after the window; for an event with its own time, exactly then |
| `EventManager.SameSignatureIff` | pkg/exporters/kubernetes/types.go:277-285 | two events share a signature if and only if they agree in reason, message, type and source and carry no time or times in the same minute |
| `EventManager.DuplicatesWithinOverlap` | pkg/exporters/kubernetes/event_manager.go:109-141 | within its window an event is created at most as often as calls with its signature were open at its first creation |
| `EventManager.OncePerWindowIff` | pkg/exporters/kubernetes/event_manager.go:109-141 | every event is created at most once per window on all runs if and only if calls do not overlap, nothing is admitted, or the window is empty |
| `EventManager.TwiceInWindow` | pkg/exporters/kubernetes/event_manager.go:109-141 | with two overlapping calls, any positive limit and any window, a run creates one event twice in it |
| `EventManager.StepKeepsInv` | pkg/exporters/kubernetes/event_manager.go:175-280 | every step keeps counters equal to admissions per minute and the cache equal to the uncleaned one minus expired entries |
| `EventManager.EventManager.CreateEvent` | pkg/exporters/kubernetes/event_manager.go:109-141 | suppressed, limited, failed or created exactly as the uncleaned log and the admissions of the minute say; a duplicate uses no quota |
| `EventManager.EventManager.CheckRateLimit` | pkg/exporters/kubernetes/event_manager.go:175-198 | admits if and only if the minute holds fewer admissions than the limit |
| `EventManager.EventManager.IsDuplicate` | pkg/exporters/kubernetes/event_manager.go:201-214 | answers as the log that never forgets |
| `EventManager.EventManager.RecordEvent` | pkg/exporters/kubernetes/event_manager.go:217-228 | remembers the signature under its own time, or now if it has none |
| `EventManager.EventManager.Cleanup` | pkg/exporters/kubernetes/event_manager.go:252-280 | drops exactly the entries past the TTL and the counters over two minutes old, changing no answer |
| `EventManager.EventManager.constructor` | pkg/exporters/kubernetes/event_manager.go:35-60 | limits that are not positive fall back to 10 per minute and 10 minutes |

## Left out

- HTTP, JSON, SQL text and the Kubernetes client library: each call is an operation that succeeds or fails, with the
  outcome a parameter. A controller without storage is one whose reads and writes fail.
- The concrete remediators and their commands: the outcome of a remediation body is a parameter. So are monitor
  preconditions, factories and the per-minute token bucket.
- Hashes of events and correlations: taken to be injective on what they hash. Lease IDs are taken to be distinct.
- Aliasing of Go slices: paths and lists are values.
- Clock skew: node and controller share one clock, and one call of a locked section reads it once.
- KahnSort.TopologicalSortMonitors: of lists that repeat a name, which configuration validation rejects before any sort
  (pkg/types/config.go:1123-1131, pkg/reload/validator.go:120-132), it promises only termination, length and membership.
- KahnSort.BuildGraph: of such lists it promises only for which names in-degrees are kept.
- ConditionManager.Cleared: clearing managed conditions is a step of the run model on values; its loop is not modelled.
- HotReload.MonitorSupervisor.ApplyConfigReload: the exporter and remediation phases are one flag that says whether they
  failed; cleaning up the conditions of removed monitors is not modelled.
- Correlator.Correlator.Evaluate: severity, confidence, messages, metadata, timestamps, storage and emitted events are
  not modelled, affected nodes are a set where the source sorts a list, ratios are exact reals, and forced resolution
  is left out.
- EventManager.EventManager.CreateEvent: the count of dropped events for the periodic log line is not modelled.
- LeaseClient.LeaseClient.RequestLease: back-off delays and health statistics are not modelled.
- CircuitBreaker.CircuitBreaker.RecordFailure: state-change observers and their timestamps are not modelled.
- Goroutines, channels, file watching, shutdown, metrics, health endpoints, history, logging and report building.
- Field-by-field configuration validation, defaults, environment substitution and duration parsing.
- Webhook back-off.
