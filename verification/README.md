# KubeSentry in Dafny

KubeSentry's gateway compiles policy distributions into one snapshot per cluster and pushes it over a
long-lived stream. Member operators reconcile what arrives, and a webhook decides admissions from
in-memory caches. This project models the parts of that system whose correctness is not visible from
one function body, and proves what they promise over every input, every run and every schedule.

| module | models |
|---|---|
| `GroupResolve` | effective members of a policy group |
| `Render`, `RenderExact`, `RenderTheorems`, `RenderOrder` | the snapshot compiler, its result read off the inputs, what it preserves, and its independence of list and map order |
| `PushOwnership`, `PushProtocol` | the session registry, the start/stop discipline of push loops, and all interleavings of concurrent Sync calls |
| `PushLoop`, `PushLoopProgress` | the close-and-replace notifier and one push loop beside table writers: what holds in every state, and what every run can be carried on to |
| `DistStatus` | the per-cluster status rows under concurrent push and receive loops, with read and write as separate steps |
| `PolicyVersions` | version numbering across crashes, spec edits and pruning |
| `Tracker`, `TrackerExact`, `TrackerTheorems`, `TrackerValidation`, `IncidentTracker` | incident tracking: a ledger of values, what each operation does, the theorems over runs, when reports validate, and the object that refines it |
| `ExceptionLifecycle` | the timed life of a policy exception |
| `ReverseIndex` | `referencedBy` as an index over group statuses |
| `ExceptionCache`, `PolicyMatching`, `Admission` | the webhook's two caches and the decision |
| `AdmissionVerdict`, `AdmissionReport`, `AdmissionEvent`, `AdmissionText` | the answer read off the caches and exception events, the event read back from the answer, when it is exact, and when the answer's texts depend on map order |
| `Violations`, `Strings` | the violation printer and the parser that undoes it |
| `Ulid` | event identities |
| `Names` | string order and sorted listings |

`dafny verify dfyconfig.toml` checks everything. Code that updates state in the source is a class or a
method with loops, proved equal to a specification function; the theorems are about those functions.
Ranging over a Go map is a loop that picks an arbitrary remaining key. Goroutines and processes are
state machines whose steps are the regions the source runs under one lock or one API call.

## Where the code does less than it promises

Each of these has a lemma that gives the exact condition and one that exhibits an input or a run.

- Ready at the current generation implies a matching recorded version exactly when at least eight
  versions are kept (`PolicyVersions.SettledIffLimit`, `SmallLimitLosesVersion`). `cmd/operator/main.go`
  keeps twenty.
- `truncate` counts characters and `Validate` counts bytes. A tracked incident validates exactly when
  the instance id given to `NewTracker`, cut, fits 128 bytes and the detail last recorded for it, cut,
  fits 200 (`TrackerValidation.ReportsValidate`, `AllReportsValidate`, `WideReportRejected`).
- A render error on a status row survives a later clean push exactly when the hash that the row records
  is the hash pushed (`DistStatus.CleanPushClears`, `RenderErrorLingers`).
- Between the leader check and `startPush` another claim can slip in, and a reconnecting instance is
  not in the demoted list: `PushProtocol.LateStart` and `ReconnectOverlap` exhibit the two windows. Between
  role updates of its cluster a pushing session leads exactly when it still has its registry entry and its
  loop was not started after it had lost the lead (`PusherLeads`); it lost the entry only to another
  session of its own cluster and instance (`PusherWithoutEntry`).
- `stricter` is order-dependent for two different set modes that are both not enforce
  (`RenderOrder.StricterCommutes`). A snapshot is the same for every order of every list exactly when
  for each policy of each group some distribution asks for enforce or all set modes agree
  (`OrderIndependenceExactly`, `Disagreement`); unset, audit and enforce always do.
- The webhook keeps a single group's mode as it is, so an unset mode with a message denies although no
  group enforces (`Admission.DeniesExactly`, `UnsetModeDenies`). The shipped schemas allow only enforce
  and audit in a spec (`charts/kubesentry/crds/policy.yaml`, `policygroup.yaml`), so an unset mode reaches the
  webhook only through a group's status, whose schema is open.
- A malformed selector of an exception is dropped, which widens the exception on exactly the requests
  the rest of it admits (`ExceptionCache.CompiledCoverage`, `MalformedExemptsAll`).
- The text of a violation names its groups in map order (`AdmissionReport.TextFollowsGroupOrder`). It is the
  same for every order exactly when at most one group hit the policy (`AdmissionText.TextOrderFree`), and
  every answer to a request has the same texts exactly when that is so of every violated policy
  (`AnswerTextsExact`).
- A message that continues with a bracketed line is read back as a second violation
  (`Violations.ReadBackExactly`, `BracketedLineIsRead`). The event names exactly the violated policies and
  the groups that hit them exactly when every further line of every reported message and description is no
  header or brackets only those names or blanks (`AdmissionEvent.EventExactWhen`).
- A policy created while a group's status already names it has an empty `referencedBy` until such a
  group is reconciled; it is wrong exactly while a live group lists the policy
  (`ReverseIndex.IndexExact`, `RecreatedIsStale`).
- `handler.go` says a failed namespace lookup amounts to no rules being evaluated. It does exactly when
  every policy that an enabled group without a selector puts on the request is exempt
  (`Admission.FailedLookupEvaluatesNothing`, `FailedLookupDenies`).

## Model

| member | source | states |
|---|---|---|
| `GroupResolve.Resolve` | internal/groupresolve/resolve.go:24-98 | the loops return the members sorted by name and the conditions in order, as functions of the spec and the policies |
| `GroupResolve.ResolvedMembership` | internal/groupresolve/resolve.go:33-90 | a name resolves iff it exists, is not excluded, and is referenced by name or selected by labels |
| `GroupResolve.ResolvedExact` | internal/groupresolve/resolve.go:20-97 | each member with its mode and source: an entry goes before the selector, the entry's mode and the group's selector mode before the policy's own; repeated entries and policies resolve to the last, selected ones to the first |
| `GroupResolve.ConditionsExact` | internal/groupresolve/resolve.go:33-66 | a condition is reported iff an entry names a policy that does not exist, or the selector is malformed |
| `GroupResolve.MembersSorted` | internal/groupresolve/resolve.go:92-97 | the members are strictly ascending by name |
| `GroupResolve.ResolvePermutation` | internal/groupresolve/resolve.go:24-98 | members and conditions do not depend on the order of the policy list |
| `Render.RenderWithExceptions` | internal/gateway/render.go:71-200 | the nested loops over distributions, groups, members and map ranges compute exactly the snapshot function: objects, hash, matched names and errors |
| `RenderExact.TargetExact` | internal/gateway/render.go:202-219 | a live distribution targets the cluster iff it names it or a well-formed selector matches its labels; it fails iff it does not name it and its selector is malformed |
| `RenderExact.GroupShipped` | internal/gateway/render.go:95-190 | a group is in the snapshot iff it exists, is enabled, and a live distribution lists it that names the cluster or whose selector matches it |
| `RenderExact.GroupObjectExact` | internal/gateway/render.go:116-190 | a shipped group is its source with one entry per member, carrying the mode that wins: enforce if any distribution asks for it, else the first set mode asked for, else unset |
| `RenderExact.PolicyShipped` | internal/gateway/render.go:135-173 | a policy is in the snapshot, with its spec and labels, iff it is a member of a shipped group |
| `RenderExact.ExceptionShipped` | internal/gateway/render.go:150-195 | an exception is in the snapshot iff it exists and a live distribution targeting the cluster lists it |
| `RenderExact.MatchedExact` | internal/gateway/render.go:95-165 | the matched names, sorted, are those of live distributions that target the cluster or have a malformed selector and do not name it |
| `RenderExact.ErrorsExact` | internal/gateway/render.go:100-163 | with unique names a distribution's errors are exactly its malformed selector, or the groups and exceptions it lists that do not exist |
| `RenderExact.ErrorsOnlyListed` | internal/gateway/render.go:95-163 | no error is recorded under a name no distribution has |
| `RenderExact.ObjectsOrdered` | internal/gateway/render.go:165-200 | policies before groups before exceptions, each strictly ascending by name, and the hash is that of this list |
| `Render.FindOverride` | internal/gateway/render.go:116-121 | the loop leaves the cluster's last override |
| `Render.AddDistsAt` | internal/gateway/render.go:95-163 | folding last-write maps group by group gives each member the join of what every distribution contributes, whatever order groups repeat in |
| `RenderTheorems.ModeIsStrictest` | internal/gateway/render.go:135-163 | a rendered mode is one of the contributions and ranks at least as high as each of them |
| `RenderTheorems.EnforceExact` | internal/gateway/render.go:221-229 | enforce is rendered iff some live matching distribution listing the enabled group contributes enforce |
| `RenderTheorems.ContributionExact` | internal/gateway/render.go:95-163 | a contribution is this cluster's last override, else the resolved mode, of an undeleted matching distribution listing an enabled group |
| `RenderTheorems.NeededIffRendered` | internal/gateway/render.go:135-178 | a policy is shipped iff some rendered group has it as a member |
| `RenderTheorems.MeaningPreserved` | internal/gateway/render.go:135-190 | resolving a rendered group on a member cluster, beside any other local policies, gives exactly the gateway's members and modes, unset modes included |
| `RenderTheorems.MeaningPreservedCleanly` | internal/groupresolve/resolve.go:33-97 | and it meets no missing member and no malformed selector |
| `RenderTheorems.UnsetMode` | internal/gateway/render.go:135-163 | an unset rendered mode can only come from a policy whose own mode is unset |
| `RenderTheorems.MoreDistributionsRenderMore` | internal/gateway/render.go:71-200 | distributions added anywhere take no object away and weaken no mode |
| `RenderOrder.StricterCommutes` | internal/gateway/render.go:221-229 | exactly when the join of two modes is independent of their order |
| `RenderOrder.OrderIndependence` | internal/gateway/render.go:71-200 | permuting distributions, groups, policies and exceptions leaves objects, hash, matched and errors identical |
| `RenderOrder.OrderIndependenceExactly` | internal/gateway/render.go:71-229 | for arbitrary modes the result is independent of every list order iff for each policy of each group some distribution asks for enforce or all set modes asked for are equal |
| `RenderOrder.Disagreement` | internal/gateway/render.go:221-229 | where they disagree, an order of the distributions that renders another mode |
| `RenderOrder.ErrorPermutation` | internal/gateway/render.go:95-163 | the error map is the same for every order of uniquely named distributions |
| `RenderOrder.MatchedPermutation` | internal/gateway/render.go:95-164 | so is the sorted list of matched names, repeated names included |
| `Names.LessExact` | internal/gateway/render.go:240-247 | the order of names is decided at the first difference, a prefix coming first |
| `Names.SortedKeys` | internal/gateway/render.go:240-247 | whatever order the map yields its keys in, the result is the one sorted listing of them |
| `PushOwnership.SessionRegistry.Put` | internal/gateway/registry.go:31-54 | the new registry, and the demoted sessions are exactly the other instances' leading ones |
| `PushOwnership.SessionRegistry.LeaderOf` | internal/gateway/registry.go:56-69 | none iff nobody leads; otherwise a leader with the latest claim, and in a regular registry the only one whatever the map order |
| `PushOwnership.SessionRegistry.Remove` | internal/gateway/registry.go:78-92 | compare and delete, dropping an emptied instance map, and whether the entry led |
| `PushOwnership.PutRegular` | internal/gateway/registry.go:31-54 | a claim keeps one leader entry at most per cluster and no empty map, and a leader claim leads |
| `PushOwnership.RemoveRegular` | internal/gateway/registry.go:78-92 | removal keeps that; a stale session's removal changes nothing, and no other entry is touched |
| `PushOwnership.LoopStep` | internal/gateway/server.go:234-262 | any interleaving of start, stop, return and late exit keeps one uncancelled loop at most, and an old exit leaves a newer loop's cancel in place |
| `PushOwnership.StopOutdates` | internal/gateway/server.go:245-262 | after a stop every loop still about has an outdated sequence, and an exit clears the cancel iff it is its own |
| `PushOwnership.SyncSession.StartPush` | internal/gateway/server.go:234-252 | no second loop while one is on record; otherwise a new sequence number is captured |
| `PushOwnership.SyncSession.StopPush` | internal/gateway/server.go:254-262 | every running loop is cancelled afterwards |
| `PushOwnership.SyncSession.FinishLoop` | internal/gateway/server.go:245-251 | the exiting goroutine clears the cancel only of its own sequence |
| `PushProtocol.RunInv` | internal/gateway/server.go:521-554 | the protocol invariant over every run of interleaved claims, demotions, checks, starts, hang-ups and loop exits |
| `PushProtocol.AlwaysRegular` | internal/gateway/registry.go:31-92 | in every run one leader entry at most per cluster, no empty map, one uncancelled loop at most per session |
| `PushProtocol.PusherAccounted` | internal/gateway/server.go:521-554 | in every state a registered pushing session leads, is about to be stopped, or started its loop after it had lost the lead |
| `PushProtocol.PusherLeads` | internal/gateway/server.go:521-554 | between role updates of its cluster a pushing session leads iff it has its registry entry and its loop was not started after it had lost the lead |
| `PushProtocol.Displaced` | internal/gateway/registry.go:31-54 | in every run a session that has claimed a role and has no entry lost it to a claim by another session of the same cluster and instance |
| `PushProtocol.PusherWithoutEntry` | internal/gateway/registry.go:45-48 | so did every session that pushes without an entry |
| `PushProtocol.SerialPusherLeads` | internal/gateway/server.go:521-541 | with a cluster's role updates serialised every registered pushing session of it leads, whatever other clusters do |
| `PushProtocol.LateStart` | internal/gateway/server.go:532-533 | a reachable state in which two sessions push, one without leading, and nothing is left to stop it |
| `PushProtocol.ReconnectOverlap` | internal/gateway/registry.go:45-48 | a reachable state in which an instance's replaced session still pushes beside its new one |
| `PushLoop.Notifier.Notify` | internal/gateway/notifier.go:17-22 | every channel handed out before is closed, the next one is open |
| `PushLoop.Notifier.NotifyWithTrace` | internal/gateway/notifier.go:27-46 | the same, with the trace in place first |
| `PushLoop.Notifier.Wait` | internal/gateway/notifier.go:55-59 | an open channel: the one the next Notify closes |
| `PushLoop.RunInv` | internal/gateway/server.go:431-481 | the loop invariant over every interleaving of table writes, notifications, ticks and loop steps |
| `PushLoop.NoLostWakeup` | internal/gateway/server.go:431-481 | blocked on an open channel after a successful render: every table was read after the latest Notify and the session remembers exactly that render |
| `PushLoop.QuietMeansCurrent` | internal/gateway/server.go:431-481 | once every write has been notified, what is remembered as sent is the render of the tables as they are |
| `PushLoop.NotifyDuringPassWakes` | internal/gateway/server.go:431-481 | a notification anywhere in a pass wakes the loop when it blocks |
| `PushLoop.TracesAnnounceChanges` | internal/gateway/server.go:438-463 | over a run a message carries a trace only if its content differs from the one before |
| `PushLoopProgress.PassCompletes` | internal/gateway/server.go:431-481 | from every state at the top of the loop an undisturbed pass remembers the tables' render and sends it iff it differs or a resend is due, with the trace iff a notification woke the loop and it differs |
| `PushLoopProgress.StartPushes` | internal/gateway/server.go:431-465 | a loop that starts pushes the tables' render without a trace, unless it was sent last |
| `PushLoopProgress.ChangeIsPushed` | internal/gateway/server.go:431-481 | a write notified while the loop is blocked is pushed under its trace iff the render differs |
| `PushLoopProgress.TickerResends` | internal/gateway/server.go:467-480 | the ticker resends the render, changed or not, without a trace |
| `PushLoopProgress.FailedPass` | internal/gateway/server.go:448-468 | a pass whose render fails sends and remembers nothing |
| `PushLoopProgress.EndedIsSilent` | internal/gateway/server.go:461-472 | after a failed send or a cancellation nothing is sent or remembered ever again |
| `PushLoopProgress.NoNotificationMissed` | internal/gateway/server.go:431-481 | in terms of events: blocked on an open channel after a render, each table was read after every notification, and the render of what was read is remembered |
| `DistStatus.StatusTable.MarkPushed` | internal/gateway/diststatus.go:33-73 | the loop over the listed distributions, as a function of the old rows |
| `DistStatus.StatusTable.MarkReported` | internal/gateway/diststatus.go:75-120 | the loop over the matched distributions, as a function of the old rows |
| `DistStatus.StatusTable.SetClusterStatus` | internal/gateway/diststatus.go:122-140 | read, mutate and write back one row |
| `DistStatus.PushSettles` | internal/gateway/diststatus.go:33-73 | afterwards a listed distribution has a row iff it matched, and a Synced row is at the pushed hash |
| `DistStatus.PushExact` | internal/gateway/diststatus.go:33-73 | the row of every name after a push: gone if not matched, Error with the render error, untouched if settled at the pushed hash, else Pending; rows not listed stay |
| `DistStatus.ReportExact` | internal/gateway/diststatus.go:75-109 | the row of every name after a report on the last snapshot: Synced at its hash, or Error with the member's message, iff known and matched without a render error; every other row stays |
| `DistStatus.PushIdempotent` | internal/gateway/diststatus.go:33-73 | a second push of the same render changes nothing |
| `DistStatus.StaleReportIgnored` | internal/gateway/diststatus.go:75-90 | a report for another snapshot is a no-op |
| `DistStatus.RunTruthful` | internal/gateway/diststatus.go:33-140 | the invariant over all interleavings of push loops and receive loops, each with its own tests, loops, reads, writes and failures |
| `DistStatus.SyncedIsTruthful` | internal/gateway/diststatus.go:33-140 | in every run a Synced row has no error, and its hash is that of a snapshot that was sent, matched the distribution without a render error and was reported applied without error |
| `DistStatus.ReportSettles` | internal/gateway/diststatus.go:75-140 | every run can be carried on by an undisturbed report to the rows `markReported` leaves |
| `DistStatus.PushSettlesRows` | internal/gateway/diststatus.go:33-73 | every run can be carried on by an undisturbed push to the rows `markPushed` leaves |
| `DistStatus.SyncedIsReached` | internal/gateway/diststatus.go:101-105 | for every snapshot and every name it matches cleanly, a run of the interleaved machine in which that row is Synced at its hash |
| `DistStatus.FailuresSkip` | internal/gateway/diststatus.go:122-140 | a failed write leaves the rows alone and the loop goes on with the next name |
| `DistStatus.UndisturbedPush` | internal/gateway/diststatus.go:33-73 | a push loop's steps on one row, not interleaved, are what `markPushed` does to it |
| `DistStatus.UndisturbedReport` | internal/gateway/diststatus.go:75-120 | a receive loop's steps on one row, not interleaved, are what `markReported` does to it |
| `DistStatus.RenderErrorLingers` | internal/gateway/diststatus.go:47-70 | a render error outlives its cause at an unchanged hash |
| `DistStatus.CleanPushClears` | internal/gateway/diststatus.go:47-70 | after a clean push over the listed distributions a failed row is pending without its error if the hash it records is not the one pushed, and untouched otherwise |
| `PolicyVersions.InvTrace` | internal/operator/policy_reconciler.go:81-125 | over every run with crashes, edits and failed prunes: no number exceeds the current version by more than eight, and Ready at the current generation is settled |
| `PolicyVersions.SettledIffLimit` | internal/operator/policy_reconciler.go:81-125 | Ready at the current generation implies the recorded version exists and matches the spec in every reachable state, iff at least eight versions are kept |
| `PolicyVersions.SmallLimitLosesVersion` | internal/operator/policy_reconciler.go:215-237 | for each smaller limit a reachable up-to-date state whose current version was pruned |
| `PolicyVersions.NumbersNeverReused` | internal/operator/policy_reconciler.go:81-110 | a version number names one content for the whole run, even after pruning |
| `PolicyVersions.ReconcileRecords` | internal/operator/policy_reconciler.go:81-125 | a reconcile with work to do records the spec under a higher number iff the rego compiles and one of eight numbers is free or equal |
| `PolicyVersions.RollbackThenReconcile` | internal/operator/policy_reconciler.go:128-149 | a rollback and the reconcile after it record the target's content as a higher version, under the same condition |
| `PolicyVersions.ReconciledReachable` | internal/operator/policy_reconciler.go:41-125 | an undisturbed reconcile is a run of the small steps |
| `PolicyVersions.DoomedAreOld` | internal/operator/policy_reconciler.go:215-237 | with eight or more kept, pruning never reaches above the recorded version |
| `PolicyVersions.PruneExact` | internal/operator/policy_reconciler.go:215-237 | pruning leaves exactly the highest `limit` versions, unchanged, or all when there are no more |
| `PolicyVersions.ReconcileExact` | internal/operator/policy_reconciler.go:41-149 | every way an undisturbed reconcile ends, with the whole new state: rolled back, Invalid, left alone, or recorded under the first usable of eight numbers with the highest versions kept |
| `PolicyVersions.PatchLaws` | internal/operator/policy_reconciler.go:142-148 | a merge patch against the live object gives the target, an empty one changes nothing, and a changed field gets the target's value |
| `PolicyVersions.PolicyReconciler.Reconcile` | internal/operator/policy_reconciler.go:41-126 | the method's new state is the undisturbed reconcile, and it requeues iff it rolled back |
| `PolicyVersions.PolicyReconciler.SettleVersion` | internal/operator/policy_reconciler.go:81-110 | the probing loop creates or accepts exactly the first usable of eight numbers and changes nothing else |
| `PolicyVersions.PolicyReconciler.PruneVersions` | internal/operator/policy_reconciler.go:215-237 | all but the highest `limit` numbers go |
| `PolicyVersions.PolicyReconciler.HandleRollback` | internal/operator/policy_reconciler.go:128-149 | the patched spec, or Invalid for a missing version |
| `Tracker.RunStructured` | internal/admission/observability/observation.go:174-299 | in every run the queue lists the closed incidents once each, the bound holds, and open incidents sit under their own reason with keys of their own |
| `Tracker.CloseAllStructured` | internal/admission/observability/observation.go:209-225 | the snapshot's close loop meets each incident it set out to close, in any order, self-reports in between included |
| `TrackerTheorems.Conservation` | internal/admission/observability/observation.go:174-320 | recorded counts plus self-recorded drops equal the sum over active, pending, acknowledged, evicted and reset incidents |
| `TrackerTheorems.DropReported` | internal/admission/observability/observation.go:284-320 | a close evicts iff the queue is full, and the eviction goes unrecorded exactly when either reason is report_dropped or no identity can be drawn |
| `TrackerTheorems.LeavesPending` | internal/admission/observability/observation.go:243-299 | a closed incident leaves only by a terminal ack at or above its final revision, by Reset, or by eviction after everything queued before it |
| `TrackerTheorems.CloseAllFifo` | internal/admission/observability/observation.go:284-299 | after a batch of closes the queue is the old queue and the closed keys in order, less a number of the oldest |
| `TrackerTheorems.AckOfOpenIgnored` | internal/admission/observability/observation.go:243-260 | an ack of any revision shown while the incident was open changes nothing, then or later |
| `TrackerExact.AcknowledgeExact` | internal/admission/observability/observation.go:243-260 | a terminal ack at or above a closed incident's revision removes exactly it from table and queue and counts it; every other ack changes nothing |
| `TrackerExact.AckOfShownRemoves` | internal/admission/observability/observation.go:209-260 | over runs, acking the revision a snapshot showed of a closed incident removes it at any later time, if it is still queued |
| `TrackerExact.AckOfShownOpenIgnored` | internal/admission/observability/observation.go:209-260 | over runs, acking the revision a snapshot showed of an open incident changes nothing at any later time |
| `TrackerExact.FrozenRun` | internal/admission/observability/observation.go:174-299 | over runs a closed incident does not change while queued, and its key does not come back once it has left |
| `TrackerExact.RecordExact` | internal/admission/observability/observation.go:174-207 | a record continues the open incident iff the silence period has not passed, else begins a new one; key, counts, times, revision, samples and detail included |
| `TrackerExact.SnapshotExact` | internal/admission/observability/observation.go:209-225 | a snapshot leaves open exactly the incidents seen within the silence period and queues the closed form of the others, unless evicted since |
| `TrackerExact.CloseExact` | internal/admission/observability/observation.go:284-299 | a close queues the closed form last and touches no other open incident but the self-report |
| `TrackerExact.SelfReportExact` | internal/admission/observability/observation.go:284-320 | what a close leaves as self-report: one more, a first one, or the old one, by what it evicts |
| `TrackerValidation.RunDetailed` | internal/admission/observability/observation.go:174-207 | in every run an incident's detail is the cut of the detail argument last recorded for it, or the self-report's own |
| `TrackerValidation.ReportsValidate` | internal/admission/observability/observation.go:111-135 | with a non-decreasing clock a tracked incident validates iff the constructor's instance id and the detail last recorded for it fit their byte limits once cut |
| `TrackerValidation.Validate` | internal/admission/observability/observation.go:111-135 | the first fault in the order of the checks, and none iff the incident validates |
| `TrackerValidation.Utf8Shortest` | internal/admission/observability/observation.go:111-135 | the bytes counted for a character are those of its shortest UTF-8 form |
| `TrackerValidation.AllReportsValidate` | internal/admission/observability/observation.go:111-135 | every report of a run validates iff each accepted record had a fitting detail and the instance id fits |
| `TrackerValidation.AsciiReportsValidate` | internal/admission/observability/observation.go:349-355 | with ASCII arguments every report validates |
| `TrackerValidation.WideReportRejected` | internal/admission/observability/observation.go:156-172 | a one-record run whose report is rejected, for a wide detail or for a wide instance id with any detail |
| `IncidentTracker.IncidentTracker.Record` | internal/admission/observability/observation.go:174-207 | the object refines the ledger step and keeps its structure |
| `IncidentTracker.IncidentTracker.Snapshot` | internal/admission/observability/observation.go:209-241 | closes exactly the stale incidents in some order, and returns exactly the open and the queued ones, ordered by start time and then key |
| `IncidentTracker.IncidentTracker.Acknowledge` | internal/admission/observability/observation.go:243-260 | the object refines the ledger step |
| `IncidentTracker.IncidentTracker.Reset` | internal/admission/observability/observation.go:262-268 | the object refines the ledger step |
| `IncidentTracker.IncidentTracker.CloseLocked` | internal/admission/observability/observation.go:284-299 | closing with eviction, as the ledger has it |
| `IncidentTracker.IncidentTracker.RecordDropLocked` | internal/admission/observability/observation.go:301-320 | the self-report, as the ledger has it |
| `ExceptionLifecycle.ExceptionReconciler.ReconcileStored` | internal/operator/exception_reconciler.go:40-162 | the method's new state and requeue are one step of the lifecycle |
| `ExceptionLifecycle.ExceptionReconciler.Validate` | internal/operator/exception_reconciler.go:51-83 | reports the first problem, and none iff the spec is valid |
| `ExceptionLifecycle.ValidExactly` | internal/operator/exception_reconciler.go:51-83 | nothing is wrong iff there is one kind of target, a reason that is not blank, a positive duration, no negative or unparsable retention, and every referenced name exists |
| `ExceptionLifecycle.ProblemExact` | internal/operator/exception_reconciler.go:51-83 | which problem is reported, for each: the targets first, then reason, duration, retention, first missing policy, first missing group |
| `ExceptionLifecycle.StatusExact` | internal/operator/exception_reconciler.go:51-94 | the whole status a reconcile writes into an exception that has not expired |
| `ExceptionLifecycle.RequeueExact` | internal/operator/exception_reconciler.go:96-162 | each requeue is for exactly the moment of the next change: expiry, expiry plus retention, at once, or never |
| `ExceptionLifecycle.PunctualTimeline` | internal/operator/exception_reconciler.go:40-162 | reconciled as asked, a valid exception is Active until its expiry, Expired then, and gone a retention later |
| `ExceptionLifecycle.LivesAndDies` | internal/operator/exception_reconciler.go:40-162 | every run without one can be carried on through the whole life of any valid exception |
| `ExceptionLifecycle.TargetsImmutable` | internal/operator/exception_validation.go:13-45 | over runs targets, match and creation time never change while it is stored, nor any of its spec once expired |
| `ExceptionLifecycle.EditTakesEffect` | internal/operator/exception_reconciler.go:40-94 | after an allowed edit the next reconcile goes by the new spec and records its generation |
| `ExceptionLifecycle.RunSound` | internal/operator/exception_reconciler.go:40-162 | over runs of ticks, edits, reference changes and reconciles an expired object passed its own expiry and records it |
| `ExceptionLifecycle.ExpiredIsTerminal` | internal/operator/exception_validation.go:38-45 | Expired is left only by deletion |
| `ExceptionLifecycle.ActiveOnlyBeforeExpiry` | internal/operator/exception_reconciler.go:40-94 | a reconcile leaves Active iff the object was not expired, nothing is wrong with it and now is before creation plus duration |
| `ExceptionLifecycle.ActiveWasBeforeExpiry` | internal/operator/exception_reconciler.go:40-94 | in every state that is Active the recorded expiry is what the last reconcile computed, and that reconcile's clock was before it |
| `ExceptionLifecycle.DeletedOnlyWhenDue` | internal/operator/exception_reconciler.go:96-118 | a reconcile deletes iff the stored phase is Expired and expiry plus retention has come |
| `ExceptionLifecycle.GoneWithinFour` | internal/operator/exception_reconciler.go:40-162 | following the requeue times deletes a valid exception within four reconciles |
| `ExceptionLifecycle.FourAreNeeded` | internal/operator/exception_reconciler.go:40-162 | with a retention period three punctual reconciles leave it in place |
| `ReverseIndex.IndexExact` | internal/operator/policygroup_reconciler.go:142-198 | over every run the entry is exact iff the policy is not a freshly recreated one that a live group still lists; exact means sorted, without repetition, every live group listing the policy, and beyond those only groups awaiting cleanup |
| `ReverseIndex.SettledIndex` | internal/operator/policygroup_reconciler.go:142-198 | with no group awaiting cleanup the entry is the sorted list of the groups listing the policy, under the same condition |
| `ReverseIndex.ApplyInv` | internal/operator/policygroup_reconciler.go:41-115 | every group edit, deletion, policy edit and reconcile keeps the index invariant although only previous and current members are touched |
| `ReverseIndex.ReconcileSettles` | internal/operator/policygroup_reconciler.go:41-115 | reconciling a group settles every policy it resolved before or resolves now, freshly created ones included |
| `ReverseIndex.EditTakesEffect` | internal/operator/policygroup_reconciler.go:41-115 | once an edited group is reconciled its status is what the new spec resolves to, and it is in a policy's entry iff it is enabled and resolves the policy |
| `ReverseIndex.DeleteTakesEffect` | internal/operator/policygroup_reconciler.go:41-66 | once a deleted group is reconciled it is gone and in no entry |
| `ReverseIndex.PolicyEditTakesEffect` | internal/operator/policygroup_reconciler.go:142-198 | a policy edit leaves its entry alone |
| `ReverseIndex.MembersExact` | internal/operator/policygroup_reconciler.go:68-100 | a group's status lists exactly what its spec resolves to, nothing while disabled |
| `ReverseIndex.NewPolicyExact` | internal/operator/policygroup_reconciler.go:142-198 | a new policy's empty entry is right iff no live group's status names it |
| `ReverseIndex.RecreatedIsStale` | internal/operator/policygroup_reconciler.go:142-198 | resolving, deleting and recreating a policy is a run that leaves its entry empty while the group lists it |
| `ReverseIndex.FinalizedIsForgotten` | internal/operator/policygroup_reconciler.go:53-66 | once its cleanup has run a deleted group is in no exact entry |
| `ReverseIndex.PolicyGroupReconciler.ReconcileStored` | internal/operator/policygroup_reconciler.go:41-115 | the method's new state is one uninterrupted group reconcile |
| `ReverseIndex.PolicyGroupReconciler.RefreshReferencedBy` | internal/operator/policygroup_reconciler.go:142-198 | the loop over touched names, in any order, recomputes exactly their entries |
| `ExceptionCache.Cache.Upsert` | internal/webhook/exception_cache.go:54-72 | both indexes hold exactly the map's entries, once each, without empty buckets, and the map gains the compiled rule or loses the name |
| `ExceptionCache.Cache.Delete` | internal/webhook/exception_cache.go:74-78 | the same for removal |
| `ExceptionCache.Cache.RemoveUnlocked` | internal/webhook/exception_cache.go:80-96 | removal from the map and from exactly the indexes the entry is in |
| `ExceptionCache.RemoveEntry` | internal/webhook/exception_cache.go:98-106 | drops the one entry by identity and nothing else |
| `ExceptionCache.Cache.ExemptedKeys` | internal/webhook/exception_cache.go:116-165 | the indexed lookup equals a full scan of the plain map |
| `ExceptionCache.LastEventDecides` | internal/webhook/exception_cache.go:54-96 | after any sequence of upserts and deletes only the last event about a name decides what is cached under it |
| `ExceptionCache.UnknownLabelsExemptLess` | internal/webhook/exception_cache.go:136-147 | what is exempt while the namespace's labels are unknown is exempt whatever they are |
| `ExceptionCache.CompiledCoverage` | internal/webhook/exception_cache.go:167-188 | the compiled rule covers a request as the selectors say, iff none is malformed or the rest of the exception keeps the request out |
| `ExceptionCache.CompiledTargets` | internal/webhook/exception_cache.go:148-175 | the compiled rule targets a policy iff the exception is for all policies, names it, or names a group that lists it |
| `ExceptionCache.ExemptExactly` | internal/webhook/exception_cache.go:54-188 | after any events a name is exempt iff the last event about some exception is an active upsert that, as written, covers the request and targets a candidate of that name |
| `ExceptionCache.MalformedExemptsAll` | internal/webhook/exception_cache.go:167-188 | an exception whose namespace selector is malformed exempts every request, none of which it was meant for |
| `PolicyMatching.PolicyCache.MatchingForRequest` | internal/webhook/cache.go:99-166 | for every map order: exactly the selected policies, each once, with its mode and the groups that hit it, each once and in one order of the matching groups for all policies; a cached policy is present iff it lists the operation or "*", one of its resource rules lists the resource or "*" and the API group or "*", and an enabled group lists it whose selector is absent or matches known labels |
| `PolicyMatching.PolicyCache.MatchingGroups` | internal/webhook/cache.go:106-131 | exactly the enabled groups whose namespace selector matches, each once |
| `PolicyMatching.ModeEnforces` | internal/webhook/cache.go:168-174 | a policy is enforced iff one of its matching groups enforces it |
| `PolicyMatching.ModeStep` | internal/webhook/cache.go:133-156 | the accumulating join of modes over groups in any order is the mode of the set of groups |
| `PolicyMatching.SelectedExactly` | internal/webhook/cache.go:106-186 | that condition, as an iff on the caches, with nothing of the matching functions in it |
| `PolicyMatching.RightAsListed` | internal/webhook/cache.go:133-174 | a result is enforced iff a group that hits it enforces it; else one group's mode stands, and several give audit |
| `Admission.Review` | internal/webhook/handler.go:131-172 | for every map order and goroutine schedule: denied iff some judged policy denies, each line is reported exactly as often as the inputs say, every line names each group that hit its policy once in one order of the matching groups, and the lines come policy by policy in the order the evaluations finished, audited policies last |
| `Admission.Evaluate` | internal/webhook/handler.go:213-302 | denied iff some result blocks; the message or warnings spell out every produced line, blocking ones first, in the order the evaluations finished |
| `Admission.EvaluateAll` | internal/webhook/handler.go:234-262 | the two lists hold the results in the order the goroutines took the mutex, for an order in which each finishes once |
| `Admission.FinishedCount` | internal/webhook/handler.go:234-262 | whatever that order, no line is lost or repeated |
| `Admission.DeniesExactly` | internal/webhook/handler.go:238-260 | a judged policy denies iff it is enforced and complains, except exactly when a single group gives it another mode and it returns a message |
| `Admission.DeniedIffEnforced` | internal/webhook/handler.go:213-302 | with audit and enforce only: denied iff some cached policy whose rules list the request, that no exception spares and that an enabled group with a matching selector enforces, returns a message or an evaluation error |
| `Admission.UnsetModeDenies` | internal/webhook/handler.go:238-260 | a context in which an unset mode denies and no group enforces |
| `Admission.FailedLookupEvaluatesNothing` | internal/webhook/handler.go:113-123 | after a failed namespace lookup nothing is evaluated iff every policy listed for the request by an enabled group without a selector is exempt |
| `Admission.FailedLookupDenies` | internal/webhook/handler.go:113-123 | a context in which a request is denied after a failed lookup |
| `AdmissionVerdict.VerdictExactly` | internal/webhook/handler.go:131-302 | for every answer, read off the caches, the exception events and the evaluations: denied iff some policy is demanded of the request, not excused, and its evaluation stops it |
| `AdmissionVerdict.ReportExactly` | internal/webhook/handler.go:131-302 | the answer carries a message for a policy iff the policy is due and says so; each line has the policy's description and exactly the groups that hit it |
| `AdmissionReport.EventIsExact` | internal/webhook/admission_events.go:64-92 | where no further line of a text looks like a header, the event names a policy iff the request violated it and a group iff it hit such a policy, for audit and denial and for every schedule |
| `AdmissionReport.AnswerReadBack` | internal/webhook/admission_events.go:64-79 | the audit list and the denial message parse to the same references |
| `AdmissionEvent.EventExactWhen` | internal/webhook/admission_events.go:64-92 | with valid names the event is right about every policy and every group iff each further line of each reported message and description is no header, or brackets only violated policies, groups that hit one, and blanks |
| `AdmissionEvent.TextsHold` | internal/webhook/admission_events.go:201-240 | for any messages and descriptions an answer is read as naming exactly its headers' names and those its further lines bracket |
| `AdmissionReport.TextFollowsGroupOrder` | internal/webhook/handler.go:200-211 | for any message and description, the same line with two groups in the other order is another text |
| `AdmissionText.TextOrderFree` | internal/webhook/handler.go:200-211 | a violation's text is the same for every order of the groups that hit its policy iff at most one did |
| `AdmissionText.AnswerEnumerates` | internal/webhook/cache.go:133-156 | every violation of an answer names each group that hit its policy exactly once |
| `AdmissionText.AnswerTextsExact` | internal/webhook/handler.go:213-302 | all answers to a request carry the same texts, repetitions counted, iff no violated policy was hit by two groups |
| `Violations.FormatShowsHeader` | internal/webhook/handler.go:200-211 | two equal texts have the same policy and, repetitions aside, the same groups in the same order, whatever the messages and descriptions |
| `Violations.RoundTrip` | internal/webhook/admission_events.go:201-240 | the parser returns exactly the printed policies and groups in first-occurrence order |
| `Violations.DenyForm` | internal/webhook/handler.go:264-284 | joining any texts by blank lines does not change what is read |
| `Violations.ReadBackExactly` | internal/webhook/handler.go:200-211 | a printed violation reads back as itself iff each further line of its text is no header or brackets only blank or already listed names |
| `Violations.BracketedLineIsRead` | internal/webhook/admission_events.go:217-236 | a bracketed further line is read as a second violation |
| `Violations.FirstsHolds` | internal/webhook/admission_events.go:201-215 | deduplication keeps every name |
| `Violations.FirstsOnce` | internal/webhook/admission_events.go:201-215 | deduplication keeps a name once |
| `Violations.AdmissionEventReferences` | internal/webhook/admission_events.go:201-240 | the parsing loops with their seen-maps compute the parse |
| `Ulid.NewAdmissionEventULID` | internal/webhook/admission_events.go:172-195 | the loops over the wrapping accumulator write the canonical representation |
| `Ulid.RoundTrip` | internal/webhook/admission_events.go:172-195 | decoding gives the low fifty bits of the time and the ten bytes back |
| `Ulid.TimeComesBack` | internal/webhook/admission_events.go:172-195 | every time below 2^48 and all bytes come back |
| `Ulid.TimesSort` | internal/webhook/admission_events.go:172-195 | an earlier time gives a lexicographically smaller identity, whatever the random bytes |
| `Ulid.Wellformed` | internal/webhook/admission_events.go:170-195 | twenty-six characters of the alphabet |
| `Ulid.WrapHarmless` | internal/webhook/admission_events.go:184-193 | the five bits read from the 64-bit word are those of the unbounded number |

## Left out

- Label-selector parsing: a selector is an arbitrary predicate on labels, or malformed.
- JSON and SHA-256: the snapshot hash is an arbitrary function of the object list; the hash extensions for uninstall tasks and admission-event configuration are not modelled.
- OPA evaluation: an oracle gives messages or an error per policy; when the shared evaluation timeout strikes is part of the oracle.
- SQL, GORM and the repositories: a status upsert replaces its row; GORM's skipping of zero-valued fields is not modelled.
- Namespace lookup: a request carries the namespace's labels, or none when they are unknown.
- gRPC streams, TLS, HTTP, request decoding, readiness gates and logging.
- Integer widths of counters, revisions and generations: unbounded, except the ULID accumulator, whose wrap-around is explicit.
- `metav1.Time` rounding to seconds: times are integers compared exactly; one reconcile reads the clock once.
- Identity generation: drawn identities are new by assumption, and a failing source is modelled.
- `SetPendingLimitForTest`, `PendingCount` and `MergeSampleEventIDs`: the tracker's limit is fixed at construction.
- Garbage collection of versions when a policy is deleted and recreated, and the version history summary in the status.
- Concurrent reconciles of one object, stale informer reads of the reconciled object itself, and crashes between a group's status write and its `referencedBy` refresh; policy lists passed to a group reconcile are arbitrary.
- Finalizers of other controllers: removing the cleanup finalizer removes the group.
- Text of error messages and conditions: errors are values; only the evaluation-error line is spelled out.
- Dispatch, heartbeats, uninstall tasks, storage rules, batch acknowledgements, backoff, delivery retries of events, webhook rule aggregation and the console: thin mappings and bookkeeping beside the modelled core.
- Violations.RoundTrip: asks that no further line of a message or description look like a header, which every single-line text meets; ReadBackExactly gives the exact condition for one violation, EventExactWhen for an answer.
