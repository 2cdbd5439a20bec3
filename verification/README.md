# Verified model of the database-operations server

The server keeps its state in SQL tables and shares it between task workers, agent connections, an
alert engine, an archive service and request handlers. This project models those state machines in
Dafny and proves what every run of them keeps. A table is a map from key to row; each SQL statement or
transaction is one atomic step; a method of the program that runs a SELECT and then a guarded UPDATE is
two steps, so the guard and the row count carry the proof and not a mutex. The clock is a parameter of
every step and may go back unless a statement says otherwise. What runs outside the server (agents, the
network, password hashing, random tokens, foreign tables) appears as an input or a nondeterministic step.

Each component comes in two forms that are tied together: the objects of the program as classes whose
methods are proved against functions of the old and new tables, and a step system over the same
functions, with an invariant and theorems about every interleaving, crash and restart.

| files | component |
|---|---|
| `TaskTable`, `TaskEngine`, `TaskTheorems`, `TaskStory`, `TaskPool` | durable task queue and worker pool |
| `GatewayRegistry`, `GatewayDispatch`, `Gateway`, `GatewayObjects`, `AgentResponses` | agent connections and request dispatch |
| `AlertEngine`, `AlertTheorems`, `AlertRules`, `AlertBuiltins`, `AlertInputs`, `AlertObjects` | alert engine |
| `Metrics`, `MetricsStore`, `Upserts`, `TextOrder` | metric tables |
| `AuthTokens`, `AuthService` | refresh-token rotation |
| `ServerIds`, `MysqlInstall` | server_id allocator and the install handler around it |
| `Locks` | lease locks |
| `ArchiveJobs`, `ArchiveService`, `ArchiveTasks`, `ArchiveWhere`, `ArchiveCutoff` | archive jobs, their handlers under the task engine, and their where clause |
| `Template`, `RenderConfig`, `RenderReferences` | configuration rendering |
| `Redact` | redaction |
| `Rfc3339`, `Text`, `Sets`, `Options` | timestamps as text (section 5.6 of RFC 3339), strings, small helpers |

`dafny verify dfyconfig.toml` checks the whole project.

## What the code does not keep

Some plausible statements are false of the code. The model follows the code, gives the inputs and, for all
inputs, the exact condition:

- An execution is at most once, not exactly once: `TaskTheorems.ClaimedButNeverStarted`. A claimed task is
  started exactly when no step let it go before: `TaskTheorems.StartedUnlessAbandoned`.
- An interrupted task is never queued again, although the design document draws that transition; its
  idempotency key is therefore lost: `TaskTheorems.InterruptedKeyIsLost`, and an interrupted archive job
  cannot be resumed: `ArchiveService.InterruptedJobCannotResume`.
- Text order of stored timestamps is time order only up to the year 9999:
  `Rfc3339.StampOrderFailsAfter9999`, exactly as far as `Rfc3339.StampOrderIff` says. A range request that
  ends at 9999-12-31T23:59:59-01:00 drops every bucket after the year 1000: `MetricsStore.WesternYearEnd`,
  with the exact selection in `MetricsStore.SelectedIff`.
- The final response of an installation can be dropped: `AgentResponses.InstallResultCanBeDropped`, exactly
  when it succeeds or fails at step 16 or later: `AgentResponses.InstallResultDroppableIff`.
- An hour row disagrees with its five-minute rows when a host's reports are stored in another order than
  their times, after a clock step or when two of its connections commit in the other order:
  `Metrics.ReversedReportsDisagree`; the exact conditions are `Metrics.PutKeepsAgreementIff` for one call,
  `Metrics.RowsAgreeIff` for one bucket and `Metrics.AgreementIff` for a whole log.
- A handler of an archive job writes back the counters it read, so a control handler or a second run that
  straddles a run's final write loses its rows, and a control handler also reopens the finished job:
  `ArchiveJobs.StraddledWriteLoses`. The counters are exact in every state of a run exactly when each write
  is up to date: `ArchiveJobs.TotalsConservedIff`, and for one step `ArchiveJobs.StepExactIff`. A terminal
  status is left exactly as `ArchiveJobs.TerminalLeftIff` says.
- Two runs of one archive job can overlap. The program picks the handler by the task's type and takes the job
  from its parameters; the idempotency key that `createRunTask` sets keeps its own tasks apart, but a task
  posted through the HTTP interface need not carry it: `ArchiveTasks.KeylessTasksLose`. If every created
  archive task carries its job's key, they never overlap and only control writes can spoil the totals:
  `ArchiveTasks.KeyedHandlersExclude`, `ArchiveTasks.KeyedTotalsConservedIff`.
- A base directory that contains a placeholder can make rendering depend on the map order:
  `RenderConfig.RenderDependsOnOrder`. Rendering succeeds in every order exactly when no path contains "{{":
  `RenderConfig.RenderAlwaysSucceedsIff`. When the paths refer to variables by whole placeholders, an order
  succeeds exactly if every path refers only to variables visited later, some order does exactly if the
  references have no cycle, and the outcome depends on the order exactly if there are references without a
  cycle: `RenderReferences.RendersIff`, `RenderReferences.SomeOrderRendersIff`,
  `RenderReferences.OneOutcomeIff`.
- A run that gets a malformed response leaves its job `running`:
  `ArchiveService.MalformedResponseLeavesRunning`; the exact condition is `ArchiveService.LeftRunningIff`.

## Model

| member | source | states |
|---|---|---|
| `TaskTable.TaskRepo.Create` | internal/repository/sqlite/task.go:18-33 | inserts one queued row exactly when the task number is new and no active task holds the key; otherwise changes nothing |
| `TaskTable.TaskRepo.SelectNext` | internal/repository/sqlite/task.go:69-75 | returns the least queued id, or nothing when no row is queued |
| `TaskTable.TaskRepo.GuardedClaim` | internal/repository/sqlite/task.go:77-87 | changes the row only if it is still queued, and reports exactly that |
| `TaskTable.TaskRepo.ClaimNext` | internal/repository/sqlite/task.go:59-93 | moves at most one row, the least queued one, to running under the caller's lease |
| `TaskTable.TaskRepo.UpdateStatus` | internal/repository/sqlite/task.go:95-103 | the whole new row, the cleared lease, the end time for finished statuses, and when the schema refuses the write |
| `TaskTable.TaskRepo.UpdateProgress` | internal/repository/sqlite/task.go:105-114 | only the progress column changes, clamped to 0..100, whatever the status |
| `TaskTable.TaskRepo.RecoverExpired` | internal/repository/sqlite/task.go:116-123 | exactly the running rows with an expired lease become interrupted; none is left; their number is returned |
| `TaskTable.ExpiryComparedAsText` | internal/repository/sqlite/task.go:116-118 | comparing the stored lease expiry as text is comparing the instants |
| `TaskEngine.StepKeeps` | internal/task/engine.go:50-104 | every step of every worker, crash, restart, recovery and progress report keeps the invariant of table, workers and start log; hence every run does |
| `TaskTheorems.AtMostOnce` | internal/repository/sqlite/task.go:59-123 | over any interleaving of workers, crashes and restarts each task is claimed at most once and started at most once, and claims go in increasing id order |
| `TaskTheorems.StartedUnlessAbandoned` | internal/task/engine.go:67-104 | a claimed task that no worker is about to start has been started iff no step of the run let it go: a failed read-back, a missing handler or a crash in between |
| `TaskTheorems.QueueIsSuffix` | internal/repository/sqlite/task.go:59-93 | the queued rows are always exactly the ids after the last claimed one |
| `TaskTheorems.ClaimTakesFirst` | internal/repository/sqlite/task.go:77-87 | an UPDATE that follows a stale SELECT succeeds exactly when its row is still the head of the queue |
| `TaskTheorems.KeyExclusion` | internal/storage/schema.sqlite.sql:174-175 | at most one active task per idempotency key, and two workers never hold two tasks of one key |
| `TaskTheorems.FinalWriteAccepted` | internal/task/engine.go:89-104 | neither the progress CHECK nor the key index ever refuses a worker's final write |
| `TaskTheorems.RowsConsistent` | internal/repository/sqlite/task.go:18-123 | lease iff running, end time iff finished, start time iff not queued, progress in range, in every reachable row |
| `TaskStory.RowIsItsStory` | internal/repository/sqlite/task.go:59-123 | in every reachable state status, start, lease, end, result, error and progress of a row are those of its claim, of a recovery after the lease's end, of its final write and of the progress reports, told from the steps alone |
| `TaskStory.SuccessIff` | internal/task/engine.go:89-104 | a row is success iff some written final write of its task carried a handler's result |
| `TaskTheorems.RunAdvances` | internal/repository/sqlite/task.go:59-123 | no row disappears or changes identity, status only moves forward, finished rows are final but for progress |
| `TaskTheorems.InterruptedIsFinal` | internal/task/engine.go:50-63 | with recovery only at start-up an executing task is always still running and an interrupted one is never retried |
| `TaskTheorems.InterruptedKeyIsLost` | internal/storage/schema.sqlite.sql:174-175 | the idempotency key of an interrupted task is never free again |
| `TaskTheorems.RestartClearsRunning` | internal/repository/sqlite/task.go:116-123 | a restart after all leases ran out leaves nothing running |
| `TaskTheorems.ClaimedButNeverStarted` | internal/repository/sqlite/task.go:88-92 | a failed read-back after the commit leaves a claimed task running with nobody to execute it |
| `TaskPool.Engine.constructor` | internal/task/engine.go:28-42 | positive settings are taken over; the defaults are 4 workers, a 60-second lease and a 2-second scan |
| `TaskPool.Engine.Start` | internal/task/engine.go:50-63 | recovery happens before the pool of idle workers exists |
| `TaskPool.Engine.Execute` | internal/task/engine.go:89-104 | an existing row ends as success with progress 100 and the handler's result exactly when the type is registered and the handler returns one; else as failed with the old progress, {} and the handler's message or "no handler registered"; nothing else changes |
| `TaskPool.Engine.Tick` | internal/task/engine.go:76-84 | one undisturbed round claims the head of the queue and leaves it, column by column, as success or failed, or changes nothing |
| `TaskPool.TickIsARun` | internal/task/engine.go:67-104 | such a round is a run of the step system |
| `GatewayRegistry.LookupIsNewest` | internal/agentgateway/gateway.go:388-415 | the lookup finds the most recently registered connection of the agent, and nothing exactly when there is none or it has unregistered |
| `GatewayRegistry.LateUnregisterHarmless` | internal/agentgateway/gateway.go:399-404 | a superseded connection's unregister leaves its successor in the table |
| `GatewayRegistry.AtMostOneOpen` | internal/agentgateway/gateway.go:388-397 | outside a register call at most one connection per agent is open, the newest |
| `GatewayRegistry.DoneIsFinal` | internal/agentgateway/gateway.go:456-460 | a closed connection stays closed |
| `GatewayDispatch.StepKeeps` | internal/agentgateway/gateway.go:240-338 | every step of the dispatches and the reader keeps the pending table, the logs and the flow of responses consistent |
| `Gateway.SuccessIsOwn` | internal/agentgateway/gateway.go:271-292 | a dispatch succeeds only with a success response bearing its own id that arrived on its connection while it was pending; all it consumed before was not final |
| `Gateway.DeliveryInOrder` | internal/agentgateway/gateway.go:320-335 | what a dispatch gets is an in-order selection of the arrivals, and a prefix of them while at most 32 arrived |
| `Gateway.PendingIsExact` | internal/agentgateway/gateway.go:255-263 | the pending table holds exactly the dispatches that have entered and not returned |
| `Gateway.DisconnectIsReal` | internal/agentgateway/gateway.go:275-276 | "agent disconnected" is reported only on a connection closed for good |
| `Gateway.GivesUpIff` | internal/agentgateway/gateway.go:262-292 | over every run a dispatch leaves with a write error iff its write failed, and with a disconnect, a timeout or the context's end iff it was told just that while it waited |
| `GatewayObjects.Channel.TrySend` | internal/agentgateway/gateway.go:330-334 | the non-blocking send appends while fewer than 32 wait and otherwise drops |
| `GatewayObjects.Client.Route` | internal/agentgateway/gateway.go:325-335 | a response goes to the channel pending under its id and to no other |
| `GatewayObjects.Client.Close` | internal/agentgateway/gateway.go:456-460 | closing is done once and repeating it changes nothing |
| `GatewayObjects.Gateway.Register` | internal/agentgateway/gateway.go:388-397 | the new connection is installed and the old one, if any, closed |
| `GatewayObjects.Gateway.Unregister` | internal/agentgateway/gateway.go:399-409 | the table entry goes only if it is this connection; this connection is closed |
| `GatewayObjects.Gateway.Dispatch` | internal/agentgateway/gateway.go:240-294 | whatever the read loop offers and the signals do in between, each outcome comes about exactly when the first deciding event is of its kind: the context's end, the disconnect, the timer, or the receipt of a final response from a queue of 32 places; the pending entry is gone on every path |
| `GatewayObjects.Gateway.Await` | internal/agentgateway/gateway.go:271-293 | the same of the receive loop over the entered channel; it still waits iff no event decides |
| `GatewayObjects.AnswerIsOwn` | internal/agentgateway/gateway.go:271-292 | an answered dispatch received from its channel a success response of its own that the read loop had offered, after responses none of which was final |
| `GatewayObjects.RejectionIsOwn` | internal/agentgateway/gateway.go:286-291 | a rejection is a failed, cancelled or timed-out response of its own that the read loop had offered, and the first final one received |
| `AgentResponses.Install` | internal/agentclient/mysql_install.go:69-120 | the reports of an installation: none if it fails before the first step, else two per step reached, the last one a failure if a step fails |
| `AgentResponses.HandleAction` | internal/agentclient/client.go:170-246 | nothing if the context ends before a slot is free, which control actions do not wait for; else the start, the reports and one final response, in order |
| `AgentResponses.EmittedCount` | internal/agentclient/client.go:188-246 | two responses for every action but an installation, 2n+1 for one that fails at step n or before the first (n = 0), 37 for one that succeeds, and only the last is final |
| `AgentResponses.NothingDroppedIff` | internal/agentgateway/gateway.go:255-257 | the responses to one request are all taken in every run of the gateway that offers them iff there are at most 32 |
| `AgentResponses.OrdinaryAnswerNotDropped` | internal/agentclient/client.go:188-246 | in every run of the gateway all that is offered of the answer to an action other than an installation is consumed or waiting |
| `AgentResponses.SlowDispatcher` | internal/agentgateway/gateway.go:330-334 | a dispatcher that receives nothing in between keeps the first responses, as many as still fit |
| `AgentResponses.InstallResultCanBeDropped` | internal/agentgateway/gateway.go:330-334 | a run of the gateway that drops the final response of an installation that succeeds or fails at step 16 or later |
| `AgentResponses.InstallResultDroppableIff` | internal/agentgateway/gateway.go:330-334 | and such a run exists for these installations only |
| `AlertEngine.OpenNowIsSpec` | internal/alert/engine.go:138-150 | the one-mark-at-a-time reading of the history equals the specification over the whole history |
| `AlertEngine.RunStartIsRun` | internal/alert/engine.go:138-156 | the remembered time is the start of the maximal trailing run of true evaluations |
| `AlertTheorems.OneOpenEvent` | internal/alert/engine.go:158-186 | without a unique index a fingerprint never has two open events, and an event has a resolution time iff it is resolved |
| `AlertTheorems.OpenIffSpecified` | internal/alert/engine.go:91-186 | under any interleaving of evaluations, acknowledgements and restarts a fingerprint is open iff some evaluation detected the condition and none found it false since |
| `AlertTheorems.OneProcessSpec` | internal/alert/engine.go:138-156 | in one process with a non-decreasing clock: open iff the last evaluation is true and the trailing run has lasted the duration |
| `AlertTheorems.OthersUnaffected` | internal/alert/engine.go:104-127 | an observation touches no event and no memory of another fingerprint |
| `AlertTheorems.EventsAdvance` | internal/alert/engine.go:158-186 | events never disappear, move only firing, acknowledged, resolved, and are final once resolved |
| `AlertTheorems.AcknowledgeCommutes` | internal/alert/engine.go:158-177 | an acknowledgement between the SELECT and the write of an upsert acts as if it came before both |
| `AlertTheorems.OneEventPerEpisode` | internal/alert/engine.go:158-177 | a fingerprint has exactly one event per episode: a continuing condition is never reported twice, a recurring one is reported anew |
| `AlertRules.FingerprintInjective` | internal/alert/engine.go:110 | rule names without a colon and host ids are recovered from the fingerprint |
| `AlertRules.DefaultRulesOk` | internal/alert/engine.go:59-64 | the built-in rules have distinct colon-free names |
| `AlertBuiltins.NumberIsJudged` | internal/alert/engine.go:269-285 | each of the six operators compares the number in the payload with the threshold; any other operator never holds |
| `AlertBuiltins.HeartbeatIsAge` | internal/alert/engine.go:243-246 | the heartbeat metric is the snapshot's age in seconds, never negative |
| `AlertBuiltins.NothingIsJudged` | internal/alert/engine.go:247-266 | a missing or non-numeric metric is not judged |
| `AlertBuiltins.HeartbeatAlertIff` | internal/alert/engine.go:63 | after any run, restarts and acknowledgements included, the heartbeat alert of a listed host is open iff its last snapshot is more than 90 seconds old |
| `AlertBuiltins.LimitAlertIff` | internal/alert/engine.go:138-150 | in one process: the alert of a rule with a lower limit and a duration is open iff all numbers reported over that duration, up to the last, reach the limit |
| `AlertBuiltins.BuiltinLimits` | internal/alert/engine.go:60-62 | which are 85 and 95 percent of the root file system over 5 minutes and 1, and 90 percent of the memory over 5 minutes |
| `AlertBuiltins.EventsHaveSeverity` | internal/alert/engine.go:60-63 | every alert of a built-in rule has that rule's severity |
| `AlertInputs.ListedHostsAreDistinct` | internal/alert/engine.go:95-104 | the snapshots of an evaluation, read from the latest table, name each host once |
| `AlertRules.RuleOpenIff` | internal/alert/engine.go:91-136 | the alert of a rule on a host is open, and has as many events, as the snapshots alone demand; other rules, other hosts and missing metrics make no difference |
| `AlertRules.RuleOpenInOneRun` | internal/alert/engine.go:91-150 | in one process: open iff the last verdict is true and the trailing true verdicts span the rule's duration |
| `AlertObjects.Engine.constructor` | internal/alert/engine.go:52-66 | empty memory, the default rules, the given positive interval or fifteen seconds |
| `AlertObjects.Engine.DurationReached` | internal/alert/engine.go:138-150 | answers from the first true evaluation and remembers it |
| `AlertObjects.Engine.SelectLatestOpen` | internal/alert/engine.go:158-162 | the open event with the greatest id, or nothing |
| `AlertObjects.Engine.UpsertFiring` | internal/alert/engine.go:158-177 | refreshes that event, or inserts a firing one |
| `AlertObjects.Engine.Resolve` | internal/alert/engine.go:179-186 | resolves every open event of the fingerprint and no other |
| `AlertObjects.Engine.Acknowledge` | internal/alert/engine.go:230-241 | acknowledges a firing event and fails, changing nothing, otherwise |
| `AlertObjects.Engine.EvaluateRule` | internal/alert/engine.go:105-127 | in terms of the payload: a number beyond the threshold of a rule without a duration is reported with it, one that is not clears the memory and leaves no open event, a missing one changes nothing |
| `AlertObjects.Engine.EvaluateOnce` | internal/alert/engine.go:91-136 | the two loops have the effect of the observations of all rules on all hosts in that order |
| `Metrics.BucketIsTruncation` | internal/metrics/store.go:52-56 | each bucket, the calendar day included, is the time rounded down to a multiple of the width |
| `Metrics.BucketIsLastPut` | internal/metrics/store.go:35-63 | a bucket row exists iff some accepted call fell into it, and holds the payload of the last such call |
| `Metrics.LatestIsLastPut` | internal/metrics/store.go:42-50 | the latest table holds each resource's last accepted call |
| `Metrics.WideRowIsLatestNarrowRow` | internal/metrics/store.go:52-62 | with reports in time order every hour row is the latest five-minute row inside it and every day row the latest hour row |
| `Metrics.WideRowHasNarrowRow` | internal/metrics/store.go:52-62 | every wide row has such a narrow row |
| `Metrics.ReversedReportsDisagree` | internal/metrics/store.go:57-61 | two reports of one hour stored in the reverse order of their times break that agreement |
| `Metrics.PutKeepsAgreementIff` | internal/metrics/store.go:52-62 | one accepted call keeps the agreement of its wide row iff it is in order, which can be checked before the call |
| `Metrics.RowsAgreeIff` | internal/metrics/store.go:52-62 | for any log a wide row and its latest narrow row come from one call iff the last call of the wide bucket falls into the narrow one, and agree just then if two payloads do not coincide |
| `Metrics.AgreementIff` | internal/metrics/store.go:52-62 | over any log the wide tables agree with the narrow ones after every call iff every call is in order: no later narrow bucket of its wide bucket is stored already, unless with the same payload |
| `Metrics.RangeComparedAsText` | internal/metrics/store.go:85-87 | the textual range filter selects exactly the buckets of the numeric range, and the stored bucket parses back |
| `MetricsStore.Store.Put` | internal/metrics/store.go:22-64 | the whole new tables: the sample under the given time or else the clock's, and one row per width starting at the multiple of 300, 3600 and 86400 seconds below it, in whatever order the map yields; nothing when the call is refused |
| `MetricsStore.Store.LatestOf` | internal/metrics/store.go:66-75 | the stored sample, or nothing when there is none or its time has more than four year digits and cannot be read back |
| `MetricsStore.Store.Range` | internal/metrics/store.go:77-105 | "5m", "1h" and "1d" are answered from the five-minute, hour and day rows between the texts of the bounds, in the order of the texts, up to the given limit or 1000; any other name is an error, and so is an unreadable row |
| `MetricsStore.Store.Page` | internal/metrics/store.go:85-103 | the rows whose text lies between the bounds' texts, each once, in text order, complete unless the limit is reached, and then the first ones |
| `MetricsStore.Store.ListLatest` | internal/metrics/store.go:119-141 | every resource of the kind once, ascending by id, or nothing when a stored time cannot be read back |
| `MetricsStore.PageServesTheLog` | internal/metrics/store.go:77-105 | a served row carries the last accepted call of its bucket |
| `MetricsStore.RowIsLastOfItsSpan` | internal/metrics/store.go:52-87 | a row served for "5m", "1h" or "1d" starts at a multiple of 300, 3600 or 86400 seconds and carries the last accepted call of that span |
| `MetricsStore.PageIsComplete` | internal/metrics/store.go:77-105 | every bucket between the texts of the bounds that received a call is served unless the limit is reached |
| `MetricsStore.SelectedIff` | internal/metrics/store.go:85-87 | for all instants: a row passes a bound as its time demands iff the two compare right |
| `MetricsStore.PageIsNumeric` | internal/metrics/store.go:85-87 | with four-digit years on both bounds and in the table the page is the closed interval by ascending time |
| `MetricsStore.BoundBeyond9999` | internal/metrics/store.go:85-87 | an upper bound in the year 10000 keeps exactly the buckets of the years up to 1000 |
| `MetricsStore.WesternYearEnd` | internal/metrics/store.go:85-87 | a page that ends at 9999-12-31T23:59:59-01:00, the year 10000 in UTC, holds no four-digit year after 1000 |
| `Sets.Ascending` | internal/metrics/store.go:85-87 | ORDER BY with LIMIT: the least keys in ascending order |
| `TextOrder.ByText` | internal/metrics/store.go:85-87 | ORDER BY a text column with LIMIT: the first keys in text order |
| `AuthTokens.ConsumedAtMostOnce` | internal/repository/sqlite/auth.go:111-139 | under any interleaving no token is consumed twice or after its expiry, and the revoked tokens are the consumed ones |
| `AuthTokens.ExpiryComparedAsText` | internal/repository/sqlite/auth.go:119-121 | the textual expiry comparison is that of the instants |
| `AuthTokens.OneLiveTokenPerLogin` | internal/auth/service.go:132-153 | each login has at most one usable token, and none while a refresh is between consuming and storing |
| `AuthTokens.LoginIsAChain` | internal/auth/service.go:132-153 | the tokens of a login are a chain of one user, all but the last consumed, and every token belongs to one login |
| `AuthTokens.RefreshRotates` | internal/repository/sqlite/auth.go:104-139 | a successful refresh revokes exactly one token and adds exactly one for the same user and login |
| `AuthTokens.SecondUpdateFails` | internal/repository/sqlite/auth.go:125-134 | of two requests with one token only the first UPDATE succeeds |
| `AuthTokens.EndedLoginStaysEnded` | internal/auth/service.go:144-153 | a login without a usable token never gets one again |
| `AuthTokens.GivingUpEnds` | internal/auth/service.go:144-150 | a refresh that fails after consuming ends its login |
| `AuthService.AuthRepo.StoreRefreshToken` | internal/repository/sqlite/auth.go:104-109 | inserts the token unless its hash exists |
| `AuthService.AuthRepo.ConsumeRefreshToken` | internal/repository/sqlite/auth.go:111-139 | returns the user and revokes exactly when the token is present, unrevoked and unexpired |
| `AuthService.NameMeaning` | internal/repository/sqlite/auth.go:68-69 | letter case and surrounding white space of a user name are immaterial |
| `AuthService.Service.Login` | internal/auth/service.go:111-130 | succeeds exactly for an enabled service, an active user and a matching password, and which error is returned otherwise; adds one token, notes the time of the login and touches no other token |
| `AuthService.Service.Refresh` | internal/auth/service.go:132-153 | when it succeeds, when each error is returned, and that a usable token is spent even if the refresh then fails |
| `AuthService.Service.IssuePair` | internal/auth/service.go:213-243 | stores the new token with the refresh lifetime, or nothing |
| `AuthService.RefreshIsARun` | internal/auth/service.go:132-153 | a refresh is a run of the step system |
| `ServerIds.IdsAreConsecutive` | internal/repository/sqlite/server_id.go:40-56 | after any run the ids are exactly 1001, 1002, ... in order, at most 4294967295, and host and port determine the id and conversely |
| `ServerIds.AllocationsAreStable` | internal/repository/sqlite/server_id.go:64-76 | id, host, port and task never change and a bound row is never demoted |
| `ServerIds.NeverReservedAgain` | internal/repository/sqlite/server_id.go:64-76 | over any interleaving of handlers, of one slot or several, a reservation once marked failed or bound is never reserved again, and once bound stays bound |
| `ServerIds.StatusIff` | internal/repository/sqlite/server_id.go:64-76 | over any run a reservation ends bound iff some bind of it was accepted, and failed iff none was and it was marked |
| `ServerIds.ReserveIsStable` | internal/repository/sqlite/server_id.go:21-35 | a later request for the host and port finds the first allocation |
| `ServerIds.ExhaustedOnlyAtTheEnd` | internal/repository/sqlite/server_id.go:40-46 | a new slot is refused only when the range is used up |
| `ServerIds.ServerIdRepo.Reserve` | internal/repository/sqlite/server_id.go:14-62 | the existing reservation, or a new row with the next id and the task, or, when host or task is unknown or the last id is in use, an error that changes nothing |
| `ServerIds.ServerIdRepo.BindInstance` | internal/repository/sqlite/server_id.go:64-69 | unconditional but for the unique instance column |
| `ServerIds.ServerIdRepo.MarkFailed` | internal/repository/sqlite/server_id.go:71-76 | changes only a reserved row |
| `MysqlInstall.Service.Install` | internal/mysqlinstall/service.go:114-266 | which stage fails and exactly when, the final status of the reservation, no other row touched, never left reserved once the instance id is new and the failure write happens; the text sent is the rendering and holds the line of the reserved server_id |
| `MysqlInstall.Service.Prepare` | internal/mysqlinstall/service.go:136-169 | each preparation failure, with its exact condition, marks the reservation; success changes nothing and yields the rendered text |
| `MysqlInstall.Service.Conclude` | internal/mysqlinstall/service.go:200-249 | dispatch and registration failures, with their exact conditions, mark the reservation; only a refused bind leaves it as it was |
| `Locks.RowIsStandingGrant` | internal/repository/sqlite/lock.go:12-36 | a lock row exists iff some grant is neither released by its owner nor superseded, and it is that grant's row |
| `Locks.GrantsExclude` | internal/repository/sqlite/lock.go:12-36 | between two grants the first owner released the lock or a grant came strictly after its lease ran out |
| `Locks.RefusedOnlyWhileHeld` | internal/repository/sqlite/lock.go:19-28 | a request of a known task is refused exactly while a standing grant's lease runs |
| `Locks.ExpiryComparedAsText` | internal/repository/sqlite/lock.go:19 | the textual expiry comparison is that of the instants |
| `Locks.LockRepo.Acquire` | internal/repository/sqlite/lock.go:12-31 | the deletion of an expired row is undone when the insertion is refused |
| `Locks.LockRepo.Release` | internal/repository/sqlite/lock.go:33-36 | deletes the row only for its owner |
| `ArchiveJobs.TotalsConservedIff` | internal/mysqlarchive/service.go:243-409 | over any interleaving of runs and control handlers, overlapping or not: every job's counters are exact in every state iff every write that happens is up to date, no rows having been written since its handler read |
| `ArchiveJobs.TotalsConserved` | internal/mysqlarchive/service.go:243-409 | at the end of a run whose writes were all up to date the stored counters are the sums of the deltas of the runs whose final write happened, across pauses, failures and crashes |
| `ArchiveJobs.StepExactIff` | internal/mysqlarchive/service.go:292-406 | from an exact state a step keeps all jobs exact iff the write it makes, if any, is up to date |
| `ArchiveJobs.WriteExactIff` | internal/mysqlarchive/service.go:292-406 | in any state, even one already spoiled: the write of a run or control handler makes its job exact iff the deltas written since its read sum to nothing |
| `ArchiveJobs.HandlerLeavesExactIff` | internal/mysqlarchive/service.go:249-406 | a handler that read exact counters leaves exact ones iff no rows were written, on balance, between its read and its write, whatever others wrote meanwhile |
| `ArchiveJobs.StraddledWriteLoses` | internal/mysqlarchive/service.go:249-406 | every non-empty delta of a run is lost by a second run or a control handler, of any action, that read before the run's final write and writes after it; the control handler also replaces the finished job's status by the requested one or by the one it read |
| `ArchiveJobs.TerminalLeftIff` | internal/repository/sqlite/archive.go:134-158 | a terminal status is left exactly by a pause or stop request, another control action that read a status that was not terminal, a run marking the job running, and a run finishing in a state that is not terminal |
| `ArchiveJobs.CountersNeverDecrease` | internal/mysqlarchive/service.go:328-345 | with non-negative reports and up-to-date writes the stored counters never go down |
| `ArchiveJobs.JobRowsConsistent` | internal/repository/sqlite/archive.go:134-168 | an unstarted job is pending and empty, a finished one has its end time and the verification of its status |
| `ArchiveJobs.RunKeepsJobs` | internal/repository/sqlite/archive.go:134-158 | policy and first start never change and an end time is never taken back |
| `ArchiveTasks.TotalsConservedIff` | internal/task/engine.go:89-104 | the same equivalence for handlers that the task engine's workers start by task type and decoded parameters, over any interleaving with crashes and restarts, whatever tasks were created under whatever keys |
| `ArchiveTasks.ServiceTasksAreKeyed` | internal/mysqlarchive/service.go:209-232 | the tasks the archive service creates carry the key of the work their type and parameters call for |
| `ArchiveTasks.KeyedHandlersExclude` | internal/mysqlarchive/service.go:218-241 | if every created task that calls for archive work carries that key, no two runs of a job and no two control handlers of one action for a job are ever under way together |
| `ArchiveTasks.KeyedTotalsConservedIff` | internal/mysqlarchive/service.go:243-409 | with such tasks all jobs are exact in every state iff the control writes alone are up to date |
| `ArchiveTasks.BothExecute` | internal/httpapi/server.go:277-290 | two posted run tasks with the same parameters and no key reach two workers that both execute them |
| `ArchiveTasks.KeylessTasksLose` | internal/task/engine.go:89-97 | then both runs read the job before either writes and every non-empty delta of the first is lost |
| `ArchiveService.RunKeyInjective` | internal/mysqlarchive/service.go:227 | different jobs have different run keys |
| `ArchiveService.ControlKeyInjective` | internal/mysqlarchive/service.go:209 | different jobs have different control keys for one action |
| `ArchiveService.WorkersOfOneKeyExclude` | internal/mysqlarchive/service.go:218-232 | in no reachable state do two workers hold tasks with one key |
| `ArchiveService.InterruptedJobCannotResume` | internal/mysqlarchive/service.go:227-236 | after an interrupted run no run task can be created for the job |
| `ArchiveService.RunAddsItsDelta` | internal/mysqlarchive/service.go:243-345 | a run leaves the counters it found, plus the reported rows iff every stage succeeded and its last write happened |
| `ArchiveService.LeftRunningIff` | internal/mysqlarchive/service.go:291-347 | a job that was not running is left running iff the precheck passed and the agent reported that state, or the first write happened and no later one did |
| `ArchiveService.RunIsSteps` | internal/mysqlarchive/service.go:249-345 | what the handler leaves is what its steps leave in the interleaved system |
| `ArchiveService.Service.JobStateFor` | internal/mysqlarchive/service.go:326-334 | an empty or completed report is a success, any other is taken as it is |
| `ArchiveService.MalformedResponseLeavesRunning` | internal/mysqlarchive/service.go:307-325 | a malformed execution response leaves the job running, a status it cannot be resumed from; a pause request written over it makes it resumable |
| `ArchiveService.ArchiveJobRepo.Create` | internal/repository/sqlite/archive.go:90-99 | adds one pending job with zero counters |
| `ArchiveService.ArchiveJobRepo.AttachTask` | internal/repository/sqlite/archive.go:129-132 | only the task column changes |
| `ArchiveService.ArchiveJobRepo.UpdateState` | internal/repository/sqlite/archive.go:134-158 | the whole new row for terminal and other statuses |
| `ArchiveService.Service.Start` | internal/mysqlarchive/service.go:145-165 | nothing without confirmation; otherwise one pending job, attached to a run task if that is created |
| `ArchiveService.Service.Resume` | internal/mysqlarchive/service.go:167-184 | accepted exactly from the three resumable statuses with a free key |
| `ArchiveService.Service.Control` | internal/mysqlarchive/service.go:186-216 | accepted exactly for a pause or a stop of a running or pause-requested job with a free control key |
| `ArchiveService.Service.CreateRunTask` | internal/mysqlarchive/service.go:218-241 | the task exists and is attached, or nothing changed |
| `ArchiveService.Service.RunHandler` | internal/mysqlarchive/service.go:243-364 | which of the ten outcomes the inputs bring about, each with its exact condition, and column by column the row it leaves |
| `ArchiveService.Service.ControlHandler` | internal/mysqlarchive/service.go:366-409 | the requested status and reason, or those read when the action is neither pause nor stop, with the counters unchanged |
| `ArchiveWhere.CheckSafeWhere` | internal/mysqlarchive/service.go:608-620 | accepts exactly text that after trimming has 1 to 2048 characters and none of the seven tokens |
| `ArchiveWhere.MaterializeWhere` | internal/mysqlarchive/service.go:545-558 | the clause with the quoted cutoff in place of each `:cutoff`, or which of the two errors |
| `ArchiveWhere.MaterializeAccepted` | internal/mysqlarchive/service.go:545-558 | for an accepted template no forbidden token can arise at a seam: materialising fails exactly when the result is too long, and no `:cutoff` is left |
| `ArchiveWhere.NoNewToken` | internal/mysqlarchive/service.go:552 | every quote-free token of the replaced text was in the template |
| `ArchiveCutoff.CutoffIsTimestamp` | internal/mysqlarchive/service.go:551 | a formatted cutoff of any year holds timestamp characters without a double dash, nineteen of them for the years 0 to 9999 |
| `ArchiveCutoff.CutoffIsDateTime` | internal/mysqlarchive/service.go:551 | from the year 0 on the cutoff text is the usual date and time |
| `ArchiveCutoff.CutoffMeaning` | internal/mysqlarchive/service.go:551 | character by character: year, month, day, hour, minute and second of the cutoff |
| `ArchiveCutoff.PolicyMaterializes` | internal/mysqlarchive/service.go:545-558 | materialising an accepted policy succeeds iff the trimmed template, with the cutoff's length less 5 added per `:cutoff`, fits in 2048, whatever the year of the cutoff |
| `Template.FillStep` | internal/mysqlinstall/template.go:77-80 | one ReplaceAll pass fills exactly the holes of its key |
| `Template.OrderIrrelevant` | internal/mysqlinstall/template.go:77-80 | brace-free values filled in any order of passes give the simultaneous substitution |
| `Template.EveryOrderSucceeds` | internal/mysqlinstall/template.go:77-83 | all orders leave no braces iff no value contains them |
| `Template.ProductionIsWellFormed` | internal/mysqlinstall/template.go:23-46 | the production template is plain text around placeholders and uses all eleven variables |
| `RenderConfig.RenderConfig` | internal/mysqlinstall/template.go:48-85 | without "{{" in a path the text is the production file word for word with every setting in its line, in every visiting order; any successful text has the server_id in its line and no "{{" |
| `RenderConfig.Check` | internal/mysqlinstall/template.go:48-62 | which settings are refused, and with which error first |
| `RenderConfig.SafeConfigAtom` | internal/mysqlinstall/template.go:87-98 | accepts exactly non-empty words of at most 128 safe characters |
| `RenderConfig.RenderIsOrderIndependent` | internal/mysqlinstall/template.go:48-85 | accepted settings without "{{" in a path render to the one simultaneous substitution in every map order |
| `RenderConfig.RenderedText` | internal/mysqlinstall/template.go:23-80 | accepted settings without "{{" in a path render in every order to that text |
| `RenderConfig.IdLine` | internal/mysqlinstall/template.go:26 | whatever the paths hold, no pass disturbs the line of the server_id |
| `RenderConfig.TemplateText` | internal/mysqlinstall/template.go:23-46 | the template is that text with the placeholders by name |
| `RenderConfig.RenderAlwaysSucceedsIff` | internal/mysqlinstall/template.go:77-84 | accepted settings render in every map order iff no path contains "{{" |
| `RenderConfig.OutcomeIsOrderIndependentIff` | internal/mysqlinstall/template.go:77-84 | accepted settings have one outcome in all map orders iff no path contains "{{" or no order succeeds |
| `RenderConfig.RenderDependsOnOrder` | internal/mysqlinstall/template.go:77-83 | with a placeholder as base directory one map order renders and another reports an error |
| `RenderReferences.ExpandStep` | internal/mysqlinstall/template.go:77-80 | one pass expands exactly the holes of its key, even when the value brings in new placeholders |
| `RenderReferences.RendersIff` | internal/mysqlinstall/template.go:77-84 | with paths that refer to variables by whole placeholders, rendering in a given order succeeds iff every path refers only to variables visited later |
| `RenderReferences.SomeOrderRendersIff` | internal/mysqlinstall/template.go:77-84 | some order succeeds iff the references have no cycle |
| `RenderReferences.OneOutcomeIff` | internal/mysqlinstall/template.go:77-84 | all orders have one outcome iff there are no references or they have a cycle |
| `RenderReferences.SuccessesAgree` | internal/mysqlinstall/template.go:77-84 | all orders that succeed render the same text: the template filled with texts that fill each other's holes |
| `Redact.IsSensitiveKey` | internal/security/redact.go:14-22 | true exactly for keys whose lower-cased form contains one of the thirteen fragments |
| `Redact.RedactValue` | internal/security/redact.go:24-45 | the copy is the specified tree |
| `Redact.RedactObject` | internal/security/redact.go:26-35 | the loop over the fields, in any order, keeps the keys, masks the sensitive ones with ***REDACTED*** and redacts the others |
| `Redact.RedactArray` | internal/security/redact.go:36-41 | the loop over the items redacts each in its place |
| `Redact.RedactedCharacterized` | internal/security/redact.go:24-45 | the result is the only tree that agrees outside sensitive keys (same key sets, list lengths and leaves) and is masked beneath them |
| `Redact.RedactionHidesExactlySecrets` | internal/security/redact.go:24-45 | two trees redact to the same tree iff they differ only beneath sensitive keys |
| `Redact.RedactionIdempotent` | internal/security/redact.go:24-45 | redacting twice is redacting once |
| `Redact.SensitiveIffFragmentInside` | internal/security/redact.go:14-22 | trimming never matters: a key is sensitive iff its lower-cased form contains a fragment |
| `Redact.SensitiveWords` | internal/security/redact.go:8-12 | the fragments by name |
| `Redact.CaseIsImmaterial` | internal/security/redact.go:14-15 | keys that differ in letter case only are equally sensitive |
| `Text.TrimMeaning` | internal/security/redact.go:15 | trimming takes away the white space at both ends and nothing else |
| `Text.LowerMeaning` | internal/security/redact.go:15 | lower-casing makes texts equal that differ in letter case only and leaves text without capitals alone |
| `Rfc3339.CivilOf` | internal/metrics/store.go:55 | the calendar reading of an instant is a valid date whose instant it is |
| `Rfc3339.NextDay` | internal/metrics/store.go:55 | a day later is the next date, by the lengths of the months and the rule of the leap years |
| `Rfc3339.Epoch` | internal/metrics/store.go:55 | where 1970-01-01 lies on the count of seconds |
| `Rfc3339.ClockMeaning` | internal/metrics/store.go:55 | hours, minutes and seconds count the seconds of the day |
| `Rfc3339.StampOrder` | internal/repository/sqlite/task.go:116-118 | formatted timestamps compare as text as their instants do, and are equal only for equal seconds |
| `Rfc3339.StampRoundTrip` | internal/metrics/store.go:107-117 | parsing inverts formatting |
| `Rfc3339.StampMeaning` | internal/metrics/store.go:58-61 | character by character: year, month, day, hour, minute and second, with their separators |
| `Rfc3339.ReadableIff` | internal/metrics/store.go:107-117 | a stored timestamp reads back iff its year has four digits |
| `Rfc3339.StampOrderIff` | internal/repository/sqlite/lock.go:19 | for all instants: the earlier timestamp sorts first iff its year is at most the equally long beginning of the later year |
| `Rfc3339.FiveDigitYears` | internal/repository/sqlite/lock.go:19 | a year up to 9999 sorts before a five-digit year iff it is at most the first four digits of it |
| `Rfc3339.StampOrderFailsAfter9999` | internal/repository/sqlite/lock.go:19 | timestamps of the years 10000 to 19999 sort before those of 2000 to 9999 |

## Left out

- Routing, JSON binding and the user interface (`internal/httpapi`, `web`), configuration loading, schema migration and wiring.
- Agent executors, host probes and file transfer: an agent action is a nondeterministic sequence of responses; the agent's semaphore and reconnect backoff bound load and change no result.
- Cryptography, password hashing, JWT and WebSocket framing: a token is identified with its hash, request ids are fresh, the verdict of a password comparison is an input.
- Database failures other than refused constraints: a write either happens or is skipped where the program ignores the error; a write of an alert event that fails inside an evaluation is not modelled: the memory of the duration has then changed already, while the event stays as it was.
- Foreign keys other than those of locks and reservations, and the columns that no step reads (target, timeout and recovery policy of a task, text and metadata of an alert, created_at columns).
- `agents.status`, which the code does not keep in agreement with the connection table.
- Progress of installation steps, which is not monotone in the code, and of finished tasks, which a late report may still change.
- Liveness: that a queued task is eventually run depends on tickers and scheduling outside the code.
- Integer width: ids, counters and clocks are unbounded; a counter that exceeds 64 bits is not modelled. The server_id bound is.
- Floating point: metric values and thresholds are reals, so NaN and rounding do not occur.
- Text is a sequence of one-byte characters; trimming removes ASCII white space and lower-casing maps ASCII letters.
- Years before 0 and time zones: all stored instants are UTC and not before the year 0; archive cutoffs may be earlier. Overflow of the calendar arithmetic is not modelled.
- JSON encoding and decoding: a payload is its encoded text or the fact that it cannot be encoded; redaction works on the tree.
- Policy, role and identifier validators, the policy table and number conversion: each is settled by reading one branch.
- `ArchiveService.Service.RunHandler`, `ArchiveService.Service.ControlHandler`, `MysqlInstall.Service.Install`, `TaskPool.Engine.Tick` and `AuthService.Service.Refresh` run undisturbed from start to end; what other steps do in between is covered by the step systems.
- `RenderReferences`: paths in which "{{" occurs otherwise than as a whole placeholder, or "{" just before one or at the end, are covered by the equivalences of `RenderConfig` only.
- `ArchiveTasks`: a worker may enter its handler again before it finishes its task, which the program does not do; the theorems over all runs hold of these runs too, and the run that loses rows enters each handler once.
