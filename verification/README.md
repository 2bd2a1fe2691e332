# Verification of the panel's job queue, login limiter, payload checks and migrations

This project models four parts of Motekar Panel in Dafny and proves properties of them.

**The leased job queue and its workers** (`JobTable`, `JobStore`, `JobWorker`, `JobSystem` and the
modules on top). Several workers share one table of jobs. A claim fails the jobs whose last lease ran
out, picks the next eligible job, and hands it out with a fresh token and a lease; finalising needs
the token; operators retry and cancel. `JobTable` gives each SQL statement as a relation between two
tables. `JobStore` and `JobWorker` are the mutable store and the worker's code, proved to do exactly
that. `JobSystem` lets any number of workers and operators interleave: an event carries everything
that is not determined (clock readings, lost answers, skipped rows, crashes, what the executor
returned), so a run is a sequence of events and every theorem about runs is about every interleaving.

- `JobInvariant`: what holds in every reachable state.
- `JobSafety`: exclusion of leases and executions, fencing of old holders, jobs that stay what they are.
- `JobStarts`: exactly which starts of an execution are safe, for the job and for its resource.
- `JobLimits`: two concrete runs, from an empty table, that show why exclusion needs its hypotheses.
- `JobClaims`: what a single claim and a series of claims achieve; no job is stuck.
- `JobProgress`: bounds on the number of steps, on attempts, on being passed over, and on backing off.
- `JobDraining`: how long claims find work, and that the table runs out of it.
- `JobColumns`: what claims, enqueues and operators' orders read and write, column by column.
- `JobDecisions`: what a turn comes to in the table, from the executor's outcome on.
- `JobOutcomes`: what ends up in the table.
- `JobTurns`: a turn of the worker's code as events of a run.
- `JobStorage`: what the panel accepts and the database cannot hold, and what becomes of it.

**The login limiter** (`LoginLimiter`, `LoginHandler`): the bounded map of fixed windows with eviction
against the unbounded limiter, and what the login handler's use of two of them comes to.

**Strict payloads** (`StrictJson`, `ActionSchema`): the token reader that refuses repeated names, and
the two walks over types and values.

**Migrations** (`Migrations`, `MigrationRunner`): loading the list, and interleaved runners on one
database.

`Base`, `Text`, `Json`, `Results` and `Spelling` hold what these share: `Results` is the normalisation of
action results, and `Spelling` says letter by letter what the searches for suspicious words find.

## Assumptions

- Every statement or transaction is one atomic step. The claim reads its `NOT EXISTS` subquery in a
  snapshot that is a parameter of the step, because the advisory lock (internal/jobs/sqlstore.go:106) is
  taken after the snapshot. Only exclusion by resource key needs the snapshot to show the live leases
  on the resource keys (`FreshView`); `JobSafety.ClaimKeepsExclusionExactly` says exactly when one
  claim keeps exclusion, and `JobLimits.StaleSnapshotBreaksExclusion` shows that the lock alone does
  not. Everything else holds for any snapshot, also that no two workers execute the same job.
- Rows that `SKIP LOCKED` passes over, ties in an `ORDER BY`, and the outcome of the advisory lock are
  arbitrary.
- Tokens from `gen_random_uuid()` (internal/jobs/sqlstore.go:111) are never repeated; tokens and ids
  are not blank.
- There is one clock, it never runs back, and a reading is never ahead of it; a statement may run
  long after its reading was taken.
- Execution exclusion also needs the executor to stop at its deadline and the deadline to come before
  the lease ends (`IsPunctual`); with the default durations that is a start less than five minutes
  after the claim's reading. `JobStarts` shows that no later start is safe: not for the job, if an
  attempt is left (`StartIsSafeExactlyIfPunctual`), and not for its resource, if any job of the same key
  can be claimed when the lease is over (`StartIsSafeForKeysExactlyIfPunctual`).
- A finalising transaction has run, or never will, when its worker goes on to the next try or gives up;
  one that commits only after that is no behaviour of the model.
- JSON is a parameter: which texts `encoding/json` takes for valid, which tree it decodes a text to,
  and how PostgreSQL writes out the text's value as `jsonb`, if it can convert it at all. The size
  limits of the table are on that text. A TEXT column holds every code point but U+0000.
- The parameters of a statement are converted before it looks at any row, so a result that cannot be
  converted is an error whether or not the claim is still held.

Times are integers in nanoseconds, strings are sequences of Unicode code points, and lengths that Go
takes in bytes are taken in UTF-8 bytes.

## Model

| member | source | states |
|---|---|---|
| JobStore.SelectExpired | internal/jobs/sqlstore.go:54-62 | the rows the sweep takes: distinct, expired, out of attempts, not locked, at most 100, all of them if fewer, and none with a later lease than one left behind |
| JobStore.SelectNext | internal/jobs/sqlstore.go:78-101 | the candidate: an eligible unlocked row that is least in (run_after, created_at), or none if there is none |
| JobStore.JobStore.ClaimOne | internal/jobs/sqlstore.go:51-127 | the table afterwards is the old one with the swept rows failed and logged and the granted row claimed; the caller gets that row, or nothing |
| JobColumns.SweepableInColumns | internal/jobs/sqlstore.go:57-59 | which rows a sweep may take: running, lease over, attempts used up, not locked |
| JobColumns.SweepTakesTheEarliest | internal/jobs/sqlstore.go:54-62 | a sweep takes at most 100 of them, each once, and leaves one behind only for 100 with leases no later |
| JobColumns.PickableInColumns | internal/jobs/sqlstore.go:81-100 | which rows may be handed out: attempts left, queued and due or lease over, no other live lease on the key in the snapshot, not locked |
| JobColumns.CandidateIsFirst | internal/jobs/sqlstore.go:99-101 | the candidate comes no later than any of them, by run_after and then created_at |
| JobColumns.ClaimWritesColumns | internal/jobs/sqlstore.go:63-69 | every column of a swept row and of the granted row afterwards, and no other row changes |
| JobColumns.ClaimLogs | internal/jobs/sqlstore.go:73-77 | one log row for each swept job, in order, with the statement's own text |
| JobColumns.SweptJobsCanBeRetried | internal/jobs/sqlstore.go:320-325 | an operator's retry of a swept job is accepted |
| JobStore.JobStore.InsertLogs | internal/jobs/sqlstore.go:356-370 | appends one row for each entry, in order |
| JobStore.JobStore.MarkJobSucceeded | internal/jobs/sqlstore.go:129-170 | row and logs change together, only for the holder of the token, and not at all if a value cannot be converted, a CHECK is violated or a message cannot be stored |
| JobStore.JobStore.MarkJobFailed | internal/jobs/sqlstore.go:172-229 | the same for failures, final or not |
| JobStore.JobStore.OperateOn | internal/jobs/sqlstore.go:298-354 | retry and cancel: the guarded transition together with its audit event, or neither |
| JobStore.EnqueueJob | internal/jobs/jobs.go:135-185 | checks, defaults and insert, with the refusals of both layers: of the panel, and of the database for texts, payload, limits and keys in use |
| JobColumns.EnqueueStoresTheInput | internal/jobs/jobs.go:135-181 | an accepted enqueue adds one row with the trimmed type and keys, the id in place of an empty key, the payload or "{}", the given or default attempts and time; nothing else changes |
| JobColumns.InvalidInputsExactly | internal/jobs/jobs.go:139-155 | the panel itself refuses exactly the inputs with an empty or long type, a long key, a bad or long payload, or more than 25 attempts |
| JobColumns.OneJobPerKey | services/migrations/000005_job_runtime_hardening.sql:49 | of all enqueues with one key in a run, whatever happens to the jobs, at most one is accepted |
| JobColumns.OrdersAreAnswered | internal/jobs/sqlstore.go:306-325 | how a retry or cancellation is answered, from the row's columns |
| JobColumns.OrdersWriteColumns | internal/jobs/sqlstore.go:327-353 | every column of a retried and of a cancelled row, the one audit event, and nothing else |
| JobColumns.UnnamedClaimsAreInvalid | internal/jobs/jobs.go:192-206 | the queue refuses exactly copies with a blank id or token, and negative backoffs |
| JobColumns.HoldersInColumns | internal/jobs/sqlstore.go:151-153 | a finalisation finds its row exactly if that is running under the token presented |
| JobColumns.StorableInColumns | services/migrations/000005_job_runtime_hardening.sql:43 | what the table can hold of a result: no U+0000 in code and messages, data that is rendered within 65536 bytes |
| JobWorker.ExponentialBackoff | internal/jobs/worker.go:288-300 | the doubling loop computes min(2^(max(attempt,1)-1), 300) seconds |
| JobWorker.BackoffIsMonotone | internal/jobs/worker.go:288-300 | backoffs grow with the attempt and stay between 1 and 300 seconds |
| JobWorker.BackoffTotalOf24 | internal/jobs/worker.go:288-300 | the backoffs of attempts 1 to 24 sum to 5011 seconds |
| JobWorker.SucceedWithRetries | internal/jobs/worker.go:177-186 | three tries around Queue.Succeed, which rewrites the shared log slice each time, do what three tries with the first result would |
| JobWorker.FailWithRetries | internal/jobs/worker.go:193-197 | three tries around Queue.Fail |
| JobWorker.RetriesApplyAtMostOnce | internal/jobs/worker.go:201-219 | over any tries, with any answers lost, at most one is applied; no error means it was, and an invalid transition means the claim is gone |
| JobWorker.DoneConsumesClaim | internal/jobs/sqlstore.go:151-153 | a finalisation changes the table exactly if it is accepted; it needs the claim and uses it up |
| JobWorker.RunOnce | internal/jobs/worker.go:152-199 | one turn: claim, then the finalisation that the outcome calls for, or the claim left leased when the outcome is uncertain or interrupted |
| JobDecisions.LeftLeasedExactly | internal/jobs/worker.go:169-173 | a claimed job is left leased, the table as the claim left it, exactly if the executor failed and was uncertain or interrupted; everything else is finalised |
| JobDecisions.ErrorIsRecorded | internal/jobs/worker.go:188-197 | an executor's error once recorded: ended if permanent or on the last attempt, for good only if permanent, else queued after its attempt's backoff; its cleaned text in the log, every other column and row as before |
| JobDecisions.BadResultIsRecorded | internal/jobs/worker.go:174-197 | a result the panel does not accept once recorded: ended for good, with the reason in the log |
| JobDecisions.ResultIsRecorded | internal/jobs/worker.go:174-186 | an accepted result once recorded, interrupted or not: succeeded with its trimmed code and data and its logs, every other column and row as before |
| JobDecisions.FirstDeliveryCounts | internal/jobs/worker.go:201-219 | after any number of lost tries, the first that gets through and is accepted decides |
| JobDecisions.ThirdTryCounts | internal/jobs/worker.go:203 | there are three tries, and a storable finalisation under a held claim that gets through on the third is accepted |
| JobDecisions.TriesEndEarly | internal/jobs/worker.go:204-216 | a settled first try, or an ended wait after it, is the only one |
| JobDecisions.RefusalIsTriedAgain | internal/jobs/worker.go:204-217 | any other answer is followed by the further tries |
| JobTurns.RetryLoopIsARun | internal/jobs/worker.go:201-219 | the retry loop changes the table as the worker's own events in a run do, and each of these events can happen |
| JobTurns.TurnIsARun | internal/jobs/worker.go:152-199 | so does a whole turn that nothing disturbs: wherever an idle worker may claim, what runOnce does to the table is what a claim, a start, a stop and the tries do in a run |
| JobTurns.TurnContinuesRun | internal/jobs/worker.go:121-124 | an undisturbed turn of the worker's loop continues whatever run led up to it, to a state in which the worker may claim again, so what is proved about runs holds of every turn |
| JobInvariant.ReachableStatesAreOk | services/migrations/000005_job_runtime_hardening.sql:31-47 | in every reachable state: running exactly with token and lease; 0 <= attempts <= max_attempts <= 25; finished_at exactly for ended jobs; queued without started_at and with an attempt left; result code exactly for successes; active jobs retryable; idempotency keys distinct; the copy a worker holds equals the row as long as the row carries its token; no claim held twice |
| JobInvariant.EventKeepsInv | internal/jobs/sqlstore.go:51-354 | every event, of any worker or operator, keeps that invariant |
| JobSafety.LeaseExclusion | internal/jobs/sqlstore.go:89-98 | in every state of a run whose claims see the live leases on resource keys, at most one running job per resource key has a live lease, also if claims use old clock readings |
| JobSafety.ClaimKeepsExclusionExactly | internal/jobs/sqlstore.go:89-107 | one claim keeps exclusion if and only if it hands out no keyed job, or a lease that is over, or the key is free in the table itself |
| JobLimits.StaleSnapshotBreaksExclusion | internal/jobs/sqlstore.go:102-107 | a run in which the advisory lock is free but the snapshot is stale gives two jobs of one key live leases |
| JobSafety.ExecutionExclusion | internal/jobs/worker.go:157-168 | in every punctual run no two workers execute the same job at the same time, whatever the claims' snapshots showed; and none execute jobs with the same resource key, if those snapshots showed the live leases |
| JobStarts.StartIsSafeExactlyIfPunctual | internal/jobs/worker.go:165-166 | in every state of a punctual run, for a job that another worker could take over later: starting on it is safe, whatever punctual events follow, if and only if the deadline comes before the lease ends |
| JobStarts.LateStartMeets | internal/jobs/worker.go:165-166 | after any other start on such a job there are events, punctual and with fresh snapshots, that put two workers inside it |
| JobStarts.StartIsSafeForKeysExactlyIfPunctual | internal/jobs/worker.go:165-166 | the same for the resource, also on a last attempt: if some job of the held job's key could be claimed when the lease is over, the start never leads to two executions for one key if and only if it is punctual |
| JobStarts.LateStartMeetsOnKey | internal/jobs/sqlstore.go:89-98 | after any other such start there are events, punctual and with fresh snapshots, that put two workers inside jobs of one key |
| JobSafety.DefaultsLeaveFiveMinutes | internal/jobs/jobs.go:20 | with a lease of 10 and a timeout of 5 minutes a start is punctual exactly if it comes less than 5 minutes after the claim's reading |
| JobLimits.LateStartBreaksExclusion | internal/jobs/worker.go:165-166 | a run with fresh snapshots in which a late start puts two workers inside the same job |
| JobSafety.AnswersAreExact | internal/jobs/sqlstore.go:129-229 | a worker's finalisation is accepted if and only if its token is still on the row and the table can hold what it writes; the transition is invalid if and only if the token is gone and the values convert; else it is refused. The limits on code, levels and message length never refuse it |
| JobStorage.UnstorableIsNeverWritten | internal/jobs/worker.go:201-219 | what the table cannot hold changes nothing in any number of tries, with any answers lost, and while the claim is held no answer ends the tries |
| JobStorage.UnstorableTurnChangesNothing | internal/jobs/worker.go:177-197 | the worker then gives up and the whole state is as before, the job still leased |
| JobStorage.UnstorableJobEndsOnlyBySweep | internal/jobs/sqlstore.go:54-73 | in each event a running job that is not finalised with something storable stays running, and leaves that status exactly when it is swept |
| JobStorage.UnstorableJobIsExecutedToTheEnd | internal/jobs/sqlstore.go:54-87 | over any stretch of a run, such a job leaves the running status only by a sweep, and up to that sweep it has been handed out again exactly as often as it had attempts left |
| JobStorage.NulFailureIsNeverRecorded | internal/jobs/worker.go:188-197 | so does every failure whose cleaned message has U+0000 in it, also a permanent one |
| JobStorage.NulPassesThePanel | internal/jobs/worker.go:302-309 | a message with U+0000 inside that the panel lets through as it is |
| JobStorage.LongResultIsRefused | services/migrations/000005_job_runtime_hardening.sql:43 | up to 32764 zeros in an array pass normalizeResult, up to 21843 are stored: the limit is on the rendered text, which has a space after each comma |
| JobStorage.LongPayloadIsRefused | services/migrations/000005_job_runtime_hardening.sql:41 | the same array as a payload passes Queue.Enqueue and is refused by the table |
| JobSafety.LosingTheLeaseRemovesToken | internal/jobs/sqlstore.go:63-73 | a sweep or reclaim takes the old token off the table |
| JobSafety.OldHoldersAreFenced | internal/jobs/sqlstore.go:151-153 | from the moment a token is off the table, every later use in the run changes no row, log or audit event, and is an invalid transition if the values convert, else an error of the conversion |
| JobSafety.OneActionPerToken | internal/jobs/worker.go:177-197 | all tries with one token anywhere in a run present the same action |
| JobSafety.EachTokenFinalisesOnce | internal/jobs/worker.go:201-219 | after an accepted finalisation every repetition with the same token is an invalid transition and changes nothing, lost answers included |
| JobSafety.JobsEndure | internal/jobs/sqlstore.go:298-341 | over any stretch of a run no job disappears or changes type, keys, payload, attempt limit or creation time; succeeded, cancelled and permanently failed rows never change |
| JobSafety.JobSucceedsAtMostOnce | internal/jobs/sqlstore.go:142-153 | a job succeeds at most once in a run |
| JobSafety.IdempotencyKeyNamesTheJob | internal/jobs/worker.go:169-173 | two executions anywhere in a run carry the same idempotency key if and only if they are of the same job |
| JobClaims.ClaimIsSweepThenPick | internal/jobs/sqlstore.go:54-118 | sweeping and picking on one snapshot has the same candidates and the same result as sweeping first and claiming afterwards |
| JobClaims.UnhinderedClaimIsExact | internal/jobs/sqlstore.go:78-126 | with nothing locked, ErrNoJob comes exactly when no row is eligible; otherwise the claimed row is a least eligible one |
| JobClaims.NoJobIsStuck | internal/jobs/sqlstore.go:54-98 | in a reachable state an active job whose key is free can be claimed or swept at exactly the times from its run_after or its lease's end on |
| JobClaims.ReadyJobMeansProgress | internal/jobs/sqlstore.go:54-118 | while such a job is ready, a claim with nothing locked hands out or sweeps some job |
| JobClaims.ExpiredJobsDrain | internal/jobs/sqlstore.go:54-77 | k claims at a time t that find no expired row locked fail all of up to 100k expired jobs, each with exactly one log row, whatever else they hand out |
| JobProgress.StepsArePaidFor | internal/jobs/sqlstore.go:51-341 | over any run, claims, reclaims, sweeps, finalisations and cancellations are at most the weight of the table at the start plus 2*max_attempts+1 for each enqueue and retry |
| JobProgress.WorkIsBounded | internal/jobs/sqlstore.go:51-341 | the same from an empty table |
| JobDraining.ReadyFindsAreBounded | internal/jobs/sqlstore.go:51-341 | over any run, claims that nothing is hidden from find a ready job at most as often as the table's weight and what enqueues and retries add |
| JobDraining.TableDrains | internal/jobs/sqlstore.go:51-341 | if more such claims are made, each when every active job's time has come, one of them finds that every job has ended |
| JobProgress.HandoutsCountAttempts | internal/jobs/sqlstore.go:108-110 | over any stretch of a run without an operator retry of the job, its attempts grow by exactly the number of times it is handed out |
| JobProgress.HandoutsAreBounded | internal/jobs/sqlstore.go:57-87 | so in such a stretch it is handed out at most as often as it had attempts left |
| JobProgress.BypassIsBounded | internal/jobs/sqlstore.go:89-101 | while a queued job is neither claimed nor cancelled, claims that find its row unlocked and see its resource key free hand out other jobs at most as often as the jobs ranked before it or level with it have attempts left, including what enqueues and operator retries put there meanwhile |
| JobProgress.WaitingJobGetsItsTurn | internal/jobs/sqlstore.go:78-101 | a queued job that nobody cancels is claimed if more claims than that come after its time and find its row, its key and the key's lock free, whatever other claims find |
| JobProgress.BackoffsOfOneJobAreBounded | internal/jobs/jobs.go:210-218 | without an operator retry the delays written by all non-final failures of a job sum to at most 5011 seconds |
| JobOutcomes.SuccessStoresTheResult | internal/jobs/worker.go:174-186 | an accepted success stores the executor's code and data, trimmed, and one row for each of its logs in order, and changes no other job |
| JobOutcomes.FailureIsFinalExactly | internal/jobs/jobs.go:203-219 | by an accepted failure the job is failed if and only if the error is permanent or the row's last attempt is used up; otherwise it is queued with an attempt left, after the backoff of the attempt just made |
| JobOutcomes.FailureStoresTheMessage | internal/jobs/worker.go:188-197 | the error text is stored once, free of secrets and within 1024 characters; an empty one is not stored |
| JobOutcomes.EnqueueAnswersAreExact | internal/jobs/jobs.go:136-155 | input that passes the Go checks meets all length and number limits of the table, and is refused exactly if a text cannot be converted, the payload is rendered too long or as no object, or the id or key is taken |
| JobOutcomes.RetriedJobStartsOver | internal/jobs/sqlstore.go:328-339 | a retried job is due at exactly the times from the retry on, with no attempt used; nothing else changes |
| JobOutcomes.AuditTrailIsExact | internal/jobs/sqlstore.go:343-353 | in every run the audit rows are exactly the accepted operator actions, in order |
| Results.NormalizeInPlace | internal/jobs/worker.go:221-250 | computes the normalised result in the caller's slice; on an unknown level the entries before it stay rewritten |
| Results.NormalizingAgainIsHarmless | internal/jobs/worker.go:221-250 | an accepted result is accepted again; a second pass can only strip white space at the end of messages, a third changes nothing; code, levels and message lengths fit the table, and the table can hold one exactly if it can hold the other |
| Results.SensitiveSearchIsExact | internal/jobs/worker.go:252-272 | the search finds exactly the values with a sensitive name at some depth |
| Spelling.AcceptsResultsExactly | internal/jobs/worker.go:221-250 | a result is accepted exactly if code, data, number of logs and levels are within the stated limits and no sensitive name stands at any depth; and what it then is |
| Spelling.SensitiveNamesExactly | internal/jobs/worker.go:256-258 | a name is sensitive exactly if it spells one of the six words somewhere, in either case, with separators between the letters or not |
| Spelling.RedactionIsExact | internal/logging/logger.go:48-58 | a message is replaced exactly if it says one of the five words, in either case |
| Spelling.SafeMessageIsExact | internal/jobs/worker.go:302-309 | a cleaned message is the notice, or the text without white space at its ends, cut after 1024 characters |
| Text.SafeMessageAgain | internal/jobs/worker.go:302-309 | cleaning again strips only white space left at the 1024-rune cut, and a third time nothing |
| Text.SafeMessageIsSafe | internal/logging/logger.go:48-58 | a cleaned message mentions no secret and has at most 1024 characters |
| LoginLimiter.LoginLimiter.CleanUp | internal/server/auth.go:239-250 | in any iteration order: exactly the expired entries go, and the key found has the earliest window start |
| LoginLimiter.LoginLimiter.Allow | internal/server/auth.go:229-264 | the answer and the table afterwards: counting in the key's window, cleaning and evicting only for a new key in a full table |
| LoginLimiter.AllowInEntries | internal/server/auth.go:255-263 | a call is let through exactly if its key's running window has counted fewer than the limit, and then counts one more, in that window or a new one |
| LoginLimiter.AllowSparesOthers | internal/server/auth.go:239-253 | other keys' entries stay as they are, unless a new key finds 10,000 entries: then those that are over go, and the victim |
| LoginLimiter.EvictionTakesTheOldest | internal/server/auth.go:245-253 | a live entry is evicted exactly if a new key finds 10,000 live ones, and then one that began first |
| LoginLimiter.LoginLimiter.Reset | internal/server/auth.go:266-273 | removes the key's entry and nothing else |
| LoginHandler.HandleLogin | internal/server/auth.go:70-91 | the account limiter is asked only after the source limiter agrees, and only a success resets it |
| LoginHandler.LoginInEntries | internal/server/auth.go:71-91 | what a login does to the account's entry: nothing if the source or the account refuses, one more if the password is wrong, none left if it is accepted |
| LoginHandler.WrongPasswordsAreBounded | internal/server/auth.go:70-91 | for an account whose entry is never evicted, at most ten wrong passwords are checked in any 15 minutes without an accepted login for it |
| LoginHandler.FiveWrongPasswordsAWindow | internal/server/auth.go:255-263 | its entry counts the wrong passwords since the window began and the last accepted login, at most five |
| LoginHandler.AccountsHaveTheirOwnEntries | internal/server/auth.go:70 | accounts share an entry exactly if source and lowered, trimmed email are the same |
| LoginHandler.SourcesHaveTheirOwnEntries | internal/server/auth.go:230-232 | sources share an entry exactly if they are equal or both unknown |
| LoginLimiter.SizeIsBounded | internal/server/auth.go:28 | in every run the map holds at most 10,000 entries |
| LoginLimiter.AnswersLikeUnbounded | internal/server/auth.go:229-264 | as long as a key's live entry is not evicted, every call gets the answer of a limiter that never deletes anything |
| LoginLimiter.EvictionForgives | internal/server/auth.go:251-253 | an evicted live key is let through at once, even where the unbounded limiter would refuse |
| LoginLimiter.EvictionNeedsTraffic | internal/server/auth.go:234-253 | a live entry is evicted only if, within the last 15 minutes, 10,000 different keys got through, the victim among them, and the evicting key is not in the table |
| LoginLimiter.QuietTrafficEvictsNobody | internal/server/auth.go:234-253 | while fewer keys than that get through in any 15 minutes, no live entry is evicted |
| LoginLimiter.OneWindowIsBounded | internal/server/auth.go:255-263 | an entry counts exactly what its window let through, at most limit, for a key neither reset nor evicted |
| LoginLimiter.AnyWindowIsBounded | internal/server/auth.go:255-263 | a key neither reset nor evicted gets through at most 2*limit times in any 15 minutes |
| LoginLimiter.RefusalIsEarned | internal/server/auth.go:258-260 | in any run and for any key: at a refusal the key has got through limit times or more within the last 15 minutes |
| LoginLimiter.RefusalFillsWindow | internal/server/auth.go:255-260 | for a key neither reset nor evicted it is exactly limit times since the start of its window |
| LoginHandler.PasswordChecksPerSourceAreBounded | internal/server/auth.go:72-91 | one source, as long as its own entry is not evicted, has at most 100 passwords checked in any 15 minutes, however often successes reset the account limiter |
| StrictJson.ReadUniqueValue | internal/agent/actions.go:279-316 | the loops over a stateful decoder succeed exactly when the recursive reader does, and leave the same tokens |
| StrictJson.RejectDuplicateKeys | internal/agent/actions.go:267-277 | accepts exactly the tokens of one value whose names are unique at every depth |
| StrictJson.ReaderIsExact | internal/agent/actions.go:279-316 | on any tokens: success leaving the rest if and only if they are a value with unique names followed by that rest |
| StrictJson.ReadsItsValue | internal/agent/actions.go:279-316 | on the tokens of any value followed by anything: exactly that rest if the names are unique, an error otherwise |
| StrictJson.OneReading | internal/agent/actions.go:279-316 | equal tokens come from equal values |
| ActionSchema.AcceptedTypesExactly | internal/agent/actions.go:147-204 | a payload type is accepted if and only if it is a struct and every position inside it is closed, unambiguous, visible and no raw command |
| ActionSchema.JsonNamesExactly | internal/agent/actions.go:255-265 | a field's JSON name: its tag up to the first comma, its own name if that is empty, none for "-" |
| ActionSchema.RawCommandsExactly | internal/agent/actions.go:191-204 | a raw command is a field whose Go or JSON name says shell or script, or says command without being a list of strings, in either case |
| ActionSchema.AcceptedTypesAreClosed | internal/agent/actions.go:158-186 | nowhere inside an accepted type is there a map, interface, function or byte list, or a hidden or embedded field |
| ActionSchema.ShapesFit | internal/agent/actions.go:206-253 | null stands for everything but a struct, a struct takes only objects, a list only arrays and null |
| ActionSchema.LastFieldWins | internal/agent/actions.go:223-228 | of several fields with one JSON name the last is taken |
| ActionSchema.AcceptedPayloadsExactly | internal/agent/actions.go:124-136 | a payload passes the checks before the decoding if and only if it is one object with unique names at every depth that matches the schema at every position |
| ActionSchema.AcceptedObjectsAreExact | internal/agent/actions.go:206-253 | at every struct position of an accepted payload stands an object with distinct names, each the JSON name of exactly one field |
| Migrations.LoadMigrations | internal/database/migration.go:62-113 | succeeds if and only if every file named like a migration holds one and no version repeats, and then gives, ascending, exactly the migrations that stand in the files: version and name from digits, underscore, title and ending, the trimmed text as SQL |
| Migrations.CollectsWhatStandsInFiles | internal/database/migration.go:70-106 | a migration is loaded exactly if it stands in a file: version and name in the name, path, trimmed text |
| Migrations.DecimalIsPlaceValue | internal/database/migration.go:81-84 | a version is the sum of its digits by place value |
| Migrations.CollectsEachFile | internal/database/migration.go:70-106 | the collected migrations are exactly those of the migration files |
| Migrations.AscendingListsAgree | internal/database/migration.go:108-110 | ascending lists of the same migrations are equal: the directory's order does not matter |
| MigrationRunner.ApplyIsExact | internal/database/migration.go:151-171 | a transaction adds its migration exactly if its SQL succeeds, the table exists and the version is not there yet |
| MigrationRunner.Up | internal/database/migration.go:36-58 | beside others it only extends the committed prefix; without an error its whole list is committed and it reports exactly what was missing in the table as it read it, with one a first part of that; without an error every one of those was applied and answered; alone it succeeds |
| MigrationRunner.CommittedIsAlwaysAPrefix | internal/database/migration.go:47-55 | for any runners, failures and restarts, the committed migrations are the first of the list in order, and none is undone |
| MigrationRunner.EachVersionCommitsOnce | internal/database/migration.go:151-171 | no version is committed twice in a run |
| MigrationRunner.SuccessfulUpIsComplete | internal/database/migration.go:36-58 | an Up without an error leaves the whole list it was started with committed for good, and reports exactly the migrations that were missing in the state in which this call read the table |

## Left out

- The endless loop of `RunWithExecutionContext` and its poll timer: runs are arbitrary sequences of turns instead.
- Clock skew between processes, row-lock internals and query planning of PostgreSQL.
- How PostgreSQL converts and renders a given text as JSONB: a parameter of the model.
- `validJobID` and UUID spelling: ids are canonical, and an id that is not in the table is not found.
- `ListRecent`, `Get` and `ListLogs`: read-only queries.
- Address and user agent of audit events, and the audit writer's own checks: writing the event may fail, for any reason.
- Texts that are not valid UTF-8.
- Lower-casing of letters that stay outside ASCII, in the searches for ASCII words; for account keys it is a parameter.
- JSON lexing, decoding by reflection, the nesting limit of encoding/json and recursive Go types: the model starts from tokens, trees and finite type trees.
- `Registry` and `encodeActionResult`: a map with duplicate check and single length checks.
- The third limiter of the login handler, for audit records, and everything else the handlers do.
- JobStore.JobStore.ClaimOne: the two updates are made one after the other on the rows chosen from one table; that they read one snapshot is what JobClaims.ClaimIsSweepThenPick is about.
- MigrationRunner.Up: a migration's SQL is its entry in the committed list; what it does to the schema is not modelled.
- JobProgress.BypassIsBounded: counts claims that see the job's resource key free; how long others hold the key is not bounded.
- ActionSchema.AcceptedPayloadsExactly: the strict decoding that follows the checks, and its type errors, are not part of it, because decoding works by reflection.
- Installer, preflight, inventory, configuration, RBAC, sessions, password hashing and HTTP.
