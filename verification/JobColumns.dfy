/**
  What the statements do to the jobs table, column by column: which rows a claim may take and what it
  writes, what an enqueue stores, what an operator's order leaves behind.
 */
module JobColumns {
  import opened Base
  import opened Text
  import opened Results
  import opened JobTable
  import opened JobSystem
  import opened JobInvariant
  import opened JobSafety

  // ---------------------------------------------------------------- which rows a claim takes

  predicate HasExpiredLease(row: Row, t: Time) {
    row.status == Running && row.leaseExpiresAt.Some? && row.leaseExpiresAt.value <= t
  }

  predicate HasLiveLease(row: Row, t: Time) {
    row.status == Running && row.leaseExpiresAt.Some? && t < row.leaseExpiresAt.value
  }

  /** Swept are expired leases of last attempts. */
  lemma SweepableInColumns(rows: map<JobId, Row>, c: ClaimCall, id: JobId)
    ensures Sweepable(rows, c, id) <==>
              && id in rows && HasExpiredLease(rows[id], c.now) && rows[id].attempts >= rows[id].maxAttempts
              && id !in c.sweepLocked
  {
  }

  /** Handed out are queued jobs whose time has come and expired leases, both with an attempt left and a free key. */
  lemma PickableInColumns(rows: map<JobId, Row>, c: ClaimCall, id: JobId)
    ensures Pickable(rows, c, id) <==>
              && id in rows && rows[id].attempts < rows[id].maxAttempts
              && ((rows[id].status == Queued && rows[id].runAfter <= c.now) || HasExpiredLease(rows[id], c.now))
              && (rows[id].resourceKey == ""
                  || forall other | other in c.view && other != id && HasLiveLease(c.view[other], c.now) ::
                       c.view[other].resourceKey != rows[id].resourceKey)
              && id !in c.pickLocked
  {
    if id in rows {
      var key := rows[id].resourceKey;
      assert Blocked(c.view, id, key, c.now) <==>
          exists other | other in c.view && other != id && HasLiveLease(c.view[other], c.now) ::
            c.view[other].resourceKey == key;
    }
  }

  /** A sweep takes at most 100 rows, the earliest leases first, and every one there is if there are fewer. */
  lemma SweepTakesTheEarliest(rows: map<JobId, Row>, c: ClaimCall, swept: seq<JobId>)
    requires IsSweep(rows, c, swept)
    ensures |swept| <= 100 && forall i, j | 0 <= i < j < |swept| :: swept[i] != swept[j]
    ensures forall id | id in swept :: Sweepable(rows, c, id)
    ensures forall id | Sweepable(rows, c, id) && id !in swept ::
              |swept| == 100 && forall a | a in swept ::
                rows[a].leaseExpiresAt.value <= rows[id].leaseExpiresAt.value
  {
  }

  /** The candidate is first by run_after, then by created_at, among those that may be handed out. */
  lemma CandidateIsFirst(rows: map<JobId, Row>, c: ClaimCall, candidate: Option<JobId>, other: JobId)
    requires IsCandidate(rows, c, candidate) && Pickable(rows, c, other)
    ensures candidate.Some? && Pickable(rows, c, candidate.value)
    ensures var a, b := rows[candidate.value], rows[other];
            a.runAfter < b.runAfter || (a.runAfter == b.runAfter && a.createdAt <= b.createdAt)
  {
    hide Eligible;
  }

  // ---------------------------------------------------------------- what a claim writes

  predicate IsSweptRow(row: Row, was: Row, t: Time) {
    && row.status == Failed && row.retryable && row.claimToken == None && row.leaseExpiresAt == None
    && row.finishedAt == Some(t) && row.updatedAt == t
    && row.attempts == was.attempts && row.startedAt == was.startedAt && row.runAfter == was.runAfter
    && row.resultCode == was.resultCode && row.result == was.result && SameIdentity(row, was)
  }

  predicate IsGrantedRow(row: Row, was: Row, token: Token, t: Time, lease: Time) {
    && row.status == Running && row.retryable == was.retryable
    && row.claimToken == Some(token) && row.leaseExpiresAt == Some(lease)
    && row.startedAt == Some(t) && row.finishedAt == None && row.updatedAt == t
    && row.attempts == was.attempts + 1 && row.runAfter == was.runAfter
    && row.resultCode == was.resultCode && row.result == was.result && SameIdentity(row, was)
  }

  /** The columns that no statement ever writes again. */
  predicate SameIdentity(a: Row, b: Row) {
    && a.kind == b.kind && a.resourceKey == b.resourceKey && a.idempotencyKey == b.idempotencyKey
    && a.payload == b.payload && a.maxAttempts == b.maxAttempts && a.createdAt == b.createdAt
  }

  /** The job a claim hands out: the candidate, unless its key's advisory lock is taken. */
  predicate IsGranted(rows: map<JobId, Row>, c: ClaimCall, candidate: Option<JobId>, id: JobId) {
    candidate == Some(id) && id in rows && (rows[id].resourceKey == "" || c.keyLockFree)
  }

  /** The claim statement: swept rows and the one granted row change as told, no other row, no audit event. */
  lemma ClaimWritesColumns(db: Db, c: ClaimCall, swept: seq<JobId>, candidate: Option<JobId>)
    requires IsSweep(db.rows, c, swept) && IsCandidate(db.rows, c, candidate)
    ensures var db' := AfterClaim(db, c, swept, Granted(db.rows, c, candidate));
            && db'.rows.Keys == db.rows.Keys && db'.audits == db.audits
            && (forall id | id in swept :: id in db.rows && IsSweptRow(db'.rows[id], db.rows[id], c.now))
            && (forall id | IsGranted(db.rows, c, candidate, id) ::
                  IsGrantedRow(db'.rows[id], db.rows[id], c.token, c.now, c.leaseUntil))
            && (forall id | id in db.rows && id !in swept && !IsGranted(db.rows, c, candidate, id) ::
                  db'.rows[id] == db.rows[id])
  {
    ClaimTouchesOnlyItsRows(db.rows, c, swept, candidate);
    hide IsSweep, IsCandidate;
    var db' := AfterClaim(db, c, swept, Granted(db.rows, c, candidate));
    forall id | id in db.rows
      ensures id in swept ==> IsSweptRow(db'.rows[id], db.rows[id], c.now)
      ensures IsGranted(db.rows, c, candidate, id) ==>
                IsGrantedRow(db'.rows[id], db.rows[id], c.token, c.now, c.leaseUntil)
      ensures id !in swept && !IsGranted(db.rows, c, candidate, id) ==> db'.rows[id] == db.rows[id]
    {
    }
    hide AfterClaim, IsSweptRow, IsGrantedRow, IsGranted, Granted;
  }

  /** Each swept job gets one row in the log, in the order of the sweep. */
  lemma ClaimLogs(db: Db, c: ClaimCall, swept: seq<JobId>, picked: Option<JobId>)
    ensures var logs := AfterClaim(db, c, swept, picked).logs;
            && |logs| == |db.logs| + |swept| && logs[..|db.logs|] == db.logs
            && forall i | 0 <= i < |swept| ::
                 logs[|db.logs| + i] == LogRow(swept[i], "error", "job lease expired after final attempt", c.now)
  {
  }

  /** Every job that a sweep failed can be retried by an operator at once. */
  lemma SweptJobsCanBeRetried(db: Db, c: ClaimCall, swept: seq<JobId>, candidate: Option<JobId>,
                              id: JobId, actor: string, at: Time)
    requires IsSweep(db.rows, c, swept) && IsCandidate(db.rows, c, candidate) && id in swept
    ensures var db' := AfterClaim(db, c, swept, Granted(db.rows, c, candidate));
            Operate(db', OperatorCall(Retry, id, actor, at, true)).answer == Done
  {
    hide IsSweep, IsCandidate, AfterClaim, Granted;
    ClaimWritesColumns(db, c, swept, candidate);
  }

  // ---------------------------------------------------------------- finalising

  /** Whose finalisation a row answers to: the job is running under the very token that is presented. */
  lemma HoldersInColumns(db: Db, job: Job)
    ensures HoldsClaim(db, job) <==>
              && job.id in db.rows && db.rows[job.id].status == Running
              && job.row.claimToken.Some? && db.rows[job.id].claimToken == Some(job.row.claimToken.value)
  {
  }

  /** The queue itself refuses a copy without id or token, and a negative backoff. */
  lemma UnnamedClaimsAreInvalid(db: Db, job: Job, action: FinalAction, at: Time, lib: JsonLibrary)
    ensures Finalise(db, job, action, at, lib).answer == InvalidJob <==>
              || Trim(job.id) == ""
              || (job.row.claimToken.Some? ==> Trim(job.row.claimToken.value) == "")
              || (action.FailWith? && action.failure.backoff < 0)
  {
    hide Trim, NormalizeResult, HoldsClaim, Converts, Storable, ResultFits, FailureMarkFor, Textual;
  }

  /** What the table can hold of a result: no U+0000, and data that the database writes out within 65536 bytes. */
  lemma StorableInColumns(r: ActionResult, lib: JsonLibrary)
    ensures Converts(r, lib) <==> '\0' !in r.code && (r.data == "" || lib.jsonb(r.data) != None)
    ensures Storable(r, lib) <==>
              && Converts(r, lib)
              && (r.data == "" || Utf8Size(lib.jsonb(r.data).value) <= 65536)
              && forall i | 0 <= i < |r.logs| :: '\0' !in r.logs[i].message
  {
    hide Utf8Size;
  }

  /** What it can hold of a new row. */
  lemma NewRowsInColumns(db: Db, id: JobId, row: Row, lib: JsonLibrary)
    ensures RowConverts(row, lib) <==>
              '\0' !in row.kind && '\0' !in row.resourceKey && '\0' !in row.idempotencyKey
                && lib.jsonb(row.payload) != None
    ensures PayloadFits(row.payload, lib) <==>
              && lib.jsonb(row.payload) != None
              && var text := lib.jsonb(row.payload).value; text != "" && text[0] == '{' && Utf8Size(text) <= 65536
    ensures IsTaken(db.rows, id, row.idempotencyKey) <==>
              id in db.rows || exists other | other in db.rows :: db.rows[other].idempotencyKey == row.idempotencyKey
  {
    hide Utf8Size;
  }

  // ---------------------------------------------------------------- operators

  /** How an order is answered. */
  lemma OrdersAreAnswered(db: Db, call: OperatorCall)
    ensures Operate(db, call).answer ==
              if call.id !in db.rows then NotFound
              else if call.action == Retry && !(db.rows[call.id].status == Failed && db.rows[call.id].retryable)
              then InvalidTransition
              else if call.action == Cancel && db.rows[call.id].status != Queued then InvalidTransition
              else if !call.recorded then Refused("audit event not recorded")
              else Done
    ensures Operate(db, call).answer != Done ==> Operate(db, call).db == db
  {
  }

  predicate IsRetriedRow(row: Row, was: Row, t: Time) {
    && row.status == Queued && row.retryable && row.attempts == 0 && row.runAfter == t
    && row.claimToken == was.claimToken && row.leaseExpiresAt == was.leaseExpiresAt
    && row.startedAt == None && row.finishedAt == None && row.resultCode == None && row.result == None
    && row.updatedAt == t && SameIdentity(row, was)
  }

  predicate IsCancelledRow(row: Row, was: Row, t: Time) {
    && row.status == Cancelled && !row.retryable && row.attempts == was.attempts && row.runAfter == was.runAfter
    && row.claimToken == was.claimToken && row.leaseExpiresAt == was.leaseExpiresAt
    && row.startedAt == None && row.finishedAt == Some(t) && row.resultCode == None && row.result == None
    && row.updatedAt == t && SameIdentity(row, was)
  }

  /** An accepted order changes its row and adds one audit event, and nothing else. */
  lemma OrdersWriteColumns(db: Db, call: OperatorCall)
    requires Operate(db, call).answer == Done
    ensures var db' := Operate(db, call).db;
            && call.id in db.rows && db'.rows.Keys == db.rows.Keys && db'.logs == db.logs
            && (call.action == Retry ==> IsRetriedRow(db'.rows[call.id], db.rows[call.id], call.now))
            && (call.action == Cancel ==> IsCancelledRow(db'.rows[call.id], db.rows[call.id], call.now))
            && (forall id | id in db.rows && id != call.id :: db'.rows[id] == db.rows[id])
            && db'.audits == db.audits
               + [AuditRow(call.actor, if call.action == Retry then "job.retried" else "job.cancelled", call.id)]
  {
  }

  // ---------------------------------------------------------------- enqueueing

  /** The panel refuses exactly these inputs. */
  predicate IsInvalid(input: EnqueueInput, lib: JsonLibrary) {
    || Trim(input.kind) == "" || Utf8Size(Trim(input.kind)) > 128
    || Utf8Size(Trim(input.resourceKey)) > 512
    || Utf8Size(Trim(input.idempotencyKey)) > 128
    || (input.payload != "" && !IsPayload(Trim(input.payload), lib))
    || input.maxAttempts > 25
  }

  predicate IsPayload(payload: string, lib: JsonLibrary) {
    payload != "" && Utf8Size(payload) <= 65536 && payload[0] == '{' && lib.valid(payload)
  }

  lemma InvalidInputsExactly(db: Db, input: EnqueueInput, id: JobId, now: Time, lib: JsonLibrary)
    ensures Enqueue(db, input, id, now, lib).answer == InvalidJob <==> IsInvalid(input, lib)
    ensures Enqueue(db, input, id, now, lib).answer != Done ==> Enqueue(db, input, id, now, lib).db == db
  {
    hide NewRow, IsInvalid, RowConverts, ColumnsFit, PayloadFits, IsTaken;
    NoRowExactly(input, id, now, lib);
  }

  lemma NoRowExactly(input: EnqueueInput, id: JobId, now: Time, lib: JsonLibrary)
    ensures NewRow(input, id, now, lib).None? <==> IsInvalid(input, lib)
  {
    DefaultPayloadSize();
    hide Trim, Utf8Size;
  }

  lemma DefaultPayloadSize()
    ensures Utf8Size("{}") == 2
  {
    assert "{}"[1..] == "}" && "}"[1..] == "";
  }

  /** The row of a new job, from what the caller asked for. */
  predicate IsNewRow(row: Row, input: EnqueueInput, id: JobId, now: Time) {
    && row.kind == Trim(input.kind) && row.resourceKey == Trim(input.resourceKey)
    && row.idempotencyKey == (if Trim(input.idempotencyKey) == "" then id else Trim(input.idempotencyKey))
    && row.payload == (if input.payload == "" then "{}" else Trim(input.payload))
    && row.maxAttempts == (if input.maxAttempts <= 0 then 1 else input.maxAttempts)
    && row.runAfter == (if input.runAfter.Some? then input.runAfter.value else now)
    && row.status == Queued && row.attempts == 0 && row.retryable
    && row.claimToken == None && row.leaseExpiresAt == None && row.startedAt == None && row.finishedAt == None
    && row.resultCode == None && row.result == None && row.createdAt == now && row.updatedAt == now
  }

  /** An accepted enqueue adds one row with what the caller asked for, and changes nothing else. */
  lemma EnqueueStoresTheInput(db: Db, input: EnqueueInput, id: JobId, now: Time, lib: JsonLibrary)
    requires Enqueue(db, input, id, now, lib).answer == Done
    ensures var db' := Enqueue(db, input, id, now, lib).db;
            && id !in db.rows && db'.rows.Keys == db.rows.Keys + {id}
            && IsNewRow(db'.rows[id], input, id, now)
            && (forall other | other in db.rows :: db'.rows[other] == db.rows[other])
            && db'.logs == db.logs && db'.audits == db.audits
  {
    hide Trim, Utf8Size, RowConverts, ColumnsFit, PayloadFits;
  }

  /** Nobody has the key of an accepted enqueue yet. */
  lemma AcceptedKeyIsNew(db: Db, input: EnqueueInput, id: JobId, now: Time, lib: JsonLibrary, other: JobId)
    requires Enqueue(db, input, id, now, lib).answer == Done && other in db.rows
    ensures var key := if Trim(input.idempotencyKey) == "" then id else Trim(input.idempotencyKey);
            db.rows[other].idempotencyKey != key
  {
    hide Trim, Utf8Size, RowConverts, ColumnsFit, PayloadFits;
  }

  /** Event `i` enqueues a job under this key, and is accepted. */
  ghost predicate EnqueuesUnder(cfg: Config, r: Run, i: nat, key: string) {
    && i < |r.events| && i < |r.states| && r.events[i].Enqueued?
    && Trim(r.events[i].input.idempotencyKey) == key
    && Enqueue(r.states[i].db, r.events[i].input, r.events[i].id, r.events[i].at, cfg.lib).answer == Done
  }

  /** Of all enqueues with one key in a run, whatever happens to the jobs, at most one is accepted. */
  lemma OneJobPerKey(cfg: Config, r: Run, i: nat, j: nat, key: string)
    requires IsRun(cfg, r) && key != "" && EnqueuesUnder(cfg, r, i, key) && EnqueuesUnder(cfg, r, j, key)
    ensures i == j
  {
    if i < j {
      NoSecondJob(cfg, r, i, j, key);
    } else if j < i {
      NoSecondJob(cfg, r, j, i, key);
    }
  }

  lemma NoSecondJob(cfg: Config, r: Run, i: nat, j: nat, key: string)
    requires IsRun(cfg, r) && key != "" && EnqueuesUnder(cfg, r, i, key) && i < j < |r.events|
    ensures !EnqueuesUnder(cfg, r, j, key)
  {
    hide Trim, Enqueue, Enabled, Blank;
    var e := r.events[i];
    assert r.states[i + 1] == Next(cfg, r.states[i], e);
    EnqueueStoresTheInput(r.states[i].db, e.input, e.id, e.at, cfg.lib);
    hide Next;
    JobsEndure(cfg, r, i + 1, j, e.id);
    if EnqueuesUnder(cfg, r, j, key) {
      var f := r.events[j];
      AcceptedKeyIsNew(r.states[j].db, f.input, f.id, f.at, cfg.lib, e.id);
    }
  }
}
