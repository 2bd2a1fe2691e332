/** The store: the jobs table as mutable state, updated by one method per statement or transaction. */
module JobStore {
  import opened Base
  import opened Text
  import opened Results
  import opened JobTable

  /** ORDER BY lease_expires_at LIMIT 1 over the ids that are left. */
  method EarliestLease(rows: map<JobId, Row>, ids: set<JobId>) returns (first: JobId)
    requires ids != {}
    requires forall id | id in ids :: id in rows && rows[id].leaseExpiresAt.Some?
    ensures first in ids
    ensures forall id | id in ids :: rows[first].leaseExpiresAt.value <= rows[id].leaseExpiresAt.value
  {
    first :| first in ids;
    var todo := ids - {first};
    while todo != {}
      invariant first in ids && todo <= ids
      invariant forall id | id in ids - todo :: rows[first].leaseExpiresAt.value <= rows[id].leaseExpiresAt.value
      decreases todo
    {
      var id :| id in todo;
      todo := todo - {id};
      if rows[id].leaseExpiresAt.value < rows[first].leaseExpiresAt.value {
        first := id;
      }
    }
  }

  /** expired_candidates: ORDER BY lease_expires_at FOR UPDATE SKIP LOCKED LIMIT 100. */
  method SelectExpired(rows: map<JobId, Row>, c: ClaimCall) returns (swept: seq<JobId>)
    ensures IsSweep(rows, c, swept)
  {
    swept := [];
    var left := set id | id in rows && Sweepable(rows, c, id);
    while |swept| < SWEEP_LIMIT && left != {}
      invariant |swept| <= SWEEP_LIMIT
      invariant forall i, j | 0 <= i < j < |swept| :: swept[i] != swept[j]
      invariant forall id | id in swept :: Sweepable(rows, c, id) && id !in left
      invariant forall id | id in left :: Sweepable(rows, c, id)
      invariant forall id | Sweepable(rows, c, id) :: id in swept || id in left
      invariant forall a, b | a in swept && b in left ::
                  rows[a].leaseExpiresAt.value <= rows[b].leaseExpiresAt.value
      decreases left
    {
      var id := EarliestLease(rows, left);
      swept := swept + [id];
      left := left - {id};
    }
  }

  /** next_candidate: ORDER BY run_after, created_at FOR UPDATE SKIP LOCKED LIMIT 1. */
  method SelectNext(rows: map<JobId, Row>, c: ClaimCall) returns (candidate: Option<JobId>)
    ensures IsCandidate(rows, c, candidate)
  {
    candidate := None;
    var todo := rows.Keys;
    while todo != {}
      invariant todo <= rows.Keys
      invariant candidate.Some? ==> Pickable(rows, c, candidate.value)
      invariant forall id | id in rows.Keys - todo && Pickable(rows, c, id) ::
                  candidate.Some? && NotAfter(rows[candidate.value], rows[id])
      decreases todo
    {
      var id :| id in todo;
      todo := todo - {id};
      if Pickable(rows, c, id) && (candidate.None? || !NotAfter(rows[candidate.value], rows[id])) {
        candidate := Some(id);
      }
    }
  }

  class JobStore {
    var rows: map<JobId, Row>
    var logs: seq<LogRow>
    var audits: seq<AuditRow>

    function Contents(): Db
      reads this
    {
      Db(rows, logs, audits)
    }

    constructor ()
      ensures Contents() == EMPTY_DB
    {
      rows, logs, audits := map[], [], [];
    }

    method InsertJob(id: JobId, row: Row, lib: JsonLibrary) returns (answer: Answer)
      modifies this
      ensures Reply(Contents(), answer) == Insert(old(Contents()), id, row, lib)
    {
      if !RowConverts(row, lib) {
        return Refused(NOT_CONVERTIBLE);
      }
      if !ColumnsFit(row) || !PayloadFits(row.payload, lib) {
        return Refused(NOT_STORABLE);
      }
      if IsTaken(rows, id, row.idempotencyKey) {
        return Refused(DUPLICATE);
      }
      rows := rows[id := row];
      return Done;
    }

    /** UPDATE ... FROM expired_candidates with its log rows. */
    method FailExpired(expired: seq<JobId>, now: Time)
      requires forall id | id in expired :: id in rows
      requires forall i, j | 0 <= i < j < |expired| :: expired[i] != expired[j]
      modifies this`rows, this`logs
      ensures rows == map id | id in old(rows) :: if id in expired then SweptRow(old(rows)[id], now) else old(rows)[id]
      ensures logs == old(logs) + SweepLogs(expired, now)
    {
      hide SweptRow;
      for i := 0 to |expired|
        invariant rows.Keys == old(rows).Keys
        invariant forall id | id in old(rows) ::
                    rows[id] == if id in expired[..i] then SweptRow(old(rows)[id], now) else old(rows)[id]
        invariant logs == old(logs) + SweepLogs(expired, now)[..i]
      {
        var id := expired[i];
        assert expired[..i + 1] == expired[..i] + [id];
        assert id in expired;
        assert id !in expired[..i];
        rows := rows[id := SweptRow(rows[id], now)];
        logs := logs + [LogRow(id, "error", SWEEP_MESSAGE, now)];
      }
      assert expired[..|expired|] == expired;
      assert SweepLogs(expired, now)[..|expired|] == SweepLogs(expired, now);
    }

    /** The claim statement; `swept` and `candidate` are the choices the database made. */
    method ClaimOne(c: ClaimCall) returns (job: Option<Job>, ghost swept: seq<JobId>, ghost candidate: Option<JobId>)
      modifies this
      ensures IsSweep(old(rows), c, swept) && IsCandidate(old(rows), c, candidate)
      ensures Contents() == AfterClaim(old(Contents()), c, swept, Granted(old(rows), c, candidate))
      ensures match Granted(old(rows), c, candidate)
              case Some(id) => id in rows && job == Some(Job(id, rows[id]))
              case None => job == None
    {
      hide Blocked, SweptRow, ClaimedRow, NotAfter;
      var expired := SelectExpired(rows, c);
      var next := SelectNext(rows, c);
      swept, candidate := expired, next;
      FailExpired(expired, c.now);
      job := None;
      if next.Some? && (rows[next.value].resourceKey == "" || c.keyLockFree) {
        assert next.value !in expired;
        rows := rows[next.value := ClaimedRow(rows[next.value], c)];
        job := Some(Job(next.value, rows[next.value]));
      }
      assert rows == AfterClaim(old(Contents()), c, expired, Granted(old(rows), c, next)).rows;
    }

    /** insertLogs. */
    method InsertLogs(id: JobId, entries: seq<LogEntry>, at: Time)
      modifies this`logs
      ensures logs == old(logs) + LogRows(id, entries, at)
    {
      for i := 0 to |entries|
        invariant logs == old(logs) + LogRows(id, entries, at)[..i]
      {
        logs := logs + [LogRow(id, entries[i].level, entries[i].message, at)];
      }
      assert LogRows(id, entries, at)[..|entries|] == LogRows(id, entries, at);
    }

    method MarkJobSucceeded(job: Job, at: Time, result: ActionResult, lib: JsonLibrary) returns (answer: Answer)
      modifies this
      ensures Reply(Contents(), answer) == MarkSucceeded(old(Contents()), job, at, result, lib)
    {
      if !Converts(result, lib) {
        return Refused(NOT_CONVERTIBLE);
      }
      if !HoldsClaim(Contents(), job) {
        return InvalidTransition;
      }
      if !ResultFits(result) || !Storable(result, lib) {
        return Refused(NOT_STORABLE);
      }
      rows := rows[job.id := SucceededRow(rows[job.id], result, at)];
      InsertLogs(job.id, result.logs, at);
      return Done;
    }

    method MarkJobFailed(job: Job, f: FailureMark) returns (answer: Answer)
      modifies this
      ensures Reply(Contents(), answer) == MarkFailed(old(Contents()), job, f)
    {
      if !HoldsClaim(Contents(), job) {
        return InvalidTransition;
      }
      if |f.message| > MAX_MESSAGE_RUNES || !Textual(f.message) {
        return Refused(NOT_STORABLE);
      }
      rows := rows[job.id := FailedRow(rows[job.id], f)];
      if f.message != "" {
        logs := logs + [LogRow(job.id, "error", f.message, f.at)];
      }
      return Done;
    }

    /** mutate. */
    method OperateOn(call: OperatorCall) returns (answer: Answer)
      modifies this
      ensures Reply(Contents(), answer) == Operate(old(Contents()), call)
    {
      if call.id !in rows {
        return NotFound;
      }
      if !MayOperate(rows[call.id], call.action) {
        return InvalidTransition;
      }
      if !call.recorded {
        return Refused("audit event not recorded");
      }
      rows := rows[call.id := OperatedRow(rows[call.id], call)];
      audits := audits + [AuditRow(call.actor, ActionName(call.action), call.id)];
      return Done;
    }
  }

  /** Queue.Enqueue: the checks and defaults step by step, then the INSERT. */
  method EnqueueJob(store: JobStore, input: EnqueueInput, id: JobId, now: Time, lib: JsonLibrary)
    returns (answer: Answer)
    modifies store
    ensures Reply(store.Contents(), answer) == Enqueue(old(store.Contents()), input, id, now, lib)
  {
    hide Trim, Utf8Size, ColumnsFit, RowConverts, PayloadFits, IsTaken;
    var kind, key, idem := Trim(input.kind), Trim(input.resourceKey), Trim(input.idempotencyKey);
    if kind == "" || Utf8Size(kind) > MAX_TYPE_BYTES || Utf8Size(key) > MAX_RESOURCE_KEY_BYTES
       || Utf8Size(idem) > MAX_IDEMPOTENCY_BYTES {
      return InvalidJob;
    }
    var payload, valid := "{}", true;
    if input.payload != "" {
      payload := Trim(input.payload);
      valid := lib.valid(payload);
    }
    if payload == "" || Utf8Size(payload) > MAX_PAYLOAD_BYTES || payload[0] != '{' || !valid {
      return InvalidJob;
    }
    var attempts := if input.maxAttempts <= 0 then 1 else input.maxAttempts;
    if attempts > MAX_ATTEMPTS {
      return InvalidJob;
    }
    var runAfter := now;
    if input.runAfter.Some? {
      runAfter := input.runAfter.value;
    }
    if idem == "" {
      idem := id;
    }
    answer := store.InsertJob(id, Row(kind, key, idem, payload, Queued, 0, attempts, true, None, runAfter,
                                      None, None, None, None, None, now, now), lib);
  }
}
