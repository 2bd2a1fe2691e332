/**
  The jobs table and what each statement of the store does to it, as relations between a table
  before and after. A statement is one atomic step; what PostgreSQL leaves open (ties in an ORDER
  BY, rows skipped because another transaction has them locked, the outcome of the advisory lock,
  the snapshot a subquery reads) is a parameter of the step.
 */
module JobTable {
  import opened Base
  import opened Text
  import opened Results

  type JobId = string
  type Token = string

  /** Nanoseconds on one global clock. */
  type Time = int

  const SECOND: Time := 1_000_000_000
  const MINUTE: Time := 60 * SECOND

  const MAX_TYPE_BYTES := 128
  const MAX_RESOURCE_KEY_BYTES := 512
  const MAX_IDEMPOTENCY_BYTES := 128
  const MAX_ATTEMPTS := 25
  const SWEEP_LIMIT := 100
  const SWEEP_MESSAGE := "job lease expired after final attempt"

  datatype Status = Queued | Running | Succeeded | Failed | Cancelled

  datatype Row = Row(
    kind: string,
    resourceKey: string,
    idempotencyKey: string,
    payload: string,
    status: Status,
    attempts: int,
    maxAttempts: int,
    retryable: bool,
    claimToken: Option<Token>,
    runAfter: Time,
    leaseExpiresAt: Option<Time>,
    startedAt: Option<Time>,
    finishedAt: Option<Time>,
    resultCode: Option<string>,
    result: Option<string>,
    createdAt: Time,
    updatedAt: Time)

  /** A job as the store hands it to a caller: its id and a copy of its row at that moment. */
  datatype Job = Job(id: JobId, row: Row)

  datatype LogRow = LogRow(job: JobId, level: string, message: string, at: Time)

  datatype AuditRow = AuditRow(actor: string, action: string, job: JobId)

  datatype Db = Db(rows: map<JobId, Row>, logs: seq<LogRow>, audits: seq<AuditRow>)

  const EMPTY_DB := Db(map[], [], [])

  datatype Answer =
    | Done
    | NotFound
    | InvalidTransition
    | InvalidJob
    | Refused(why: string)

  datatype Reply = Reply(db: Db, answer: Answer)

  /** Why the database refuses a statement. */
  const NOT_CONVERTIBLE := "parameter cannot be converted"
  const NOT_STORABLE := "value cannot be stored"
  const DUPLICATE := "duplicate key"

  /** The columns no statement ever updates. */
  datatype Identity = Identity(
    kind: string, resourceKey: string, idempotencyKey: string, payload: string, maxAttempts: int, createdAt: Time)

  function IdentityOf(row: Row): Identity {
    Identity(row.kind, row.resourceKey, row.idempotencyKey, row.payload, row.maxAttempts, row.createdAt)
  }

  // ---------------------------------------------------------------- the claim statement

  /** A lease that has not run out at `now`; it blocks other jobs with the same resource key. */
  predicate Live(row: Row, now: Time) {
    row.status.Running? && row.leaseExpiresAt.Some? && row.leaseExpiresAt.value > now
  }

  predicate LeaseOver(row: Row, now: Time) {
    row.status.Running? && row.leaseExpiresAt.Some? && row.leaseExpiresAt.value <= now
  }

  /** Swept: the lease of the last attempt ran out. */
  predicate Exhausted(row: Row, now: Time) { LeaseOver(row, now) && row.attempts >= row.maxAttempts }

  /** Claimable as far as the row itself is concerned. */
  predicate Due(row: Row, now: Time) {
    && row.attempts < row.maxAttempts
    && ((row.status.Queued? && row.runAfter <= now) || LeaseOver(row, now))
  }

  predicate Blocked(view: map<JobId, Row>, id: JobId, key: string, now: Time) {
    exists other | other in view :: other != id && Live(view[other], now) && view[other].resourceKey == key
  }

  predicate Eligible(rows: map<JobId, Row>, view: map<JobId, Row>, now: Time, id: JobId) {
    && id in rows && Due(rows[id], now)
    && (rows[id].resourceKey == "" || !Blocked(view, id, rows[id].resourceKey, now))
  }

  /** ORDER BY run_after, created_at: `a` may come before `b`. */
  predicate NotAfter(a: Row, b: Row) {
    a.runAfter < b.runAfter || (a.runAfter == b.runAfter && a.createdAt <= b.createdAt)
  }

  /**
    One call of the claim statement: its arguments, the token the database generates, the snapshot
    in which NOT EXISTS looks for running jobs, the rows that SKIP LOCKED passes over, and whether
    the advisory lock on the candidate's resource key is free.
   */
  datatype ClaimCall = ClaimCall(
    now: Time,
    leaseUntil: Time,
    token: Token,
    view: map<JobId, Row>,
    sweepLocked: set<JobId>,
    pickLocked: set<JobId>,
    keyLockFree: bool)

  predicate Sweepable(rows: map<JobId, Row>, c: ClaimCall, id: JobId) {
    id in rows && Exhausted(rows[id], c.now) && id !in c.sweepLocked
  }

  /** The rows of expired_candidates: at most 100, those with the earliest leases. */
  ghost predicate IsSweep(rows: map<JobId, Row>, c: ClaimCall, swept: seq<JobId>) {
    && |swept| <= SWEEP_LIMIT
    && (forall i, j | 0 <= i < j < |swept| :: swept[i] != swept[j])
    && (forall id | id in swept :: Sweepable(rows, c, id))
    && (|swept| < SWEEP_LIMIT ==> forall id | Sweepable(rows, c, id) :: id in swept)
    && (forall a, b | a in swept && Sweepable(rows, c, b) && b !in swept ::
          rows[a].leaseExpiresAt.value <= rows[b].leaseExpiresAt.value)
  }

  predicate Pickable(rows: map<JobId, Row>, c: ClaimCall, id: JobId) {
    Eligible(rows, c.view, c.now, id) && id !in c.pickLocked
  }

  /** The row of next_candidate, if any: a least one in (run_after, created_at). */
  ghost predicate IsCandidate(rows: map<JobId, Row>, c: ClaimCall, candidate: Option<JobId>) {
    match candidate
    case Some(id) =>
      && Pickable(rows, c, id)
      && forall other | Pickable(rows, c, other) :: NotAfter(rows[id], rows[other])
    case None => forall id :: !Pickable(rows, c, id)
  }

  /** The row of next: the candidate, unless its key's advisory lock is taken. */
  function Granted(rows: map<JobId, Row>, c: ClaimCall, candidate: Option<JobId>): (granted: Option<JobId>)
    ensures granted.Some? ==> granted.value in rows
  {
    match candidate
    case Some(id) =>
      if id in rows && (rows[id].resourceKey == "" || c.keyLockFree) then Some(id) else None
    case None => None
  }

  function SweptRow(row: Row, now: Time): Row {
    row.(status := Failed, retryable := true, claimToken := None, leaseExpiresAt := None,
         finishedAt := Some(now), updatedAt := now)
  }

  function ClaimedRow(row: Row, c: ClaimCall): Row {
    row.(status := Running, attempts := row.attempts + 1, claimToken := Some(c.token),
         leaseExpiresAt := Some(c.leaseUntil), startedAt := Some(c.now), finishedAt := None, updatedAt := c.now)
  }

  function SweepLogs(swept: seq<JobId>, now: Time): seq<LogRow> {
    seq(|swept|, i requires 0 <= i < |swept| => LogRow(swept[i], "error", SWEEP_MESSAGE, now))
  }

  function AfterClaim(db: Db, c: ClaimCall, swept: seq<JobId>, picked: Option<JobId>): Db {
    db.(rows := map id | id in db.rows ::
                  if id in swept then SweptRow(db.rows[id], c.now)
                  else if picked == Some(id) then ClaimedRow(db.rows[id], c)
                  else db.rows[id],
        logs := db.logs + SweepLogs(swept, c.now))
  }

  // ---------------------------------------------------------------- finalising a claim

  /** WHERE id = $1 AND status = 'running' AND claim_token = $2. */
  predicate HoldsClaim(db: Db, job: Job) {
    && job.id in db.rows && db.rows[job.id].status.Running?
    && job.row.claimToken.Some? && db.rows[job.id].claimToken == job.row.claimToken
  }

  function LogRows(id: JobId, logs: seq<LogEntry>, at: Time): seq<LogRow> {
    seq(|logs|, i requires 0 <= i < |logs| => LogRow(id, logs[i].level, logs[i].message, at))
  }

  function SucceededRow(row: Row, result: ActionResult, at: Time): Row {
    row.(status := Succeeded, retryable := false, claimToken := None, leaseExpiresAt := None,
         resultCode := Some(result.code), result := if result.data == "" then None else Some(result.data),
         finishedAt := Some(at), updatedAt := at)
  }

  /**
    MarkSucceeded: row and logs in one transaction. A parameter that cannot be converted fails the
    UPDATE whatever the row; a violated CHECK or a log that cannot be stored rolls both back.
   */
  function MarkSucceeded(db: Db, job: Job, at: Time, result: ActionResult, lib: JsonLibrary): Reply {
    if !Converts(result, lib) then Reply(db, Refused(NOT_CONVERTIBLE))
    else if !HoldsClaim(db, job) then Reply(db, InvalidTransition)
    else if !ResultFits(result) || !Storable(result, lib) then Reply(db, Refused(NOT_STORABLE))
    else
      Reply(db.(rows := db.rows[job.id := SucceededRow(db.rows[job.id], result, at)],
                logs := db.logs + LogRows(job.id, result.logs, at)), Done)
  }

  datatype FailureMark = FailureMark(final: bool, retryable: bool, runAfter: Time, at: Time, message: string)

  function FailedRow(row: Row, f: FailureMark): Row {
    row.(status := if f.final then Failed else Queued,
         runAfter := f.runAfter,
         finishedAt := if f.final then Some(f.at) else None,
         retryable := f.retryable, claimToken := None, leaseExpiresAt := None,
         startedAt := if f.final then row.startedAt else None,
         updatedAt := f.at)
  }

  function FailureLogs(id: JobId, f: FailureMark): seq<LogRow> {
    if f.message == "" then [] else [LogRow(id, "error", f.message, f.at)]
  }

  function MarkFailed(db: Db, job: Job, f: FailureMark): Reply {
    if !HoldsClaim(db, job) then Reply(db, InvalidTransition)
    else if |f.message| > MAX_MESSAGE_RUNES || !Textual(f.message) then Reply(db, Refused(NOT_STORABLE))
    else
      Reply(db.(rows := db.rows[job.id := FailedRow(db.rows[job.id], f)],
                logs := db.logs + FailureLogs(job.id, f)), Done)
  }

  // ---------------------------------------------------------------- the queue above the store

  datatype FailureInput = FailureInput(message: string, backoff: Time, permanent: bool)

  datatype FinalAction = SucceedWith(result: ActionResult) | FailWith(failure: FailureInput)

  predicate NamesClaim(job: Job) {
    !Blank(job.id) && job.row.claimToken.Some? && !Blank(job.row.claimToken.value)
  }

  /** Queue.Fail: the caller's copy of the job decides whether this was the last attempt. */
  function FailureMarkFor(job: Job, input: FailureInput, now: Time): FailureMark {
    var final := input.permanent || job.row.attempts >= job.row.maxAttempts;
    FailureMark(final, !input.permanent, if final then now else now + input.backoff, now,
                if Blank(input.message) then input.message else SafeMessage(input.message))
  }

  /** Queue.Succeed and Queue.Fail. */
  function Finalise(db: Db, job: Job, action: FinalAction, now: Time, lib: JsonLibrary): Reply {
    if !NamesClaim(job) then Reply(db, InvalidJob)
    else
      match action
      case SucceedWith(result) =>
        (match NormalizeResult(result, lib)
         case Err(why) => Reply(db, Refused(why))
         case Ok(normal) => MarkSucceeded(db, job, now, normal, lib))
      case FailWith(input) =>
        if input.backoff < 0 then Reply(db, InvalidJob)
        else MarkFailed(db, job, FailureMarkFor(job, input, now))
  }

  /** The row that an accepted finalisation leaves in place of `row`. */
  function FinalRow(row: Row, job: Job, action: FinalAction, now: Time, lib: JsonLibrary): Row {
    match action
    case SucceedWith(result) =>
      var normal := NormalizeResult(result, lib);
      SucceededRow(row, if normal.Ok? then normal.value else result, now)
    case FailWith(input) => FailedRow(row, FailureMarkFor(job, input, now))
  }

  lemma FinaliseWritesOneRow(db: Db, job: Job, action: FinalAction, now: Time, lib: JsonLibrary)
    requires Finalise(db, job, action, now, lib).answer.Done?
    ensures HoldsClaim(db, job)
    ensures Finalise(db, job, action, now, lib).db.rows
         == db.rows[job.id := FinalRow(db.rows[job.id], job, action, now, lib)]
  {
    hide Blank, NormalizeResult, SafeMessage, ResultFits, Converts, Storable, SucceededRow, FailedRow;
  }

  datatype EnqueueInput = EnqueueInput(
    kind: string, resourceKey: string, idempotencyKey: string,
    payload: string, maxAttempts: int, runAfter: Option<Time>)

  /** Queue.Enqueue up to the INSERT: the row to insert, or None for ErrInvalidJob. */
  function NewRow(input: EnqueueInput, id: JobId, now: Time, lib: JsonLibrary): Option<Row> {
    var kind, key, idem := Trim(input.kind), Trim(input.resourceKey), Trim(input.idempotencyKey);
    var payload := if input.payload == "" then "{}" else Trim(input.payload);
    var max := if input.maxAttempts <= 0 then 1 else input.maxAttempts;
    if kind == "" || Utf8Size(kind) > MAX_TYPE_BYTES || Utf8Size(key) > MAX_RESOURCE_KEY_BYTES
       || Utf8Size(idem) > MAX_IDEMPOTENCY_BYTES then None
    else if payload == "" || Utf8Size(payload) > MAX_PAYLOAD_BYTES
            || (input.payload != "" && (payload[0] != '{' || !lib.valid(payload))) then None
    else if max > MAX_ATTEMPTS then None
    else
      Some(Row(kind, key, if idem == "" then id else idem, payload, Queued, 0, max, true, None,
               if input.runAfter.Some? then input.runAfter.value else now,
               None, None, None, None, None, now, now))
  }

  /** The CHECK constraints on the columns an INSERT fills, except those on the payload. */
  predicate ColumnsFit(row: Row) {
    && 1 <= Utf8Size(row.kind) <= MAX_TYPE_BYTES
    && Utf8Size(row.resourceKey) <= MAX_RESOURCE_KEY_BYTES
    && 1 <= Utf8Size(row.idempotencyKey) <= MAX_IDEMPOTENCY_BYTES
    && 1 <= row.maxAttempts <= MAX_ATTEMPTS && 0 <= row.attempts <= row.maxAttempts
  }

  predicate RowConverts(row: Row, lib: JsonLibrary) {
    && Textual(row.kind) && Textual(row.resourceKey) && Textual(row.idempotencyKey)
    && lib.jsonb(row.payload).Some?
  }

  /** The payload's CHECKs, on the text that the database renders: an object, and not too long. */
  predicate PayloadFits(payload: string, lib: JsonLibrary) {
    && lib.jsonb(payload).Some?
    && var text := lib.jsonb(payload).value;
       text != "" && text[0] == '{' && Utf8Size(text) <= MAX_PAYLOAD_BYTES
  }

  predicate IsTaken(rows: map<JobId, Row>, id: JobId, key: string) {
    id in rows || exists other | other in rows :: rows[other].idempotencyKey == key
  }

  function Insert(db: Db, id: JobId, row: Row, lib: JsonLibrary): Reply {
    if !RowConverts(row, lib) then Reply(db, Refused(NOT_CONVERTIBLE))
    else if !ColumnsFit(row) || !PayloadFits(row.payload, lib) then Reply(db, Refused(NOT_STORABLE))
    else if IsTaken(db.rows, id, row.idempotencyKey) then Reply(db, Refused(DUPLICATE))
    else Reply(db.(rows := db.rows[id := row]), Done)
  }

  function Enqueue(db: Db, input: EnqueueInput, id: JobId, now: Time, lib: JsonLibrary): Reply {
    match NewRow(input, id, now, lib)
    case None => Reply(db, InvalidJob)
    case Some(row) => Insert(db, id, row, lib)
  }

  // ---------------------------------------------------------------- operator actions

  datatype OperatorAction = Retry | Cancel

  /** `recorded` tells whether the audit event in the same transaction could be written. */
  datatype OperatorCall = OperatorCall(action: OperatorAction, id: JobId, actor: string, now: Time, recorded: bool)

  function OperatedRow(row: Row, call: OperatorCall): Row {
    var queued := call.action.Retry?;
    row.(status := if queued then Queued else Cancelled,
         attempts := if queued then 0 else row.attempts,
         retryable := queued,
         runAfter := if queued then call.now else row.runAfter,
         startedAt := None,
         finishedAt := if queued then None else Some(call.now),
         resultCode := None, result := None, updatedAt := call.now)
  }

  function ActionName(action: OperatorAction): string {
    match action
    case Retry => "job.retried"
    case Cancel => "job.cancelled"
  }

  predicate MayOperate(row: Row, action: OperatorAction) {
    match action
    case Retry => row.status.Failed? && row.retryable
    case Cancel => row.status.Queued?
  }

  /** mutate: the guarded transition and its audit event, or neither. */
  function Operate(db: Db, call: OperatorCall): Reply {
    if call.id !in db.rows then Reply(db, NotFound)
    else if !MayOperate(db.rows[call.id], call.action) then Reply(db, InvalidTransition)
    else if !call.recorded then Reply(db, Refused("audit event not recorded"))
    else
      Reply(db.(rows := db.rows[call.id := OperatedRow(db.rows[call.id], call)],
                audits := db.audits + [AuditRow(call.actor, ActionName(call.action), call.id)]), Done)
  }
}
