/** What ends up in the table: results, failures, new jobs, retried jobs, and the audit trail. */
module JobOutcomes {
  import opened Base
  import opened Text
  import opened Results
  import opened JobTable
  import opened JobWorker
  import opened JobSystem
  import opened JobInvariant

  // ---------------------------------------------------------------- results

  /** One log entry of a result as it is stored: normalised by the worker, and once more by the queue. */
  function StoredLog(id: JobId, log: LogEntry, at: Time): LogRow {
    LogRow(id, Lower(Trim(log.level)), TrimRight(SafeMessage(log.message)), at)
  }

  function StoredLogs(id: JobId, logs: seq<LogEntry>, at: Time): seq<LogRow> {
    seq(|logs|, i requires 0 <= i < |logs| => StoredLog(id, logs[i], at))
  }

  /** Only job `id` differs between the two tables, and no audit event is added or lost. */
  ghost predicate OnlyJobChanges(db: Db, db': Db, id: JobId) {
    && id in db.rows && db'.rows.Keys == db.rows.Keys && db'.audits == db.audits
    && forall other | other in db.rows && other != id :: db'.rows[other] == db.rows[other]
  }

  lemma NormalFields(r: ActionResult, lib: JsonLibrary)
    requires NormalizeResult(r, lib).Ok?
    ensures NormalizeResult(r, lib).value == ActionResult(Trim(r.code), Trim(r.data), NormalizeLogs(r.logs))
    ensures LevelsKnown(r.logs)
  {
    hide Trim, Utf8Size, NormalizeLogs, DataAcceptable, DataSensitive, LevelsKnown;
  }

  lemma LogsStoredTwiceNormalised(id: JobId, logs: seq<LogEntry>, at: Time)
    requires LevelsKnown(logs)
    ensures LogRows(id, NormalizeLogs(NormalizeLogs(logs)), at) == StoredLogs(id, logs, at)
  {
    hide NormalizeLog, KnownLevel, SafeMessage, Trim, Lower, TrimRight, Level;
    forall i | 0 <= i < |logs|
      ensures NormalizeLog(NormalizeLog(logs[i]))
           == LogEntry(Lower(Trim(logs[i].level)), TrimRight(SafeMessage(logs[i].message)))
    {
      TwiceNormalisedLog(logs[i]);
    }
  }

  lemma TwiceNormalisedLog(log: LogEntry)
    requires KnownLevel(Level(log))
    ensures NormalizeLog(NormalizeLog(log)) == LogEntry(Lower(Trim(log.level)), TrimRight(SafeMessage(log.message)))
  {
    hide SafeMessage, Trim, Lower, TrimRight, KnownLevel;
    NormalizeLogAgain(log);
  }

  /** The row of a job that succeeded with `result`. */
  predicate HoldsResult(row: Row, before: Row, result: ActionResult, at: Time) {
    && row.status.Succeeded? && row.resultCode == Some(Trim(result.code))
    && row.result == (if Trim(result.data) == "" then None else Some(Trim(result.data)))
    && row.finishedAt == Some(at) && row.updatedAt == at && row.startedAt == before.startedAt
    && row.attempts == before.attempts && row.runAfter == before.runAfter
    && IdentityOf(row) == IdentityOf(before)
  }

  /**
    From the executor to the table: an accepted success stores the executor's own code and data,
    trimmed, and one log row for each of its entries in order, and touches nothing else.
   */
  lemma SuccessStoresTheResult(db: Db, job: Job, result: ActionResult, interrupted: bool, at: Time, lib: JsonLibrary)
    requires var action := Decide(job, Returned(result), interrupted, lib);
             action.Some? && action.value.SucceedWith? && Finalise(db, job, action.value, at, lib).answer.Done?
    ensures var db' := Finalise(db, job, Decide(job, Returned(result), interrupted, lib).value, at, lib).db;
            && OnlyJobChanges(db, db', job.id)
            && HoldsResult(db'.rows[job.id], db.rows[job.id], result, at)
            && db'.logs == db.logs + StoredLogs(job.id, result.logs, at)
  {
    hide NormalizeLogs, Trim, Utf8Size, NormalizeResult, SafeMessage;
    hide ResultFits, Converts, Storable, Blank, LevelsKnown, StoredLogs, LogRows;
    NormalFields(result, lib);
    var once := NormalizeResult(result, lib).value;
    NormalizingAgainIsHarmless(result, lib);
    NormalFields(once, lib);
    TrimIsStable(result.code);
    TrimIsStable(result.data);
    LogsStoredTwiceNormalised(job.id, result.logs, at);
  }

  // ---------------------------------------------------------------- failures

  predicate Holds(rows: map<JobId, Row>, id: JobId, row: Row) { id in rows && rows[id] == row }

  /**
    The worker decides from its copy whether a failure is final, and is right about the row: the job
    is failed exactly if the error is permanent or the row's last attempt is used up; otherwise it is
    queued again with an attempt left, after the backoff of the attempt just made.
   */
  lemma FailureIsFinalExactly(cfg: Config, s: System, w: WorkerId, at: Time)
    requires Inv(cfg, s) && w in s.workers && s.workers[w].Finalising? && s.workers[w].action.FailWith?
    requires Finalise(s.db, s.workers[w].job, s.workers[w].action, at, cfg.lib).answer.Done?
    ensures var job := s.workers[w].job;
            var failure := s.workers[w].action.failure;
            var db' := Finalise(s.db, job, s.workers[w].action, at, cfg.lib).db;
            && OnlyJobChanges(s.db, db', job.id)
            && var before := s.db.rows[job.id];
               var row := db'.rows[job.id];
               && IdentityOf(row) == IdentityOf(before) && row.attempts == before.attempts && row.updatedAt == at
               && row.retryable == !failure.permanent
               && if failure.permanent || before.attempts >= before.maxAttempts
                  then row.status.Failed? && row.finishedAt == Some(at) && row.startedAt == before.startedAt
                  else row.status.Queued? && row.attempts < row.maxAttempts
                       && row.runAfter == at + Backoff(before.attempts) && row.startedAt.None?
  {
    hide RowsOk, CopiesOk, KeysDistinct, Blank, SafeMessage, Backoff, NormalizeResult, Textual;
    HoldersCopyIsCurrent(s, s.workers[w].job);
  }

  /** The message of an executor's error, stored once and cleaned; an error without text stores none. */
  lemma FailureStoresTheMessage(db: Db, job: Job, message: string, permanent: bool, at: Time, lib: JsonLibrary)
    requires var action := Decide(job, Raised(message, permanent, false), false, lib).value;
             Finalise(db, job, action, at, lib).answer.Done?
    ensures var action := Decide(job, Raised(message, permanent, false), false, lib).value;
            var text := TrimRight(SafeMessage(message));
            && !MentionsSecret(text) && |text| <= MAX_MESSAGE_RUNES
            && Finalise(db, job, action, at, lib).db.logs
               == db.logs + (if text == "" then [] else [LogRow(job.id, "error", text, at)])
  {
    hide Backoff, NormalizeResult, SafeMessage, TrimRight, TrimLeft, MentionsSecret, Textual;
    SafeMessageAgain(message);
    SafeMessageIsSafe(message);
    SafeMessageIsSafe(SafeMessage(message));
    BlankMessage(SafeMessage(message));
  }

  lemma BlankMessage(s: string)
    requires s != "" ==> !IsSpace(s[0])
    ensures Blank(s) <==> s == ""
    ensures s == "" ==> TrimRight(s) == ""
  {
    if s != "" {
      hide IsSpace;
      assert TrimLeft(s) == s;
      assert TrimRight(s) != "";
    }
  }

  // ---------------------------------------------------------------- new jobs

  lemma SizeOfText(s: string)
    ensures s != "" ==> Utf8Size(s) >= 1
  {
  }

  /**
    How an enqueue is answered: the panel's checks imply the table's length and number limits, so the
    database refuses only text it cannot convert, a payload it renders too long, and a key in use.
   */
  lemma EnqueueAnswersAreExact(db: Db, input: EnqueueInput, id: JobId, now: Time, lib: JsonLibrary)
    requires 1 <= Utf8Size(id) <= MAX_IDEMPOTENCY_BYTES
    ensures var row := NewRow(input, id, now, lib);
            && (row.Some? ==> ColumnsFit(row.value))
            && Enqueue(db, input, id, now, lib).answer ==
                 if row.None? then InvalidJob
                 else if !RowConverts(row.value, lib) then Refused(NOT_CONVERTIBLE)
                 else if !PayloadFits(row.value.payload, lib) then Refused(NOT_STORABLE)
                 else if IsTaken(db.rows, id, row.value.idempotencyKey) then Refused(DUPLICATE)
                 else Done
  {
    hide RowConverts, PayloadFits, IsTaken;
    SizeOfText(Trim(input.kind));
    SizeOfText(Trim(input.idempotencyKey));
    hide Trim, Utf8Size;
  }

  /** A retried or newly queued job can be claimed as soon as its time has come, with all attempts left. */
  lemma RetriedJobStartsOver(cfg: Config, s: System, order: OperatorCall, t: Time)
    requires Inv(cfg, s) && order.action.Retry? && Operate(s.db, order).answer.Done?
    ensures var db' := Operate(s.db, order).db;
            && order.id in s.db.rows && order.id in db'.rows
            && var row := db'.rows[order.id];
               && IdentityOf(row) == IdentityOf(s.db.rows[order.id])
               && row.attempts == 0 && row.resultCode.None? && row.finishedAt.None?
               && (Due(row, t) <==> order.now <= t)
               && db'.logs == s.db.logs
               && forall other | other in s.db.rows && other != order.id :: Holds(db'.rows, other, s.db.rows[other])
  {
    hide RowsOk, KeysDistinct, TokensCoherent, CopiesOk, WorkersOk, Utf8Size, LeaseOk;
    OneRowOk(cfg, s.db.rows, s.now, order.id);
    assert s.db.rows[order.id].maxAttempts >= 1 && s.db.rows[order.id].leaseExpiresAt.None?;
    hide RowOk, ColumnsFit;
  }

  // ---------------------------------------------------------------- the audit trail

  /** The audit rows of the operator actions accepted by the first `n` events, in order. */
  function AcceptedOrders(r: Run, n: nat): seq<AuditRow>
    requires n <= |r.events| && |r.states| == |r.events| + 1
  {
    if n == 0 then []
    else
      var s, e := r.states[n - 1], r.events[n - 1];
      AcceptedOrders(r, n - 1)
      + if e.Operated? && Operate(s.db, e.order).answer.Done?
        then [AuditRow(e.order.actor, ActionName(e.order.action), e.order.id)] else []
  }

  lemma TryKeepsAudits(db: Db, job: Job, action: FinalAction, t: Try, lib: JsonLibrary)
    ensures RunTry(db, job, action, t, lib).0.audits == db.audits
  {
    hide Blank, NormalizeResult, SafeMessage, ResultFits, Converts, Storable;
  }

  lemma EventAudits(cfg: Config, s: System, e: Event)
    requires Enabled(cfg, s, e)
    ensures Next(cfg, s, e).db.audits == s.db.audits
         + if e.Operated? && Operate(s.db, e.order).answer.Done?
           then [AuditRow(e.order.actor, ActionName(e.order.action), e.order.id)] else []
  {
    hide RunTry, Decide, IsSweep, IsCandidate, Blank, NewRow;
    hide RowConverts, PayloadFits, ColumnsFit, IsTaken, MayOperate, OperatedRow;
    if e.Finished? {
      TryKeepsAudits(s.db, s.workers[e.w].job, s.workers[e.w].action, e.t, cfg.lib);
    }
  }

  /** In every run the audit trail is exactly the list of accepted operator actions, none without the other. */
  lemma {:induction false} AuditTrailIsExact(cfg: Config, r: Run, n: nat)
    requires IsRun(cfg, r) && StartsEmpty(r) && n <= |r.events|
    ensures r.states[n].db.audits == AcceptedOrders(r, n)
  {
    hide Enabled, Next, Operate;
    if n > 0 {
      AuditTrailIsExact(cfg, r, n - 1);
      var e := r.events[n - 1];
      EventAudits(cfg, r.states[n - 1], e);
    }
  }
}
