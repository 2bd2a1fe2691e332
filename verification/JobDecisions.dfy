/**
  What one turn of the worker comes to in the table, from the executor's outcome: nothing, a success, a
  failure for good, or another attempt; and how the tries to record it end.
 */
module JobDecisions {
  import opened Base
  import opened Text
  import opened Results
  import opened JobTable
  import opened JobWorker
  import opened JobSystem
  import opened JobSafety
  import opened JobOutcomes

  /** One turn: its claim and the choices made in it, the executor's outcome, and the tries. */
  datatype TurnInput = TurnInput(
    c: ClaimCall, swept: seq<JobId>, candidate: Option<JobId>,
    outcome: Outcome, interrupted: bool, tries: seq<Try>)

  ghost predicate Turns(was: Db, t: TurnInput, lib: JsonLibrary, turn: Turn, after: Db) {
    t.tries != [] && IsTurn(was, t.c, t.swept, t.candidate, t.outcome, t.interrupted, t.tries, lib, turn, after)
  }

  /** The table after the claim. */
  function Claimed(was: Db, t: TurnInput): Db { AfterClaim(was, t.c, t.swept, Granted(was.rows, t.c, t.candidate)) }

  /**
    A claimed job is left leased exactly if the executor failed and it is not certain that nothing was
    done; a result is always finalised, interrupted or not.
   */
  lemma LeftLeasedExactly(was: Db, t: TurnInput, lib: JsonLibrary, turn: Turn, after: Db)
    requires Turns(was, t, lib, turn, after)
    ensures turn.NoWork? <==> Granted(was.rows, t.c, t.candidate).None?
    ensures turn.LeftLeased? <==> !turn.NoWork? && t.outcome.Raised? && (t.outcome.uncertain || t.interrupted)
    ensures !turn.Finalised? ==> after == Claimed(was, t)
    ensures !turn.NoWork? ==>
              var id := Granted(was.rows, t.c, t.candidate).value;
              id in Claimed(was, t).rows && turn.job == Job(id, Claimed(was, t).rows[id])
  {
    hide NormalizeResult, RunTries, IsSweep, IsCandidate, Granted, SafeMessage, SweptRow, ClaimedRow;
  }

  // ---------------------------------------------------------------- what is written

  /** Try `k` reached the database and is the one that changed the table. */
  predicate WrittenBy(t: TurnInput, k: nat) { k < |t.tries| && t.tries[k].delivery != NeverRan }

  /** Job `id` ends up with this row and these further log rows; everything else is as it was. */
  ghost predicate OnlyWrites(db: Db, after: Db, id: JobId, row: Row, logs: seq<LogRow>) {
    id in db.rows && after == Db(db.rows[id := row], db.logs + logs, db.audits)
  }

  function ErrorLog(id: JobId, message: string, at: Time): seq<LogRow> {
    var text := TrimRight(SafeMessage(message));
    if text == "" then [] else [LogRow(id, "error", text, at)]
  }

  /** A failure with no attempt left, or a permanent one, ends the job; only a permanent one for good. */
  function EndedRow(row: Row, permanent: bool, at: Time): Row {
    row.(status := Failed, retryable := !permanent, claimToken := None, leaseExpiresAt := None,
         runAfter := at, finishedAt := Some(at), updatedAt := at)
  }

  /** Any other failure queues it again, after the backoff of the attempt just made. */
  function RequeuedRow(row: Row, at: Time): Row {
    row.(status := Queued, retryable := true, claimToken := None, leaseExpiresAt := None,
         runAfter := at + BackoffSeconds(row.attempts) * 1_000_000_000,
         startedAt := None, finishedAt := None, updatedAt := at)
  }

  function CompletedRow(row: Row, code: string, data: string, at: Time): Row {
    row.(status := Succeeded, retryable := false, claimToken := None, leaseExpiresAt := None,
         resultCode := Some(code), result := if data == "" then None else Some(data),
         finishedAt := Some(at), updatedAt := at)
  }

  lemma AcceptedTry(db: Db, job: Job, action: FinalAction, tries: seq<Try>, lib: JsonLibrary) returns (k: nat)
    requires tries != [] && RunTries(db, job, action, tries, lib).0 != db
    ensures k < |tries| && tries[k].delivery != NeverRan
    ensures Finalise(db, job, action, tries[k].at, lib) == Reply(RunTries(db, job, action, tries, lib).0, Done)
  {
    hide Finalise, RunTries;
    RetriesApplyAtMostOnce(db, job, action, tries, lib);
    k :| 0 <= k < |tries| && !tries[k].delivery.NeverRan?
      && Finalise(db, job, action, tries[k].at, lib) == Reply(RunTries(db, job, action, tries, lib).0, Done);
  }

  lemma FailureIsWritten(db: Db, job: Job, message: string, backoff: Time, permanent: bool, at: Time, lib: JsonLibrary)
    requires var f := FailureInput(SafeMessage(message), backoff, permanent);
             Finalise(db, job, FailWith(f), at, lib).answer.Done?
    requires job.id in db.rows && db.rows[job.id] == job.row
    requires backoff == BackoffSeconds(job.row.attempts) * 1_000_000_000
    ensures var f := FailureInput(SafeMessage(message), backoff, permanent);
            OnlyWrites(db, Finalise(db, job, FailWith(f), at, lib).db, job.id,
                       if permanent || job.row.attempts >= job.row.maxAttempts
                       then EndedRow(job.row, permanent, at) else RequeuedRow(job.row, at),
                       ErrorLog(job.id, message, at))
  {
    hide SafeMessage, TrimRight, TrimLeft, BackoffSeconds, MentionsSecret, Textual, HoldsClaim, Blank;
    SafeMessageAgain(message);
    SafeMessageIsSafe(message);
    BlankMessage(SafeMessage(message));
  }

  /** A failure that the executor reports, or that its result amounts to, once it is recorded. */
  ghost predicate FailureRecorded(was: Db, t: TurnInput, k: nat, id: JobId, message: string, permanent: bool,
                                  after: Db) {
    var db := Claimed(was, t);
    && WrittenBy(t, k) && id in db.rows
    && var at := t.tries[k].at;
       OnlyWrites(db, after, id,
                  if permanent || db.rows[id].attempts >= db.rows[id].maxAttempts
                  then EndedRow(db.rows[id], permanent, at) else RequeuedRow(db.rows[id], at),
                  ErrorLog(id, message, at))
  }

  /** A failure of the executor: the error's own flag decides between for good and again. */
  lemma ErrorIsRecorded(was: Db, t: TurnInput, lib: JsonLibrary, turn: Turn, after: Db) returns (k: nat)
    requires Turns(was, t, lib, turn, after) && t.outcome.Raised? && after != Claimed(was, t)
    ensures FailureRecorded(was, t, k, turn.job.id, t.outcome.message, t.outcome.permanent, after)
  {
    hide NormalizeResult, RunTries, Finalise, IsSweep, IsCandidate, AfterClaim, Granted, SafeMessage, BackoffSeconds;
    LeftLeasedExactly(was, t, lib, turn, after);
    var db, job := Claimed(was, t), turn.job;
    var f := FailureInput(SafeMessage(t.outcome.message), Backoff(job.row.attempts), t.outcome.permanent);
    k := AcceptedTry(db, job, FailWith(f), t.tries, lib);
    FailureIsWritten(db, job, t.outcome.message, f.backoff, f.permanent, t.tries[k].at, lib);
  }

  /** A result that the panel does not accept: the job fails for good, with the reason in its log. */
  lemma BadResultIsRecorded(was: Db, t: TurnInput, lib: JsonLibrary, turn: Turn, after: Db) returns (k: nat)
    requires Turns(was, t, lib, turn, after) && t.outcome.Returned? && after != Claimed(was, t)
    requires NormalizeResult(t.outcome.result, lib).Err?
    ensures FailureRecorded(was, t, k, turn.job.id, NormalizeResult(t.outcome.result, lib).error, true, after)
  {
    hide NormalizeResult, RunTries, Finalise, IsSweep, IsCandidate, AfterClaim, Granted, SafeMessage, BackoffSeconds;
    LeftLeasedExactly(was, t, lib, turn, after);
    var db, job, why := Claimed(was, t), turn.job, NormalizeResult(t.outcome.result, lib).error;
    var f := FailureInput(SafeMessage(why), Backoff(job.row.attempts), true);
    k := AcceptedTry(db, job, FailWith(f), t.tries, lib);
    FailureIsWritten(db, job, why, f.backoff, true, t.tries[k].at, lib);
  }

  /** An accepted result is stored with its own trimmed code and data and its logs, whatever was interrupted. */
  lemma ResultIsRecorded(was: Db, t: TurnInput, lib: JsonLibrary, turn: Turn, after: Db) returns (k: nat)
    requires Turns(was, t, lib, turn, after) && t.outcome.Returned? && after != Claimed(was, t)
    requires NormalizeResult(t.outcome.result, lib).Ok?
    ensures WrittenBy(t, k) && turn.job.id in Claimed(was, t).rows
    ensures var db, id, at, result := Claimed(was, t), turn.job.id, t.tries[k].at, t.outcome.result;
            OnlyWrites(db, after, id, CompletedRow(db.rows[id], Trim(result.code), Trim(result.data), at),
                       StoredLogs(id, result.logs, at))
  {
    hide NormalizeResult, RunTries, Finalise, IsSweep, IsCandidate, AfterClaim, Granted, StoredLogs, Trim;
    LeftLeasedExactly(was, t, lib, turn, after);
    var db, job, result := Claimed(was, t), turn.job, t.outcome.result;
    var action := SucceedWith(NormalizeResult(result, lib).value);
    k := AcceptedTry(db, job, action, t.tries, lib);
    SuccessIsWritten(db, job, result, t.tries[k].at, lib);
  }

  lemma SuccessIsWritten(db: Db, job: Job, result: ActionResult, at: Time, lib: JsonLibrary)
    requires NormalizeResult(result, lib).Ok?
    requires Finalise(db, job, SucceedWith(NormalizeResult(result, lib).value), at, lib).answer.Done?
    ensures job.id in db.rows
    ensures OnlyWrites(db, Finalise(db, job, SucceedWith(NormalizeResult(result, lib).value), at, lib).db, job.id,
                       CompletedRow(db.rows[job.id], Trim(result.code), Trim(result.data), at),
                       StoredLogs(job.id, result.logs, at))
  {
    hide NormalizeLogs, Trim, NormalizeResult, ResultFits, Converts, Storable, Blank, LevelsKnown, StoredLogs, LogRows;
    NormalFields(result, lib);
    NormalizingAgainIsHarmless(result, lib);
    NormalFields(NormalizeResult(result, lib).value, lib);
    hide HoldsClaim;
    TrimIsStable(result.code);
    TrimIsStable(result.data);
    LogsStoredTwiceNormalised(job.id, result.logs, at);
    FinaliseWritesOneRow(db, job, SucceedWith(NormalizeResult(result, lib).value), at, lib);
  }

  // ---------------------------------------------------------------- how the tries end

  /** Nothing got through in the tries before `k`, and the wait was not cut short. */
  predicate LostBefore(tries: seq<Try>, k: nat) {
    k < |tries| && forall i | 0 <= i < k :: tries[i].delivery == NeverRan && !tries[i].giveUp
  }

  /** The first try that gets through decides, whichever of them it is. */
  lemma {:induction false} FirstDeliveryCounts(db: Db, job: Job, action: FinalAction, tries: seq<Try>, k: nat,
                                               lib: JsonLibrary)
    requires LostBefore(tries, k) && tries[k].delivery == Delivered
    requires Finalise(db, job, action, tries[k].at, lib).answer.Done?
    ensures RunTries(db, job, action, tries, lib)
         == (Finalise(db, job, action, tries[k].at, lib).db, Answered(Done))
    decreases |tries|
  {
    hide Finalise;
    if k > 0 {
      assert tries[1..][k - 1] == tries[k];
      FirstDeliveryCounts(db, job, action, tries[1..], k - 1, lib);
    }
  }

  /** There are three tries: a finalisation that gets through on the third, still held and storable, is applied. */
  lemma ThirdTryCounts(cfg: Config, s: System, w: WorkerId, tries: seq<Try>)
    requires Inv(cfg, s) && w in s.workers && s.workers[w].Finalising? && |tries| == MAX_TRIES
    requires HoldsClaim(s.db, s.workers[w].job) && ActionStorable(s.workers[w].action, cfg.lib)
    ensures |tries| == 3
    ensures LostBefore(tries, 2) && tries[2].delivery == Delivered ==>
              RunTries(s.db, s.workers[w].job, s.workers[w].action, tries, cfg.lib).1 == Answered(Done)
  {
    hide Inv, Finalise, HoldsClaim, ActionStorable, RunTries, Converts, Storable;
    AnswersAreExact(cfg, s, w, tries[2].at);
    StorableConverts(s.workers[w].action, cfg.lib);
    if LostBefore(tries, 2) && tries[2].delivery == Delivered {
      FirstDeliveryCounts(s.db, s.workers[w].job, s.workers[w].action, tries, 2, cfg.lib);
    }
  }

  /** When the wait is cut short, or the first try is settled, the others are not made. */
  lemma TriesEndEarly(db: Db, job: Job, action: FinalAction, tries: seq<Try>, lib: JsonLibrary)
    requires tries != []
    requires tries[0].giveUp || (tries[0].delivery == Delivered
             && Finalise(db, job, action, tries[0].at, lib).answer in {Done, InvalidTransition})
    ensures RunTries(db, job, action, tries, lib) == RunTries(db, job, action, tries[..1], lib)
  {
    hide Finalise;
  }

  /** An answer other than these two is tried again. */
  lemma RefusalIsTriedAgain(db: Db, job: Job, action: FinalAction, tries: seq<Try>, lib: JsonLibrary)
    requires |tries| > 1 && !tries[0].giveUp
    requires tries[0].delivery != Delivered
             || Finalise(db, job, action, tries[0].at, lib).answer !in {Done, InvalidTransition}
    ensures RunTries(db, job, action, tries, lib)
         == RunTries(if tries[0].delivery == NeverRan then db else Finalise(db, job, action, tries[0].at, lib).db,
                     job, action, tries[1..], lib)
  {
    hide Finalise;
  }
}
