/** One turn of a worker: claim, execute, decide, and finalise with bounded retries. */
module JobWorker {
  import opened Base
  import opened Text
  import opened Results
  import opened JobTable
  import opened JobStore

  // ---------------------------------------------------------------- backoff

  const MAX_BACKOFF_SECONDS := 300

  function Pow2(n: nat): (p: nat)
    ensures p >= 1
  {
    if n == 0 then 1 else 2 * Pow2(n - 1)
  }

  lemma {:induction false} Pow2Grows(m: nat, n: nat)
    requires m <= n
    ensures Pow2(m) <= Pow2(n)
  {
    if m < n {
      Pow2Grows(m, n - 1);
    }
  }

  function BackoffSeconds(attempt: int): nat { Min(Pow2(Max(attempt, 1) - 1), MAX_BACKOFF_SECONDS) }

  function Backoff(attempt: int): Time { BackoffSeconds(attempt) * SECOND }

  /** exponentialBackoff: the doubling loop that stops early computes the closed form. */
  method ExponentialBackoff(attempt: int) returns (backoff: Time)
    ensures backoff == Backoff(attempt)
  {
    var n := if attempt < 1 then 1 else attempt;
    backoff := SECOND;
    var current := 1;
    while current < n && backoff < 5 * MINUTE
      invariant 1 <= current <= n
      invariant backoff == Pow2(current - 1) * SECOND
    {
      backoff := backoff * 2;
      current := current + 1;
    }
    Pow2Grows(current - 1, n - 1);
    if backoff > 5 * MINUTE {
      return 5 * MINUTE;
    }
  }

  lemma BackoffIsMonotone(a: int, b: int)
    requires a <= b
    ensures 1 <= BackoffSeconds(a) <= BackoffSeconds(b) <= MAX_BACKOFF_SECONDS
  {
    Pow2Grows(Max(a, 1) - 1, Max(b, 1) - 1);
  }

  /** The backoffs of attempts 1 to n together, in seconds. */
  function BackoffTotal(n: nat): nat { if n == 0 then 0 else BackoffTotal(n - 1) + BackoffSeconds(n) }

  lemma {:induction false} BackoffTotalGrows(m: nat, n: nat)
    requires m <= n
    ensures BackoffTotal(m) <= BackoffTotal(n)
  {
    if m < n {
      BackoffTotalGrows(m, n - 1);
    }
  }

  lemma PowersOfTwo()
    ensures Pow2(8) == 256 && Pow2(9) == 512
  {
    assert Pow2(4) == 16;
  }

  lemma {:induction false} EarlyBackoffTotal(n: nat)
    requires n <= 9
    ensures BackoffTotal(n) == Pow2(n) - 1
  {
    if n > 0 {
      EarlyBackoffTotal(n - 1);
      Pow2Grows(n - 1, 8);
      PowersOfTwo();
    }
  }

  lemma {:induction false} LateBackoffTotal(n: nat)
    requires 9 <= n
    ensures BackoffTotal(n) == 511 + (n - 9) * MAX_BACKOFF_SECONDS
  {
    hide Pow2;
    PowersOfTwo();
    if n == 9 {
      EarlyBackoffTotal(9);
    } else {
      LateBackoffTotal(n - 1);
      Pow2Grows(9, n - 1);
    }
  }

  lemma BackoffTotalOf24()
    ensures BackoffTotal(24) == 5011
  {
    hide BackoffTotal;
    LateBackoffTotal(24);
  }

  // ---------------------------------------------------------------- deciding

  /** What Execute gives back; an error may be marked permanent, uncertain, or both. */
  datatype Outcome =
    | Returned(result: ActionResult)
    | Raised(message: string, permanent: bool, uncertain: bool)

  /**
    What runOnce does about an outcome: None leaves the claim leased for recovery. `interrupted`:
    the action's deadline passed or the execution context was cancelled.
   */
  function Decide(job: Job, outcome: Outcome, interrupted: bool, lib: JsonLibrary): Option<FinalAction> {
    match outcome
    case Raised(message, permanent, uncertain) =>
      if interrupted || uncertain then None
      else Some(FailWith(FailureInput(SafeMessage(message), Backoff(job.row.attempts), permanent)))
    case Returned(result) =>
      match NormalizeResult(result, lib)
      case Ok(normal) => Some(SucceedWith(normal))
      case Err(why) => Some(FailWith(FailureInput(SafeMessage(why), Backoff(job.row.attempts), true)))
  }

  // ---------------------------------------------------------------- finalising with retries

  /** What the network does to one finalising transaction. */
  datatype Delivery =
    | Delivered        // it ran and the worker saw the answer
    | AnswerLost       // it ran, the worker saw a connection error
    | NeverRan

  /** One try: its clock reading, its fate, and whether the finalise deadline ends the wait after it. */
  datatype Try = Try(at: Time, delivery: Delivery, giveUp: bool)

  const MAX_TRIES := 3

  datatype Seen = Answered(answer: Answer) | ConnectionError

  function RunTry(db: Db, job: Job, action: FinalAction, t: Try, lib: JsonLibrary): (Db, Seen) {
    var reply := Finalise(db, job, action, t.at, lib);
    match t.delivery
    case Delivered => (reply.db, Answered(reply.answer))
    case AnswerLost => (reply.db, ConnectionError)
    case NeverRan => (db, ConnectionError)
  }

  predicate Settled(seen: Seen) { seen == Answered(Done) || seen == Answered(InvalidTransition) }

  /** retryFinalization over the given tries. */
  function RunTries(db: Db, job: Job, action: FinalAction, tries: seq<Try>, lib: JsonLibrary): (Db, Seen)
    requires tries != []
    decreases |tries|
  {
    var (db', seen) := RunTry(db, job, action, tries[0], lib);
    if Settled(seen) || |tries| == 1 || tries[0].giveUp then (db', seen)
    else RunTries(db', job, action, tries[1..], lib)
  }

  /** A finalisation is accepted at most once: afterwards the claim is gone. */
  lemma DoneConsumesClaim(db: Db, job: Job, action: FinalAction, at: Time, lib: JsonLibrary)
    ensures var reply := Finalise(db, job, action, at, lib);
            && (reply.answer.Done? <==> reply.db != db)
            && (reply.answer.Done? ==> HoldsClaim(db, job) && !HoldsClaim(reply.db, job))
            && (!reply.answer.Done? ==> reply.db == db)
  {
    hide NormalizeResult, Blank, SafeMessage, ResultFits, Converts, Storable;
  }

  lemma WithoutClaimNothingHappens(db: Db, job: Job, action: FinalAction, at: Time, lib: JsonLibrary)
    requires !HoldsClaim(db, job)
    ensures Finalise(db, job, action, at, lib).db == db
    ensures !Finalise(db, job, action, at, lib).answer.Done?
  {
    DoneConsumesClaim(db, job, action, at, lib);
  }

  /** The table after any number of tries is the table before, or the one a single accepted try leaves. */
  ghost predicate AppliedAtMostOnce(db: Db, job: Job, action: FinalAction, tries: seq<Try>, lib: JsonLibrary, db': Db) {
    || db' == db
    || exists k | 0 <= k < |tries| ::
         Finalise(db, job, action, tries[k].at, lib) == Reply(db', Done) && !tries[k].delivery.NeverRan?
  }

  lemma {:induction false} RetriesApplyAtMostOnce(db: Db, job: Job, action: FinalAction, tries: seq<Try>,
                                                  lib: JsonLibrary)
    requires tries != []
    ensures var (db', seen) := RunTries(db, job, action, tries, lib);
            && AppliedAtMostOnce(db, job, action, tries, lib, db')
            && (seen == Answered(Done) ==> db' != db)
            && (seen == Answered(InvalidTransition) ==> !HoldsClaim(db', job))
            && (seen == Answered(InvalidTransition) && HoldsClaim(db, job) ==> db' != db)
    decreases |tries|
  {
    hide Finalise, HoldsClaim;
    var t := tries[0];
    var (db1, seen1) := RunTry(db, job, action, t, lib);
    DoneConsumesClaim(db, job, action, t.at, lib);
    if seen1 == Answered(InvalidTransition) {
      RefusedMeansNoClaim(db, job, action, t.at, lib);
    }
    if !(Settled(seen1) || |tries| == 1 || t.giveUp) {
      RetriesApplyAtMostOnce(db1, job, action, tries[1..], lib);
      if db1 != db {
        RetriesWithoutClaim(db1, job, action, tries[1..], lib);
        assert Finalise(db, job, action, tries[0].at, lib) == Reply(db1, Done);
      } else {
        var (db', seen) := RunTries(db1, job, action, tries[1..], lib);
        if db' != db {
          var k :| 0 <= k < |tries[1..]|
            && Finalise(db1, job, action, tries[1..][k].at, lib) == Reply(db', Done)
            && !tries[1..][k].delivery.NeverRan?;
          assert tries[1..][k] == tries[k + 1];
        }
      }
    } else if db1 != db {
      assert Finalise(db, job, action, tries[0].at, lib) == Reply(db1, Done);
    }
  }

  lemma {:induction false} RetriesWithoutClaim(db: Db, job: Job, action: FinalAction, tries: seq<Try>, lib: JsonLibrary)
    requires tries != [] && !HoldsClaim(db, job)
    ensures RunTries(db, job, action, tries, lib).0 == db
    ensures RunTries(db, job, action, tries, lib).1 != Answered(Done)
    decreases |tries|
  {
    WithoutClaimNothingHappens(db, job, action, tries[0].at, lib);
    if |tries| > 1 {
      RetriesWithoutClaim(db, job, action, tries[1..], lib);
    }
  }

  lemma RefusedMeansNoClaim(db: Db, job: Job, action: FinalAction, at: Time, lib: JsonLibrary)
    requires Finalise(db, job, action, at, lib).answer == InvalidTransition
    ensures !HoldsClaim(db, job)
  {
    hide NormalizeResult, Blank, SafeMessage, ResultFits, Converts, Storable;
  }

  // ---------------------------------------------------------------- the worker's code

  /** A result that further normalisation leaves alone after one more round. */
  ghost predicate Prepared(r: ActionResult, lib: JsonLibrary) {
    var again := NormalizeResult(r, lib);
    && again.Ok? && NormalizeResult(again.value, lib) == again
    && again.value.code == r.code && again.value.data == r.data
  }

  /** Every try hands the queue the same result, although the queue rewrites the log slice in place. */
  lemma SameResultEveryTry(db: Db, job: Job, r: ActionResult, t: Try, lib: JsonLibrary)
    requires Prepared(r, lib)
    ensures RunTry(db, job, SucceedWith(NormalizeResult(r, lib).value), t, lib)
         == RunTry(db, job, SucceedWith(r), t, lib)
  {
    hide NormalizeResult, MarkSucceeded, Blank;
  }

  /** Queue.Succeed over an unreliable connection. */
  method TrySucceed(store: JobStore, job: Job, code: string, data: string, logs: array<LogEntry>, t: Try,
                    lib: JsonLibrary)
    returns (seen: Seen)
    modifies store, logs
    ensures (store.Contents(), seen)
         == RunTry(old(store.Contents()), job, SucceedWith(ActionResult(code, data, old(logs[..]))), t, lib)
    ensures Prepared(ActionResult(code, data, old(logs[..])), lib) ==>
              || ActionResult(code, data, logs[..]) == ActionResult(code, data, old(logs[..]))
              || Ok(ActionResult(code, data, logs[..])) == NormalizeResult(ActionResult(code, data, old(logs[..])), lib)
  {
    hide HoldsClaim, ResultFits, Converts, Storable, SucceededRow, LogRows;
    hide Blank, Trim, NormalizeLogs, DataSensitive, DataAcceptable, LevelsKnown;
    var answer;
    if !NamesClaim(job) {
      answer := InvalidJob;
    } else {
      var normal := NormalizeInPlace(code, data, logs, lib);
      if normal.Err? {
        answer := Refused(normal.error);
      } else if t.delivery.NeverRan? {
        answer := Done;
      } else {
        answer := store.MarkJobSucceeded(job, t.at, ActionResult(normal.value.0, normal.value.1, logs[..]), lib);
      }
    }
    return if t.delivery.Delivered? then Answered(answer) else ConnectionError;
  }

  /** runOnce's success path: retryFinalization around Queue.Succeed. */
  method SucceedWithRetries(store: JobStore, job: Job, code: string, data: string, logs: array<LogEntry>,
                            tries: seq<Try>, lib: JsonLibrary)
    returns (seen: Seen)
    requires |tries| == MAX_TRIES && Prepared(ActionResult(code, data, logs[..]), lib)
    modifies store, logs
    ensures (store.Contents(), seen)
         == RunTries(old(store.Contents()), job, SucceedWith(ActionResult(code, data, old(logs[..]))), tries, lib)
  {
    hide NormalizeResult, Finalise, RunTry, HoldsClaim;
    ghost var first := ActionResult(code, data, logs[..]);
    ghost var stable := NormalizeResult(first, lib).value;
    seen := ConnectionError;
    for attempt := 0 to MAX_TRIES
      invariant ActionResult(code, data, logs[..]) in {first, stable}
      invariant attempt < MAX_TRIES
      invariant RunTries(old(store.Contents()), job, SucceedWith(first), tries, lib)
             == RunTries(store.Contents(), job, SucceedWith(first), tries[attempt..], lib)
    {
      var t := tries[attempt];
      SameResultEveryTry(store.Contents(), job, first, t, lib);
      assert tries[attempt..][0] == t && tries[attempt..][1..] == tries[attempt + 1..];
      seen := TrySucceed(store, job, code, data, logs, t, lib);
      if Settled(seen) || attempt == MAX_TRIES - 1 || t.giveUp {
        return;
      }
    }
  }

  /** Queue.Fail over an unreliable connection. */
  method TryFail(store: JobStore, job: Job, failure: FailureInput, t: Try, lib: JsonLibrary) returns (seen: Seen)
    modifies store
    ensures (store.Contents(), seen) == RunTry(old(store.Contents()), job, FailWith(failure), t, lib)
  {
    hide HoldsClaim, FailedRow, FailureLogs, Blank, SafeMessage;
    var answer := Done;
    if !NamesClaim(job) || failure.backoff < 0 {
      answer := InvalidJob;
    } else if !t.delivery.NeverRan? {
      answer := store.MarkJobFailed(job, FailureMarkFor(job, failure, t.at));
    }
    return if t.delivery.Delivered? then Answered(answer) else ConnectionError;
  }

  method FailWithRetries(store: JobStore, job: Job, failure: FailureInput, tries: seq<Try>, lib: JsonLibrary)
    returns (seen: Seen)
    requires |tries| == MAX_TRIES
    modifies store
    ensures (store.Contents(), seen) == RunTries(old(store.Contents()), job, FailWith(failure), tries, lib)
  {
    hide Finalise, RunTry, HoldsClaim;
    seen := ConnectionError;
    for attempt := 0 to MAX_TRIES
      invariant attempt < MAX_TRIES
      invariant RunTries(old(store.Contents()), job, FailWith(failure), tries, lib)
             == RunTries(store.Contents(), job, FailWith(failure), tries[attempt..], lib)
    {
      var t := tries[attempt];
      assert tries[attempt..][0] == t && tries[attempt..][1..] == tries[attempt + 1..];
      seen := TryFail(store, job, failure, t, lib);
      if Settled(seen) || attempt == MAX_TRIES - 1 || t.giveUp {
        return;
      }
    }
  }

  /** What one turn came to. */
  datatype Turn = NoWork | LeftLeased(job: Job) | Finalised(job: Job, seen: Seen)

  /**
    What one turn does to the table: the claim, and then the finalisation that the outcome calls for,
    or nothing more when there was nothing to do or the outcome is uncertain.
   */
  ghost predicate IsTurn(was: Db, c: ClaimCall, swept: seq<JobId>, candidate: Option<JobId>, outcome: Outcome,
                         interrupted: bool, tries: seq<Try>, lib: JsonLibrary, turn: Turn, after: Db)
    requires tries != []
  {
    var picked := Granted(was.rows, c, candidate);
    var claimed := AfterClaim(was, c, swept, picked);
    && IsSweep(was.rows, c, swept) && IsCandidate(was.rows, c, candidate)
    && if picked.None? then turn == NoWork && after == claimed
       else
         var job := Job(picked.value, claimed.rows[picked.value]);
         match Decide(job, outcome, interrupted, lib)
         case None => turn == LeftLeased(job) && after == claimed
         case Some(action) =>
           turn.Finalised? && turn.job == job && (after, turn.seen) == RunTries(claimed, job, action, tries, lib)
  }

  /** runOnce. */
  method RunOnce(store: JobStore, c: ClaimCall, outcome: Outcome, interrupted: bool, tries: seq<Try>, lib: JsonLibrary)
    returns (turn: Turn, ghost swept: seq<JobId>, ghost candidate: Option<JobId>)
    requires |tries| == MAX_TRIES
    modifies store
    ensures IsTurn(old(store.Contents()), c, swept, candidate, outcome, interrupted, tries, lib, turn, store.Contents())
  {
    hide NormalizeResult, RunTries, IsSweep, IsCandidate, SafeMessage, Backoff;
    var claimed;
    claimed, swept, candidate := store.ClaimOne(c);
    if claimed.None? {
      return NoWork, swept, candidate;
    }
    var job := claimed.value;
    var failure;
    match outcome {
    case Raised(message, permanent, uncertain) =>
      if interrupted || uncertain {
        return LeftLeased(job), swept, candidate;
      }
      var backoff := ExponentialBackoff(job.row.attempts);
      failure := FailureInput(SafeMessage(message), backoff, permanent);
    case Returned(result) =>
      var logs := new LogEntry[|result.logs|](i requires 0 <= i < |result.logs| => result.logs[i]);
      assert logs[..] == result.logs;
      var normal := NormalizeInPlace(result.code, result.data, logs, lib);
      if normal.Ok? {
        NormalizedIsPrepared(result, lib);
        NormalizedLogs(result, lib);
        var seen := SucceedWithRetries(store, job, normal.value.0, normal.value.1, logs, tries, lib);
        return Finalised(job, seen), swept, candidate;
      }
      var backoff := ExponentialBackoff(job.row.attempts);
      failure := FailureInput(SafeMessage(normal.error), backoff, true);
    }
    var seen := FailWithRetries(store, job, failure, tries, lib);
    return Finalised(job, seen), swept, candidate;
  }

  lemma NormalizedLogs(r: ActionResult, lib: JsonLibrary)
    requires NormalizeResult(r, lib).Ok?
    ensures NormalizeResult(r, lib).value.logs == NormalizeLogs(r.logs)
  {
    hide NormalizeLogs, LevelsKnown, DataAcceptable, DataSensitive, Trim;
  }

  lemma NormalizedIsPrepared(r: ActionResult, lib: JsonLibrary)
    requires NormalizeResult(r, lib).Ok?
    ensures Prepared(NormalizeResult(r, lib).value, lib)
  {
    hide NormalizeResult, ResultFits;
    NormalizingAgainIsHarmless(r, lib);
  }
}
