/** Bounds over whole runs: how much work a table allows, how long a job waits, how long it backs off. */
module JobProgress {
  import opened Base
  import opened Text
  import opened Results
  import opened JobTable
  import opened JobWorker
  import opened JobSystem
  import opened JobInvariant
  import opened JobSafety

  // ---------------------------------------------------------------- what an event does

  /** The job a claim event hands out, if any. */
  function PickedBy(s: System, e: Event): Option<JobId> {
    if e.Claimed? then Granted(s.db.rows, e.call, e.candidate) else None
  }

  predicate AcceptedFinish(cfg: Config, s: System, e: Event) {
    e.Finished? && PhaseOf(s, e.w).Finalising? && !e.t.delivery.NeverRan? && AnswerAt(cfg, s, e).Done?
  }

  predicate AcceptedOrder(s: System, e: Event, action: OperatorAction) {
    e.Operated? && e.order.action == action && Operate(s.db, e.order).answer.Done?
  }

  /** The row an accepted enqueue inserts. */
  function InsertedRow(cfg: Config, s: System, e: Event): Option<Row> {
    if e.Enqueued? && Enqueue(s.db, e.input, e.id, e.at, cfg.lib).answer.Done?
    then NewRow(e.input, e.id, e.at, cfg.lib) else None
  }

  // ---------------------------------------------------------------- termination measure

  /** The steps a row can still take: every attempt is one claim and one end, plus cancelling. */
  function Weight(row: Row): nat {
    var left := Max(0, row.maxAttempts - row.attempts);
    match row.status
    case Queued => 2 * left + 1
    case Running => 2 * left + 2
    case _ => 0
  }

  function Weights(rows: map<JobId, Row>): map<JobId, nat> { map id | id in rows :: Weight(rows[id]) }

  /** Claims, reclaims, swept rows, accepted successes and failures, and cancellations. */
  function Steps(cfg: Config, s: System, e: Event): nat {
    if e.Claimed? then |e.swept| + (if PickedBy(s, e).Some? then 1 else 0)
    else if AcceptedFinish(cfg, s, e) || AcceptedOrder(s, e, Cancel) then 1
    else 0
  }

  /** What new work adds: an enqueued job, or one an operator retries. */
  function Credit(cfg: Config, s: System, e: Event): nat {
    if InsertedRow(cfg, s, e).Some? then 2 * Max(0, InsertedRow(cfg, s, e).value.maxAttempts) + 1
    else if AcceptedOrder(s, e, Retry) && e.order.id in s.db.rows then 2 * Max(0, s.db.rows[e.order.id].maxAttempts) + 1
    else 0
  }

  lemma SweptRowIsLighter(row: Row, now: Time)
    requires Exhausted(row, now)
    ensures Weight(SweptRow(row, now)) < Weight(row)
  {
  }

  lemma ClaimedRowIsLighter(row: Row, c: ClaimCall)
    requires Due(row, c.now)
    ensures Weight(ClaimedRow(row, c)) < Weight(row)
  {
  }

  lemma ClaimLightens(db: Db, c: ClaimCall, swept: seq<JobId>, picked: Option<JobId>, stepped: set<JobId>)
    requires ClaimTouches(db.rows, c, swept, picked) && (picked.Some? ==> picked.value !in swept)
    requires stepped == ElementsOf(swept) + (if picked.Some? then {picked.value} else {})
    ensures Sum(Weights(AfterClaim(db, c, swept, picked).rows)) + |stepped| <= Sum(Weights(db.rows))
  {
    hide Weight, Exhausted, Due, SweptRow, ClaimedRow, Sum;
    var rows' := AfterClaim(db, c, swept, picked).rows;
    forall id | id in db.rows
      ensures Weight(rows'[id]) + (if id in stepped then 1 else 0) <= Weight(db.rows[id])
    {
      if id in swept {
        SweptRowIsLighter(db.rows[id], c.now);
      } else if picked == Some(id) {
        ClaimedRowIsLighter(db.rows[id], c);
      }
    }
    SumDrops(Weights(db.rows), Weights(rows'), stepped);
  }

  lemma ClaimPays(cfg: Config, s: System, e: Event)
    requires Enabled(cfg, s, e) && e.Claimed?
    ensures Sum(Weights(Next(cfg, s, e).db.rows)) + Steps(cfg, s, e) <= Sum(Weights(s.db.rows))
  {
    hide IsSweep, IsCandidate, Granted, Sum, Weights, ClaimTouches, AfterClaim, Blank;
    var picked := PickedBy(s, e);
    ClaimTouchesOnlyItsRows(s.db.rows, e.call, e.swept, e.candidate);
    SweptAreDistinct(s.db.rows, e.call, e.swept);
    var stepped := ElementsOf(e.swept) + (if picked.Some? then {picked.value} else {});
    ClaimLightens(s.db, e.call, e.swept, picked, stepped);
  }

  lemma SweptAreDistinct(rows: map<JobId, Row>, c: ClaimCall, swept: seq<JobId>)
    requires IsSweep(rows, c, swept)
    ensures |ElementsOf(swept)| == |swept|
  {
    DistinctCount(swept);
  }

  /** One row is replaced by a lighter one. */
  lemma LighterRow(rows: map<JobId, Row>, id: JobId, row: Row)
    requires id in rows && Weight(row) < Weight(rows[id])
    ensures Sum(Weights(rows[id := row])) + 1 <= Sum(Weights(rows))
  {
    hide Weight;
    SumDrops(Weights(rows), Weights(rows[id := row]), {id});
  }

  lemma HeavierRow(rows: map<JobId, Row>, id: JobId, row: Row, d: nat)
    requires Weight(row) <= d
    ensures Sum(Weights(rows[id := row])) <= Sum(Weights(rows)) + d
  {
    hide Weight;
    SumGrowsAt(Weights(rows), Weights(rows[id := row]), id, d);
  }

  lemma FinalRowIsLighter(row: Row, job: Job, action: FinalAction, at: Time, lib: JsonLibrary)
    requires row.status.Running?
    ensures Weight(FinalRow(row, job, action, at, lib)) < Weight(row)
  {
    hide Blank, NormalizeResult, SafeMessage;
  }

  lemma OtherEventsPay(cfg: Config, s: System, e: Event)
    requires Inv(cfg, s) && Enabled(cfg, s, e) && !e.Claimed?
    ensures Sum(Weights(Next(cfg, s, e).db.rows)) + Steps(cfg, s, e) <= Sum(Weights(s.db.rows)) + Credit(cfg, s, e)
  {
    hide RowsOk, KeysDistinct, TokensCoherent, CopiesOk, WorkersOk, Sum, Weights;
    hide Decide, Finalise, FinalRow, Blank, NewRow, RowConverts, PayloadFits, ColumnsFit;
    match e {
      case Finished(w, t) =>
        var phase := s.workers[w];
        DoneConsumesClaim(s.db, phase.job, phase.action, t.at, cfg.lib);
        if AcceptedFinish(cfg, s, e) {
          FinaliseWritesOneRow(s.db, phase.job, phase.action, t.at, cfg.lib);
          var row := s.db.rows[phase.job.id];
          FinalRowIsLighter(row, phase.job, phase.action, t.at, cfg.lib);
          LighterRow(s.db.rows, phase.job.id, FinalRow(row, phase.job, phase.action, t.at, cfg.lib));
        }
      case Operated(order) =>
        if Operate(s.db, order).answer.Done? {
          var row := OperatedRow(s.db.rows[order.id], order);
          OneRowOk(cfg, s.db.rows, s.now, order.id);
          if order.action.Cancel? {
            LighterRow(s.db.rows, order.id, row);
          } else {
            HeavierRow(s.db.rows, order.id, row, Credit(cfg, s, e));
          }
        }
      case Enqueued(id, input, at) =>
        if InsertedRow(cfg, s, e).Some? {
          NewRowIsQueued(input, id, at, cfg.lib);
          HeavierRow(s.db.rows, id, InsertedRow(cfg, s, e).value, Credit(cfg, s, e));
        }
      case _ =>
    }
  }

  lemma NewRowIsQueued(input: EnqueueInput, id: JobId, at: Time, lib: JsonLibrary)
    requires NewRow(input, id, at, lib).Some?
    ensures var row := NewRow(input, id, at, lib).value; row.status.Queued? && row.attempts == 0
  {
    hide Trim, Utf8Size;
  }

  lemma EventPays(cfg: Config, s: System, e: Event)
    requires Inv(cfg, s) && Enabled(cfg, s, e)
    ensures Sum(Weights(Next(cfg, s, e).db.rows)) + Steps(cfg, s, e) <= Sum(Weights(s.db.rows)) + Credit(cfg, s, e)
  {
    hide Inv, Enabled, Next, Steps, Credit;
    if e.Claimed? {
      ClaimPays(cfg, s, e);
    } else {
      OtherEventsPay(cfg, s, e);
    }
  }

  function TotalSteps(cfg: Config, r: Run, n: nat): nat
    requires n <= |r.events| && |r.states| == |r.events| + 1
  {
    if n == 0 then 0 else TotalSteps(cfg, r, n - 1) + Steps(cfg, r.states[n - 1], r.events[n - 1])
  }

  function TotalCredit(cfg: Config, r: Run, n: nat): nat
    requires n <= |r.events| && |r.states| == |r.events| + 1
  {
    if n == 0 then 0 else TotalCredit(cfg, r, n - 1) + Credit(cfg, r.states[n - 1], r.events[n - 1])
  }

  /**
    The table's weight pays for every step: over any run the steps taken and the weight left are at
    most the weight at the start and what enqueues and operator retries added.
   */
  lemma {:induction false} StepsArePaidFor(cfg: Config, r: Run, n: nat)
    requires Sane(cfg) && IsRun(cfg, r) && Inv(cfg, r.states[0]) && n <= |r.events|
    ensures TotalSteps(cfg, r, n) + Sum(Weights(r.states[n].db.rows))
         <= Sum(Weights(r.states[0].db.rows)) + TotalCredit(cfg, r, n)
  {
    hide Inv, Enabled, Next, Steps, Credit, Weights, Sum;
    if n > 0 {
      StepsArePaidFor(cfg, r, n - 1);
      RunsKeepInv(cfg, r, n - 1);
      var e := r.events[n - 1];
      EventPays(cfg, r.states[n - 1], e);
    }
  }

  /** From an empty table: each enqueue or retry of a job with m attempts allows 2m+1 steps, no more. */
  lemma WorkIsBounded(cfg: Config, r: Run)
    requires Sane(cfg) && IsRun(cfg, r) && StartsEmpty(r)
    ensures TotalSteps(cfg, r, |r.events|) <= TotalCredit(cfg, r, |r.events|)
  {
    ReachableStatesAreOk(cfg, r, 0);
    assert Weights(EMPTY_DB.rows) == map[];
    StepsArePaidFor(cfg, r, |r.events|);
  }

  // ---------------------------------------------------------------- bounded attempts

  function HandsOut(s: System, e: Event, id: JobId): nat { if PickedBy(s, e) == Some(id) then 1 else 0 }

  predicate RetriesJob(s: System, e: Event, id: JobId) { AcceptedOrder(s, e, Retry) && e.order.id == id }

  lemma TryKeepsAttempts(db: Db, job: Job, action: FinalAction, t: Try, lib: JsonLibrary, id: JobId)
    requires id in db.rows
    ensures var rows' := RunTry(db, job, action, t, lib).0.rows;
            id in rows' && rows'[id].attempts == db.rows[id].attempts
  {
    hide Finalise, NormalizeResult, FailureMarkFor;
    DoneConsumesClaim(db, job, action, t.at, lib);
    if Finalise(db, job, action, t.at, lib).answer.Done? {
      FinaliseWritesOneRow(db, job, action, t.at, lib);
    }
  }

  lemma ClaimCountsAttempts(db: Db, c: ClaimCall, swept: seq<JobId>, picked: Option<JobId>, id: JobId)
    requires id in db.rows && (picked.Some? ==> picked.value !in swept)
    ensures var row := AfterClaim(db, c, swept, picked).rows[id];
            row.attempts == db.rows[id].attempts + if picked == Some(id) then 1 else 0
  {
  }

  /** An event that is no operator retry of the job raises its attempts by one if it hands the job out, else not. */
  lemma EventCountsAttempts(cfg: Config, s: System, e: Event, id: JobId)
    requires Enabled(cfg, s, e) && id in s.db.rows && !RetriesJob(s, e, id)
    ensures id in Next(cfg, s, e).db.rows
    ensures Next(cfg, s, e).db.rows[id].attempts == s.db.rows[id].attempts + HandsOut(s, e, id)
  {
    hide RunTry, Decide, Blank, Enqueue, IsSweep, IsCandidate, AfterClaim, Granted, ClaimTouches;
    match e {
      case Finished(w, t) => TryKeepsAttempts(s.db, s.workers[w].job, s.workers[w].action, t, cfg.lib, id);
      case Claimed(_, c, swept, candidate, _) =>
        ClaimTouchesOnlyItsRows(s.db.rows, c, swept, candidate);
        ClaimHasRow(s.db, c, swept, Granted(s.db.rows, c, candidate), id);
        ClaimCountsAttempts(s.db, c, swept, Granted(s.db.rows, c, candidate), id);
      case Enqueued(other, input, at) => EnqueueSparesRows(s.db, input, other, at, cfg.lib, id);
      case _ =>
    }
  }

  lemma ClaimHasRow(db: Db, c: ClaimCall, swept: seq<JobId>, picked: Option<JobId>, id: JobId)
    requires id in db.rows
    ensures id in AfterClaim(db, c, swept, picked).rows
  {
  }

  /** How often the events from `i` to `j` hand out the job. */
  function Handouts(r: Run, id: JobId, i: nat, j: nat): nat
    requires i <= j <= |r.events| < |r.states|
    decreases j - i
  {
    if i == j then 0 else HandsOut(r.states[i], r.events[i], id) + Handouts(r, id, i + 1, j)
  }

  ghost predicate NotRetriedBetween(r: Run, id: JobId, i: nat, j: nat) {
    forall k {:trigger r.events[k]} | i <= k < j && k < |r.events| && k < |r.states| ::
      !RetriesJob(r.states[k], r.events[k], id)
  }

  /** Between operator retries, a job's attempts grow by exactly one each time it is handed out. */
  lemma {:induction false} HandoutsCountAttempts(cfg: Config, r: Run, id: JobId, i: nat, j: nat)
    requires IsRun(cfg, r) && i <= j <= |r.events| && NotRetriedBetween(r, id, i, j) && id in r.states[i].db.rows
    ensures id in r.states[j].db.rows
    ensures r.states[j].db.rows[id].attempts == r.states[i].db.rows[id].attempts + Handouts(r, id, i, j)
    decreases j - i
  {
    hide Enabled, Next, RetriesJob, HandsOut;
    if i < j {
      var e := r.events[i];
      EventCountsAttempts(cfg, r.states[i], e, id);
      HandoutsCountAttempts(cfg, r, id, i + 1, j);
    }
  }

  /** Between operator retries, a job is handed out at most as often as it has attempts left. */
  lemma HandoutsAreBounded(cfg: Config, r: Run, id: JobId, i: nat, j: nat)
    requires Sane(cfg) && IsRun(cfg, r) && StartsEmpty(r) && i <= j <= |r.events|
    requires NotRetriedBetween(r, id, i, j) && id in r.states[i].db.rows
    ensures Handouts(r, id, i, j) <= r.states[i].db.rows[id].maxAttempts - r.states[i].db.rows[id].attempts
  {
    hide Enabled, Next, RetriesJob, Handouts, RowOk, TokensCoherent, KeysDistinct, CopiesOk, WorkersOk;
    HandoutsCountAttempts(cfg, r, id, i, j);
    JobsEndure(cfg, r, i, j, id);
    ReachableStatesAreOk(cfg, r, j);
    AttemptsInLimit(r.states[j].db.rows[id]);
  }

  lemma AttemptsInLimit(row: Row)
    requires RowOk(row)
    ensures 0 <= row.attempts <= row.maxAttempts
  {
    hide Utf8Size;
  }

  // ---------------------------------------------------------------- bounded bypass

  /** The claims that may still go to `row` before it ranks behind `waiting`. */
  function AheadOf(row: Row, waiting: Row): nat {
    if Active(row) && NotAfter(row, waiting) then Max(0, row.maxAttempts - row.attempts) else 0
  }

  function Aheads(rows: map<JobId, Row>, j: JobId): map<JobId, nat>
    requires j in rows
  {
    map id | id in rows :: if id == j then 0 else AheadOf(rows[id], rows[j])
  }

  predicate Waits(rows: map<JobId, Row>, j: JobId) { j in rows && rows[j].status.Queued? }

  /** The claim does not see another running job on the resource key of `j`. */
  predicate SeesKeyFree(rows: map<JobId, Row>, c: ClaimCall, j: JobId)
    requires j in rows
  {
    rows[j].resourceKey == "" || !Blocked(c.view, j, rows[j].resourceKey, c.now)
  }

  /** The event neither hands out nor cancels job `j`. */
  predicate PassesOver(s: System, e: Event, j: JobId) {
    PickedBy(s, e) != Some(j) && !CancelsJob(s, e, j)
  }

  predicate CancelsJob(s: System, e: Event, j: JobId) { AcceptedOrder(s, e, Cancel) && e.order.id == j }

  /** The claims that may go to a new or retried job because it is ranked before `j`. */
  function JumpedAhead(cfg: Config, s: System, e: Event, j: JobId): nat
    requires j in s.db.rows
  {
    if InsertedRow(cfg, s, e).Some? then AheadOf(InsertedRow(cfg, s, e).value, s.db.rows[j])
    else if AcceptedOrder(s, e, Retry) && e.order.id in s.db.rows then
      AheadOf(OperatedRow(s.db.rows[e.order.id], e.order), s.db.rows[j])
    else 0
  }

  /** Claims that hand out a job although they find the row of `j` unlocked and see its key free. */
  function Handed(s: System, e: Event, j: JobId): nat
    requires j in s.db.rows
  {
    if PickedBy(s, e).Some? && j !in e.call.pickLocked && SeesKeyFree(s.db.rows, e.call, j) then 1 else 0
  }

  lemma PickedRanksBefore(cfg: Config, s: System, e: Event, j: JobId)
    requires Sane(cfg) && Inv(cfg, s) && Enabled(cfg, s, e) && e.Claimed? && Waits(s.db.rows, j) && PassesOver(s, e, j)
    requires PickedBy(s, e).Some? && j !in e.call.pickLocked && SeesKeyFree(s.db.rows, e.call, j)
    ensures var i := PickedBy(s, e).value;
            i in s.db.rows && i != j && Due(s.db.rows[i], e.call.now) && NotAfter(s.db.rows[i], s.db.rows[j])
  {
    hide RowOk, TokensCoherent, KeysDistinct, CopiesOk, WorkersOk, IsSweep, Blank, ColumnsFit;
    var i := PickedBy(s, e).value;
    var rows, c := s.db.rows, e.call;
    assert Pickable(rows, c, i);
    OneRowOk(cfg, rows, s.now, i);
    OneRowOk(cfg, rows, s.now, j);
    if rows[j].runAfter <= c.now {
      assert Due(rows[j], c.now) by {
        QueuedHasAttempts(rows[j]);
      }
      assert Pickable(rows, c, j);
    } else if rows[i].status.Running? {
      StartedInThePast(cfg, rows[i], s.now);
    }
  }

  lemma QueuedHasAttempts(row: Row)
    requires RowOk(row) && row.status.Queued?
    ensures row.attempts < row.maxAttempts
  {
    hide ColumnsFit;
  }

  /** No claim puts anybody in front of `j`; `handed` holds the picked job if that was ranked before it. */
  lemma ClaimBypasses(db: Db, c: ClaimCall, swept: seq<JobId>, picked: Option<JobId>, j: JobId, handed: set<JobId>)
    requires ClaimTouches(db.rows, c, swept, picked) && Waits(db.rows, j) && j !in swept
    requires picked.Some? ==> picked.value != j && picked.value !in swept
    requires forall i | i in handed :: picked == Some(i) && NotAfter(db.rows[i], db.rows[j])
    ensures var rows' := AfterClaim(db, c, swept, picked).rows;
            && j in rows' && rows'[j] == db.rows[j]
            && Sum(Aheads(rows', j)) + |handed| <= Sum(Aheads(db.rows, j))
  {
    hide Sum;
    var rows' := AfterClaim(db, c, swept, picked).rows;
    forall id | id in db.rows
      ensures Aheads(rows', j)[id] + (if id in handed then 1 else 0) <= Aheads(db.rows, j)[id]
    {
    }
    hide Aheads;
    AheadsKeys(db.rows, j);
    AheadsKeys(rows', j);
    SumDrops(Aheads(db.rows, j), Aheads(rows', j), handed);
  }

  lemma QueuedIsNotSwept(rows: map<JobId, Row>, c: ClaimCall, swept: seq<JobId>, j: JobId)
    requires IsSweep(rows, c, swept) && Waits(rows, j)
    ensures j !in swept
  {
  }

  lemma AheadsKeys(rows: map<JobId, Row>, j: JobId)
    requires j in rows
    ensures Aheads(rows, j).Keys == rows.Keys
  {
  }

  /** Replacing or adding one other row that counts no more than before. */
  lemma OtherRowBypasses(rows: map<JobId, Row>, j: JobId, id: JobId, row: Row)
    requires j in rows && id != j
    requires AheadOf(row, rows[j]) <= if id in rows then AheadOf(rows[id], rows[j]) else 0
    ensures Sum(Aheads(rows[id := row], j)) <= Sum(Aheads(rows, j))
  {
    hide AheadOf;
    if id in rows {
      SumDrops(Aheads(rows, j), Aheads(rows[id := row], j), {});
    } else {
      SumGrowsAt(Aheads(rows, j), Aheads(rows[id := row], j), id, 0);
    }
  }

  /** Replacing or adding any other row. */
  lemma NewRowBypasses(rows: map<JobId, Row>, j: JobId, id: JobId, row: Row)
    requires j in rows && id != j
    ensures Sum(Aheads(rows[id := row], j)) <= Sum(Aheads(rows, j)) + AheadOf(row, rows[j])
  {
    hide AheadOf;
    SumGrowsAt(Aheads(rows, j), Aheads(rows[id := row], j), id, AheadOf(row, rows[j]));
  }

  /** A failure moves a job only to a later rank, so it never gets in front of a waiting one. */
  lemma FinalRowRanksLater(job: Job, action: FinalAction, at: Time, lib: JsonLibrary, waiting: Row)
    requires job.row.status.Running? && job.row.runAfter <= at && ActionOk(job, action, lib)
    ensures AheadOf(FinalRow(job.row, job, action, at, lib), waiting) <= AheadOf(job.row, waiting)
  {
    hide Blank, NormalizeResult, SafeMessage, ResultFits, Storable, Backoff, DiffersInTrailingSpace;
    BackoffIsPositive(job.row.attempts);
  }

  lemma FinishingPhase(cfg: Config, s: System, w: WorkerId, at: Time)
    requires Inv(cfg, s) && w in s.workers && s.workers[w].Finalising? && s.workers[w].since <= at
    ensures var job := s.workers[w].job;
            && job.row.status.Running? && job.row.runAfter <= at && ActionOk(job, s.workers[w].action, cfg.lib)
            && RowOk(job.row)
            && (HoldsClaim(s.db, job) ==> s.db.rows[job.id] == job.row)
  {
    hide RowsOk, CopiesOk, KeysDistinct, TokensCoherent, WorkersOk, RowOk, ActionOk, HoldsClaim;
    var job := s.workers[w].job;
    PhaseIsOk(s.workers, s.issued, s.now, cfg.lib, w);
    IssuedCopyIsOk(cfg, s, job);
    StartedInThePast(cfg, job.row, s.now);
    if HoldsClaim(s.db, job) {
      HoldersCopyIsCurrent(s, job);
    }
  }

  lemma FinishBypasses(cfg: Config, s: System, e: Event, j: JobId)
    requires Sane(cfg) && Inv(cfg, s) && Enabled(cfg, s, e) && e.Finished? && Waits(s.db.rows, j)
    ensures var rows' := Next(cfg, s, e).db.rows;
            j in rows' && rows'[j] == s.db.rows[j] && Sum(Aheads(rows', j)) <= Sum(Aheads(s.db.rows, j))
  {
    hide Inv, Sum, Aheads, Finalise, FinalRow, AheadOf, ActionOk, RowOk;
    var phase := s.workers[e.w];
    DoneConsumesClaim(s.db, phase.job, phase.action, e.t.at, cfg.lib);
    if AcceptedFinish(cfg, s, e) {
      FinishingPhase(cfg, s, e.w, e.t.at);
      FinaliseWritesOneRow(s.db, phase.job, phase.action, e.t.at, cfg.lib);
      FinalRowRanksLater(phase.job, phase.action, e.t.at, cfg.lib, s.db.rows[j]);
      OtherRowBypasses(s.db.rows, j, phase.job.id, FinalRow(phase.job.row, phase.job, phase.action, e.t.at, cfg.lib));
    }
  }

  lemma EventBypasses(cfg: Config, s: System, e: Event, j: JobId)
    requires Sane(cfg) && Inv(cfg, s) && Enabled(cfg, s, e) && Waits(s.db.rows, j) && PassesOver(s, e, j)
    ensures var rows' := Next(cfg, s, e).db.rows;
            && j in rows' && rows'[j] == s.db.rows[j]
            && Sum(Aheads(rows', j)) + Handed(s, e, j) <= Sum(Aheads(s.db.rows, j)) + JumpedAhead(cfg, s, e, j)
  {
    hide Inv, Sum, Aheads, Decide, RunTry, NewRow, NotAfter, Blank, RowConverts, PayloadFits, ColumnsFit;
    match e {
      case Claimed(_, c, swept, candidate, _) =>
        var picked := PickedBy(s, e);
        ClaimTouchesOnlyItsRows(s.db.rows, c, swept, candidate);
        if Handed(s, e, j) == 1 {
          PickedRanksBefore(cfg, s, e, j);
        }
        QueuedIsNotSwept(s.db.rows, c, swept, j);
        hide IsSweep, IsCandidate, Granted, AfterClaim, SeesKeyFree;
        ClaimBypasses(s.db, c, swept, picked, j, if Handed(s, e, j) == 1 then {picked.value} else {});
      case Finished(_, _) => FinishBypasses(cfg, s, e, j);
      case Operated(order) =>
        if Operate(s.db, order).answer.Done? {
          var row := OperatedRow(s.db.rows[order.id], order);
          if order.action.Cancel? {
            OtherRowBypasses(s.db.rows, j, order.id, row);
          } else {
            NewRowBypasses(s.db.rows, j, order.id, row);
          }
        }
      case Enqueued(id, input, at) =>
        if InsertedRow(cfg, s, e).Some? {
          NewRowBypasses(s.db.rows, j, id, InsertedRow(cfg, s, e).value);
        }
      case _ =>
    }
  }

  function TotalHanded(r: Run, j: JobId, n: nat): nat
    requires n <= |r.events| && |r.states| == |r.events| + 1
  {
    if n == 0 then 0
    else
      TotalHanded(r, j, n - 1)
      + if j in r.states[n - 1].db.rows then Handed(r.states[n - 1], r.events[n - 1], j) else 0
  }

  function TotalJumpedAhead(cfg: Config, r: Run, j: JobId, n: nat): nat
    requires n <= |r.events| && |r.states| == |r.events| + 1
  {
    if n == 0 then 0
    else
      TotalJumpedAhead(cfg, r, j, n - 1)
      + if j in r.states[n - 1].db.rows then JumpedAhead(cfg, r.states[n - 1], r.events[n - 1], j) else 0
  }

  ghost predicate IsPassedOver(r: Run, j: JobId) {
    forall i {:trigger r.events[i]} | 0 <= i < |r.events| && i < |r.states| ::
      PassesOver(r.states[i], r.events[i], j)
  }

  /**
    As long as a queued job is neither claimed nor cancelled, claims that find its row unlocked and see
    its resource key free hand out other jobs at most as often as the jobs ranked before it have attempts
    left, those counted in that enqueues and operator retries put there meanwhile.
   */
  lemma {:induction false} BypassIsBounded(cfg: Config, r: Run, j: JobId, n: nat)
    requires Sane(cfg) && IsRun(cfg, r) && Inv(cfg, r.states[0]) && Waits(r.states[0].db.rows, j)
    requires IsPassedOver(r, j) && n <= |r.events|
    ensures j in r.states[n].db.rows && r.states[n].db.rows[j] == r.states[0].db.rows[j]
    ensures TotalHanded(r, j, n) + Sum(Aheads(r.states[n].db.rows, j))
         <= Sum(Aheads(r.states[0].db.rows, j)) + TotalJumpedAhead(cfg, r, j, n)
  {
    hide Inv, Enabled, Next, Aheads, Sum, PassesOver, Handed, JumpedAhead;
    if n > 0 {
      BypassIsBounded(cfg, r, j, n - 1);
      RunsKeepInv(cfg, r, n - 1);
      var e := r.events[n - 1];
      EventBypasses(cfg, r.states[n - 1], e, j);
    }
  }

  /** A claim that could take job `j`: the job's time has come, and its row, its key and the key's lock are free. */
  predicate Offers(s: System, e: Event, j: JobId)
    requires j in s.db.rows
  {
    && e.Claimed? && e.call.now >= s.db.rows[j].runAfter
    && j !in e.call.pickLocked && SeesKeyFree(s.db.rows, e.call, j) && e.call.keyLockFree
  }

  lemma OfferIsTaken(cfg: Config, s: System, e: Event, j: JobId)
    requires Inv(cfg, s) && Enabled(cfg, s, e) && Waits(s.db.rows, j) && Offers(s, e, j)
    ensures Handed(s, e, j) == 1
  {
    hide RowOk, TokensCoherent, KeysDistinct, CopiesOk, WorkersOk, IsSweep, Blank, Blocked;
    OneRowOk(cfg, s.db.rows, s.now, j);
    QueuedHasAttempts(s.db.rows[j]);
    assert Pickable(s.db.rows, e.call, j);
  }

  function TotalOffers(r: Run, j: JobId, n: nat): nat
    requires n <= |r.events| && |r.states| == |r.events| + 1
  {
    if n == 0 then 0
    else
      TotalOffers(r, j, n - 1)
      + if j in r.states[n - 1].db.rows && Offers(r.states[n - 1], r.events[n - 1], j) then 1 else 0
  }

  lemma {:induction false} OffersAreHanded(cfg: Config, r: Run, j: JobId, n: nat)
    requires Sane(cfg) && IsRun(cfg, r) && Inv(cfg, r.states[0]) && Waits(r.states[0].db.rows, j)
    requires IsPassedOver(r, j) && n <= |r.events|
    ensures TotalOffers(r, j, n) <= TotalHanded(r, j, n)
  {
    hide Inv, Enabled, Next, Aheads, Sum, PassesOver, Offers, Handed;
    if n > 0 {
      OffersAreHanded(cfg, r, j, n - 1);
      BypassIsBounded(cfg, r, j, n - 1);
      RunsKeepInv(cfg, r, n - 1);
      var s, e := r.states[n - 1], r.events[n - 1];
      if Offers(s, e, j) {
        OfferIsTaken(cfg, s, e, j);
      }
    }
  }

  ghost predicate NeverCancelled(r: Run, j: JobId) {
    forall i {:trigger r.events[i]} | 0 <= i < |r.events| && i < |r.states| :: !CancelsJob(r.states[i], r.events[i], j)
  }

  /**
    A waiting job that nobody cancels is claimed if it is offered more often than the jobs ranked before
    it, those put there meanwhile counted in, have attempts left.
   */
  lemma WaitingJobGetsItsTurn(cfg: Config, r: Run, j: JobId)
    requires Sane(cfg) && IsRun(cfg, r) && Inv(cfg, r.states[0]) && Waits(r.states[0].db.rows, j)
    requires NeverCancelled(r, j)
    requires TotalOffers(r, j, |r.events|) > Sum(Aheads(r.states[0].db.rows, j))
         + TotalJumpedAhead(cfg, r, j, |r.events|)
    ensures exists i :: 0 <= i < |r.events| && PickedBy(r.states[i], r.events[i]) == Some(j)
  {
    hide Inv, Enabled, Next, Aheads, Sum, PickedBy, CancelsJob, JumpedAhead;
    if forall i | 0 <= i < |r.events| :: PickedBy(r.states[i], r.events[i]) != Some(j) {
      assert IsPassedOver(r, j);
      OffersAreHanded(cfg, r, j, |r.events|);
      BypassIsBounded(cfg, r, j, |r.events|);
      assert false;
    }
  }

  // ---------------------------------------------------------------- backoff budget

  /** How far an event pushes a failed job into the future: from running to queued, run_after minus now. */
  function Delay(s: System, s': System, e: Event, id: JobId): Time {
    if e.Finished? && id in s.db.rows && id in s'.db.rows
       && s.db.rows[id].status.Running? && s'.db.rows[id].status.Queued?
    then s'.db.rows[id].runAfter - e.t.at
    else 0
  }

  const LAST_RETRIED_ATTEMPT := MAX_ATTEMPTS - 1

  /** What the backoffs of a job with this row can have come to so far, in seconds. */
  function RowAllowance(row: Row): nat {
    if row.status.Running? then BackoffTotal(Max(0, row.attempts - 1))
    else BackoffTotal(Max(0, Min(row.attempts, LAST_RETRIED_ATTEMPT)))
  }

  function Allowance(rows: map<JobId, Row>, id: JobId): Time {
    if id in rows then RowAllowance(rows[id]) * SECOND else 0
  }

  lemma AllowanceIsCapped(row: Row)
    requires RowOk(row)
    ensures RowAllowance(row) <= 5011
  {
    hide Utf8Size, BackoffTotal;
    BackoffTotalOf24();
    BackoffTotalGrows(if row.status.Running? then Max(0, row.attempts - 1) else Max(0, Min(row.attempts, 24)), 24);
  }

  lemma ClaimRaisesAllowance(row: Row, c: ClaimCall)
    requires RowOk(row) && Due(row, c.now)
    ensures RowAllowance(row) <= RowAllowance(ClaimedRow(row, c))
  {
    hide Utf8Size;
    if row.status.Running? {
      BackoffTotalGrows(row.attempts - 1, row.attempts);
    }
  }

  lemma EndingRaisesAllowance(row: Row, row': Row)
    requires RowOk(row) && row.status.Running? && !row'.status.Running? && row'.attempts == row.attempts
    ensures RowAllowance(row) <= RowAllowance(row')
  {
    hide Utf8Size;
    BackoffTotalGrows(row.attempts - 1, Min(row.attempts, LAST_RETRIED_ATTEMPT));
  }

  /** A non-final failure uses exactly the backoff of its attempt. */
  lemma RequeueingUsesBackoff(job: Job, action: FinalAction, at: Time, lib: JsonLibrary)
    requires job.row.status.Running? && ActionOk(job, action, lib)
    ensures var row := FinalRow(job.row, job, action, at, lib);
            && !row.status.Running? && row.attempts == job.row.attempts
            && (row.status.Queued? ==>
                  && job.row.attempts < job.row.maxAttempts && row.runAfter == at + Backoff(job.row.attempts))
  {
    hide Blank, NormalizeResult, SafeMessage, ResultFits, Storable, Backoff, DiffersInTrailingSpace;
  }

  lemma RequeueAllowance(row: Row, row': Row)
    requires RowOk(row) && row.status.Running? && row'.status.Queued? && row'.attempts == row.attempts
    requires row.attempts < row.maxAttempts
    ensures RowAllowance(row) * SECOND + Backoff(row.attempts) == RowAllowance(row') * SECOND
  {
    hide Utf8Size, BackoffSeconds;
    var a := row.attempts;
    assert Min(a, LAST_RETRIED_ATTEMPT) == a;
    assert BackoffTotal(a) == BackoffTotal(a - 1) + BackoffSeconds(a);
  }

  /** One running row is finalised: its allowance grows by the delay it is given. */
  lemma FinalRowStaysInBudget(job: Job, action: FinalAction, at: Time, lib: JsonLibrary)
    requires RowOk(job.row) && job.row.status.Running? && ActionOk(job, action, lib)
    ensures var row := FinalRow(job.row, job, action, at, lib);
            var delay := if row.status.Queued? then row.runAfter - at else 0;
            RowAllowance(job.row) * SECOND + delay <= RowAllowance(row) * SECOND
  {
    hide RowOk, RowAllowance, ActionOk, FinalRow, Backoff;
    RequeueingUsesBackoff(job, action, at, lib);
    var row := FinalRow(job.row, job, action, at, lib);
    if row.status.Queued? {
      RequeueAllowance(job.row, row);
    } else {
      EndingRaisesAllowance(job.row, row);
    }
  }

  lemma FinishStaysInBudget(cfg: Config, s: System, e: Event, id: JobId)
    requires Inv(cfg, s) && Enabled(cfg, s, e) && e.Finished?
    ensures var s' := Next(cfg, s, e);
            Allowance(s.db.rows, id) + Delay(s, s', e, id) <= Allowance(s'.db.rows, id)
  {
    hide Inv, RowOk, RowAllowance, Finalise, FinalRow, ActionOk;
    var phase := s.workers[e.w];
    DoneConsumesClaim(s.db, phase.job, phase.action, e.t.at, cfg.lib);
    if AcceptedFinish(cfg, s, e) {
      FinishingPhase(cfg, s, e.w, e.t.at);
      FinaliseWritesOneRow(s.db, phase.job, phase.action, e.t.at, cfg.lib);
      FinalRowStaysInBudget(phase.job, phase.action, e.t.at, cfg.lib);
      hide HoldsClaim;
    }
  }

  lemma ClaimStaysInBudget(db: Db, c: ClaimCall, swept: seq<JobId>, picked: Option<JobId>, id: JobId)
    requires ClaimTouches(db.rows, c, swept, picked) && (id in db.rows ==> RowOk(db.rows[id]))
    ensures Allowance(db.rows, id) <= Allowance(AfterClaim(db, c, swept, picked).rows, id)
  {
    hide RowOk, RowAllowance, ClaimedRow, Due;
    if id in db.rows {
      if id in swept {
        EndingRaisesAllowance(db.rows[id], SweptRow(db.rows[id], c.now));
      } else if picked == Some(id) {
        ClaimRaisesAllowance(db.rows[id], c);
      }
    }
  }

  lemma EventStaysInBudget(cfg: Config, s: System, e: Event, id: JobId)
    requires Inv(cfg, s) && Enabled(cfg, s, e)
    requires !(AcceptedOrder(s, e, Retry) && e.order.id == id)
    ensures var s' := Next(cfg, s, e);
            Allowance(s.db.rows, id) + Delay(s, s', e, id) <= Allowance(s'.db.rows, id)
  {
    hide KeysDistinct, TokensCoherent, CopiesOk, WorkersOk, RowOk, LeaseOk;
    hide RowAllowance, Decide, RunTry, NewRow, RowConverts, PayloadFits, ColumnsFit, Blank;
    match e {
      case Claimed(_, c, swept, candidate, _) =>
        ClaimTouchesOnlyItsRows(s.db.rows, c, swept, candidate);
        hide IsSweep, IsCandidate, Granted, AfterClaim;
        ClaimStaysInBudget(s.db, c, swept, PickedBy(s, e), id);
      case Finished(_, _) => FinishStaysInBudget(cfg, s, e, id);
      case Operated(order) =>
        if order.id == id && Operate(s.db, order).answer.Done? {
          CancelKeepsAllowance(s.db.rows[id], order);
        }
      case _ =>
    }
  }

  lemma CancelKeepsAllowance(row: Row, order: OperatorCall)
    requires order.action.Cancel? && MayOperate(row, order.action)
    ensures RowAllowance(OperatedRow(row, order)) == RowAllowance(row)
  {
  }

  function Spent(r: Run, id: JobId, n: nat): Time
    requires n <= |r.events| && |r.states| == |r.events| + 1
  {
    if n == 0 then 0 else Spent(r, id, n - 1) + Delay(r.states[n - 1], r.states[n], r.events[n - 1], id)
  }

  ghost predicate NeverRetried(r: Run, id: JobId) {
    forall i {:trigger r.events[i]} | 0 <= i < |r.events| && i < |r.states| ::
      !(AcceptedOrder(r.states[i], r.events[i], Retry) && r.events[i].order.id == id)
  }

  lemma {:induction false} SpendingStaysInBudget(cfg: Config, r: Run, id: JobId, n: nat)
    requires Sane(cfg) && IsRun(cfg, r) && StartsEmpty(r) && NeverRetried(r, id) && n <= |r.events|
    ensures Spent(r, id, n) <= Allowance(r.states[n].db.rows, id)
  {
    hide Inv, Enabled, Next, AcceptedOrder, RowAllowance, Delay;
    if n > 0 {
      SpendingStaysInBudget(cfg, r, id, n - 1);
      ReachableStatesAreOk(cfg, r, n - 1);
      var e := r.events[n - 1];
      EventStaysInBudget(cfg, r.states[n - 1], e, id);
    }
  }

  /** Without an operator retry, all backoffs of one job together stay within 5011 seconds. */
  lemma BackoffsOfOneJobAreBounded(cfg: Config, r: Run, id: JobId, n: nat)
    requires Sane(cfg) && IsRun(cfg, r) && StartsEmpty(r) && NeverRetried(r, id) && n <= |r.events|
    ensures Spent(r, id, n) <= 5011 * SECOND
  {
    hide Enabled, Next, AcceptedOrder, RowAllowance, RowOk, TokensCoherent, KeysDistinct, CopiesOk, WorkersOk;
    SpendingStaysInBudget(cfg, r, id, n);
    ReachableStatesAreOk(cfg, r, n);
    var rows := r.states[n].db.rows;
    if id in rows {
      AllowanceIsCapped(rows[id]);
    }
  }
}
