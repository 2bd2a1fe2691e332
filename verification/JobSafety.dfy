/** Safety of every run: exclusion of leases and executions, fencing, and stable jobs. */
module JobSafety {
  import opened Base
  import opened Text
  import opened Results
  import opened JobTable
  import opened JobWorker
  import opened JobSystem
  import opened JobInvariant

  // ---------------------------------------------------------------- lease exclusion

  /** At most one job per non-empty resource key has a lease that has not run out. */
  predicate LeasesExclusive(rows: map<JobId, Row>, now: Time) {
    forall a, b | a in rows && b in rows && a != b && Live(rows[a], now) && Live(rows[b], now) ::
      rows[a].resourceKey == "" || rows[a].resourceKey != rows[b].resourceKey
  }

  /** The snapshot NOT EXISTS reads shows every live lease on a resource key that the table has. */
  predicate FreshView(rows: map<JobId, Row>, c: ClaimCall) {
    forall id | id in rows && Live(rows[id], c.now) && rows[id].resourceKey != "" ::
      id in c.view && Live(c.view[id], c.now) && c.view[id].resourceKey == rows[id].resourceKey
  }

  ghost predicate ClaimsSeeLatest(r: Run) {
    forall i {:trigger r.events[i]} | 0 <= i < |r.events| && i < |r.states| && r.events[i].Claimed? ::
      FreshView(r.states[i].db.rows, r.events[i].call)
  }

  /** Whoever is live afterwards was live before, with the same key. */
  ghost predicate NoNewLeases(rows: map<JobId, Row>, now: Time, rows': map<JobId, Row>, now': Time) {
    forall id | id in rows' && Live(rows'[id], now') ::
      id in rows && Live(rows[id], now) && rows[id].resourceKey == rows'[id].resourceKey
  }

  lemma NoNewLeasesKeepsExclusive(rows: map<JobId, Row>, now: Time, rows': map<JobId, Row>, now': Time)
    requires LeasesExclusive(rows, now) && NoNewLeases(rows, now, rows', now')
    ensures LeasesExclusive(rows', now')
  {
    hide Live;
  }

  lemma TryGivesNoLease(db: Db, job: Job, action: FinalAction, t: Try, lib: JsonLibrary, now: Time)
    ensures NoNewLeases(db.rows, now, RunTry(db, job, action, t, lib).0.rows, now)
  {
    hide Blank, NormalizeResult, SafeMessage, ResultFits, Converts, Storable;
  }

  lemma EnqueueGivesNoLease(db: Db, input: EnqueueInput, id: JobId, at: Time, lib: JsonLibrary, now: Time)
    ensures NoNewLeases(db.rows, now, Enqueue(db, input, id, at, lib).db.rows, now)
  {
    hide Trim, Utf8Size, ColumnsFit, RowConverts, PayloadFits;
  }

  lemma OtherEventsGiveNoLease(cfg: Config, s: System, e: Event)
    requires !e.Claimed? && Enabled(cfg, s, e)
    ensures var s' := Next(cfg, s, e); NoNewLeases(s.db.rows, s.now, s'.db.rows, s'.now)
  {
    hide RunTry, Enqueue, Decide, AfterTry;
    match e {
      case Enqueued(id, input, at) => EnqueueGivesNoLease(s.db, input, id, at, cfg.lib, s.now);
      case Finished(w, t) =>
        TryGivesNoLease(s.db, s.workers[w].job, s.workers[w].action, t, cfg.lib, s.now);
      case _ =>
    }
  }

  /** Another job holds a lease on the picked job's key at this moment. */
  predicate KeyTaken(rows: map<JobId, Row>, picked: JobId, now: Time)
    requires picked in rows
  {
    exists other | other in rows ::
      other != picked && Live(rows[other], now) && rows[other].resourceKey == rows[picked].resourceKey
  }

  /** `rows'` differs from `rows`, as far as live leases go, only in the row of `picked`. */
  ghost predicate OnlyPickedChanges(rows: map<JobId, Row>, rows': map<JobId, Row>, picked: JobId, now: Time) {
    && rows'.Keys == rows.Keys
    && (forall id | id in rows :: rows'[id].resourceKey == rows[id].resourceKey)
    && (forall id | id in rows && id != picked :: Live(rows'[id], now) == Live(rows[id], now))
  }

  lemma NewLeaseExclusion(rows: map<JobId, Row>, rows': map<JobId, Row>, picked: JobId, now: Time)
    requires LeasesExclusive(rows, now) && picked in rows && OnlyPickedChanges(rows, rows', picked, now)
    ensures LeasesExclusive(rows', now) <==>
              (Live(rows'[picked], now) && rows[picked].resourceKey != "" ==> !KeyTaken(rows, picked, now))
  {
    hide Live;
    if Live(rows'[picked], now) && KeyTaken(rows, picked, now) {
      var other :| other in rows && other != picked && Live(rows[other], now)
        && rows[other].resourceKey == rows[picked].resourceKey;
      assert Live(rows'[other], now);
    }
  }

  lemma ClaimChangesOnlyPicked(db: Db, c: ClaimCall, swept: seq<JobId>, picked: JobId, now: Time)
    requires ClaimTouches(db.rows, c, swept, Some(picked)) && c.now <= now
    requires picked !in swept
    ensures OnlyPickedChanges(db.rows, AfterClaim(db, c, swept, Some(picked)).rows, picked, now)
    ensures Live(AfterClaim(db, c, swept, Some(picked)).rows[picked], now) <==> c.leaseUntil > now
  {
  }

  lemma SweepGivesNoLease(db: Db, c: ClaimCall, swept: seq<JobId>, now: Time)
    ensures NoNewLeases(db.rows, now, AfterClaim(db, c, swept, None).rows, now)
  {
  }

  /**
    Exactly when one claim keeps exclusion: it hands out nothing, or no key, or a lease that is over
    already, or the key is free in the table itself, whatever its snapshot showed.
   */
  lemma ClaimKeepsExclusionExactly(cfg: Config, s: System, e: Event)
    requires e.Claimed? && Enabled(cfg, s, e) && LeasesExclusive(s.db.rows, s.now)
    ensures var picked := Granted(s.db.rows, e.call, e.candidate);
            LeasesExclusive(Next(cfg, s, e).db.rows, s.now) <==>
              || picked.None?
              || s.db.rows[picked.value].resourceKey == ""
              || e.call.leaseUntil <= s.now
              || !KeyTaken(s.db.rows, picked.value, s.now)
  {
    var rows, rows' := s.db.rows, Next(cfg, s, e).db.rows;
    var picked := Granted(rows, e.call, e.candidate);
    ClaimTouchesOnlyItsRows(rows, e.call, e.swept, e.candidate);
    hide IsSweep, IsCandidate, LeasesExclusive, KeyTaken, AfterClaim, OnlyPickedChanges, Live, ClaimTouches;
    if picked.None? {
      SweepGivesNoLease(s.db, e.call, e.swept, s.now);
      NoNewLeasesKeepsExclusive(rows, s.now, rows', s.now);
    } else {
      ClaimChangesOnlyPicked(s.db, e.call, e.swept, picked.value, s.now);
      NewLeaseExclusion(rows, rows', picked.value, s.now);
    }
  }

  lemma FreshClaimFindsKeyFree(cfg: Config, s: System, e: Event)
    requires e.Claimed? && Enabled(cfg, s, e) && FreshView(s.db.rows, e.call)
    ensures var picked := Granted(s.db.rows, e.call, e.candidate);
            picked.Some? && s.db.rows[picked.value].resourceKey != "" ==> !KeyTaken(s.db.rows, picked.value, s.now)
  {
    hide IsSweep, NotAfter;
  }

  lemma EventKeepsExclusion(cfg: Config, s: System, e: Event)
    requires Sane(cfg) && Inv(cfg, s) && Enabled(cfg, s, e) && LeasesExclusive(s.db.rows, s.now)
    requires e.Claimed? ==> FreshView(s.db.rows, e.call)
    ensures LeasesExclusive(Next(cfg, s, e).db.rows, Next(cfg, s, e).now)
  {
    hide Inv, LeasesExclusive, KeyTaken, FreshView, RunTry, AfterClaim, Decide, Enqueue, Operate;
    if e.Claimed? {
      ClaimKeepsExclusionExactly(cfg, s, e);
      FreshClaimFindsKeyFree(cfg, s, e);
      assert Next(cfg, s, e).now == s.now;
    } else {
      OtherEventsGiveNoLease(cfg, s, e);
      var s' := Next(cfg, s, e);
      NoNewLeasesKeepsExclusive(s.db.rows, s.now, s'.db.rows, s'.now);
    }
  }

  /**
    In every reachable state at most one running job per resource key has a live lease, also when a
    claim's clock reading is older than the moment its statement runs.
   */
  lemma {:induction false} LeaseExclusion(cfg: Config, r: Run, i: nat)
    requires Sane(cfg) && IsRun(cfg, r) && StartsEmpty(r) && ClaimsSeeLatest(r) && i < |r.states|
    ensures LeasesExclusive(r.states[i].db.rows, r.states[i].now)
  {
    hide Inv, Enabled, Next, FreshView;
    if i > 0 {
      LeaseExclusion(cfg, r, i - 1);
      ReachableStatesAreOk(cfg, r, i - 1);
      var e := r.events[i - 1];
      EventKeepsExclusion(cfg, r.states[i - 1], e);
    }
  }

  // ---------------------------------------------------------------- execution exclusion

  /** The worker's claim still has time left. */
  predicate InLease(phase: Phase, now: Time) {
    (phase.Holding? || phase.Executing?) && Live(phase.job.row, now)
  }

  /** A worker whose lease has not run out has the job's row exactly as it was handed out. */
  predicate ClaimsSurvive(s: System) {
    forall w | w in s.workers && InLease(s.workers[w], s.now) ::
      s.workers[w].job.id in s.db.rows && s.db.rows[s.workers[w].job.id] == s.workers[w].job.row
  }

  /**
    The timing the deployment promises: an executor stops at its deadline, and the time from a
    claim's clock reading to that deadline is shorter than the lease.
   */
  ghost predicate Punctual(cfg: Config, s: System, e: Event) {
    && (e.Tick? ==> forall w | w in s.workers && s.workers[w].Executing? :: e.to <= s.workers[w].deadline)
    && (e.Started? && PhaseOf(s, e.w).Holding? ==> Live(PhaseOf(s, e.w).job.row, s.now + cfg.timeout))
  }

  ghost predicate IsPunctual(cfg: Config, r: Run) {
    forall i {:trigger r.events[i]} | 0 <= i < |r.events| && i < |r.states| :: Punctual(cfg, r.states[i], r.events[i])
  }

  predicate OnTime(s: System) {
    forall w | w in s.workers && s.workers[w].Executing? ::
      s.now <= s.workers[w].deadline && Live(s.workers[w].job.row, s.workers[w].deadline)
  }

  /** The deployed durations. */
  const DEFAULT_LEASE := 10 * MINUTE
  const DEFAULT_TIMEOUT := 5 * MINUTE

  /**
    With the defaults a start is punctual exactly if it comes less than five minutes after the claim's
    clock reading.
   */
  lemma DefaultsLeaveFiveMinutes(cfg: Config, s: System, w: WorkerId)
    requires Inv(cfg, s) && cfg.lease == DEFAULT_LEASE && cfg.timeout == DEFAULT_TIMEOUT
    requires w in s.workers && s.workers[w].Holding?
    ensures s.workers[w].job.row.startedAt.Some?
    ensures Punctual(cfg, s, Started(w)) <==> s.now - s.workers[w].job.row.startedAt.value < 5 * MINUTE
  {
    hide RowsOk, TokensCoherent, KeysDistinct, CopiesOk, RowOk;
    var job := s.workers[w].job;
    PhaseIsOk(s.workers, s.issued, s.now, cfg.lib, w);
    IssuedCopyIsOk(cfg, s, job);
    StartedInThePast(cfg, job.row, s.now);
  }

  lemma ClaimSparesLiveRows(s: System, c: ClaimCall, swept: seq<JobId>, picked: Option<JobId>, id: JobId)
    requires ClaimTouches(s.db.rows, c, swept, picked) && c.now <= s.now
    requires id in s.db.rows && Live(s.db.rows[id], s.now)
    ensures AfterClaim(s.db, c, swept, picked).rows[id] == s.db.rows[id]
    ensures picked != Some(id)
  {
  }

  lemma OtherTrySparesRow(s: System, w: WorkerId, v: WorkerId, action: FinalAction, t: Try, lib: JsonLibrary)
    requires WorkersOk(s.workers, s.issued, s.now, lib) && v in s.workers && w in s.workers && v != w
    requires !s.workers[v].Idle? && !s.workers[w].Idle?
    requires s.workers[w].job.id in s.db.rows && s.db.rows[s.workers[w].job.id] == s.workers[w].job.row
    ensures var rows' := RunTry(s.db, s.workers[v].job, action, t, lib).0.rows;
            s.workers[w].job.id in rows' && rows'[s.workers[w].job.id] == s.workers[w].job.row
  {
    hide PhaseOk, Finalise;
    var job := s.workers[v].job;
    DoneConsumesClaim(s.db, job, action, t.at, lib);
    if RunTry(s.db, job, action, t, lib).0 != s.db {
      FinaliseWritesOneRow(s.db, job, action, t.at, lib);
    }
  }

  lemma EnqueueSparesRows(db: Db, input: EnqueueInput, id: JobId, at: Time, lib: JsonLibrary, other: JobId)
    requires other in db.rows
    ensures var rows' := Enqueue(db, input, id, at, lib).db.rows; other in rows' && rows'[other] == db.rows[other]
  {
    hide NewRow, ColumnsFit, RowConverts, PayloadFits;
  }

  lemma OperateSparesRunning(db: Db, order: OperatorCall, id: JobId)
    requires id in db.rows && db.rows[id].status.Running?
    ensures id in Operate(db, order).db.rows && Operate(db, order).db.rows[id] == db.rows[id]
  {
  }

  /** One worker's row survives one event as long as the worker's lease lasts. */
  lemma EventSparesClaim(cfg: Config, s: System, e: Event, w: WorkerId)
    requires Inv(cfg, s) && ClaimsSurvive(s) && Enabled(cfg, s, e)
    requires var s' := Next(cfg, s, e); w in s'.workers && InLease(s'.workers[w], s'.now)
    ensures var s' := Next(cfg, s, e);
            s'.workers[w].job.id in s'.db.rows && s'.db.rows[s'.workers[w].job.id] == s'.workers[w].job.row
  {
    hide RowsOk, TokensCoherent, KeysDistinct, WorkersOk, CopiesOk;
    hide RunTry, Enqueue, Operate, Decide, IsSweep, IsCandidate, Blank;
    match e {
      case Claimed(v, c, swept, candidate, answered) =>
        var picked := Granted(s.db.rows, c, candidate);
        ClaimTouchesOnlyItsRows(s.db.rows, c, swept, candidate);
        if w in s.workers && InLease(s.workers[w], s.now) {
          ClaimSparesLiveRows(s, c, swept, picked, s.workers[w].job.id);
        }
      case Enqueued(id, input, at) => EnqueueSparesRows(s.db, input, id, at, cfg.lib, s.workers[w].job.id);
      case Operated(order) => OperateSparesRunning(s.db, order, s.workers[w].job.id);
      case Finished(v, t) => OtherTrySparesRow(s, w, v, s.workers[v].action, t, cfg.lib);
      case _ =>
    }
  }

  lemma EventKeepsClaims(cfg: Config, s: System, e: Event)
    requires Inv(cfg, s) && ClaimsSurvive(s) && Enabled(cfg, s, e)
    ensures ClaimsSurvive(Next(cfg, s, e))
  {
    hide Inv, Enabled, Next, Live;
    var s' := Next(cfg, s, e);
    forall w | w in s'.workers && InLease(s'.workers[w], s'.now)
      ensures s'.workers[w].job.id in s'.db.rows && s'.db.rows[s'.workers[w].job.id] == s'.workers[w].job.row
    {
      EventSparesClaim(cfg, s, e, w);
    }
  }

  lemma EventKeepsOnTime(cfg: Config, s: System, e: Event)
    requires Sane(cfg) && OnTime(s) && Enabled(cfg, s, e) && Punctual(cfg, s, e)
    ensures OnTime(Next(cfg, s, e))
  {
    hide RunTry, AfterClaim, Decide, Enqueue, Operate, IsSweep, IsCandidate, Blank, ClaimedRow;
  }

  lemma {:induction false} RunsKeepClaims(cfg: Config, r: Run, i: nat)
    requires Sane(cfg) && IsRun(cfg, r) && StartsEmpty(r) && i < |r.states|
    ensures ClaimsSurvive(r.states[i])
    ensures IsPunctual(cfg, r) ==> OnTime(r.states[i])
  {
    hide Inv, Enabled, Next, Punctual;
    if i > 0 {
      RunsKeepClaims(cfg, r, i - 1);
      ReachableStatesAreOk(cfg, r, i - 1);
      var s, e := r.states[i - 1], r.events[i - 1];
      EventKeepsClaims(cfg, s, e);
      if IsPunctual(cfg, r) {
        EventKeepsOnTime(cfg, s, e);
      }
    }
  }

  predicate BothExecute(s: System, v: WorkerId, w: WorkerId) {
    v in s.workers && w in s.workers && v != w && s.workers[v].Executing? && s.workers[w].Executing?
  }

  /** No two workers are inside Execute for the same job. */
  ghost predicate JobsExclusive(s: System) {
    forall v, w | BothExecute(s, v, w) :: s.workers[v].job.id != s.workers[w].job.id
  }

  /** No two workers are inside Execute for jobs with the same resource key. */
  ghost predicate KeysExclusive(s: System) {
    forall v, w | BothExecute(s, v, w) ::
      s.workers[v].job.row.resourceKey == "" || s.workers[v].job.row.resourceKey != s.workers[w].job.row.resourceKey
  }

  /** Two holders of one row would have its token, and so the same claim. */
  lemma ExclusionOfJobs(s: System, lib: JsonLibrary)
    requires WorkersOk(s.workers, s.issued, s.now, lib) && ClaimsSurvive(s) && OnTime(s)
    ensures JobsExclusive(s)
  {
    hide PhaseOk;
    assert forall w | w in s.workers && s.workers[w].Executing? :: InLease(s.workers[w], s.now);
  }

  lemma ExclusionOfKeys(s: System)
    requires JobsExclusive(s) && ClaimsSurvive(s) && OnTime(s) && LeasesExclusive(s.db.rows, s.now)
    ensures KeysExclusive(s)
  {
    assert forall w | w in s.workers && s.workers[w].Executing? :: InLease(s.workers[w], s.now);
  }

  /**
    Queue and worker together, in every state of every punctual run: no two workers execute the same
    job, whatever the claims' snapshots showed; and none execute jobs of one resource, if those
    snapshots showed the live leases on resource keys.
   */
  lemma ExecutionExclusion(cfg: Config, r: Run, i: nat)
    requires Sane(cfg) && IsRun(cfg, r) && StartsEmpty(r) && i < |r.states| && IsPunctual(cfg, r)
    ensures JobsExclusive(r.states[i])
    ensures ClaimsSeeLatest(r) ==> KeysExclusive(r.states[i])
  {
    hide Enabled, Next, FreshView, Punctual, LeasesExclusive, RowsOk, CopiesOk;
    hide TokensCoherent, KeysDistinct, WorkersOk, ClaimsSurvive, OnTime, JobsExclusive, KeysExclusive;
    RunsKeepClaims(cfg, r, i);
    ReachableStatesAreOk(cfg, r, i);
    ExclusionOfJobs(r.states[i], cfg.lib);
    if ClaimsSeeLatest(r) {
      LeaseExclusion(cfg, r, i);
      ExclusionOfKeys(r.states[i]);
    }
  }

  // ---------------------------------------------------------------- fencing

  /** The token was handed out, and no row carries it any more. */
  predicate TokenGone(rows: map<JobId, Row>, issued: map<Token, Job>, token: Token) {
    token in issued && forall id | id in rows :: rows[id].claimToken != Some(token)
  }

  lemma TryReleasesToken(db: Db, job: Job, action: FinalAction, t: Try, lib: JsonLibrary)
    ensures var db' := RunTry(db, job, action, t, lib).0;
            || db' == db
            || (job.id in db.rows && job.id in db'.rows && db'.rows == db.rows[job.id := db'.rows[job.id]]
                && HoldsClaim(db, job) && db'.rows[job.id].claimToken.None?)
  {
    hide Blank, NormalizeResult, SafeMessage, ResultFits, Converts, Storable;
  }

  lemma GoneStaysGone(cfg: Config, s: System, e: Event, token: Token)
    requires Enabled(cfg, s, e) && TokenGone(s.db.rows, s.issued, token)
    ensures TokenGone(Next(cfg, s, e).db.rows, Next(cfg, s, e).issued, token)
  {
    hide RunTry, Decide, IsSweep, IsCandidate, Blank, NewRow, MayOperate;
    if e.Finished? {
      TryReleasesToken(s.db, s.workers[e.w].job, s.workers[e.w].action, e.t, cfg.lib);
    } else if e.Enqueued? {
      NewRowsHaveNoToken(e.input, e.id, e.at, cfg.lib);
    } else if e.Operated? && e.order.id in s.db.rows {
      assert OperatedRow(s.db.rows[e.order.id], e.order).claimToken == s.db.rows[e.order.id].claimToken;
    }
  }

  lemma NewRowsHaveNoToken(input: EnqueueInput, id: JobId, at: Time, lib: JsonLibrary)
    ensures NewRow(input, id, at, lib).Some? ==> NewRow(input, id, at, lib).value.claimToken.None?
  {
    hide Trim, Utf8Size;
  }

  /** The database can convert the parameters of the action's UPDATE; those of a failure always. */
  predicate ActionConverts(action: FinalAction, lib: JsonLibrary) {
    action.SucceedWith? ==> Converts(action.result, lib)
  }

  /** The table can hold what the action writes. */
  predicate ActionStorable(action: FinalAction, lib: JsonLibrary) {
    match action
    case SucceedWith(result) => Storable(result, lib)
    case FailWith(failure) => Textual(failure.message)
  }

  lemma StorableConverts(action: FinalAction, lib: JsonLibrary)
    ensures ActionStorable(action, lib) ==> ActionConverts(action, lib)
  {
  }

  function ExactAnswer(held: bool, action: FinalAction, lib: JsonLibrary): Answer {
    if !ActionConverts(action, lib) then Refused(NOT_CONVERTIBLE)
    else if !held then InvalidTransition
    else if !ActionStorable(action, lib) then Refused(NOT_STORABLE)
    else Done
  }

  /**
    How a worker's finalising statement is answered: it is accepted exactly if the token is still on
    the row and the table can hold what it writes. The panel's own limits never get in the way.
   */
  lemma AnswersAreExact(cfg: Config, s: System, w: WorkerId, at: Time)
    requires Inv(cfg, s) && w in s.workers && s.workers[w].Finalising?
    ensures Finalise(s.db, s.workers[w].job, s.workers[w].action, at, cfg.lib).answer
         == ExactAnswer(HoldsClaim(s.db, s.workers[w].job), s.workers[w].action, cfg.lib)
  {
    hide RowOk, LeaseOk, RowsOk, KeysDistinct, TokensCoherent;
    hide NamesClaim, ExactAnswer, Finalise, HoldsClaim, Backoff, ActionOk;
    var job, action := s.workers[w].job, s.workers[w].action;
    IssuedCopyIsOk(cfg, s, job);
    ActionAnswer(s.db, job, action, at, cfg.lib);
  }

  lemma ActionAnswer(db: Db, job: Job, action: FinalAction, at: Time, lib: JsonLibrary)
    requires NamesClaim(job) && ActionOk(job, action, lib)
    ensures Finalise(db, job, action, at, lib).answer == ExactAnswer(HoldsClaim(db, job), action, lib)
  {
    hide NamesClaim, NormalizeResult, HoldsClaim, SafeMessage, ResultFits, Converts;
    hide Storable, Backoff, TrimRight, Blank, Textual, DiffersInTrailingSpace;
    match action {
      case SucceedWith(result) => TrailingSpaceIsStorable(result, NormalizeResult(result, lib).value, lib);
      case FailWith(failure) =>
        BackoffIsPositive(job.row.attempts);
        TrimmingKeepsTextual(failure.message);
        TrimmedIsShorter(failure.message);
    }
  }

  lemma TrimmedIsShorter(s: string)
    ensures |TrimRight(s)| <= |s|
  {
  }

  lemma BackoffIsPositive(attempt: int)
    ensures SECOND <= Backoff(attempt)
  {
    BackoffIsMonotone(attempt, attempt);
  }

  /** Event `i` is a finalising statement with this token that reached the database. */
  ghost predicate Presents(r: Run, i: nat, token: Token) {
    && i < |r.events| && i < |r.states| && r.events[i].Finished? && !r.events[i].t.delivery.NeverRan?
    && PhaseOf(r.states[i], r.events[i].w).Finalising?
    && PhaseOf(r.states[i], r.events[i].w).job.row.claimToken == Some(token)
  }

  function AnswerAt(cfg: Config, s: System, e: Event): Answer
    requires e.Finished? && PhaseOf(s, e.w).Finalising?
  {
    Finalise(s.db, PhaseOf(s, e.w).job, PhaseOf(s, e.w).action, e.t.at, cfg.lib).answer
  }

  lemma ReleasedTokenIsGone(rows: map<JobId, Row>, issued: map<Token, Job>, job: Job, row: Row, token: Token)
    requires TokensCoherent(rows, issued) && IsIssued(issued, job) && job.row.claimToken == Some(token)
    requires row.claimToken.None?
    ensures TokenGone(rows[job.id := row], issued, token)
  {
  }

  lemma FinalRowHasNoToken(row: Row, job: Job, action: FinalAction, at: Time, lib: JsonLibrary)
    ensures FinalRow(row, job, action, at, lib).claimToken.None?
  {
    hide NormalizeResult, FailureMarkFor;
  }

  lemma AcceptanceRemovesToken(cfg: Config, s: System, e: Event, token: Token)
    requires e.Finished? && !e.t.delivery.NeverRan? && PhaseOf(s, e.w).Finalising?
    requires PhaseOf(s, e.w).job.row.claimToken == Some(token) && AnswerAt(cfg, s, e).Done?
    requires Inv(cfg, s)
    ensures TokenGone(Next(cfg, s, e).db.rows, Next(cfg, s, e).issued, token)
  {
    hide Finalise, RowsOk, CopiesOk, KeysDistinct, TokensCoherent, WorkersOk, PhaseOk, IsIssued, TokenGone, FinalRow;
    var phase := s.workers[e.w];
    PhaseIsOk(s.workers, s.issued, s.now, cfg.lib, e.w);
    BusyPhaseIsIssued(s.issued, phase, s.now, cfg.lib);
    FinaliseWritesOneRow(s.db, phase.job, phase.action, e.t.at, cfg.lib);
    var row := FinalRow(s.db.rows[phase.job.id], phase.job, phase.action, e.t.at, cfg.lib);
    FinalRowHasNoToken(s.db.rows[phase.job.id], phase.job, phase.action, e.t.at, cfg.lib);
    ReleasedTokenIsGone(s.db.rows, s.issued, phase.job, row, token);
  }

  lemma BusyPhaseIsIssued(issued: map<Token, Job>, phase: Phase, now: Time, lib: JsonLibrary)
    requires PhaseOk(issued, phase, now, lib) && !phase.Idle?
    ensures IsIssued(issued, phase.job)
  {
  }

  /** A claim that sweeps or reclaims a job takes its token off the table for good. */
  lemma LosingTheLeaseRemovesToken(cfg: Config, s: System, e: Event, id: JobId)
    requires Inv(cfg, s) && Enabled(cfg, s, e) && e.Claimed?
    requires id in s.db.rows && s.db.rows[id].claimToken.Some?
    requires id in e.swept || Granted(s.db.rows, e.call, e.candidate) == Some(id)
    ensures TokenGone(Next(cfg, s, e).db.rows, Next(cfg, s, e).issued, s.db.rows[id].claimToken.value)
  {
    hide RowsOk, CopiesOk, KeysDistinct, WorkersOk, IsSweep, IsCandidate, Blank;
  }

  lemma {:induction false} GoneForTheRestOfTheRun(cfg: Config, r: Run, i: nat, j: nat, token: Token)
    requires IsRun(cfg, r) && i <= j < |r.states|
    requires TokenGone(r.states[i].db.rows, r.states[i].issued, token)
    ensures TokenGone(r.states[j].db.rows, r.states[j].issued, token)
    decreases j - i
  {
    hide Enabled, Next, TokenGone;
    if i < j {
      GoneForTheRestOfTheRun(cfg, r, i, j - 1, token);
      var e := r.events[j - 1];
      GoneStaysGone(cfg, r.states[j - 1], e, token);
    }
  }

  /**
    Once a token is off the table, whoever presents it later, in any try, changes neither a row nor a
    log, and is told the transition is invalid, unless the result cannot even be converted.
   */
  lemma OldHoldersAreFenced(cfg: Config, r: Run, i: nat, j: nat, token: Token)
    requires Sane(cfg) && IsRun(cfg, r) && StartsEmpty(r) && i <= j
    requires i < |r.states| && TokenGone(r.states[i].db.rows, r.states[i].issued, token)
    requires Presents(r, j, token)
    ensures AnswerAt(cfg, r.states[j], r.events[j])
         == if ActionConverts(PhaseOf(r.states[j], r.events[j].w).action, cfg.lib) then InvalidTransition
            else Refused(NOT_CONVERTIBLE)
    ensures r.states[j + 1].db == r.states[j].db
  {
    hide Inv, Enabled, Finalise, ActionConverts, ActionStorable;
    GoneForTheRestOfTheRun(cfg, r, i, j, token);
    ReachableStatesAreOk(cfg, r, j);
    var s, e := r.states[j], r.events[j];
    var phase := s.workers[e.w];
    AnswersAreExact(cfg, s, e.w, e.t.at);
    DoneConsumesClaim(s.db, phase.job, phase.action, e.t.at, cfg.lib);
  }

  /** Whoever works with this token is finalising this action. */
  predicate OnlyAction(s: System, token: Token, action: FinalAction) {
    && token in s.issued
    && forall w | w in s.workers && !s.workers[w].Idle? && s.workers[w].job.row.claimToken == Some(token) ::
      s.workers[w].Finalising? && s.workers[w].action == action
  }

  lemma EventKeepsAction(cfg: Config, s: System, e: Event, token: Token, action: FinalAction)
    requires Enabled(cfg, s, e) && OnlyAction(s, token, action)
    ensures OnlyAction(Next(cfg, s, e), token, action)
  {
    hide RunTry, Decide, IsSweep, IsCandidate, AfterClaim, Enqueue, Operate, Blank, Settled;
  }

  lemma {:induction false} ActionStays(cfg: Config, r: Run, i: nat, j: nat, token: Token, action: FinalAction)
    requires IsRun(cfg, r) && i <= j < |r.states| && OnlyAction(r.states[i], token, action)
    ensures OnlyAction(r.states[j], token, action)
    decreases j - i
  {
    hide Enabled, Next, OnlyAction;
    if i < j {
      ActionStays(cfg, r, i, j - 1, token, action);
      var e := r.events[j - 1];
      EventKeepsAction(cfg, r.states[j - 1], e, token, action);
    }
  }

  lemma PresentedActionIsOnly(cfg: Config, s: System, w: WorkerId, token: Token)
    requires Inv(cfg, s) && w in s.workers && s.workers[w].Finalising? && s.workers[w].job.row.claimToken == Some(token)
    ensures OnlyAction(s, token, s.workers[w].action)
  {
    hide RowsOk, CopiesOk, KeysDistinct, TokensCoherent, ActionOk;
  }

  /** A token stands for one decision: all tries with it, by whatever event, present the same action. */
  lemma OneActionPerToken(cfg: Config, r: Run, i: nat, j: nat, token: Token)
    requires Sane(cfg) && IsRun(cfg, r) && StartsEmpty(r) && i <= j && Presents(r, i, token) && Presents(r, j, token)
    ensures PhaseOf(r.states[j], r.events[j].w).action == PhaseOf(r.states[i], r.events[i].w).action
  {
    hide Inv, Enabled, Next;
    ReachableStatesAreOk(cfg, r, i);
    var w := r.events[i].w;
    PresentedActionIsOnly(cfg, r.states[i], w, token);
    ActionStays(cfg, r, i, j, token, r.states[i].workers[w].action);
  }

  /**
    Every token finalises at most once in a run: after the try that was accepted, each repetition is
    told the transition is invalid and changes nothing, also if the accepted try's answer was lost.
   */
  lemma EachTokenFinalisesOnce(cfg: Config, r: Run, i: nat, j: nat, token: Token)
    requires Sane(cfg) && IsRun(cfg, r) && StartsEmpty(r) && i < j
    requires Presents(r, i, token) && AnswerAt(cfg, r.states[i], r.events[i]).Done?
    requires Presents(r, j, token)
    ensures AnswerAt(cfg, r.states[j], r.events[j]) == InvalidTransition
    ensures r.states[j + 1].db == r.states[j].db
  {
    hide Inv, Finalise, TokenGone, ActionConverts, ActionStorable;
    ReachableStatesAreOk(cfg, r, i);
    var e := r.events[i];
    AnswersAreExact(cfg, r.states[i], e.w, e.t.at);
    AcceptanceRemovesToken(cfg, r.states[i], e, token);
    OneActionPerToken(cfg, r, i, j, token);
    OldHoldersAreFenced(cfg, r, i + 1, j, token);
  }

  // ---------------------------------------------------------------- stable jobs

  /** Rows that no statement can match any more. */
  predicate Frozen(row: Row) {
    row.status.Succeeded? || row.status.Cancelled? || (row.status.Failed? && !row.retryable)
  }

  /** A job keeps its identity, and once frozen its whole row. */
  ghost predicate Endures(rows: map<JobId, Row>, rows': map<JobId, Row>, id: JobId) {
    id in rows ==>
      && id in rows' && IdentityOf(rows'[id]) == IdentityOf(rows[id])
      && (Frozen(rows[id]) ==> rows'[id] == rows[id])
  }

  lemma TryEndures(db: Db, job: Job, action: FinalAction, t: Try, lib: JsonLibrary, id: JobId)
    ensures Endures(db.rows, RunTry(db, job, action, t, lib).0.rows, id)
  {
    hide Blank, NormalizeResult, SafeMessage, ResultFits, Converts, Storable;
  }

  lemma ClaimEndures(db: Db, c: ClaimCall, swept: seq<JobId>, picked: Option<JobId>, id: JobId)
    requires ClaimTouches(db.rows, c, swept, picked)
    ensures Endures(db.rows, AfterClaim(db, c, swept, picked).rows, id)
  {
  }

  lemma EnqueueEndures(db: Db, input: EnqueueInput, other: JobId, at: Time, lib: JsonLibrary, id: JobId)
    ensures Endures(db.rows, Enqueue(db, input, other, at, lib).db.rows, id)
  {
    if id in db.rows {
      EnqueueSparesRows(db, input, other, at, lib, id);
    }
  }

  lemma OperateEndures(db: Db, order: OperatorCall, id: JobId)
    ensures Endures(db.rows, Operate(db, order).db.rows, id)
  {
  }

  lemma EventEndures(cfg: Config, s: System, e: Event, id: JobId)
    requires Enabled(cfg, s, e)
    ensures Endures(s.db.rows, Next(cfg, s, e).db.rows, id)
  {
    hide RunTry, Decide, Blank, Enqueue, Operate, AfterClaim, AfterTry, IsSweep, IsCandidate, ClaimTouches;
    match e {
      case Finished(w, t) => TryEndures(s.db, s.workers[w].job, s.workers[w].action, t, cfg.lib, id);
      case Claimed(_, c, swept, candidate, _) =>
        ClaimTouchesOnlyItsRows(s.db.rows, c, swept, candidate);
        ClaimEndures(s.db, c, swept, Granted(s.db.rows, c, candidate), id);
      case Enqueued(other, input, at) => EnqueueEndures(s.db, input, other, at, cfg.lib, id);
      case Operated(order) => OperateEndures(s.db, order, id);
      case _ =>
    }
  }

  /**
    No job ever disappears or changes its type, keys, payload, attempt limit or creation time; frozen
    rows never change.
   */
  lemma {:induction false} JobsEndure(cfg: Config, r: Run, i: nat, j: nat, id: JobId)
    requires IsRun(cfg, r) && i <= j < |r.states|
    ensures Endures(r.states[i].db.rows, r.states[j].db.rows, id)
    decreases j - i
  {
    hide Enabled, Next;
    if i < j {
      JobsEndure(cfg, r, i, j - 1, id);
      var e := r.events[j - 1];
      EventEndures(cfg, r.states[j - 1], e, id);
    }
  }

  /** Event `i` writes a success for this job. */
  ghost predicate SucceedsAt(cfg: Config, r: Run, i: nat, id: JobId) {
    && i < |r.events| && i < |r.states| && r.events[i].Finished? && !r.events[i].t.delivery.NeverRan?
    && var phase := PhaseOf(r.states[i], r.events[i].w);
       phase.Finalising? && phase.action.SucceedWith? && phase.job.id == id
       && AnswerAt(cfg, r.states[i], r.events[i]).Done?
  }

  lemma SuccessFreezes(cfg: Config, r: Run, i: nat, id: JobId)
    requires IsRun(cfg, r) && SucceedsAt(cfg, r, i, id)
    ensures i + 1 < |r.states|
    ensures id in r.states[i].db.rows && r.states[i].db.rows[id].status.Running?
    ensures id in r.states[i + 1].db.rows && r.states[i + 1].db.rows[id].status.Succeeded?
  {
    hide Blank, NormalizeResult, ResultFits, Converts, Storable;
    assert r.states[i + 1] == Next(cfg, r.states[i], r.events[i]);
  }

  /** A job succeeds at most once in any run, whatever is retried or reclaimed in between. */
  lemma JobSucceedsAtMostOnce(cfg: Config, r: Run, i: nat, j: nat, id: JobId)
    requires IsRun(cfg, r) && SucceedsAt(cfg, r, i, id) && SucceedsAt(cfg, r, j, id)
    ensures i == j
  {
    hide Enabled, Next, SucceedsAt;
    SuccessFreezes(cfg, r, i, id);
    SuccessFreezes(cfg, r, j, id);
    if i < j {
      JobsEndure(cfg, r, i + 1, j, id);
    } else if j < i {
      JobsEndure(cfg, r, j + 1, i, id);
    }
  }

  /** Every copy ever handed out still matches the identity of its job's row. */
  predicate CopiesBelong(rows: map<JobId, Row>, issued: map<Token, Job>) {
    forall token | token in issued ::
      issued[token].id in rows && IdentityOf(issued[token].row) == IdentityOf(rows[issued[token].id])
  }

  /** Only a claim hands out a copy, and the copy is of a job in the table. */
  lemma IssuedGrows(cfg: Config, s: System, e: Event, token: Token)
    requires Enabled(cfg, s, e) && token in Next(cfg, s, e).issued
    ensures var job := Next(cfg, s, e).issued[token];
            if token in s.issued then job == s.issued[token]
            else job.id in s.db.rows && IdentityOf(job.row) == IdentityOf(s.db.rows[job.id])
  {
    hide RunTry, Decide, Enqueue, Operate, AfterTry, AfterClaim, Settled, IsSweep, IsCandidate, Blank;
  }

  lemma EventKeepsBelonging(cfg: Config, s: System, e: Event)
    requires Enabled(cfg, s, e) && CopiesBelong(s.db.rows, s.issued)
    ensures CopiesBelong(Next(cfg, s, e).db.rows, Next(cfg, s, e).issued)
  {
    hide Enabled, Next, IdentityOf, Frozen;
    var s' := Next(cfg, s, e);
    forall token | token in s'.issued
      ensures s'.issued[token].id in s'.db.rows
      ensures IdentityOf(s'.issued[token].row) == IdentityOf(s'.db.rows[s'.issued[token].id])
    {
      IssuedGrows(cfg, s, e, token);
      EventEndures(cfg, s, e, s'.issued[token].id);
    }
  }

  lemma {:induction false} RunsKeepBelonging(cfg: Config, r: Run, i: nat)
    requires IsRun(cfg, r) && StartsEmpty(r) && i < |r.states|
    ensures CopiesBelong(r.states[i].db.rows, r.states[i].issued)
  {
    hide Enabled, Next;
    if i > 0 {
      RunsKeepBelonging(cfg, r, i - 1);
      var e := r.events[i - 1];
      EventKeepsBelonging(cfg, r.states[i - 1], e);
    }
  }

  /** Worker `w` has a copy of a job at state `i`: it is about to execute it, does, or finalises it. */
  ghost predicate Works(r: Run, i: nat, w: WorkerId, job: Job) {
    i < |r.states| && w in r.states[i].workers && !r.states[i].workers[w].Idle? && r.states[i].workers[w].job == job
  }

  lemma WorkedJobMatchesRow(cfg: Config, r: Run, i: nat, j: nat, w: WorkerId, job: Job)
    requires Sane(cfg) && IsRun(cfg, r) && StartsEmpty(r) && Works(r, i, w, job) && i <= j < |r.states|
    ensures job.id in r.states[j].db.rows && IdentityOf(job.row) == IdentityOf(r.states[j].db.rows[job.id])
  {
    hide Enabled, Next, IsIssued, RowsOk, CopiesOk, KeysDistinct, TokensCoherent;
    ReachableStatesAreOk(cfg, r, i);
    RunsKeepBelonging(cfg, r, i);
    var s := r.states[i];
    PhaseIsOk(s.workers, s.issued, s.now, cfg.lib, w);
    BusyPhaseIsIssued(s.issued, s.workers[w], s.now, cfg.lib);
    IssuedCopyBelongs(s.db.rows, s.issued, job);
    JobsEndure(cfg, r, i, j, job.id);
  }

  lemma IssuedCopyBelongs(rows: map<JobId, Row>, issued: map<Token, Job>, job: Job)
    requires CopiesBelong(rows, issued) && IsIssued(issued, job)
    ensures job.id in rows && IdentityOf(job.row) == IdentityOf(rows[job.id])
  {
  }

  /**
    Two executions anywhere in a run carry the same idempotency key exactly when they are executions
    of the same job, after retries and uncertain outcomes too.
   */
  lemma IdempotencyKeyNamesTheJob(cfg: Config, r: Run, i: nat, j: nat, v: WorkerId, w: WorkerId, a: Job, b: Job)
    requires Sane(cfg) && IsRun(cfg, r) && StartsEmpty(r) && Works(r, i, v, a) && Works(r, j, w, b)
    ensures a.row.idempotencyKey == b.row.idempotencyKey <==> a.id == b.id
  {
    hide Enabled, Next, Works, RowsOk, CopiesOk, TokensCoherent, WorkersOk;
    var last := Max(i, j);
    assert last < |r.states| by {
      WorksInRun(r, i, v, a);
      WorksInRun(r, j, w, b);
    }
    WorkedJobMatchesRow(cfg, r, i, last, v, a);
    WorkedJobMatchesRow(cfg, r, j, last, w, b);
    ReachableStatesAreOk(cfg, r, last);
  }

  lemma WorksInRun(r: Run, i: nat, w: WorkerId, job: Job)
    requires Works(r, i, w, job)
    ensures i < |r.states|
  {
  }
}
