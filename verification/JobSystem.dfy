/**
  Many workers and operators on one jobs table: the events that can happen, what each does, and the
  invariant that every event keeps. Events carry all nondeterminism, so a run is just a sequence of
  them; any interleaving the processes can produce is such a sequence.
 */
module JobSystem {
  import opened Base
  import opened Text
  import opened Results
  import opened JobTable
  import opened JobWorker

  type WorkerId = nat

  /** Where a worker process stands. A worker that crashed, or gave up, is idle again. */
  datatype Phase =
    | Idle
    | Holding(job: Job)
    | Executing(job: Job, deadline: Time)
    | Finalising(job: Job, action: FinalAction, since: Time, triesLeft: nat)

  /** `issued` remembers, for every token ever generated, the copy of the job it was handed out with. */
  datatype System = System(now: Time, db: Db, workers: map<WorkerId, Phase>, issued: map<Token, Job>)

  datatype Config = Config(lease: Time, timeout: Time, lib: JsonLibrary)

  datatype Event =
    | Tick(to: Time)
    | Enqueued(id: JobId, input: EnqueueInput, at: Time)
    | Claimed(w: WorkerId, call: ClaimCall, swept: seq<JobId>, candidate: Option<JobId>, answered: bool)
    | Started(w: WorkerId)
    | Stopped(w: WorkerId, outcome: Outcome, interrupted: bool)
    | Finished(w: WorkerId, t: Try)
    | Abandoned(w: WorkerId)
    | Operated(order: OperatorCall)

  function PhaseOf(s: System, w: WorkerId): Phase { if w in s.workers then s.workers[w] else Idle }

  function Init(): System { System(0, EMPTY_DB, map[], map[]) }

  predicate Sane(cfg: Config) { cfg.lease > 0 && cfg.timeout > 0 }

  /**
    When an event can happen. Clock readings that reach the table are never ahead of the clock, but
    a statement may run long after its reading was taken. Generated tokens and ids are not blank,
    and a token is never generated twice.
   */
  ghost predicate Enabled(cfg: Config, s: System, e: Event) {
    match e
    case Tick(to) => s.now <= to
    case Enqueued(id, input, at) => at <= s.now && !Blank(id)
    case Claimed(w, call, swept, candidate, answered) =>
      && PhaseOf(s, w).Idle?
      && call.now <= s.now && call.leaseUntil == call.now + cfg.lease
      && call.token !in s.issued && !Blank(call.token)
      && IsSweep(s.db.rows, call, swept) && IsCandidate(s.db.rows, call, candidate)
    case Started(w) => PhaseOf(s, w).Holding?
    case Stopped(w, outcome, interrupted) => PhaseOf(s, w).Executing?
    case Finished(w, t) =>
      && PhaseOf(s, w).Finalising?
      && PhaseOf(s, w).since <= t.at <= s.now
    case Abandoned(w) => true
    case Operated(order) => order.now <= s.now
  }

  function AfterTry(phase: Phase, seen: Seen, giveUp: bool): Phase
    requires phase.Finalising?
  {
    if Settled(seen) || phase.triesLeft <= 1 || giveUp then Idle
    else phase.(triesLeft := phase.triesLeft - 1)
  }

  function Next(cfg: Config, s: System, e: Event): System {
    match e
    case Tick(to) => s.(now := to)
    case Enqueued(id, input, at) => s.(db := Enqueue(s.db, input, id, at, cfg.lib).db)
    case Claimed(w, call, swept, candidate, answered) =>
      var picked := Granted(s.db.rows, call, candidate);
      var db' := AfterClaim(s.db, call, swept, picked);
      if picked.None? then s.(db := db')
      else
        var job := Job(picked.value, ClaimedRow(s.db.rows[picked.value], call));
        s.(db := db', issued := s.issued[call.token := job],
           workers := if answered then s.workers[w := Holding(job)] else s.workers)
    case Started(w) =>
      if !PhaseOf(s, w).Holding? then s
      else s.(workers := s.workers[w := Executing(PhaseOf(s, w).job, s.now + cfg.timeout)])
    case Stopped(w, outcome, interrupted) =>
      if !PhaseOf(s, w).Executing? then s
      else
        var job := PhaseOf(s, w).job;
        (match Decide(job, outcome, interrupted, cfg.lib)
         case None => s.(workers := s.workers[w := Idle])
         case Some(action) => s.(workers := s.workers[w := Finalising(job, action, s.now, MAX_TRIES)]))
    case Finished(w, t) =>
      if !PhaseOf(s, w).Finalising? then s
      else
        var phase := PhaseOf(s, w);
        var (db', seen) := RunTry(s.db, phase.job, phase.action, t, cfg.lib);
        s.(db := db', workers := s.workers[w := AfterTry(phase, seen, t.giveUp)])
    case Abandoned(w) => s.(workers := s.workers[w := Idle])
    case Operated(order) => s.(db := Operate(s.db, order).db)
  }

  /** `states[i+1]` is the state after `events[i]`. */
  datatype Run = Run(states: seq<System>, events: seq<Event>)

  ghost predicate IsRun(cfg: Config, r: Run) {
    && |r.states| == |r.events| + 1
    && forall i {:trigger r.events[i]} | 0 <= i < |r.events| ::
         Enabled(cfg, r.states[i], r.events[i]) && r.states[i + 1] == Next(cfg, r.states[i], r.events[i])
  }

  /** The state that a sequence of events leads to. */
  function After(cfg: Config, s: System, events: seq<Event>): System
    decreases |events|
  {
    if events == [] then s else After(cfg, Next(cfg, s, events[0]), events[1..])
  }

  ghost predicate CanHappen(cfg: Config, s: System, events: seq<Event>)
    decreases |events|
  {
    events != [] ==> Enabled(cfg, s, events[0]) && CanHappen(cfg, Next(cfg, s, events[0]), events[1..])
  }

  lemma {:induction false} OneAfterTheOther(cfg: Config, s: System, es: seq<Event>, fs: seq<Event>)
    ensures After(cfg, s, es + fs) == After(cfg, After(cfg, s, es), fs)
    ensures CanHappen(cfg, s, es + fs) <==> CanHappen(cfg, s, es) && CanHappen(cfg, After(cfg, s, es), fs)
    decreases |es|
  {
    hide Enabled, Next;
    if es == [] {
      assert es + fs == fs;
    } else {
      assert (es + fs)[1..] == es[1..] + fs;
      OneAfterTheOther(cfg, Next(cfg, s, es[0]), es[1..], fs);
    }
  }

  /** What can happen after a run continues it. */
  lemma {:induction false} RunsGoOn(cfg: Config, r: Run, events: seq<Event>) returns (longer: Run)
    requires IsRun(cfg, r) && CanHappen(cfg, r.states[|r.events|], events)
    ensures IsRun(cfg, longer) && r.states <= longer.states && longer.events == r.events + events
    ensures longer.states[|longer.events|] == After(cfg, r.states[|r.events|], events)
    decreases |events|
  {
    hide Enabled, Next;
    if events == [] {
      longer := r;
    } else {
      var one := Run(r.states + [Next(cfg, r.states[|r.events|], events[0])], r.events + [events[0]]);
      assert forall i | 0 <= i < |r.events| :: one.events[i] == r.events[i];
      longer := RunsGoOn(cfg, one, events[1..]);
    }
  }

  ghost predicate StartsEmpty(r: Run) { r.states != [] && r.states[0] == Init() }

  // ---------------------------------------------------------------- the invariant

  predicate Terminal(status: Status) { status.Succeeded? || status.Failed? || status.Cancelled? }

  predicate Active(row: Row) { row.status.Queued? || row.status.Running? }

  /** What every row satisfies at all times; the first line is the table's own CHECKs. */
  predicate RowOk(row: Row) {
    && ColumnsFit(row)
    && (row.status.Running? <==> row.claimToken.Some?) && (row.status.Running? <==> row.leaseExpiresAt.Some?)
    && (row.finishedAt.Some? <==> Terminal(row.status))
    && (row.status.Queued? ==> row.startedAt.None? && row.attempts < row.maxAttempts)
    && (row.status.Running? ==> row.startedAt.Some? && row.attempts >= 1)
    && (row.resultCode.Some? <==> row.status.Succeeded?)
    && (Active(row) ==> row.retryable)
    && (row.status.Succeeded? || row.status.Cancelled? ==> !row.retryable)
  }

  /** Lease arithmetic of a running row. */
  predicate LeaseOk(cfg: Config, row: Row, now: Time) {
    row.status.Running? && row.startedAt.Some? && row.leaseExpiresAt.Some? ==>
      && row.runAfter <= row.startedAt.value <= now
      && row.leaseExpiresAt.value == row.startedAt.value + cfg.lease
  }

  predicate KeysDistinct(rows: map<JobId, Row>) {
    forall a, b | a in rows && b in rows && a != b :: rows[a].idempotencyKey != rows[b].idempotencyKey
  }

  predicate RowsOk(cfg: Config, rows: map<JobId, Row>, now: Time) {
    forall id | id in rows :: RowOk(rows[id]) && LeaseOk(cfg, rows[id], now) && !Blank(id)
  }

  /** While a row carries a token, the copy handed out with that token is the row itself. */
  predicate TokensCoherent(rows: map<JobId, Row>, issued: map<Token, Job>) {
    forall id | id in rows && rows[id].claimToken.Some? ::
      rows[id].claimToken.value in issued && issued[rows[id].claimToken.value] == Job(id, rows[id])
  }

  predicate CopyOk(cfg: Config, now: Time, token: Token, job: Job) {
    && !Blank(token) && !Blank(job.id)
    && job.row.claimToken == Some(token) && job.row.status.Running?
    && RowOk(job.row) && LeaseOk(cfg, job.row, now)
  }

  predicate CopiesOk(cfg: Config, issued: map<Token, Job>, now: Time) {
    forall token | token in issued :: CopyOk(cfg, now, token, issued[token])
  }

  predicate IsIssued(issued: map<Token, Job>, job: Job) {
    job.row.claimToken.Some? && job.row.claimToken.value in issued && issued[job.row.claimToken.value] == job
  }

  /** What runOnce can have decided. */
  predicate ActionOk(job: Job, action: FinalAction, lib: JsonLibrary) {
    match action
    case SucceedWith(result) =>
      var again := NormalizeResult(result, lib);
      again.Ok? && ResultFits(again.value) && DiffersInTrailingSpace(result, again.value)
    case FailWith(failure) =>
      && failure.backoff == Backoff(job.row.attempts)
      && |failure.message| <= MAX_MESSAGE_RUNES && SafeMessage(failure.message) == TrimRight(failure.message)
  }

  predicate PhaseOk(issued: map<Token, Job>, phase: Phase, now: Time, lib: JsonLibrary) {
    && (!phase.Idle? ==> IsIssued(issued, phase.job))
    && (phase.Finalising? ==>
          && phase.job.row.startedAt.Some?
          && phase.job.row.startedAt.value <= phase.since <= now
          && ActionOk(phase.job, phase.action, lib))
  }

  /** Every busy worker has a copy that was handed out, and no two have the same claim. */
  predicate WorkersOk(workers: map<WorkerId, Phase>, issued: map<Token, Job>, now: Time, lib: JsonLibrary) {
    && (forall w | w in workers :: PhaseOk(issued, workers[w], now, lib))
    && (forall v, w | v in workers && w in workers && v != w && !workers[v].Idle? && !workers[w].Idle? ::
          workers[v].job.row.claimToken != workers[w].job.row.claimToken)
  }

  predicate Inv(cfg: Config, s: System) {
    && RowsOk(cfg, s.db.rows, s.now) && KeysDistinct(s.db.rows)
    && TokensCoherent(s.db.rows, s.issued) && CopiesOk(cfg, s.issued, s.now)
    && WorkersOk(s.workers, s.issued, s.now, cfg.lib)
  }
}
