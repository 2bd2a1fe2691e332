/** Every event keeps the invariant, so it holds in every reachable state. */
module JobInvariant {
  import opened Base
  import opened Text
  import opened Results
  import opened JobTable
  import opened JobWorker
  import opened JobSystem

  // ---------------------------------------------------------------- one row

  lemma SweptRowOk(row: Row, now: Time)
    requires RowOk(row) && Exhausted(row, now)
    ensures RowOk(SweptRow(row, now))
  {
    hide Utf8Size;
  }

  lemma ClaimedRowOk(cfg: Config, row: Row, c: ClaimCall, now: Time)
    requires Sane(cfg) && RowOk(row) && LeaseOk(cfg, row, now) && Due(row, c.now)
    requires c.now <= now && c.leaseUntil == c.now + cfg.lease
    ensures RowOk(ClaimedRow(row, c)) && LeaseOk(cfg, ClaimedRow(row, c), now)
  {
    hide Utf8Size;
  }

  lemma NewRowOk(input: EnqueueInput, id: JobId, now: Time, lib: JsonLibrary)
    requires NewRow(input, id, now, lib).Some? && ColumnsFit(NewRow(input, id, now, lib).value)
    ensures RowOk(NewRow(input, id, now, lib).value)
  {
    hide Utf8Size, Trim;
  }

  lemma FinalRowOk(job: Job, action: FinalAction, at: Time, lib: JsonLibrary)
    requires RowOk(job.row) && job.row.status.Running?
    ensures var row := FinalRow(job.row, job, action, at, lib);
            && RowOk(row) && !row.status.Running? && row.claimToken.None?
            && IdentityOf(row) == IdentityOf(job.row) && row.attempts == job.row.attempts
  {
    hide Utf8Size, Blank, NormalizeResult, SafeMessage;
  }

  lemma OperatedRowOk(row: Row, call: OperatorCall)
    requires RowOk(row) && MayOperate(row, call.action)
    ensures RowOk(OperatedRow(row, call)) && OperatedRow(row, call).claimToken.None?
  {
    hide Utf8Size;
  }

  // ---------------------------------------------------------------- one event

  lemma TickKeepsInv(cfg: Config, s: System, to: Time)
    requires Inv(cfg, s) && s.now <= to
    ensures Inv(cfg, s.(now := to))
  {
    hide RowOk, Blank;
  }

  lemma EnqueueKeepsInv(cfg: Config, s: System, input: EnqueueInput, id: JobId, at: Time)
    requires Inv(cfg, s) && !Blank(id)
    ensures Inv(cfg, s.(db := Enqueue(s.db, input, id, at, cfg.lib).db))
  {
    hide RowOk, ColumnsFit, RowConverts, PayloadFits, Trim, Blank, WorkersOk, CopiesOk;
    var s' := s.(db := Enqueue(s.db, input, id, at, cfg.lib).db);
    if s' != s {
      NewRowOk(input, id, at, cfg.lib);
    }
  }

  lemma ReleasingKeepsRows(cfg: Config, rows: map<JobId, Row>, id: JobId, row: Row, now: Time)
    requires RowsOk(cfg, rows, now) && id in rows && RowOk(row) && !row.status.Running?
    ensures RowsOk(cfg, rows[id := row], now)
  {
    hide RowOk, Blank;
  }

  lemma SameKeyKeepsDistinct(rows: map<JobId, Row>, id: JobId, row: Row)
    requires KeysDistinct(rows) && id in rows && row.idempotencyKey == rows[id].idempotencyKey
    ensures KeysDistinct(rows[id := row])
  {
  }

  lemma ReleasingKeepsTokens(rows: map<JobId, Row>, issued: map<Token, Job>, id: JobId, row: Row)
    requires TokensCoherent(rows, issued) && row.claimToken.None?
    ensures TokensCoherent(rows[id := row], issued)
  {
  }

  /** Replacing one row by one without a token, of the same identity, keeps the invariant. */
  lemma ReleasingKeepsInv(cfg: Config, s: System, db': Db, id: JobId, row: Row)
    requires Inv(cfg, s) && id in s.db.rows && db'.rows == s.db.rows[id := row]
    requires RowOk(row) && row.claimToken.None? && IdentityOf(row) == IdentityOf(s.db.rows[id])
    ensures Inv(cfg, s.(db := db'))
  {
    hide RowsOk, TokensCoherent, KeysDistinct, WorkersOk, CopiesOk;
    ReleasingKeepsRows(cfg, s.db.rows, id, row, s.now);
    SameKeyKeepsDistinct(s.db.rows, id, row);
    ReleasingKeepsTokens(s.db.rows, s.issued, id, row);
  }

  lemma OperateKeepsInv(cfg: Config, s: System, order: OperatorCall)
    requires Inv(cfg, s)
    ensures Inv(cfg, s.(db := Operate(s.db, order).db))
  {
    var db' := Operate(s.db, order).db;
    if db' != s.db {
      OperatedRowOk(s.db.rows[order.id], order);
      hide RowOk;
      ReleasingKeepsInv(cfg, s, db', order.id, OperatedRow(s.db.rows[order.id], order));
    }
  }

  /** A worker whose copy was issued and whose token is still on the row sees the row itself. */
  lemma HoldersCopyIsCurrent(s: System, job: Job)
    requires TokensCoherent(s.db.rows, s.issued) && IsIssued(s.issued, job) && HoldsClaim(s.db, job)
    ensures s.db.rows[job.id] == job.row
  {
  }

  lemma IssuedCopyIsOk(cfg: Config, s: System, job: Job)
    requires CopiesOk(cfg, s.issued, s.now) && IsIssued(s.issued, job)
    ensures RowOk(job.row) && job.row.status.Running? && LeaseOk(cfg, job.row, s.now) && NamesClaim(job)
  {
    hide RowOk, LeaseOk, Blank;
  }

  lemma TryKeepsInv(cfg: Config, s: System, job: Job, action: FinalAction, t: Try)
    requires Inv(cfg, s) && IsIssued(s.issued, job)
    ensures Inv(cfg, s.(db := RunTry(s.db, job, action, t, cfg.lib).0))
  {
    hide RowOk, Finalise, RowsOk, TokensCoherent, CopiesOk, WorkersOk, KeysDistinct, IsIssued;
    var db' := RunTry(s.db, job, action, t, cfg.lib).0;
    DoneConsumesClaim(s.db, job, action, t.at, cfg.lib);
    if db' != s.db {
      FinaliseWritesOneRow(s.db, job, action, t.at, cfg.lib);
      HoldersCopyIsCurrent(s, job);
      IssuedCopyIsOk(cfg, s, job);
      FinalRowOk(job, action, t.at, cfg.lib);
      hide Inv, FinalRow;
      ReleasingKeepsInv(cfg, s, db', job.id, FinalRow(job.row, job, action, t.at, cfg.lib));
    }
  }

  // ---------------------------------------------------------------- the claim

  /** What the choices of a claim statement guarantee about the rows it updates. */
  ghost predicate ClaimTouches(rows: map<JobId, Row>, c: ClaimCall, swept: seq<JobId>, picked: Option<JobId>) {
    && (forall id | id in swept :: id in rows && Exhausted(rows[id], c.now))
    && (picked.Some? ==> picked.value in rows && Due(rows[picked.value], c.now))
  }

  lemma ClaimTouchesOnlyItsRows(rows: map<JobId, Row>, c: ClaimCall, swept: seq<JobId>, candidate: Option<JobId>)
    requires IsSweep(rows, c, swept) && IsCandidate(rows, c, candidate)
    ensures ClaimTouches(rows, c, swept, Granted(rows, c, candidate))
    ensures Granted(rows, c, candidate).Some? ==> Granted(rows, c, candidate).value !in swept
  {
    hide Blocked, NotAfter;
  }

  lemma ClaimKeepsRows(cfg: Config, db: Db, c: ClaimCall, swept: seq<JobId>, picked: Option<JobId>, now: Time)
    requires Sane(cfg) && RowsOk(cfg, db.rows, now) && ClaimTouches(db.rows, c, swept, picked)
    requires c.now <= now && c.leaseUntil == c.now + cfg.lease
    ensures RowsOk(cfg, AfterClaim(db, c, swept, picked).rows, now)
  {
    hide RowOk, LeaseOk, Due, Blank, ClaimedRow, SweptRow;
    var rows' := AfterClaim(db, c, swept, picked).rows;
    forall id | id in rows'
      ensures RowOk(rows'[id]) && LeaseOk(cfg, rows'[id], now) && !Blank(id)
    {
      if id in swept {
        SweptRowOk(db.rows[id], c.now);
        SweptHasNoLease(cfg, db.rows[id], c.now, now);
      } else if picked == Some(id) {
        ClaimedRowOk(cfg, db.rows[id], c, now);
      }
    }
  }

  lemma SweptHasNoLease(cfg: Config, row: Row, at: Time, now: Time)
    ensures LeaseOk(cfg, SweptRow(row, at), now)
  {
  }

  lemma ClaimKeepsKeys(db: Db, c: ClaimCall, swept: seq<JobId>, picked: Option<JobId>)
    requires KeysDistinct(db.rows)
    ensures KeysDistinct(AfterClaim(db, c, swept, picked).rows)
  {
    var rows' := AfterClaim(db, c, swept, picked).rows;
    assert forall id | id in rows' :: rows'[id].idempotencyKey == db.rows[id].idempotencyKey;
    hide AfterClaim;
  }

  lemma ClaimKeepsTokens(db: Db, c: ClaimCall, swept: seq<JobId>, picked: Option<JobId>, issued: map<Token, Job>)
    requires TokensCoherent(db.rows, issued) && ClaimTouches(db.rows, c, swept, picked) && c.token !in issued
    ensures picked.None? ==> TokensCoherent(AfterClaim(db, c, swept, picked).rows, issued)
    ensures picked.Some? ==>
              TokensCoherent(AfterClaim(db, c, swept, picked).rows,
                             issued[c.token := Job(picked.value, ClaimedRow(db.rows[picked.value], c))])
  {
    hide Due, Exhausted;
  }

  lemma IssuingKeepsCopies(cfg: Config, issued: map<Token, Job>, now: Time, token: Token, job: Job)
    requires CopiesOk(cfg, issued, now) && CopyOk(cfg, now, token, job)
    ensures CopiesOk(cfg, issued[token := job], now)
  {
    hide CopyOk;
  }

  /** A fresh token makes no earlier copy stale. */
  lemma IssuingKeepsWorkers(workers: map<WorkerId, Phase>, issued: map<Token, Job>, now: Time, lib: JsonLibrary,
                            token: Token, job: Job)
    requires WorkersOk(workers, issued, now, lib) && token !in issued
    ensures WorkersOk(workers, issued[token := job], now, lib)
  {
    hide ActionOk;
  }

  /** Putting a worker into a phase whose claim no other worker has. */
  lemma AssigningKeepsWorkers(workers: map<WorkerId, Phase>, issued: map<Token, Job>, now: Time, lib: JsonLibrary,
                              w: WorkerId, phase: Phase)
    requires WorkersOk(workers, issued, now, lib) && PhaseOk(issued, phase, now, lib)
    requires !phase.Idle? ==>
               forall v | v in workers && v != w && !workers[v].Idle? ::
                 workers[v].job.row.claimToken != phase.job.row.claimToken
    ensures WorkersOk(workers[w := phase], issued, now, lib)
  {
    hide PhaseOk;
  }

  lemma ClaimKeepsInv(cfg: Config, s: System, e: Event)
    requires Sane(cfg) && Inv(cfg, s) && e.Claimed? && Enabled(cfg, s, e)
    ensures Inv(cfg, Next(cfg, s, e))
  {
    hide RowsOk, TokensCoherent, KeysDistinct, WorkersOk, CopiesOk;
    hide IsSweep, IsCandidate, AfterClaim, Blank, RowOk, LeaseOk;
    var c := e.call;
    var picked := Granted(s.db.rows, c, e.candidate);
    ClaimTouchesOnlyItsRows(s.db.rows, c, e.swept, e.candidate);
    ClaimKeepsRows(cfg, s.db, c, e.swept, picked, s.now);
    ClaimKeepsKeys(s.db, c, e.swept, picked);
    ClaimKeepsTokens(s.db, c, e.swept, picked, s.issued);
    if picked.Some? {
      var id := picked.value;
      var job := Job(id, ClaimedRow(s.db.rows[id], c));
      assert RowOk(s.db.rows[id]) && LeaseOk(cfg, s.db.rows[id], s.now) && !Blank(id) by {
        OneRowOk(cfg, s.db.rows, s.now, id);
      }
      ClaimedRowOk(cfg, s.db.rows[id], c, s.now);
      IssuingKeepsCopies(cfg, s.issued, s.now, c.token, job);
      IssuingKeepsWorkers(s.workers, s.issued, s.now, cfg.lib, c.token, job);
      if e.answered {
        NobodyHasToken(s.workers, s.issued, s.now, cfg.lib, c.token);
        AssigningKeepsWorkers(s.workers, s.issued[c.token := job], s.now, cfg.lib, e.w, Holding(job));
      }
    }
  }

  lemma OneRowOk(cfg: Config, rows: map<JobId, Row>, now: Time, id: JobId)
    requires RowsOk(cfg, rows, now) && id in rows
    ensures RowOk(rows[id]) && LeaseOk(cfg, rows[id], now) && !Blank(id)
  {
  }

  lemma NobodyHasToken(workers: map<WorkerId, Phase>, issued: map<Token, Job>, now: Time, lib: JsonLibrary,
                       token: Token)
    requires WorkersOk(workers, issued, now, lib) && token !in issued
    ensures forall w | w in workers && !workers[w].Idle? :: workers[w].job.row.claimToken != Some(token)
  {
    hide ActionOk;
  }

  // ---------------------------------------------------------------- a worker's own events

  /** A worker that goes on with the claim it has, or drops it. */
  lemma MovingOnKeepsWorkers(workers: map<WorkerId, Phase>, issued: map<Token, Job>, now: Time, lib: JsonLibrary,
                             w: WorkerId, phase: Phase)
    requires WorkersOk(workers, issued, now, lib) && PhaseOk(issued, phase, now, lib)
    requires !phase.Idle? ==> w in workers && !workers[w].Idle? && workers[w].job == phase.job
    ensures WorkersOk(workers[w := phase], issued, now, lib)
  {
    hide PhaseOk;
  }

  lemma DecidedActionOk(job: Job, outcome: Outcome, interrupted: bool, lib: JsonLibrary)
    requires Decide(job, outcome, interrupted, lib).Some?
    ensures ActionOk(job, Decide(job, outcome, interrupted, lib).value, lib)
  {
    hide NormalizeResult, SafeMessage, TrimRight, Backoff, ResultFits, Converts, Storable, DiffersInTrailingSpace;
    match outcome {
      case Raised(message, _, _) =>
        SafeMessageIsSafe(message);
        CleanMessageIsOnlyTrimmed(message, SafeMessage(message));
      case Returned(result) =>
        match NormalizeResult(result, lib) {
          case Ok(_) => NormalizingAgainIsHarmless(result, lib);
          case Err(why) =>
            SafeMessageIsSafe(why);
            CleanMessageIsOnlyTrimmed(why, SafeMessage(why));
        }
    }
  }

  lemma PhaseIsOk(workers: map<WorkerId, Phase>, issued: map<Token, Job>, now: Time, lib: JsonLibrary, w: WorkerId)
    requires WorkersOk(workers, issued, now, lib) && w in workers
    ensures PhaseOk(issued, workers[w], now, lib)
  {
  }

  lemma WorkerKeepsInv(cfg: Config, s: System, e: Event)
    requires Sane(cfg) && Inv(cfg, s) && (e.Started? || e.Stopped? || e.Abandoned?) && Enabled(cfg, s, e)
    ensures Inv(cfg, Next(cfg, s, e))
  {
    hide RowsOk, TokensCoherent, KeysDistinct, WorkersOk, CopiesOk, RowOk, LeaseOk, Decide, ActionOk;
    if e.Abandoned? {
      MovingOnKeepsWorkers(s.workers, s.issued, s.now, cfg.lib, e.w, Idle);
    } else {
      var w := e.w;
      var job := s.workers[w].job;
      PhaseIsOk(s.workers, s.issued, s.now, cfg.lib, w);
      if e.Started? {
        MovingOnKeepsWorkers(s.workers, s.issued, s.now, cfg.lib, w, Executing(job, s.now + cfg.timeout));
      } else {
        var action := Decide(job, e.outcome, e.interrupted, cfg.lib);
        if action.None? {
          MovingOnKeepsWorkers(s.workers, s.issued, s.now, cfg.lib, w, Idle);
        } else {
          DecidedActionOk(job, e.outcome, e.interrupted, cfg.lib);
          assert job.row.startedAt.Some? && job.row.startedAt.value <= s.now by {
            IssuedCopyIsOk(cfg, s, job);
            StartedInThePast(cfg, job.row, s.now);
          }
          MovingOnKeepsWorkers(s.workers, s.issued, s.now, cfg.lib, w, Finalising(job, action.value, s.now, MAX_TRIES));
        }
      }
    }
  }

  lemma StartedInThePast(cfg: Config, row: Row, now: Time)
    requires RowOk(row) && row.status.Running? && LeaseOk(cfg, row, now)
    ensures row.startedAt.Some? && row.leaseExpiresAt.Some?
    ensures row.runAfter <= row.startedAt.value <= now
    ensures row.leaseExpiresAt.value == row.startedAt.value + cfg.lease
  {
    hide ColumnsFit;
  }

  lemma FinishKeepsInv(cfg: Config, s: System, e: Event)
    requires Sane(cfg) && Inv(cfg, s) && e.Finished? && Enabled(cfg, s, e)
    ensures Inv(cfg, Next(cfg, s, e))
  {
    hide RowsOk, TokensCoherent, KeysDistinct, WorkersOk, CopiesOk, RunTry, ActionOk;
    var phase := s.workers[e.w];
    PhaseIsOk(s.workers, s.issued, s.now, cfg.lib, e.w);
    TryKeepsInv(cfg, s, phase.job, phase.action, e.t);
    var seen := RunTry(s.db, phase.job, phase.action, e.t, cfg.lib).1;
    MovingOnKeepsWorkers(s.workers, s.issued, s.now, cfg.lib, e.w, AfterTry(phase, seen, e.t.giveUp));
  }

  // ---------------------------------------------------------------- every run

  lemma EventKeepsInv(cfg: Config, s: System, e: Event)
    requires Sane(cfg) && Inv(cfg, s) && Enabled(cfg, s, e)
    ensures Inv(cfg, Next(cfg, s, e))
  {
    match e {
      case Tick(to) => TickKeepsInv(cfg, s, to);
      case Enqueued(id, input, at) => EnqueueKeepsInv(cfg, s, input, id, at);
      case Claimed(_, _, _, _, _) => ClaimKeepsInv(cfg, s, e);
      case Started(_) => WorkerKeepsInv(cfg, s, e);
      case Stopped(_, _, _) => WorkerKeepsInv(cfg, s, e);
      case Finished(_, _) => FinishKeepsInv(cfg, s, e);
      case Abandoned(_) => WorkerKeepsInv(cfg, s, e);
      case Operated(order) => OperateKeepsInv(cfg, s, order);
    }
  }

  lemma {:induction false} RunsKeepInv(cfg: Config, r: Run, i: nat)
    requires Sane(cfg) && IsRun(cfg, r) && Inv(cfg, r.states[0]) && i < |r.states|
    ensures Inv(cfg, r.states[i])
  {
    hide Inv, Enabled, Next;
    if i > 0 {
      RunsKeepInv(cfg, r, i - 1);
      var e := r.events[i - 1];
      EventKeepsInv(cfg, r.states[i - 1], e);
    }
  }

  /** The invariant holds in every state of every run that starts with an empty table. */
  lemma ReachableStatesAreOk(cfg: Config, r: Run, i: nat)
    requires Sane(cfg) && IsRun(cfg, r) && StartsEmpty(r) && i < |r.states|
    ensures Inv(cfg, r.states[i])
  {
    RunsKeepInv(cfg, r, i);
  }
}
