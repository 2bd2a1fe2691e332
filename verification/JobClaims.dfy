/** What one claim statement achieves, and what a series of them does. */
module JobClaims {
  import opened Base
  import opened JobTable
  import opened JobSystem
  import opened JobInvariant

  // ---------------------------------------------------------------- one snapshot, two updates

  /** Sweeping changes nobody's eligibility: swept rows neither were eligible nor block anyone. */
  lemma SweepKeepsPickable(db: Db, c: ClaimCall, swept: seq<JobId>, id: JobId)
    requires c.view == db.rows && forall x | x in swept :: x in db.rows && Exhausted(db.rows[x], c.now)
    ensures var rows' := AfterClaim(db, c, swept, None).rows;
            Pickable(rows', c.(view := rows'), id) <==> Pickable(db.rows, c, id)
  {
    var rows' := AfterClaim(db, c, swept, None).rows;
    assert forall x | x in rows' :: Live(rows'[x], c.now) == Live(db.rows[x], c.now);
    assert forall x | x in rows' :: rows'[x].resourceKey == db.rows[x].resourceKey;
    assert forall x | x in rows' :: Due(rows'[x], c.now) == Due(db.rows[x], c.now);
    hide Live, Due, AfterClaim, Exhausted;
    if id in db.rows {
      var key := db.rows[id].resourceKey;
      assert Blocked(rows', id, key, c.now) == Blocked(db.rows, id, key, c.now);
    }
  }

  /**
    The sweep and the pick read one snapshot, and still the statement equals failing the expired
    jobs first and then claiming from what is left: same candidates, same table.
   */
  lemma ClaimIsSweepThenPick(db: Db, c: ClaimCall, swept: seq<JobId>, candidate: Option<JobId>)
    requires c.view == db.rows && IsSweep(db.rows, c, swept)
    ensures var mid := AfterClaim(db, c, swept, None);
            var later := c.(view := mid.rows);
            && (IsCandidate(db.rows, c, candidate) <==> IsCandidate(mid.rows, later, candidate))
            && (IsCandidate(db.rows, c, candidate) ==>
                  AfterClaim(db, c, swept, Granted(db.rows, c, candidate))
                  == AfterClaim(mid, later, [], Granted(mid.rows, later, candidate)))
  {
    var mid := AfterClaim(db, c, swept, None);
    var later := c.(view := mid.rows);
    forall id
      ensures Pickable(mid.rows, later, id) <==> Pickable(db.rows, c, id)
    {
      SweepKeepsPickable(db, c, swept, id);
    }
    SweepKeepsOrder(db, c, swept);
    if IsCandidate(db.rows, c, candidate) {
      ClaimTouchesOnlyItsRows(db.rows, c, swept, candidate);
      hide IsSweep, IsCandidate, Pickable, NotAfter;
      SweepThenClaim(db, c, swept, Granted(db.rows, c, candidate), later);
    }
  }

  lemma SweepKeepsOrder(db: Db, c: ClaimCall, swept: seq<JobId>)
    ensures var rows' := AfterClaim(db, c, swept, None).rows;
            forall a, b | a in db.rows && b in db.rows ::
              NotAfter(rows'[a], rows'[b]) == NotAfter(db.rows[a], db.rows[b])
  {
  }

  lemma SweepThenClaim(db: Db, c: ClaimCall, swept: seq<JobId>, picked: Option<JobId>, later: ClaimCall)
    requires picked.Some? ==> picked.value !in swept
    requires later == c.(view := later.view)
    ensures AfterClaim(db, c, swept, picked) == AfterClaim(AfterClaim(db, c, swept, None), later, [], picked)
  {
    assert SweepLogs([], c.now) == [];
  }

  // ---------------------------------------------------------------- no stuck job

  /** The moment from which a waiting or running job can be taken up again. */
  function ReadyAt(row: Row): Time {
    if row.status.Running? && row.leaseExpiresAt.Some? then row.leaseExpiresAt.value else row.runAfter
  }

  /** A claim that nothing is hidden from: it sees the table itself and no row or key is locked. */
  predicate Unhindered(rows: map<JobId, Row>, c: ClaimCall) {
    c.view == rows && c.sweepLocked == {} && c.pickLocked == {} && c.keyLockFree
  }

  /**
    In a reachable state every active job becomes claimable or sweepable exactly when its time has
    come, provided its key is free.
   */
  lemma NoJobIsStuck(cfg: Config, s: System, id: JobId, t: Time)
    requires Inv(cfg, s) && id in s.db.rows && Active(s.db.rows[id])
    requires s.db.rows[id].resourceKey == "" || !Blocked(s.db.rows, id, s.db.rows[id].resourceKey, t)
    ensures (Eligible(s.db.rows, s.db.rows, t, id) || Exhausted(s.db.rows[id], t)) <==> ReadyAt(s.db.rows[id]) <= t
  {
    hide Blocked, TokensCoherent, KeysDistinct, CopiesOk, WorkersOk;
  }

  /** An unhindered claim finds no job exactly when no row is eligible, and otherwise a least one. */
  lemma UnhinderedClaimIsExact(rows: map<JobId, Row>, c: ClaimCall, candidate: Option<JobId>)
    requires Unhindered(rows, c) && IsCandidate(rows, c, candidate)
    ensures Granted(rows, c, candidate).None? <==> forall id | id in rows :: !Eligible(rows, rows, c.now, id)
    ensures Granted(rows, c, candidate).Some? ==>
              var id := Granted(rows, c, candidate).value;
              && Eligible(rows, rows, c.now, id)
              && forall other | other in rows && Eligible(rows, rows, c.now, other) :: NotAfter(rows[id], rows[other])
  {
    hide Due, Blocked, NotAfter;
    assert forall id :: Pickable(rows, c, id) <==> Eligible(rows, rows, c.now, id);
  }

  /** While some active job's time has come and its key is free, an unhindered claim takes up some job. */
  lemma ReadyJobMeansProgress(cfg: Config, s: System, id: JobId, c: ClaimCall, swept: seq<JobId>,
                              candidate: Option<JobId>)
    requires Inv(cfg, s) && id in s.db.rows && Active(s.db.rows[id]) && ReadyAt(s.db.rows[id]) <= c.now
    requires s.db.rows[id].resourceKey == "" || !Blocked(s.db.rows, id, s.db.rows[id].resourceKey, c.now)
    requires Unhindered(s.db.rows, c) && IsSweep(s.db.rows, c, swept) && IsCandidate(s.db.rows, c, candidate)
    ensures Granted(s.db.rows, c, candidate).Some? || swept != []
  {
    hide Inv, IsCandidate, Eligible, Granted, Exhausted, Blocked, ReadyAt;
    NoJobIsStuck(cfg, s, id, c.now);
    UnhinderedClaimIsExact(s.db.rows, c, candidate);
  }

  // ---------------------------------------------------------------- draining the expired jobs

  datatype Round = Round(c: ClaimCall, swept: seq<JobId>, candidate: Option<JobId>)

  /** Claims one after the other, all with clock reading `t` and no expired row locked by others. */
  ghost predicate IsDrain(dbs: seq<Db>, rounds: seq<Round>, t: Time) {
    && |dbs| == |rounds| + 1
    && forall i {:trigger rounds[i]} | 0 <= i < |rounds| ::
         && rounds[i].c.now == t && rounds[i].c.leaseUntil > t && rounds[i].c.sweepLocked == {}
         && IsSweep(dbs[i].rows, rounds[i].c, rounds[i].swept)
         && IsCandidate(dbs[i].rows, rounds[i].c, rounds[i].candidate)
         && dbs[i + 1] == AfterClaim(dbs[i], rounds[i].c, rounds[i].swept,
                                     Granted(dbs[i].rows, rounds[i].c, rounds[i].candidate))
  }

  function ExhaustedIds(rows: map<JobId, Row>, t: Time): set<JobId> { set id | id in rows && Exhausted(rows[id], t) }

  function Entries(logs: seq<LogRow>, id: JobId, t: Time): nat {
    multiset(logs)[LogRow(id, "error", SWEEP_MESSAGE, t)]
  }

  lemma {:induction false} SweepLogsOnce(swept: seq<JobId>, t: Time, id: JobId)
    requires forall i, j | 0 <= i < j < |swept| :: swept[i] != swept[j]
    ensures Entries(SweepLogs(swept, t), id, t) == if id in swept then 1 else 0
  {
    if swept != [] {
      var front, last := swept[..|swept| - 1], swept[|swept| - 1];
      SweepLogsOnce(front, t, id);
      assert SweepLogs(swept, t) == SweepLogs(front, t) + [LogRow(last, "error", SWEEP_MESSAGE, t)];
      assert swept == front + [last];
    }
  }

  /** One round fails the rows it sweeps, each with one entry, and leaves the other expired ones. */
  lemma RoundSweeps(db: Db, c: ClaimCall, swept: seq<JobId>, candidate: Option<JobId>, t: Time)
    requires c.now == t && c.leaseUntil > t && c.sweepLocked == {}
    requires IsSweep(db.rows, c, swept) && IsCandidate(db.rows, c, candidate)
    ensures var db' := AfterClaim(db, c, swept, Granted(db.rows, c, candidate));
            && ExhaustedIds(db'.rows, t) == ExhaustedIds(db.rows, t) - ElementsOf(swept)
            && ElementsOf(swept) <= ExhaustedIds(db.rows, t) && |ElementsOf(swept)| == |swept|
            && (forall id :: Entries(db'.logs, id, t) == Entries(db.logs, id, t) + if id in swept then 1 else 0)
            && (forall id | id in swept :: id in db.rows && id in db'.rows && db'.rows[id] == SweptRow(db.rows[id], t))
            && (forall id | id in ExhaustedIds(db'.rows, t) :: id in db.rows && db'.rows[id] == db.rows[id])
            && (forall id | id in db.rows && db.rows[id].status.Failed? ::
              id in db'.rows && db'.rows[id] == db.rows[id])
  {
    ClaimTouchesOnlyItsRows(db.rows, c, swept, candidate);
    DistinctCount(swept);
    forall id
      ensures Entries(db.logs + SweepLogs(swept, t), id, t) == Entries(db.logs, id, t) + if id in swept then 1 else 0
    {
      SweepLogsOnce(swept, t, id);
    }
    var picked := Granted(db.rows, c, candidate);
    hide IsSweep, IsCandidate, Entries, Granted, SweepLogs;
    RowsAfterRound(db, c, swept, picked, t);
  }

  lemma RowsAfterRound(db: Db, c: ClaimCall, swept: seq<JobId>, picked: Option<JobId>, t: Time)
    requires c.now == t && c.leaseUntil > t && ClaimTouches(db.rows, c, swept, picked)
    requires picked.Some? ==> picked.value !in swept
    ensures var rows' := AfterClaim(db, c, swept, picked).rows;
            && ExhaustedIds(rows', t) == ExhaustedIds(db.rows, t) - ElementsOf(swept)
            && ElementsOf(swept) <= ExhaustedIds(db.rows, t)
            && (forall id | id in swept :: id in db.rows && id in rows' && rows'[id] == SweptRow(db.rows[id], t))
            && (forall id | id in ExhaustedIds(rows', t) :: id in db.rows && rows'[id] == db.rows[id])
            && (forall id | id in db.rows && db.rows[id].status.Failed? :: id in rows' && rows'[id] == db.rows[id])
  {
    hide SweepLogs;
    var rows' := AfterClaim(db, c, swept, picked).rows;
    forall id | id in db.rows
      ensures Exhausted(rows'[id], t) <==> Exhausted(db.rows[id], t) && id !in swept
    {
    }
    assert forall id | id in db.rows && picked != Some(id) && id !in swept :: rows'[id] == db.rows[id];
    assert forall id | id in swept :: rows'[id] == SweptRow(db.rows[id], t);
    hide Exhausted, SweptRow, ClaimedRow, AfterClaim;
  }

  /** What `k` rounds have done to a job that was expired and out of attempts at the start. */
  ghost predicate SweptExactlyOnce(before: Db, after: Db, id: JobId, t: Time) {
    && id in before.rows && id in after.rows && after.rows[id] == SweptRow(before.rows[id], t)
    && Entries(after.logs, id, t) == Entries(before.logs, id, t) + 1
  }

  /** What they have done to any job: expired ones are as they were, or swept once; the others get no entry. */
  ghost predicate Drained(before: Db, after: Db, id: JobId, t: Time) {
    if id in ExhaustedIds(before.rows, t) && id !in ExhaustedIds(after.rows, t) then
      SweptExactlyOnce(before, after, id, t)
    else
      && Entries(after.logs, id, t) == Entries(before.logs, id, t)
      && (id in ExhaustedIds(after.rows, t) ==>
            id in before.rows && id in after.rows && after.rows[id] == before.rows[id])
  }

  ghost predicate DrainState(before: Db, after: Db, t: Time) {
    && ExhaustedIds(after.rows, t) <= ExhaustedIds(before.rows, t)
    && forall id :: Drained(before, after, id, t)
  }

  /** What one round does to one job. */
  ghost predicate RoundAt(db: Db, db': Db, id: JobId, swept: bool, t: Time) {
    && (id in ExhaustedIds(db'.rows, t) <==> id in ExhaustedIds(db.rows, t) && !swept)
    && (swept ==> id in ExhaustedIds(db.rows, t))
    && Entries(db'.logs, id, t) == Entries(db.logs, id, t) + (if swept then 1 else 0)
    && (swept ==> id in db.rows && id in db'.rows && db'.rows[id] == SweptRow(db.rows[id], t))
    && (id in ExhaustedIds(db'.rows, t) || (id in db.rows && db.rows[id].status.Failed?) ==>
          id in db.rows && id in db'.rows && db'.rows[id] == db.rows[id])
  }

  lemma RoundActsAt(db: Db, c: ClaimCall, swept: seq<JobId>, candidate: Option<JobId>, t: Time, id: JobId)
    requires c.now == t && c.leaseUntil > t && c.sweepLocked == {}
    requires IsSweep(db.rows, c, swept) && IsCandidate(db.rows, c, candidate)
    ensures RoundAt(db, AfterClaim(db, c, swept, Granted(db.rows, c, candidate)), id, id in swept, t)
  {
    hide IsSweep, IsCandidate, Entries, Granted, SweptRow;
    RoundSweeps(db, c, swept, candidate, t);
    assert id in swept <==> id in ElementsOf(swept);
    hide ElementsOf;
    ExhaustedIsThere(AfterClaim(db, c, swept, Granted(db.rows, c, candidate)).rows, t, id);
    hide AfterClaim, ExhaustedIds;
  }

  lemma RoundKeepsDrained(before: Db, db: Db, db': Db, id: JobId, swept: bool, t: Time)
    requires Drained(before, db, id, t) && RoundAt(db, db', id, swept, t)
    requires id in ExhaustedIds(db.rows, t) ==> id in ExhaustedIds(before.rows, t)
    ensures Drained(before, db', id, t)
  {
    hide Entries, ExhaustedIds;
  }

  lemma RoundKeepsDrainState(before: Db, db: Db, c: ClaimCall, swept: seq<JobId>, candidate: Option<JobId>, t: Time)
    requires DrainState(before, db, t) && c.now == t && c.leaseUntil > t && c.sweepLocked == {}
    requires IsSweep(db.rows, c, swept) && IsCandidate(db.rows, c, candidate)
    ensures DrainState(before, AfterClaim(db, c, swept, Granted(db.rows, c, candidate)), t)
  {
    var db' := AfterClaim(db, c, swept, Granted(db.rows, c, candidate));
    hide IsSweep, IsCandidate, Granted, AfterClaim, Drained, ExhaustedIds;
    forall id
      ensures Drained(before, db', id, t)
      ensures id in ExhaustedIds(db'.rows, t) ==> id in ExhaustedIds(before.rows, t)
    {
      RoundActsAt(db, c, swept, candidate, t, id);
      RoundKeepsDrained(before, db, db', id, id in swept, t);
    }
  }

  lemma ExhaustedIsThere(rows: map<JobId, Row>, t: Time, id: JobId)
    ensures id in ExhaustedIds(rows, t) ==> id in rows
  {
  }

  /**
    n expired jobs out of attempts are all failed by the first ceil(n/100) claims at that time,
    whatever those claims hand out, and each gets exactly one log entry.
   */
  lemma {:induction false} ExpiredJobsDrain(dbs: seq<Db>, rounds: seq<Round>, t: Time)
    requires IsDrain(dbs, rounds, t)
    ensures DrainState(dbs[0], dbs[|rounds|], t)
    ensures |ExhaustedIds(dbs[|rounds|].rows, t)| <= Max(0, |ExhaustedIds(dbs[0].rows, t)| - SWEEP_LIMIT * |rounds|)
    decreases |rounds|
  {
    if rounds != [] {
      var n := |rounds| - 1;
      var last := rounds[n];
      ExpiredJobsDrain(dbs[..n + 1], rounds[..n], t);
      RoundKeepsDrainState(dbs[0], dbs[n], last.c, last.swept, last.candidate, t);
      RoundSweeps(dbs[n], last.c, last.swept, last.candidate, t);
      assert |last.swept| == SWEEP_LIMIT || ExhaustedIds(dbs[n].rows, t) <= ElementsOf(last.swept);
    }
  }
}
