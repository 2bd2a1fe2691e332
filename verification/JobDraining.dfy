/** How long claims go on finding work, and that without new work the table runs out of active jobs. */
module JobDraining {
  import opened Base
  import opened JobTable
  import opened JobSystem
  import opened JobInvariant
  import opened JobClaims
  import opened JobProgress

  /** An active job whose time has come at `t` and whose key is free then. */
  predicate ReadyJob(rows: map<JobId, Row>, id: JobId, t: Time) {
    && id in rows && Active(rows[id]) && ReadyAt(rows[id]) <= t
    && (rows[id].resourceKey == "" || !Blocked(rows, id, rows[id].resourceKey, t))
  }

  /** A claim that nothing is hidden from, made while some job is ready. */
  predicate FindsReadyJob(s: System, e: Event) {
    e.Claimed? && Unhindered(s.db.rows, e.call) && exists id | id in s.db.rows :: ReadyJob(s.db.rows, id, e.call.now)
  }

  lemma FindingIsAStep(cfg: Config, s: System, e: Event)
    requires Inv(cfg, s) && Enabled(cfg, s, e) && FindsReadyJob(s, e)
    ensures Steps(cfg, s, e) >= 1
  {
    hide Inv, IsSweep, IsCandidate, Granted, Unhindered, Blocked, ReadyAt, Active;
    var id :| id in s.db.rows && ReadyJob(s.db.rows, id, e.call.now);
    ReadyJobMeansProgress(cfg, s, id, e.call, e.swept, e.candidate);
  }

  function ReadyFinds(r: Run, n: nat): nat
    requires n <= |r.events| && |r.states| == |r.events| + 1
  {
    if n == 0 then 0 else ReadyFinds(r, n - 1) + if FindsReadyJob(r.states[n - 1], r.events[n - 1]) then 1 else 0
  }

  lemma {:induction false} FindsAreSteps(cfg: Config, r: Run, n: nat)
    requires Sane(cfg) && IsRun(cfg, r) && Inv(cfg, r.states[0]) && n <= |r.events|
    ensures ReadyFinds(r, n) <= TotalSteps(cfg, r, n)
  {
    hide Inv, Enabled, Next, Steps, FindsReadyJob;
    if n > 0 {
      FindsAreSteps(cfg, r, n - 1);
      RunsKeepInv(cfg, r, n - 1);
      var e := r.events[n - 1];
      if FindsReadyJob(r.states[n - 1], e) {
        FindingIsAStep(cfg, r.states[n - 1], e);
      }
    }
  }

  /** Unhindered claims find a ready job at most as often as the table's weight and new work allow. */
  lemma ReadyFindsAreBounded(cfg: Config, r: Run)
    requires Sane(cfg) && IsRun(cfg, r) && Inv(cfg, r.states[0])
    ensures ReadyFinds(r, |r.events|) <= Sum(Weights(r.states[0].db.rows)) + TotalCredit(cfg, r, |r.events|)
  {
    hide Inv, Enabled, Next, Weights, Sum;
    FindsAreSteps(cfg, r, |r.events|);
    StepsArePaidFor(cfg, r, |r.events|);
  }

  // ---------------------------------------------------------------- draining

  predicate HasWork(rows: map<JobId, Row>) { exists id | id in rows :: Active(rows[id]) }

  /** A claim that nothing is hidden from, made when every active job's time has come. */
  predicate IsPatient(s: System, e: Event) {
    && e.Claimed? && Unhindered(s.db.rows, e.call)
    && forall id | id in s.db.rows && Active(s.db.rows[id]) :: ReadyAt(s.db.rows[id]) <= e.call.now
  }

  /** If everybody's time has come then no lease is live, so no key is taken. */
  lemma PatienceFindsWork(cfg: Config, s: System, e: Event)
    requires IsPatient(s, e) && HasWork(s.db.rows)
    ensures FindsReadyJob(s, e)
  {
    hide Unhindered;
    var id :| id in s.db.rows && Active(s.db.rows[id]);
    assert forall other | other in s.db.rows :: !Live(s.db.rows[other], e.call.now);
    assert ReadyJob(s.db.rows, id, e.call.now);
  }

  function PatientClaims(r: Run, n: nat): nat
    requires n <= |r.events| && |r.states| == |r.events| + 1
  {
    if n == 0 then 0 else PatientClaims(r, n - 1) + if IsPatient(r.states[n - 1], r.events[n - 1]) then 1 else 0
  }

  lemma {:induction false} PatientClaimsFind(cfg: Config, r: Run, n: nat)
    requires IsRun(cfg, r) && n <= |r.events|
    requires forall i | 0 <= i < n && IsPatient(r.states[i], r.events[i]) :: HasWork(r.states[i].db.rows)
    ensures PatientClaims(r, n) <= ReadyFinds(r, n)
  {
    hide Enabled, Next, IsPatient, HasWork, FindsReadyJob;
    if n > 0 {
      PatientClaimsFind(cfg, r, n - 1);
      if IsPatient(r.states[n - 1], r.events[n - 1]) {
        PatienceFindsWork(cfg, r.states[n - 1], r.events[n - 1]);
      }
    }
  }

  /**
    The table drains: if more such claims are made than its weight and new work allow steps, whatever
    workers and operators do in between, then one of them finds that every job has ended.
   */
  lemma TableDrains(cfg: Config, r: Run) returns (i: nat)
    requires Sane(cfg) && IsRun(cfg, r) && Inv(cfg, r.states[0])
    requires PatientClaims(r, |r.events|) > Sum(Weights(r.states[0].db.rows)) + TotalCredit(cfg, r, |r.events|)
    ensures i < |r.events| && IsPatient(r.states[i], r.events[i]) && !HasWork(r.states[i].db.rows)
  {
    hide Inv, Enabled, Next, IsPatient, HasWork, Weights, Sum;
    ReadyFindsAreBounded(cfg, r);
    if forall k | 0 <= k < |r.events| && IsPatient(r.states[k], r.events[k]) :: HasWork(r.states[k].db.rows) {
      PatientClaimsFind(cfg, r, |r.events|);
      assert false;
    }
    i :| 0 <= i < |r.events| && IsPatient(r.states[i], r.events[i]) && !HasWork(r.states[i].db.rows);
  }
}
