/**
  When a worker may still start executing the job it claimed: exactly as long as the start is punctual,
  as far as the job itself goes and as far as other jobs of its resource go.
 */
module JobStarts {
  import opened Base
  import opened Text
  import opened JobTable
  import opened JobSystem
  import opened JobInvariant
  import opened JobSafety

  /**
    Events that can happen and keep to the timing: every executor stops at its deadline, every start is
    punctual; if `latest`, every claim's snapshot shows the live leases on resource keys.
   */
  ghost predicate Careful(cfg: Config, s: System, events: seq<Event>, latest: bool)
    decreases |events|
  {
    events != [] ==>
      && Enabled(cfg, s, events[0]) && Punctual(cfg, s, events[0])
      && (latest && events[0].Claimed? ==> FreshView(s.db.rows, events[0].call))
      && Careful(cfg, Next(cfg, s, events[0]), events[1..], latest)
  }

  /** Worker `v` starts, and whatever careful events follow, no two workers get inside the same job. */
  ghost predicate SafeStart(cfg: Config, s: System, v: WorkerId, latest: bool) {
    var started := Next(cfg, s, Started(v));
    forall events | Careful(cfg, started, events, latest) :: JobsExclusive(After(cfg, started, events))
  }

  /** The same for jobs of one resource; here every later claim sees the live leases. */
  ghost predicate SafeStartForKeys(cfg: Config, s: System, v: WorkerId) {
    var started := Next(cfg, s, Started(v));
    forall events | Careful(cfg, started, events, true) :: KeysExclusive(After(cfg, started, events))
  }

  // ---------------------------------------------------------------- a punctual start is safe

  lemma {:induction false} CarefulStaysExclusive(cfg: Config, s: System, events: seq<Event>, latest: bool)
    requires Sane(cfg) && Inv(cfg, s) && ClaimsSurvive(s) && OnTime(s) && Careful(cfg, s, events, latest)
    ensures JobsExclusive(After(cfg, s, events))
    decreases |events|
  {
    hide Enabled, Next, Punctual, RowsOk, CopiesOk, TokensCoherent;
    hide KeysDistinct, WorkersOk, ClaimsSurvive, OnTime, JobsExclusive, FreshView;
    if events == [] {
      ExclusionOfJobs(s, cfg.lib);
    } else {
      var e := events[0];
      EventKeepsInv(cfg, s, e);
      EventKeepsClaims(cfg, s, e);
      EventKeepsOnTime(cfg, s, e);
      CarefulStaysExclusive(cfg, Next(cfg, s, e), events[1..], latest);
    }
  }

  lemma PunctualStartIsSafe(cfg: Config, s: System, v: WorkerId, latest: bool)
    requires Sane(cfg) && Inv(cfg, s) && ClaimsSurvive(s) && OnTime(s)
    requires PhaseOf(s, v).Holding? && Punctual(cfg, s, Started(v))
    ensures SafeStart(cfg, s, v, latest)
  {
    var e := Started(v);
    assert Enabled(cfg, s, e);
    hide Enabled, Next, Punctual, Inv, ClaimsSurvive, OnTime, JobsExclusive, Careful;
    EventKeepsInv(cfg, s, e);
    EventKeepsClaims(cfg, s, e);
    EventKeepsOnTime(cfg, s, e);
    var started := Next(cfg, s, e);
    forall events | Careful(cfg, started, events, latest)
      ensures JobsExclusive(After(cfg, started, events))
    {
      CarefulStaysExclusive(cfg, started, events, latest);
    }
  }

  lemma {:induction false} CarefulStaysKeyExclusive(cfg: Config, s: System, events: seq<Event>)
    requires Sane(cfg) && Inv(cfg, s) && ClaimsSurvive(s) && OnTime(s) && LeasesExclusive(s.db.rows, s.now)
    requires Careful(cfg, s, events, true)
    ensures KeysExclusive(After(cfg, s, events))
    decreases |events|
  {
    hide Enabled, Next, Punctual, RowsOk, CopiesOk, TokensCoherent, KeysDistinct, WorkersOk, ClaimsSurvive, OnTime;
    hide JobsExclusive, KeysExclusive, LeasesExclusive, FreshView;
    if events == [] {
      ExclusionOfJobs(s, cfg.lib);
      ExclusionOfKeys(s);
    } else {
      var e := events[0];
      EventKeepsInv(cfg, s, e);
      EventKeepsClaims(cfg, s, e);
      EventKeepsOnTime(cfg, s, e);
      EventKeepsExclusion(cfg, s, e);
      CarefulStaysKeyExclusive(cfg, Next(cfg, s, e), events[1..]);
    }
  }

  lemma PunctualStartIsSafeForKeys(cfg: Config, s: System, v: WorkerId)
    requires Sane(cfg) && Inv(cfg, s) && ClaimsSurvive(s) && OnTime(s) && LeasesExclusive(s.db.rows, s.now)
    requires PhaseOf(s, v).Holding? && Punctual(cfg, s, Started(v))
    ensures SafeStartForKeys(cfg, s, v)
  {
    var e := Started(v);
    assert Enabled(cfg, s, e);
    hide Enabled, Next, Punctual, Inv, ClaimsSurvive, OnTime, LeasesExclusive, KeysExclusive, Careful;
    EventKeepsInv(cfg, s, e);
    EventKeepsClaims(cfg, s, e);
    EventKeepsOnTime(cfg, s, e);
    EventKeepsExclusion(cfg, s, e);
    var started := Next(cfg, s, e);
    forall events | Careful(cfg, started, events, true)
      ensures KeysExclusive(After(cfg, started, events))
    {
      CarefulStaysKeyExclusive(cfg, started, events);
    }
  }

  // ---------------------------------------------------------------- a late start is not

  lemma {:induction false} CarefulOneAfterTheOther(cfg: Config, s: System, es: seq<Event>, fs: seq<Event>, latest: bool)
    requires Careful(cfg, s, es, latest) && Careful(cfg, After(cfg, s, es), fs, latest)
    ensures Careful(cfg, s, es + fs, latest)
    decreases |es|
  {
    hide Enabled, Next, Punctual, FreshView;
    if es == [] {
      assert es + fs == fs;
    } else {
      assert (es + fs)[1..] == es[1..] + fs;
      CarefulOneAfterTheOther(cfg, Next(cfg, s, es[0]), es[1..], fs, latest);
    }
  }

  function Busy(s: System, v: WorkerId): set<WorkerId> {
    set w | w in s.workers && w != v && s.workers[w].Executing?
  }

  /** All but `v` may stop, one after the other, at once. */
  lemma {:induction false} OthersStop(cfg: Config, s: System, v: WorkerId, latest: bool) returns (events: seq<Event>)
    ensures Careful(cfg, s, events, latest)
    ensures var s' := After(cfg, s, events);
            && s' == s.(workers := s'.workers) && PhaseOf(s', v) == PhaseOf(s, v) && Busy(s', v) == {}
            && forall w :: PhaseOf(s, w).Idle? ==> PhaseOf(s', w).Idle?
    decreases Busy(s, v)
  {
    if Busy(s, v) == {} {
      events := [];
    } else {
      var w :| w in Busy(s, v);
      var s1 := Next(cfg, s, Abandoned(w));
      assert s1 == s.(workers := s.workers[w := Idle]);
      assert Busy(s1, v) == Busy(s, v) - {w};
      var rest := OthersStop(cfg, s1, v, latest);
      events := [Abandoned(w)] + rest;
      assert events[1..] == rest;
    }
  }

  lemma {:induction false} LengthsAreBounded(tokens: set<Token>) returns (n: nat)
    ensures forall t | t in tokens :: |t| <= n
    decreases tokens
  {
    if tokens == {} {
      n := 0;
    } else {
      var t :| t in tokens;
      n := LengthsAreBounded(tokens - {t});
      n := Max(n, |t|);
    }
  }

  lemma UnusedToken(issued: map<Token, Job>) returns (token: Token)
    ensures token !in issued && !Blank(token)
  {
    var n := LengthsAreBounded(issued.Keys);
    token := seq(n + 1, _ => 'x');
    VisibleIsTrimmed(token);
  }

  /** The moment from which the job that `v` holds can be claimed again. */
  function ReclaimAt(s: System, v: WorkerId): Time {
    var phase := PhaseOf(s, v);
    if phase.Holding? && phase.job.row.leaseExpiresAt.Some?
    then Max(s.now, phase.job.row.leaseExpiresAt.value) else s.now
  }

  predicate KeyIsFree(rows: map<JobId, Row>, id: JobId, t: Time)
    requires id in rows
  {
    rows[id].resourceKey == "" || !Blocked(rows, id, rows[id].resourceKey, t)
  }

  /**
    Worker `v` has yet to start on a job that still is as it was handed out, has an attempt left, and
    whose key will be free when the lease is over; worker `w` has nothing to do.
   */
  predicate Reclaimable(s: System, v: WorkerId, w: WorkerId) {
    && v != w && PhaseOf(s, v).Holding? && PhaseOf(s, w).Idle?
    && var job := PhaseOf(s, v).job;
       && job.id in s.db.rows && s.db.rows[job.id] == job.row && job.row.attempts < job.row.maxAttempts
       && KeyIsFree(s.db.rows, job.id, ReclaimAt(s, v))
  }

  /** A claim that finds every row but one locked by others. */
  function ReclaimCall(cfg: Config, s: System, id: JobId, token: Token): ClaimCall {
    ClaimCall(s.now, s.now + cfg.lease, token, s.db.rows, s.db.rows.Keys, s.db.rows.Keys - {id}, true)
  }

  /** Worker `w` claims the job and starts at once. */
  lemma ReclaimHappens(cfg: Config, s: System, w: WorkerId, id: JobId, latest: bool) returns (events: seq<Event>)
    requires Sane(cfg) && cfg.timeout < cfg.lease && PhaseOf(s, w).Idle?
    requires id in s.db.rows && Due(s.db.rows[id], s.now) && KeyIsFree(s.db.rows, id, s.now)
    ensures Careful(cfg, s, events, latest)
    ensures var s' := After(cfg, s, events);
            && w in s'.workers && s'.workers[w].Executing? && s'.workers[w].job.id == id
            && s'.workers[w].job.row.resourceKey == s.db.rows[id].resourceKey
            && forall v | v != w && v in s.workers :: v in s'.workers && s'.workers[v] == s.workers[v]
  {
    hide Due, Blocked, NotAfter;
    var token := UnusedToken(s.issued);
    hide Blank;
    var c := ReclaimCall(cfg, s, id, token);
    var claimed := Claimed(w, c, [], Some(id), true);
    assert IsSweep(s.db.rows, c, []);
    assert NotAfter(s.db.rows[id], s.db.rows[id]) by {
      RanksWithItself(s.db.rows[id]);
    }
    assert IsCandidate(s.db.rows, c, Some(id));
    var s1 := Next(cfg, s, claimed);
    var row := ClaimedRow(s.db.rows[id], c);
    assert row.resourceKey == s.db.rows[id].resourceKey;
    assert s1.now == s.now && s1.workers == s.workers[w := Holding(Job(id, row))];
    hide IsSweep, IsCandidate, AfterClaim;
    assert Live(row, s1.now + cfg.timeout);
    events := [claimed, Started(w)];
    assert Punctual(cfg, s1, Started(w));
    hide Punctual, Live;
    TwoEvents(cfg, s, claimed, Started(w), latest);
  }

  lemma TwoEvents(cfg: Config, s: System, a: Event, b: Event, latest: bool)
    requires Enabled(cfg, s, a) && Punctual(cfg, s, a) && (a.Claimed? ==> FreshView(s.db.rows, a.call))
    requires var s1 := Next(cfg, s, a); Enabled(cfg, s1, b) && Punctual(cfg, s1, b) && !b.Claimed?
    ensures Careful(cfg, s, [a, b], latest) && After(cfg, s, [a, b]) == Next(cfg, Next(cfg, s, a), b)
  {
    hide Enabled, Next, Punctual, FreshView;
    assert [a, b][1..] == [b] && [b][1..] == [];
    assert Careful(cfg, Next(cfg, s, a), [b], latest);
    assert After(cfg, Next(cfg, s, a), [b]) == Next(cfg, Next(cfg, s, a), b);
  }

  lemma RanksWithItself(row: Row)
    ensures NotAfter(row, row)
  {
  }

  /** While `v` executes until after `t`, the others stop, `t` comes, and `w` takes over the job. */
  lemma TakenOver(cfg: Config, s: System, v: WorkerId, w: WorkerId, id: JobId, t: Time, latest: bool)
    returns (events: seq<Event>)
    requires Sane(cfg) && cfg.timeout < cfg.lease
    requires v != w && v in s.workers && s.workers[v].Executing? && PhaseOf(s, w).Idle?
    requires s.now <= t <= s.workers[v].deadline
    requires id in s.db.rows && Due(s.db.rows[id], t) && KeyIsFree(s.db.rows, id, t)
    ensures Careful(cfg, s, events, latest)
    ensures var s' := After(cfg, s, events);
            && BothExecute(s', v, w) && s'.workers[v] == s.workers[v] && s'.workers[w].job.id == id
            && s'.workers[w].job.row.resourceKey == s.db.rows[id].resourceKey
  {
    hide KeyIsFree, Due, Careful, After, Next;
    var stops := OthersStop(cfg, s, v, latest);
    var s1 := After(cfg, s, stops);
    WaitingIsCareful(cfg, s1, v, t, latest);
    var claim := ReclaimHappens(cfg, s1.(now := t), w, id, latest);
    CarefulOneAfterTheOther(cfg, s1, [Tick(t)], claim, latest);
    OneAfterTheOther(cfg, s1, [Tick(t)], claim);
    CarefulOneAfterTheOther(cfg, s, stops, [Tick(t)] + claim, latest);
    OneAfterTheOther(cfg, s, stops, [Tick(t)] + claim);
    events := stops + ([Tick(t)] + claim);
  }

  /**
    A start that is not punctual can put two workers inside the same job, although from then on every
    executor stops at its deadline, every start is punctual, and every snapshot is fresh.
   */
  lemma LateStartMeets(cfg: Config, s: System, v: WorkerId, w: WorkerId, latest: bool) returns (events: seq<Event>)
    requires Sane(cfg) && cfg.timeout < cfg.lease && Inv(cfg, s) && Reclaimable(s, v, w)
    requires !Punctual(cfg, s, Started(v))
    ensures var started := Next(cfg, s, Started(v));
            && Careful(cfg, started, events, latest)
            && var s' := After(cfg, started, events);
               BothExecute(s', v, w) && s'.workers[v].job.id == s'.workers[w].job.id
  {
    hide Inv, KeyIsFree, Due, Careful, After, Punctual;
    var end := LeaseOfHolder(cfg, s, v);
    events := TakenOver(cfg, Next(cfg, s, Started(v)), v, w, s.workers[v].job.id, ReclaimAt(s, v), latest);
  }

  lemma WaitingIsCareful(cfg: Config, s: System, v: WorkerId, t: Time, latest: bool)
    requires v in s.workers && s.workers[v].Executing? && Busy(s, v) == {} && s.now <= t <= s.workers[v].deadline
    ensures Careful(cfg, s, [Tick(t)], latest) && After(cfg, s, [Tick(t)]) == s.(now := t)
  {
    forall w | w in s.workers && s.workers[w].Executing?
      ensures t <= s.workers[w].deadline
    {
      assert w != v ==> w in Busy(s, v);
    }
    assert [Tick(t)][1..] == [];
  }

  /** The lease of a job that is held, and that it is over at the end of a late execution. */
  lemma LeaseOfHolder(cfg: Config, s: System, v: WorkerId) returns (end: Time)
    requires Inv(cfg, s) && v in s.workers && s.workers[v].Holding?
    ensures var row := s.workers[v].job.row;
            && row.status.Running? && row.leaseExpiresAt == Some(end)
            && (!Punctual(cfg, s, Started(v)) ==> end <= s.now + cfg.timeout)
            && (row.attempts < row.maxAttempts ==> forall t | end <= t :: Due(row, t))
  {
    hide RowsOk, TokensCoherent, KeysDistinct, CopiesOk, RowOk;
    var job := s.workers[v].job;
    PhaseIsOk(s.workers, s.issued, s.now, cfg.lib, v);
    IssuedCopyIsOk(cfg, s, job);
    StartedInThePast(cfg, job.row, s.now);
    end := job.row.leaseExpiresAt.value;
  }

  /**
    In every state of a punctual run: a worker may start on the job it holds, and no two workers will
    get inside that or any other job, exactly if the start is punctual. This is so with fresh snapshots
    and with arbitrary ones. That a late start is not safe needs somebody who could take the job over,
    and durations that allow a punctual start at all.
   */
  lemma StartIsSafeExactlyIfPunctual(cfg: Config, r: Run, i: nat, v: WorkerId, w: WorkerId, latest: bool)
    requires Sane(cfg) && cfg.timeout < cfg.lease
    requires IsRun(cfg, r) && StartsEmpty(r) && IsPunctual(cfg, r) && i < |r.states|
    requires Reclaimable(r.states[i], v, w)
    ensures SafeStart(cfg, r.states[i], v, latest) <==> Punctual(cfg, r.states[i], Started(v))
  {
    var s := r.states[i];
    hide Enabled, Next, Punctual, Inv, ClaimsSurvive, OnTime, JobsExclusive, Careful, IsPunctual;
    RunsKeepClaims(cfg, r, i);
    ReachableStatesAreOk(cfg, r, i);
    if Punctual(cfg, s, Started(v)) {
      PunctualStartIsSafe(cfg, s, v, latest);
    } else {
      var events := LateStartMeets(cfg, s, v, w, latest);
      NotExclusive(After(cfg, Next(cfg, s, Started(v)), events), v, w);
    }
  }

  lemma NotExclusive(s: System, v: WorkerId, w: WorkerId)
    requires BothExecute(s, v, w) && s.workers[v].job.id == s.workers[w].job.id
    ensures !JobsExclusive(s)
  {
  }

  // ---------------------------------------------------------------- other jobs of the resource

  /**
    Worker `v` has yet to start on a job of some resource; when its lease is over, worker `w`, which has
    nothing to do, can take job `id` of that resource: another one, or the same again.
   */
  predicate KeyReclaimable(s: System, v: WorkerId, w: WorkerId, id: JobId) {
    && v != w && PhaseOf(s, v).Holding? && PhaseOf(s, w).Idle?
    && PhaseOf(s, v).job.row.resourceKey != ""
    && id in s.db.rows && s.db.rows[id].resourceKey == PhaseOf(s, v).job.row.resourceKey
    && Due(s.db.rows[id], ReclaimAt(s, v)) && KeyIsFree(s.db.rows, id, ReclaimAt(s, v))
  }

  /** A late start, also one on a last attempt, can put two workers inside jobs of one resource. */
  lemma LateStartMeetsOnKey(cfg: Config, s: System, v: WorkerId, w: WorkerId, id: JobId) returns (events: seq<Event>)
    requires Sane(cfg) && cfg.timeout < cfg.lease && Inv(cfg, s) && KeyReclaimable(s, v, w, id)
    requires !Punctual(cfg, s, Started(v))
    ensures var started := Next(cfg, s, Started(v));
            Careful(cfg, started, events, true) && !KeysExclusive(After(cfg, started, events))
  {
    hide Inv, KeyIsFree, Due, Careful, After, Punctual;
    var end := LeaseOfHolder(cfg, s, v);
    var started := Next(cfg, s, Started(v));
    events := TakenOver(cfg, started, v, w, id, ReclaimAt(s, v), true);
    assert BothExecute(After(cfg, started, events), v, w);
  }

  /**
    In every state of a punctual run whose claims see the live leases: a start on a job with a resource
    key is safe, in that no two workers will get inside jobs of one resource, exactly if it is punctual.
   */
  lemma StartIsSafeForKeysExactlyIfPunctual(cfg: Config, r: Run, i: nat, v: WorkerId, w: WorkerId, id: JobId)
    requires Sane(cfg) && cfg.timeout < cfg.lease
    requires IsRun(cfg, r) && StartsEmpty(r) && IsPunctual(cfg, r) && ClaimsSeeLatest(r) && i < |r.states|
    requires KeyReclaimable(r.states[i], v, w, id)
    ensures SafeStartForKeys(cfg, r.states[i], v) <==> Punctual(cfg, r.states[i], Started(v))
  {
    var s := r.states[i];
    hide Enabled, Next, Punctual, Inv, ClaimsSurvive, OnTime;
    hide LeasesExclusive, KeysExclusive, Careful, IsPunctual, ClaimsSeeLatest;
    RunsKeepClaims(cfg, r, i);
    ReachableStatesAreOk(cfg, r, i);
    LeaseExclusion(cfg, r, i);
    if Punctual(cfg, s, Started(v)) {
      PunctualStartIsSafeForKeys(cfg, s, v);
    } else {
      var events := LateStartMeetsOnKey(cfg, s, v, w, id);
    }
  }
}
