/** One turn of the worker's code as events of a run, so that what holds of runs holds of the code. */
module JobTurns {
  import opened Base
  import opened Text
  import opened Results
  import opened JobTable
  import opened JobWorker
  import opened JobSystem

  /** The tries that worker `w` makes, one event each, until it is done with the claim. */
  function FinishEvents(cfg: Config, s: System, w: WorkerId, tries: seq<Try>): seq<Event>
    decreases |tries|
  {
    if tries == [] || !PhaseOf(s, w).Finalising? then []
    else [Finished(w, tries[0])] + FinishEvents(cfg, Next(cfg, s, Finished(w, tries[0])), w, tries[1..])
  }

  /** retryFinalization does to the table what these events do, and each of them can happen. */
  lemma {:induction false} RetryLoopIsARun(cfg: Config, s: System, w: WorkerId, tries: seq<Try>)
    requires w in s.workers && s.workers[w].Finalising? && s.workers[w].triesLeft == |tries| > 0
    requires forall t | t in tries :: s.workers[w].since <= t.at <= s.now
    ensures CanHappen(cfg, s, FinishEvents(cfg, s, w, tries))
    ensures After(cfg, s, FinishEvents(cfg, s, w, tries))
         == s.(db := RunTries(s.db, s.workers[w].job, s.workers[w].action, tries, cfg.lib).0,
               workers := s.workers[w := Idle])
    decreases |tries|
  {
    hide RunTry, Settled;
    var e := Finished(w, tries[0]);
    assert tries[0] in tries;
    var s1 := Next(cfg, s, e);
    var rest := FinishEvents(cfg, s1, w, tries[1..]);
    assert ([e] + rest)[1..] == rest;
    if s1.workers[w].Finalising? {
      RetryLoopIsARun(cfg, s1, w, tries[1..]);
    }
  }

  /** A whole turn: the claim, the execution from now until `stop`, and the tries made until `end`. */
  function TurnEvents(cfg: Config, s: System, w: WorkerId, c: ClaimCall, swept: seq<JobId>, candidate: Option<JobId>,
                      outcome: Outcome, interrupted: bool, stop: Time, end: Time, tries: seq<Try>): seq<Event>
  {
    var claim := Claimed(w, c, swept, candidate, true);
    if Granted(s.db.rows, c, candidate).None? then [claim]
    else
      var execution := [Started(w), Tick(stop), Stopped(w, outcome, interrupted), Tick(end)];
      [claim] + execution + FinishEvents(cfg, After(cfg, Next(cfg, s, claim), execution), w, tries)
  }

  /** Worker `w`, idle, is about to send this claim. */
  predicate MayClaim(cfg: Config, s: System, w: WorkerId, c: ClaimCall) {
    && PhaseOf(s, w).Idle? && c.now <= s.now && c.leaseUntil == c.now + cfg.lease
    && c.token !in s.issued && !Blank(c.token)
  }

  lemma ClaimEvent(cfg: Config, s: System, w: WorkerId, c: ClaimCall, swept: seq<JobId>, candidate: Option<JobId>)
    requires MayClaim(cfg, s, w, c) && IsSweep(s.db.rows, c, swept) && IsCandidate(s.db.rows, c, candidate)
    ensures var claim, picked := Claimed(w, c, swept, candidate, true), Granted(s.db.rows, c, candidate);
            && Enabled(cfg, s, claim)
            && var s' := Next(cfg, s, claim);
               && s'.now == s.now && s'.db == AfterClaim(s.db, c, swept, picked)
               && (picked.None? ==> PhaseOf(s', w).Idle?)
               && (picked.Some? ==>
                     && picked.value in s'.db.rows
                     && w in s'.workers && s'.workers[w] == Holding(Job(picked.value, s'.db.rows[picked.value])))
  {
    hide IsSweep, IsCandidate, Granted, AfterClaim, ClaimedRow, Blank;
    if Granted(s.db.rows, c, candidate).Some? {
      PickedRow(s.db, c, swept, candidate);
    }
  }

  lemma PickedRow(db: Db, c: ClaimCall, swept: seq<JobId>, candidate: Option<JobId>)
    requires IsSweep(db.rows, c, swept) && IsCandidate(db.rows, c, candidate) && Granted(db.rows, c, candidate).Some?
    ensures var picked := Granted(db.rows, c, candidate);
            var rows' := AfterClaim(db, c, swept, picked).rows;
            && picked.value in db.rows && picked.value in rows'
            && rows'[picked.value] == ClaimedRow(db.rows[picked.value], c)
  {
    hide NotAfter, Blocked, SweptRow, ClaimedRow;
  }

  lemma OneEvent(cfg: Config, s: System, e: Event)
    requires Enabled(cfg, s, e)
    ensures CanHappen(cfg, s, [e]) && After(cfg, s, [e]) == Next(cfg, s, e)
  {
    hide Enabled, Next;
    assert [e][1..] == [];
  }

  lemma FirstEvent(cfg: Config, s: System, e: Event, rest: seq<Event>)
    requires Enabled(cfg, s, e) && CanHappen(cfg, Next(cfg, s, e), rest)
    ensures CanHappen(cfg, s, [e] + rest) && After(cfg, s, [e] + rest) == After(cfg, Next(cfg, s, e), rest)
  {
    hide Enabled, Next;
    assert ([e] + rest)[1..] == rest;
  }

  lemma NoEvents(cfg: Config, s: System)
    ensures CanHappen(cfg, s, []) && After(cfg, s, []) == s
  {
  }

  /** What the decision leaves the worker in. */
  function Decided(job: Job, outcome: Outcome, interrupted: bool, at: Time, lib: JsonLibrary): Phase {
    match Decide(job, outcome, interrupted, lib)
    case None => Idle
    case Some(action) => Finalising(job, action, at, MAX_TRIES)
  }

  lemma ExecutionEvents(cfg: Config, s: System, w: WorkerId, outcome: Outcome, interrupted: bool, stop: Time, end: Time)
    requires w in s.workers && s.workers[w].Holding? && s.now <= stop <= end
    ensures var execution := [Started(w), Tick(stop), Stopped(w, outcome, interrupted), Tick(end)];
            && CanHappen(cfg, s, execution)
            && var phase := Decided(s.workers[w].job, outcome, interrupted, stop, cfg.lib);
               After(cfg, s, execution) == s.(now := end, workers := s.workers[w := phase])
  {
    hide Decide;
    var a, b, c, d := Started(w), Tick(stop), Stopped(w, outcome, interrupted), Tick(end);
    var s1 := Next(cfg, s, a);
    var s2 := Next(cfg, s1, b);
    var s3 := Next(cfg, s2, c);
    var phase := Decided(s.workers[w].job, outcome, interrupted, stop, cfg.lib);
    assert s3 == s.(now := stop, workers := s.workers[w := phase]);
    assert Enabled(cfg, s, a) && Enabled(cfg, s1, b) && Enabled(cfg, s2, c) && Enabled(cfg, s3, d);
    assert Next(cfg, s3, d) == s3.(now := end);
    hide Next, Enabled, After, CanHappen;
    OneEvent(cfg, s3, d);
    FirstEvent(cfg, s2, c, [d]);
    FirstEvent(cfg, s1, b, [c, d]);
    FirstEvent(cfg, s, a, [b, c, d]);
    assert [a, b, c, d] == [a] + [b, c, d] && [b, c, d] == [b] + [c, d] && [c, d] == [c] + [d];
  }

  /** The table after the decision on a claimed job. */
  function AfterDecision(db: Db, job: Job, outcome: Outcome, interrupted: bool, tries: seq<Try>, lib: JsonLibrary): Db
    requires tries != []
  {
    match Decide(job, outcome, interrupted, lib)
    case None => db
    case Some(action) => RunTries(db, job, action, tries, lib).0
  }

  lemma WorkIsARun(cfg: Config, s: System, w: WorkerId, outcome: Outcome, interrupted: bool, stop: Time, end: Time,
                   tries: seq<Try>)
    requires w in s.workers && s.workers[w].Holding? && s.now <= stop <= end
    requires |tries| == MAX_TRIES && forall t | t in tries :: stop <= t.at <= end
    ensures var execution := [Started(w), Tick(stop), Stopped(w, outcome, interrupted), Tick(end)];
            var events := execution + FinishEvents(cfg, After(cfg, s, execution), w, tries);
            && CanHappen(cfg, s, events)
            && After(cfg, s, events).db == AfterDecision(s.db, s.workers[w].job, outcome, interrupted, tries, cfg.lib)
            && PhaseOf(After(cfg, s, events), w).Idle?
  {
    hide Decide, RunTries, Enabled, Next, CanHappen, After;
    var execution := [Started(w), Tick(stop), Stopped(w, outcome, interrupted), Tick(end)];
    ExecutionEvents(cfg, s, w, outcome, interrupted, stop, end);
    var s1 := After(cfg, s, execution);
    if s1.workers[w].Finalising? {
      RetryLoopIsARun(cfg, s1, w, tries);
    } else {
      NoEvents(cfg, s1);
    }
    OneAfterTheOther(cfg, s, execution, FinishEvents(cfg, s1, w, tries));
  }

  /**
    What runOnce does to the table, undisturbed, is what the worker's events do in a run, and they can
    happen wherever an idle worker may claim.
   */
  lemma TurnIsARun(cfg: Config, s: System, w: WorkerId, c: ClaimCall, swept: seq<JobId>, candidate: Option<JobId>,
                   outcome: Outcome, interrupted: bool, stop: Time, end: Time, tries: seq<Try>, turn: Turn, after: Db)
    requires MayClaim(cfg, s, w, c) && s.now <= stop <= end
    requires |tries| == MAX_TRIES && forall t | t in tries :: stop <= t.at <= end
    requires IsTurn(s.db, c, swept, candidate, outcome, interrupted, tries, cfg.lib, turn, after)
    ensures var events := TurnEvents(cfg, s, w, c, swept, candidate, outcome, interrupted, stop, end, tries);
            && CanHappen(cfg, s, events)
            && After(cfg, s, events).db == after && PhaseOf(After(cfg, s, events), w).Idle?
  {
    hide IsSweep, IsCandidate, AfterClaim, Decide, RunTries, Granted;
    hide MayClaim, Enabled, Next, CanHappen, After, FinishEvents;
    ClaimEvent(cfg, s, w, c, swept, candidate);
    var claim := Claimed(w, c, swept, candidate, true);
    var s1 := Next(cfg, s, claim);
    if Granted(s.db.rows, c, candidate).None? {
      OneEvent(cfg, s, claim);
    } else {
      var execution := [Started(w), Tick(stop), Stopped(w, outcome, interrupted), Tick(end)];
      WorkIsARun(cfg, s1, w, outcome, interrupted, stop, end, tries);
      var finish := FinishEvents(cfg, After(cfg, s1, execution), w, tries);
      FirstEvent(cfg, s, claim, execution + finish);
      assert [claim] + execution + finish == [claim] + (execution + finish);
    }
  }

  /** Each turn of the worker's loop continues whatever run led up to it, and leaves the worker ready for the next. */
  lemma TurnContinuesRun(cfg: Config, r: Run, w: WorkerId, c: ClaimCall, swept: seq<JobId>, candidate: Option<JobId>,
                         outcome: Outcome, interrupted: bool, stop: Time, end: Time, tries: seq<Try>,
                         turn: Turn, after: Db)
    returns (longer: Run)
    requires IsRun(cfg, r) && |tries| == MAX_TRIES
    requires var s := r.states[|r.events|];
             && MayClaim(cfg, s, w, c) && s.now <= stop <= end
             && IsTurn(s.db, c, swept, candidate, outcome, interrupted, tries, cfg.lib, turn, after)
    requires forall t | t in tries :: stop <= t.at <= end
    ensures IsRun(cfg, longer) && r.states <= longer.states && r.events <= longer.events
    ensures longer.states[|longer.events|].db == after && PhaseOf(longer.states[|longer.events|], w).Idle?
  {
    hide Enabled, Next, IsTurn, MayClaim, CanHappen, After, TurnEvents;
    var s := r.states[|r.events|];
    TurnIsARun(cfg, s, w, c, swept, candidate, outcome, interrupted, stop, end, tries, turn, after);
    longer := RunsGoOn(cfg, r, TurnEvents(cfg, s, w, c, swept, candidate, outcome, interrupted, stop, end, tries));
  }
}
