/** Runs that show why exclusion needs its two hypotheses. */
module JobLimits {
  import opened Base
  import opened Text
  import opened Results
  import opened JobTable
  import opened JobSystem
  import opened JobSafety

  function Input(attempts: int): EnqueueInput { EnqueueInput("t", "k", "", "", attempts, None) }

  function Fresh(id: JobId, attempts: int): Row {
    Row("t", "k", id, "{}", Queued, 0, attempts, true, None, 0, None, None, None, None, None, 0, 0)
  }

  lemma OneLetter(c: char)
    requires 'a' <= c <= 'z'
    ensures Trim([c]) == [c] && Utf8Size([c]) == 1 && !Blank([c])
  {
    assert Utf8Size([c]) == 1 by {
      hide Trim, IsSpace;
      assert [c][1..] == "";
    }
    assert !IsSpace(c);
    hide Utf8Size, IsSpace, Trim;
    VisibleIsTrimmed([c]);
  }

  lemma EmptyText()
    ensures Trim("") == "" && Utf8Size("") == 0
  {
  }

  lemma EmptyObject()
    ensures Utf8Size("{}") == 2
  {
    assert "{}"[1..] == "}" && "}"[1..] == "";
  }

  /** The database stores the default payload as it is. */
  predicate StoresEmptyObject(lib: JsonLibrary) { lib.jsonb("{}") == Some("{}") }

  lemma InputGivesRow(id: char, attempts: int, lib: JsonLibrary)
    requires 'a' <= id <= 'z' && 1 <= attempts <= MAX_ATTEMPTS && StoresEmptyObject(lib)
    ensures NewRow(Input(attempts), [id], 0, lib) == Some(Fresh([id], attempts)) && ColumnsFit(Fresh([id], attempts))
    ensures RowConverts(Fresh([id], attempts), lib) && PayloadFits("{}", lib)
  {
    hide Trim, Utf8Size, Blank;
    OneLetter('t');
    OneLetter('k');
    OneLetter(id);
    EmptyText();
    EmptyObject();
  }

  function Call(cfg: Config, now: Time, token: Token, view: map<JobId, Row>): ClaimCall {
    ClaimCall(now, now + cfg.lease, token, view, {}, {}, true)
  }

  lemma FreshKey(id: JobId, attempts: int)
    ensures Fresh(id, attempts).idempotencyKey == id && Fresh(id, attempts).payload == "{}"
  {
  }

  /** After one or two enqueues at time zero: jobs "a" and, for two, "b", both for the same resource. */
  function Waiting(two: bool, attempts: int): map<JobId, Row> {
    if two then map["a" := Fresh("a", attempts), "b" := Fresh("b", attempts)] else map["a" := Fresh("a", attempts)]
  }

  /** At time zero, with these jobs in the table and no worker busy. */
  function Start(rows: map<JobId, Row>): System { Init().(db := Db(rows, [], [])) }

  lemma EnqueueHappens(cfg: Config, id: char, attempts: int, rows: map<JobId, Row>)
    requires 'a' <= id <= 'z' && 1 <= attempts <= MAX_ATTEMPTS && StoresEmptyObject(cfg.lib)
    requires [id] !in rows && forall other | other in rows :: rows[other].idempotencyKey != [id]
    ensures var e := Enqueued([id], Input(attempts), 0);
            && Enabled(cfg, Start(rows), e)
            && Next(cfg, Start(rows), e) == Start(rows[[id] := Fresh([id], attempts)])
  {
    hide NewRow, ColumnsFit, RowConverts, PayloadFits, Blank, Trim, Utf8Size, Fresh;
    InputGivesRow(id, attempts, cfg.lib);
    OneLetter(id);
    assert Fresh([id], attempts).idempotencyKey == [id] && Fresh([id], attempts).payload == "{}" by {
      FreshKey([id], attempts);
    }
  }

  lemma TokensAreNotBlank()
    ensures !Blank("x") && !Blank("y")
  {
    OneLetter('x');
    OneLetter('y');
  }

  /** The state after worker `w` claimed `id` and nothing was swept. */
  function GivenOut(s: System, w: WorkerId, c: ClaimCall, id: JobId): System
    requires id in s.db.rows
  {
    var row := ClaimedRow(s.db.rows[id], c);
    s.(db := s.db.(rows := s.db.rows[id := row]),
       issued := s.issued[c.token := Job(id, row)],
       workers := s.workers[w := Holding(Job(id, row))])
  }

  lemma ClaimHappens(cfg: Config, s: System, w: WorkerId, c: ClaimCall, id: JobId)
    requires PhaseOf(s, w).Idle? && c.now <= s.now && c.leaseUntil == c.now + cfg.lease
    requires c.token !in s.issued && !Blank(c.token) && c.keyLockFree
    requires forall other | other in s.db.rows :: !Exhausted(s.db.rows[other], c.now)
    requires Pickable(s.db.rows, c, id)
    requires forall other | other in s.db.rows :: NotAfter(s.db.rows[id], s.db.rows[other])
    ensures Enabled(cfg, s, Claimed(w, c, [], Some(id), true))
    ensures Next(cfg, s, Claimed(w, c, [], Some(id), true)) == GivenOut(s, w, c, id)
  {
    hide Blank, Exhausted, NotAfter, ClaimedRow, Due, Blocked;
    assert IsSweep(s.db.rows, c, []);
    assert AfterClaim(s.db, c, [], Some(id)).rows == s.db.rows[id := ClaimedRow(s.db.rows[id], c)];
    assert AfterClaim(s.db, c, [], Some(id)).logs == s.db.logs;
  }

  /** Worker 1 has taken "a" of the two jobs. */
  function FirstTaken(cfg: Config): System {
    GivenOut(Start(Waiting(true, 1)), 1, Call(cfg, 0, "x", Waiting(true, 1)), "a")
  }

  lemma FirstTakes(cfg: Config)
    requires Sane(cfg)
    ensures var e := Claimed(1, Call(cfg, 0, "x", Waiting(true, 1)), [], Some("a"), true);
            Enabled(cfg, Start(Waiting(true, 1)), e) && Next(cfg, Start(Waiting(true, 1)), e) == FirstTaken(cfg)
  {
    TokensAreNotBlank();
    hide Blank, Enabled, Next;
    ClaimHappens(cfg, Start(Waiting(true, 1)), 1, Call(cfg, 0, "x", Waiting(true, 1)), "a");
  }

  /** Worker 2, whose snapshot was taken before that, takes "b". */
  lemma SecondTakes(cfg: Config) returns (s: System)
    requires Sane(cfg)
    ensures var call := Call(cfg, 0, "y", Waiting(true, 1));
            var e := Claimed(2, call, [], Some("b"), true);
            && Enabled(cfg, FirstTaken(cfg), e) && Next(cfg, FirstTaken(cfg), e) == s
            && !FreshView(FirstTaken(cfg).db.rows, call) && !LeasesExclusive(s.db.rows, s.now)
  {
    var call := Call(cfg, 0, "y", Waiting(true, 1));
    TokensAreNotBlank();
    hide Blank, Enabled, Next;
    s := GivenOut(FirstTaken(cfg), 2, call, "b");
    ClaimHappens(cfg, FirstTaken(cfg), 2, call, "b");
    assert !LeasesExclusive(s.db.rows, s.now) by {
      assert Live(s.db.rows["a"], 0) && Live(s.db.rows["b"], 0);
    }
    assert !FreshView(FirstTaken(cfg).db.rows, call) by {
      assert Live(FirstTaken(cfg).db.rows["a"], 0);
    }
  }

  lemma BothEnqueued(cfg: Config)
    requires StoresEmptyObject(cfg.lib)
    ensures var a, b := Enqueued("a", Input(1), 0), Enqueued("b", Input(1), 0);
            && Enabled(cfg, Start(map[]), a) && Next(cfg, Start(map[]), a) == Start(Waiting(false, 1))
            && Enabled(cfg, Start(Waiting(false, 1)), b)
            && Next(cfg, Start(Waiting(false, 1)), b) == Start(Waiting(true, 1))
  {
    hide Next, Enabled;
    EnqueueHappens(cfg, 'a', 1, map[]);
    EnqueueHappens(cfg, 'b', 1, Waiting(false, 1));
  }

  /**
    The advisory lock alone does not exclude: if the second claim's snapshot is older than the first
    claim's commit, two jobs of one resource hold live leases at once.
   */
  lemma StaleSnapshotBreaksExclusion(cfg: Config) returns (r: Run)
    requires Sane(cfg) && StoresEmptyObject(cfg.lib)
    ensures IsRun(cfg, r) && StartsEmpty(r) && !ClaimsSeeLatest(r)
    ensures var last := r.states[|r.states| - 1]; !LeasesExclusive(last.db.rows, last.now)
  {
    hide Next, Enabled, FreshView, LeasesExclusive, FirstTaken;
    var rows := Waiting(true, 1);
    BothEnqueued(cfg);
    var first, second := Call(cfg, 0, "x", rows), Call(cfg, 0, "y", rows);
    FirstTakes(cfg);
    var last := SecondTakes(cfg);
    r := Run([Start(map[]), Start(Waiting(false, 1)), Start(rows), FirstTaken(cfg), last],
             [Enqueued("a", Input(1), 0), Enqueued("b", Input(1), 0),
              Claimed(1, first, [], Some("a"), true), Claimed(2, second, [], Some("b"), true)]);
    assert r.events[3].Claimed?;
  }

  lemma OwnViewIsFresh(rows: map<JobId, Row>, c: ClaimCall)
    requires c.view == rows
    ensures FreshView(rows, c)
  {
  }

  /** One job "a", claimed at time zero by worker 1, which starts on it only when the lease is over. */
  function LateState(cfg: Config): System {
    var rows := Waiting(false, 2);
    var s := GivenOut(Start(rows), 1, Call(cfg, 0, "x", rows), "a");
    System(cfg.lease, s.db, map[1 := Executing(s.workers[1].job, cfg.lease + cfg.timeout)], s.issued)
  }

  lemma OnlyJobTaken(cfg: Config, first: ClaimCall)
    requires Sane(cfg) && first == Call(cfg, 0, "x", Waiting(false, 2))
    ensures var e1, s1 := Claimed(1, first, [], Some("a"), true), Start(Waiting(false, 2));
            && Enabled(cfg, s1, e1) && Next(cfg, s1, e1) == GivenOut(s1, 1, first, "a")
            && FreshView(s1.db.rows, first)
  {
    TokensAreNotBlank();
    hide Blank, Enabled, Next;
    ClaimHappens(cfg, Start(Waiting(false, 2)), 1, first, "a");
    OwnViewIsFresh(Waiting(false, 2), first);
  }

  /** The claim, the wait for the lease to pass, and the late start. */
  lemma LateSteps(cfg: Config, first: ClaimCall) returns (s2: System, s3: System)
    requires Sane(cfg) && first == Call(cfg, 0, "x", Waiting(false, 2))
    ensures var e1, s1 := Claimed(1, first, [], Some("a"), true), Start(Waiting(false, 2));
            Enabled(cfg, s1, e1) && Next(cfg, s1, e1) == s2 && FreshView(s1.db.rows, first)
    ensures Enabled(cfg, s2, Tick(cfg.lease)) && Next(cfg, s2, Tick(cfg.lease)) == s3
    ensures Enabled(cfg, s3, Started(1)) && Next(cfg, s3, Started(1)) == LateState(cfg)
         && !Punctual(cfg, s3, Started(1))
  {
    OnlyJobTaken(cfg, first);
    hide FreshView, IsSweep, IsCandidate, AfterClaim, Blank, Enqueue, Operate;
    s2 := GivenOut(Start(Waiting(false, 2)), 1, first, "a");
    s3 := s2.(now := cfg.lease);
  }

  lemma LateStart(cfg: Config) returns (r: Run)
    requires Sane(cfg) && StoresEmptyObject(cfg.lib)
    ensures IsRun(cfg, r) && StartsEmpty(r) && ClaimsSeeLatest(r) && !IsPunctual(cfg, r)
    ensures |r.events| == 4 && r.states[4] == LateState(cfg)
  {
    hide Next, Enabled, FreshView, Punctual, LateState;
    var rows := Waiting(false, 2);
    EnqueueHappens(cfg, 'a', 2, map[]);
    var first := Call(cfg, 0, "x", rows);
    var s2, s3 := LateSteps(cfg, first);
    r := Run([Start(map[]), Start(rows), s2, s3, LateState(cfg)],
             [Enqueued("a", Input(2), 0), Claimed(1, first, [], Some("a"), true), Tick(cfg.lease), Started(1)]);
    assert r.events[3] == Started(1);
  }

  lemma SecondStart(cfg: Config) returns (e4: Event, s5: System, e5: Event, s6: System)
    requires Sane(cfg)
    ensures var s4 := LateState(cfg);
            && Enabled(cfg, s4, e4) && Next(cfg, s4, e4) == s5 && e4.Claimed? && FreshView(s4.db.rows, e4.call)
            && Enabled(cfg, s5, e5) && Next(cfg, s5, e5) == s6 && e5.Started?
    ensures !JobsExclusive(s6)
  {
    hide Blank;
    TokensAreNotBlank();
    var s4 := LateState(cfg);
    var second := Call(cfg, cfg.lease, "y", s4.db.rows);
    e4, e5 := Claimed(2, second, [], Some("a"), true), Started(2);
    ClaimHappens(cfg, s4, 2, second, "a");
    s5 := GivenOut(s4, 2, second, "a");
    hide IsSweep, IsCandidate, AfterClaim;
    s6 := s5.(workers := s5.workers[2 := Executing(s5.workers[2].job, cfg.lease + cfg.timeout)]);
    assert BothExecute(s6, 1, 2);
  }

  /**
    Nor is a lease enough without the timing: a worker that starts executing when its lease is over
    runs beside the worker that reclaimed the job.
   */
  lemma LateStartBreaksExclusion(cfg: Config) returns (r: Run)
    requires Sane(cfg) && StoresEmptyObject(cfg.lib)
    ensures IsRun(cfg, r) && StartsEmpty(r) && ClaimsSeeLatest(r) && !IsPunctual(cfg, r)
    ensures !JobsExclusive(r.states[|r.states| - 1])
  {
    hide Next, Enabled, FreshView, Punctual, LateState, JobsExclusive;
    var late := LateStart(cfg);
    var e4, s5, e5, s6 := SecondStart(cfg);
    r := Run(late.states + [s5, s6], late.events + [e4, e5]);
    var i :| 0 <= i < |late.events| && !Punctual(cfg, late.states[i], late.events[i]);
    assert r.events[i] == late.events[i];
  }
}
