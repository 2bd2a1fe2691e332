/** What the panel accepts and the database does not, and what becomes of it. */
module JobStorage {
  import opened Base
  import opened Text
  import opened Json
  import opened Results
  import opened JobTable
  import opened JobWorker
  import opened JobSystem
  import opened JobInvariant
  import opened JobSafety
  import opened JobProgress
  import opened JobTurns

  // ---------------------------------------------------------------- no number of tries helps

  /**
    However often a worker tries to write what the table cannot hold, nothing changes; and only a lost
    claim ends the tries early.
   */
  lemma {:induction false} UnstorableIsNeverWritten(db: Db, job: Job, action: FinalAction, tries: seq<Try>,
                                                    lib: JsonLibrary)
    requires tries != [] && NamesClaim(job) && ActionOk(job, action, lib) && !ActionStorable(action, lib)
    ensures RunTries(db, job, action, tries, lib).0 == db
    ensures HoldsClaim(db, job) ==> !Settled(RunTries(db, job, action, tries, lib).1)
    decreases |tries|
  {
    hide NamesClaim, ActionOk, Finalise, HoldsClaim, ActionConverts, ActionStorable;
    var t := tries[0];
    ActionAnswer(db, job, action, t.at, lib);
    StorableConverts(action, lib);
    DoneConsumesClaim(db, job, action, t.at, lib);
    if |tries| > 1 {
      UnstorableIsNeverWritten(db, job, action, tries[1..], lib);
    }
  }

  /**
    The worker gives up and the job stays as it is, leased, until its lease is over: it will be
    executed again or swept.
   */
  lemma UnstorableTurnChangesNothing(cfg: Config, s: System, w: WorkerId, tries: seq<Try>)
    requires Inv(cfg, s) && w in s.workers && s.workers[w].Finalising? && s.workers[w].triesLeft == |tries| > 0
    requires forall t | t in tries :: s.workers[w].since <= t.at <= s.now
    requires !ActionStorable(s.workers[w].action, cfg.lib)
    ensures After(cfg, s, FinishEvents(cfg, s, w, tries)) == s.(workers := s.workers[w := Idle])
  {
    hide RowsOk, TokensCoherent, KeysDistinct, CopiesOk, RowOk, NamesClaim;
    hide ActionOk, ActionStorable, After, FinishEvents, RunTries, HoldsClaim;
    var job := s.workers[w].job;
    PhaseIsOk(s.workers, s.issued, s.now, cfg.lib, w);
    IssuedCopyIsOk(cfg, s, job);
    RetryLoopIsARun(cfg, s, w, tries);
    UnstorableIsNeverWritten(s.db, job, s.workers[w].action, tries, cfg.lib);
  }

  /** The event is a try to finalise job `id` with something the table can hold. */
  predicate FinishesStorably(cfg: Config, s: System, e: Event, id: JobId) {
    e.Finished? && PhaseOf(s, e.w).Finalising? && PhaseOf(s, e.w).job.id == id
      && ActionStorable(PhaseOf(s, e.w).action, cfg.lib)
  }

  lemma TryLeavesRow(cfg: Config, s: System, e: Event, id: JobId)
    requires Inv(cfg, s) && e.Finished? && Enabled(cfg, s, e) && id in s.db.rows && !FinishesStorably(cfg, s, e, id)
    ensures id in Next(cfg, s, e).db.rows && Next(cfg, s, e).db.rows[id] == s.db.rows[id]
  {
    hide Inv, Finalise, ActionConverts, ActionStorable, HoldsClaim, FinalRow;
    var phase := s.workers[e.w];
    DoneConsumesClaim(s.db, phase.job, phase.action, e.t.at, cfg.lib);
    if Finalise(s.db, phase.job, phase.action, e.t.at, cfg.lib).answer.Done? {
      AnswersAreExact(cfg, s, e.w, e.t.at);
      FinaliseWritesOneRow(s.db, phase.job, phase.action, e.t.at, cfg.lib);
    }
  }

  /**
    A running job that nobody finalises with something storable stays running, under one claim or the
    next, until it is swept.
   */
  lemma UnstorableJobEndsOnlyBySweep(cfg: Config, s: System, e: Event, id: JobId)
    requires Inv(cfg, s) && Enabled(cfg, s, e) && !FinishesStorably(cfg, s, e, id)
    requires id in s.db.rows && s.db.rows[id].status.Running?
    ensures id in Next(cfg, s, e).db.rows
    ensures Next(cfg, s, e).db.rows[id].status.Running? <==> !(e.Claimed? && id in e.swept)
  {
    hide Inv, RunTry, Decide, Enqueue, Operate, IsSweep, IsCandidate, Blank, FinishesStorably, Settled;
    match e {
      case Enqueued(other, input, at) => EnqueueSparesRows(s.db, input, other, at, cfg.lib, id);
      case Operated(order) => OperateSparesRunning(s.db, order, id);
      case Finished(_, _) => TryLeavesRow(cfg, s, e, id);
      case _ =>
    }
  }

  /**
    Over a run: a running job that nobody finalises with something storable leaves that status only by
    being swept, at event `k`, and until then it has been handed out as often as it had attempts left.
   */
  lemma {:induction false} UnstorableJobIsExecutedToTheEnd(cfg: Config, r: Run, id: JobId, i: nat, j: nat)
    returns (k: nat)
    requires Sane(cfg) && IsRun(cfg, r) && StartsEmpty(r) && i <= j <= |r.events|
    requires id in r.states[i].db.rows && r.states[i].db.rows[id].status.Running?
    requires forall m | i <= m < j :: !FinishesStorably(cfg, r.states[m], r.events[m], id)
    requires id in r.states[j].db.rows && !r.states[j].db.rows[id].status.Running?
    ensures i <= k < j && r.events[k].Claimed? && id in r.events[k].swept
    ensures Handouts(r, id, i, k) == r.states[i].db.rows[id].maxAttempts - r.states[i].db.rows[id].attempts
    decreases j - i
  {
    hide Enabled, Next, FinishesStorably, HandsOut, Inv;
    var s, e := r.states[i], r.events[i];
    ReachableStatesAreOk(cfg, r, i);
    UnstorableJobEndsOnlyBySweep(cfg, s, e, id);
    if r.states[i + 1].db.rows[id].status.Running? {
      EventEndures(cfg, s, e, id);
      EventCountsAttempts(cfg, s, e, id);
      k := UnstorableJobIsExecutedToTheEnd(cfg, r, id, i + 1, j);
    } else {
      k := i;
      SweptJobIsUsedUp(cfg, s, e, id);
    }
  }

  lemma SweptJobIsUsedUp(cfg: Config, s: System, e: Event, id: JobId)
    requires Inv(cfg, s) && Enabled(cfg, s, e) && e.Claimed? && id in e.swept
    ensures id in s.db.rows && s.db.rows[id].attempts == s.db.rows[id].maxAttempts
  {
    hide RowOk, IsCandidate, TokensCoherent, KeysDistinct, CopiesOk, WorkersOk, Blank;
    assert Sweepable(s.db.rows, e.call, id);
    AttemptsInLimit(s.db.rows[id]);
  }

  // ---------------------------------------------------------------- an error message with U+0000

  /** For instance an error that says "a", U+0000, "b": the panel lets it through as it is. */
  lemma NulPassesThePanel(m: string)
    requires m == ['a', '\0', 'b']
    ensures SafeMessage(m) == m && !Textual(SafeMessage(m))
  {
    hide MentionsSecret, Trim, IsSpace;
    assert !MentionsSecret(m) by {
      assert Lower(m) == m;
      CleanWithout(m);
    }
    hide Lower;
    VisibleEnds(m);
    assert m[1] == '\0';
  }

  lemma VisibleEnds(s: string)
    requires s != "" && s[0] in "a{" && s[|s| - 1] in "b}"
    ensures Trim(s) == s
  {
    hide Trim;
    VisibleIsTrimmed(s);
  }

  lemma CleanWithout(s: string)
    requires 'p' !in Lower(s) && 's' !in Lower(s) && 't' !in Lower(s)
    ensures !MentionsSecret(s)
  {
    hide Lower, Contains;
    MissingLetter(Lower(s), "password", 0);
    MissingLetter(Lower(s), "secret", 0);
    MissingLetter(Lower(s), "token", 0);
    MissingLetter(Lower(s), "postgres://", 0);
    MissingLetter(Lower(s), "postgresql://", 0);
  }

  /** A failure whose cleaned message has U+0000 anywhere is never recorded, not even a permanent one. */
  lemma NulFailureIsNeverRecorded(db: Db, job: Job, message: string, permanent: bool, tries: seq<Try>, lib: JsonLibrary)
    requires tries != [] && NamesClaim(job) && HoldsClaim(db, job) && !Textual(SafeMessage(message))
    ensures var action := Decide(job, Raised(message, permanent, false), false, lib);
            && action.Some?
            && RunTries(db, job, action.value, tries, lib).0 == db
            && !Settled(RunTries(db, job, action.value, tries, lib).1)
  {
    hide NamesClaim, HoldsClaim, SafeMessage, Backoff, RunTries, Textual, TrimRight;
    CleanMessageIsOnlyTrimmed(message, SafeMessage(message));
    SafeMessageIsSafe(message);
    var action := Decide(job, Raised(message, permanent, false), false, lib).value;
    UnstorableIsNeverWritten(db, job, action, tries, lib);
  }

  // ---------------------------------------------------------------- data that grows when it is rendered

  /** n zeros, separated. */
  function Zeros(n: nat, comma: string): string
    requires n > 0
  {
    if n == 1 then "0" else "0" + comma + Zeros(n - 1, comma)
  }

  function Compact(n: nat): string
    requires n > 0
  {
    "{\"a\":[" + Zeros(n, ",") + "]}"
  }

  /** The same value as the database writes it out, with a space after each colon and comma. */
  function Rendered(n: nat): string
    requires n > 0
  {
    "{\"a\": [" + Zeros(n, ", ") + "]}"
  }

  predicate Ascii(s: string) { forall c | c in s :: c < '\U{0080}' }

  lemma {:induction false} AsciiSize(s: string)
    requires Ascii(s)
    ensures Utf8Size(s) == |s|
  {
    if s != "" {
      assert s[0] in s;
      assert forall c | c in s[1..] :: c in s;
      AsciiSize(s[1..]);
    }
  }

  lemma {:induction false} ZerosSize(n: nat, comma: string)
    requires n > 0 && Ascii(comma)
    ensures |Zeros(n, comma)| == n + (n - 1) * |comma| && Ascii(Zeros(n, comma))
  {
    if n > 1 {
      ZerosSize(n - 1, comma);
      assert (n - 1) * |comma| == |comma| + (n - 2) * |comma|;
    }
  }

  lemma Sizes(n: nat)
    requires n > 0
    ensures Utf8Size(Compact(n)) == 2 * n + 7 && Utf8Size(Rendered(n)) == 3 * n + 7
  {
    ZerosSize(n, ",");
    ZerosSize(n, ", ");
    hide Zeros, Utf8Size;
    AsciiSize(Compact(n));
    AsciiSize(Rendered(n));
  }

  function ZerosTree(n: nat): Json { JObject([Member("a", JArray(seq(n, _ => JNumber("0"))))]) }

  /** Go and PostgreSQL read this one text as they do. */
  predicate ReadsZeros(lib: JsonLibrary, n: nat)
    requires n > 0
  {
    && lib.valid(Compact(n)) && lib.decode(Compact(n)) == Some(ZerosTree(n))
    && lib.jsonb(Compact(n)) == Some(Rendered(n))
  }

  lemma ZerosAreHarmless(n: nat)
    ensures !ContainsSensitiveKey(ZerosTree(n))
  {
    var name := StripSeparators(Lower("a"));
    assert Lower("a") == "a";
    assert name == "a";
    MissingLetter(name, "password", 0);
    MissingLetter(name, "secret", 0);
    MissingLetter(name, "token", 0);
    MissingLetter(name, "credential", 0);
    MissingLetter(name, "privatekey", 0);
    MissingLetter(name, "apikey", 1);
    assert !SensitiveName("a");
    hide SensitiveName;
    var list := JArray(seq(n, _ => JNumber("0")));
    assert forall i | 0 <= i < n :: !ContainsSensitiveKey(list.items[i]);
    assert !ContainsSensitiveKey(list);
  }

  const LAST_STORED := 21843
  const LAST_ACCEPTED := 32764

  /** The panel accepts up to 32764 zeros, as a result or as a payload; the database stores up to 21843. */
  lemma ZerosFitExactly(n: nat, lib: JsonLibrary)
    requires 0 < n <= LAST_ACCEPTED && ReadsZeros(lib, n)
    ensures Trim(Compact(n)) == Compact(n) && DataAcceptable(Compact(n), lib) && !DataSensitive(Compact(n), lib)
    ensures RendersWithin(Compact(n), lib) <==> n <= LAST_STORED
    ensures PayloadFits(Compact(n), lib) <==> n <= LAST_STORED
  {
    hide Trim, Utf8Size, Zeros, ContainsSensitiveKey, ZerosTree;
    assert Compact(n) != "" && Compact(n)[0] == '{' && Compact(n)[|Compact(n)| - 1] == '}';
    assert Rendered(n) != "" && Rendered(n)[0] == '{';
    Sizes(n);
    ZerosAreHarmless(n);
    hide Compact, Rendered;
    VisibleEnds(Compact(n));
  }

  function ZerosResult(n: nat): ActionResult
    requires n > 0
  {
    ActionResult("ok", Compact(n), [])
  }

  lemma ZerosResultFitsExactly(n: nat, lib: JsonLibrary)
    requires 0 < n <= LAST_ACCEPTED && ReadsZeros(lib, n)
    ensures NormalizeResult(ZerosResult(n), lib) == Ok(ZerosResult(n))
    ensures ResultFits(ZerosResult(n)) && Converts(ZerosResult(n), lib)
    ensures Storable(ZerosResult(n), lib) <==> n <= LAST_STORED
  {
    ZerosFitExactly(n, lib);
    OkIsACode();
    hide Compact, Trim, Utf8Size, DataAcceptable, DataSensitive;
    hide RendersWithin, LevelsKnown, NormalizeLogs, CodeFits, Textual;
    NoLogsIsNormal();
  }

  /** A result that passes all checks of the panel, twice, and is refused for the text the database makes of it. */
  lemma LongResultIsRefused(n: nat, db: Db, job: Job, at: Time, lib: JsonLibrary)
    requires 0 < n <= LAST_ACCEPTED && ReadsZeros(lib, n) && NamesClaim(job) && HoldsClaim(db, job)
    ensures NormalizeResult(ZerosResult(n), lib) == Ok(ZerosResult(n))
    ensures Finalise(db, job, SucceedWith(ZerosResult(n)), at, lib).answer
         == if n <= LAST_STORED then Done else Refused(NOT_STORABLE)
  {
    hide NormalizeResult, ResultFits, Converts, Storable, ZerosResult, ReadsZeros, NamesClaim, HoldsClaim;
    ZerosResultFitsExactly(n, lib);
  }

  lemma OkIsACode()
    ensures Trim("ok") == "ok" && CodeFits("ok") && Utf8Size("ok") == 2 && Textual("ok")
  {
    VisibleIsTrimmed("ok");
    AsciiSize("ok");
  }

  lemma NoLogsIsNormal()
    ensures LevelsKnown([]) && NormalizeLogs([]) == []
  {
  }

  /** The same for a payload: input that Queue.Enqueue accepts is refused by the table. */
  lemma LongPayloadIsRefused(n: nat, db: Db, input: EnqueueInput, id: JobId, now: Time, lib: JsonLibrary)
    requires 0 < n <= LAST_ACCEPTED && ReadsZeros(lib, n) && input.payload == Compact(n)
    requires NewRow(input.(payload := ""), id, now, lib).Some?
    ensures NewRow(input, id, now, lib).Some?
    ensures n > LAST_STORED ==> Enqueue(db, input, id, now, lib).answer.Refused?
  {
    ZerosFitExactly(n, lib);
    assert Compact(n) != "" && Compact(n)[0] == '{';
    hide Compact, Trim, Utf8Size, DataSensitive, PayloadFits, RendersWithin, NewRow, RowConverts, ColumnsFit, IsTaken;
    AcceptablePayload(input, id, now, lib);
  }

  lemma AcceptablePayload(input: EnqueueInput, id: JobId, now: Time, lib: JsonLibrary)
    requires input.payload != "" && Trim(input.payload) == input.payload && input.payload[0] == '{'
    requires Utf8Size(input.payload) <= MAX_PAYLOAD_BYTES && lib.valid(input.payload)
    requires NewRow(input.(payload := ""), id, now, lib).Some?
    ensures NewRow(input, id, now, lib).Some? && NewRow(input, id, now, lib).value.payload == input.payload
  {
    hide Trim, Utf8Size;
  }
}
