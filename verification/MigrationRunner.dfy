/**
  Runner.Up, alone and interleaved: any number of processes apply the same list to one database,
  fail, crash and start again at any point. A process built earlier may know only a first part of
  the list.
 */
module MigrationRunner {
  import opened Base
  import opened Migrations

  // ---------------------------------------------------------------- the database

  /** `committed` is what the transactions of Apply have done to the database, in commit order. */
  datatype Db = Db(created: bool, committed: seq<Migration>)

  function VersionsIn(ms: seq<Migration>): set<int> { set m | m in ms :: m.version }

  /** Apply: SQL and version row in one transaction; a version that is there already violates the key. */
  function Apply(db: Db, m: Migration, succeeds: bool): Db {
    if succeeds && db.created && m.version !in VersionsIn(db.committed)
    then db.(committed := db.committed + [m]) else db
  }

  /** A transaction adds its migration exactly if its SQL succeeds and the version is not there yet. */
  lemma ApplyIsExact(db: Db, m: Migration, succeeds: bool)
    ensures var db' := Apply(db, m, succeeds);
            var isNew := forall i | 0 <= i < |db.committed| :: db.committed[i].version != m.version;
            && db'.created == db.created
            && db'.committed == db.committed + if succeeds && db.created && isNew then [m] else []
  {
    if exists i | 0 <= i < |db.committed| :: db.committed[i].version == m.version {
      var i :| 0 <= i < |db.committed| && db.committed[i].version == m.version;
      assert db.committed[i] in db.committed;
    }
  }

  // ---------------------------------------------------------------- interleaved runners

  type RunnerId = nat

  /** Where a call of Up stands, with its list, the versions it read, its position and what it ran. */
  datatype Runner =
    | Idle
    | Ensured(list: seq<Migration>)
    | Applying(list: seq<Migration>, applied: set<int>, next: nat, ran: seq<Migration>)
    | Returned(list: seq<Migration>, ran: seq<Migration>, ok: bool)

  datatype System = System(db: Db, runners: map<RunnerId, Runner>)

  datatype Event =
    | Start(r: RunnerId, list: seq<Migration>)                     // Ensure succeeds
    | Read(r: RunnerId)                                            // AppliedVersions succeeds
    | Skip(r: RunnerId)                                            // the version was applied when read
    | Commit(r: RunnerId, succeeds: bool, answered: bool)          // Apply; its answer may be lost
    | Finish(r: RunnerId)                                          // the loop is done
    | Fail(r: RunnerId)                                            // Ensure or AppliedVersions fails
    | Crash(r: RunnerId)

  function RunnerOf(s: System, r: RunnerId): Runner { if r in s.runners then s.runners[r] else Idle }

  ghost predicate Enabled(all: seq<Migration>, s: System, e: Event) {
    var u := RunnerOf(s, e.r);
    match e
    case Start(_, list) => !u.Ensured? && !u.Applying? && list <= all
    case Read(_) => u.Ensured?
    case Skip(_) => u.Applying? && u.next < |u.list| && u.list[u.next].version in u.applied
    case Commit(_, _, _) => u.Applying? && u.next < |u.list| && u.list[u.next].version !in u.applied
    case Finish(_) => u.Applying? && u.next == |u.list|
    case Fail(_) => !u.Applying?
    case Crash(_) => true
  }

  function Next(s: System, e: Event): System {
    var u := RunnerOf(s, e.r);
    match e
    case Start(r, list) => System(s.db.(created := true), s.runners[r := Ensured(list)])
    case Read(r) =>
      if !u.Ensured? then s
      else s.(runners := s.runners[r := Applying(u.list, VersionsIn(s.db.committed), 0, [])])
    case Skip(r) => if !u.Applying? then s else s.(runners := s.runners[r := u.(next := u.next + 1)])
    case Commit(r, succeeds, answered) =>
      if !u.Applying? || u.next >= |u.list| then s
      else
        var m := u.list[u.next];
        var db' := Apply(s.db, m, succeeds);
        System(db', s.runners[r := if db' != s.db && answered then u.(next := u.next + 1, ran := u.ran + [m])
                                   else Returned(u.list, u.ran, false)])
    case Finish(r) => if !u.Applying? then s else s.(runners := s.runners[r := Returned(u.list, u.ran, true)])
    case Fail(r) => s.(runners := s.runners[r := Returned([], [], false)])
    case Crash(r) => s.(runners := s.runners[r := Idle])
  }

  datatype Run = Run(states: seq<System>, events: seq<Event>)

  ghost predicate IsRun(all: seq<Migration>, run: Run) {
    && |run.states| == |run.events| + 1 && run.states[0] == System(Db(false, []), map[])
    && forall i {:trigger run.events[i]} | 0 <= i < |run.events| ::
         Enabled(all, run.states[i], run.events[i]) && run.states[i + 1] == Next(run.states[i], run.events[i])
  }

  // ---------------------------------------------------------------- the invariant

  /** What a call of Up has passed is committed, and so is what it takes for applied. */
  ghost predicate RunnerOk(all: seq<Migration>, db: Db, u: Runner) {
    match u
    case Idle => true
    case Ensured(list) => db.created && list <= all
    case Applying(list, applied, next, _) =>
      && db.created && list <= all && next <= |list| && next <= |db.committed|
      && exists known :: Knew(all, db, applied, known)
    case Returned(list, _, ok) => ok ==> list <= all && |list| <= |db.committed|
  }

  /** The versions read are those of the first `known` migrations, all still committed. */
  predicate Knew(all: seq<Migration>, db: Db, applied: set<int>, known: nat) {
    known <= |db.committed| && known <= |all| && applied == VersionsIn(all[..known])
  }

  ghost predicate Inv(all: seq<Migration>, s: System) {
    && s.db.committed <= all && (s.db.committed != [] ==> s.db.created)
    && forall r | r in s.runners :: RunnerOk(all, s.db, s.runners[r])
  }

  /** In a first part of an ascending list, a version occurs exactly if its index does. */
  lemma VersionInPrefix(all: seq<Migration>, n: nat, k: nat)
    requires Ascending(all) && n <= |all| && k < |all|
    ensures all[k].version in VersionsIn(all[..n]) <==> k < n
  {
    if k < n {
      assert all[..n][k] == all[k];
    } else {
      assert forall i | 0 <= i < n :: all[i].version < all[k].version;
    }
  }

  /** Growing the committed list makes no runner's knowledge wrong. */
  lemma GrowthKeepsRunner(all: seq<Migration>, db: Db, db': Db, u: Runner)
    requires RunnerOk(all, db, u) && (db.created ==> db'.created) && |db.committed| <= |db'.committed|
    ensures RunnerOk(all, db', u)
  {
    if u.Applying? {
      var known: nat :| Knew(all, db, u.applied, known);
      assert Knew(all, db', u.applied, known);
    }
  }

  /** Apply extends the committed prefix by the migration that comes next, or does nothing. */
  lemma ApplyKeepsPrefix(all: seq<Migration>, db: Db, list: seq<Migration>, next: nat, succeeds: bool)
    requires Ascending(all) && db.committed <= all && list <= all && next < |list| && next <= |db.committed|
    ensures var db' := Apply(db, list[next], succeeds);
            || db' == db
            || (next == |db.committed| && db'.committed == all[..next + 1] && db'.created)
  {
    var n := |db.committed|;
    assert db.committed == all[..n] && list[next] == all[next];
    VersionInPrefix(all, n, next);
    if Apply(db, list[next], succeeds) != db {
      assert next == n;
      assert all[..n + 1] == all[..n] + [all[n]];
    }
  }

  lemma CommitKeepsRunner(all: seq<Migration>, s: System, e: Event)
    requires Ascending(all) && Inv(all, s) && e.Commit? && Enabled(all, s, e)
    ensures Next(s, e).db.committed <= all && |s.db.committed| <= |Next(s, e).db.committed|
    ensures s.db.created ==> Next(s, e).db.created
    ensures Next(s, e).db.committed != [] ==> Next(s, e).db.created
    ensures RunnerOk(all, Next(s, e).db, Next(s, e).runners[e.r])
  {
    var u := s.runners[e.r];
    assert RunnerOk(all, s.db, u);
    ApplyKeepsPrefix(all, s.db, u.list, u.next, e.succeeds);
    GrowthKeepsRunner(all, s.db, Next(s, e).db, u);
    hide Apply, Knew;
  }

  lemma SkipKeepsRunner(all: seq<Migration>, db: Db, u: Runner)
    requires Ascending(all) && db.committed <= all && RunnerOk(all, db, u)
    requires u.Applying? && u.next < |u.list| && u.list[u.next].version in u.applied
    ensures RunnerOk(all, db, u.(next := u.next + 1))
  {
    var known: nat :| Knew(all, db, u.applied, known);
    VersionInPrefix(all, known, u.next);
    assert u.list[u.next] == all[u.next];
  }

  lemma OwnStepKeepsRunner(all: seq<Migration>, s: System, e: Event)
    requires Ascending(all) && Inv(all, s) && !e.Commit? && Enabled(all, s, e)
    ensures e.r in Next(s, e).runners && RunnerOk(all, Next(s, e).db, Next(s, e).runners[e.r])
  {
    match e {
      case Read(r) =>
        var n := |s.db.committed|;
        assert s.db.committed == all[..n];
        assert Knew(all, s.db, VersionsIn(s.db.committed), n);
      case Skip(r) => SkipKeepsRunner(all, s.db, s.runners[r]);
      case _ =>
    }
  }

  lemma EventKeepsInv(all: seq<Migration>, s: System, e: Event)
    requires Ascending(all) && Inv(all, s) && Enabled(all, s, e)
    ensures Inv(all, Next(s, e))
    ensures s.db.committed <= Next(s, e).db.committed
  {
    var s' := Next(s, e);
    if e.Commit? {
      CommitKeepsRunner(all, s, e);
    } else {
      OwnStepKeepsRunner(all, s, e);
    }
    forall r | r in s'.runners
      ensures RunnerOk(all, s'.db, s'.runners[r])
    {
      if r != e.r {
        GrowthKeepsRunner(all, s.db, s'.db, s.runners[r]);
      }
    }
  }

  lemma {:induction false} RunsKeepInv(all: seq<Migration>, run: Run, i: nat)
    requires Ascending(all) && IsRun(all, run) && i < |run.states|
    ensures Inv(all, run.states[i])
  {
    hide Inv, Enabled, Next;
    if i == 0 {
      EmptyIsInv(all);
    } else {
      RunsKeepInv(all, run, i - 1);
      var e := run.events[i - 1];
      EventKeepsInv(all, run.states[i - 1], e);
    }
  }

  lemma EmptyIsInv(all: seq<Migration>)
    ensures Inv(all, System(Db(false, []), map[]))
  {
  }

  /**
    Whatever the interleaving and wherever runners fail: the database holds the first migrations of
    the list, in order and each once, and nothing is ever undone.
   */
  lemma {:induction false} CommittedIsAlwaysAPrefix(all: seq<Migration>, run: Run, i: nat, j: nat)
    requires Ascending(all) && IsRun(all, run) && i <= j < |run.states|
    ensures run.states[i].db.committed <= run.states[j].db.committed <= all
    decreases j - i
  {
    hide Inv, Enabled, Next;
    RunsKeepInv(all, run, j);
    assert run.states[j].db.committed <= all by {
      InvMeansPrefix(all, run.states[j]);
    }
    if i < j {
      CommittedIsAlwaysAPrefix(all, run, i, j - 1);
      RunsKeepInv(all, run, j - 1);
      var e := run.events[j - 1];
      EventKeepsInv(all, run.states[j - 1], e);
    }
  }

  lemma InvMeansPrefix(all: seq<Migration>, s: System)
    requires Inv(all, s)
    ensures s.db.committed <= all
  {
  }

  /** Event `i` commits this version. */
  ghost predicate CommitsAt(run: Run, i: nat, version: int) {
    && i < |run.events| && i + 1 < |run.states|
    && |run.states[i].db.committed| < |run.states[i + 1].db.committed|
    && run.states[i + 1].db.committed[|run.states[i].db.committed|].version == version
  }

  /** No version is committed twice in a run. */
  lemma EachVersionCommitsOnce(all: seq<Migration>, run: Run, i: nat, j: nat, version: int)
    requires Ascending(all) && IsRun(all, run) && CommitsAt(run, i, version) && CommitsAt(run, j, version)
    ensures i == j
  {
    CommittedIsAlwaysAPrefix(all, run, 0, i + 1);
    CommittedIsAlwaysAPrefix(all, run, 0, j + 1);
    if i < j {
      CommittedIsAlwaysAPrefix(all, run, i + 1, j);
    } else if j < i {
      CommittedIsAlwaysAPrefix(all, run, j + 1, i);
    }
  }

  // ---------------------------------------------------------------- what a call reports

  /** The migrations of the list that are not among the committed ones. */
  function Missing(list: seq<Migration>, committed: seq<Migration>): seq<Migration> {
    if |committed| <= |list| then list[|committed|..] else []
  }

  /** A call that found `known` migrations applied and has come to `next` has run exactly the later ones before it. */
  predicate RanFrom(list: seq<Migration>, known: nat, next: nat, ran: seq<Migration>) {
    next <= |list| && ran == if known <= next then list[known..next] else []
  }

  lemma RanFromStep(list: seq<Migration>, known: nat, k: nat, ran: seq<Migration>)
    requires k < |list| && RanFrom(list, known, k, ran)
    ensures RanFrom(list, known, k + 1, if k < known then ran else ran + [list[k]])
  {
    if known <= k {
      assert list[known..k + 1] == list[known..k] + [list[k]];
    }
  }

  lemma RanAll(list: seq<Migration>, committed: seq<Migration>, ran: seq<Migration>)
    requires RanFrom(list, |committed|, |list|, ran)
    ensures ran == Missing(list, committed)
  {
  }

  lemma RanSome(list: seq<Migration>, committed: seq<Migration>, next: nat, ran: seq<Migration>)
    requires RanFrom(list, |committed|, next, ran)
    ensures ran <= Missing(list, committed)
  {
  }

  /** Event `k` is the reading that the call of `r` running at state `i` rests on: `r` has not started again since. */
  ghost predicate ReadsFor(run: Run, k: nat, i: nat, r: RunnerId) {
    && k < i <= |run.events| && k < |run.states| && run.events[k] == Read(r)
    && forall m | k < m < i && run.events[m].r == r :: !run.events[m].Start? && !run.events[m].Read?
  }

  /** What the call has run since it found `committed` in the table. */
  predicate RanSince(u: Runner, committed: seq<Migration>) {
    match u
    case Applying(list, applied, next, ran) => applied == VersionsIn(committed) && RanFrom(list, |committed|, next, ran)
    case Returned(list, ran, ok) => ok ==> RanFrom(list, |committed|, |list|, ran)
    case _ => true
  }

  predicate UnderWay(u: Runner) { u.Applying? || (u.Returned? && u.ok) }

  /** One own event of a call that has read, and goes on or returns without an error. */
  lemma OwnStepKeepsReport(all: seq<Migration>, s: System, e: Event, committed: seq<Migration>)
    requires Ascending(all) && Inv(all, s) && Enabled(all, s, e) && committed <= all
    requires RunnerOf(s, e.r).Applying? && RanSince(RunnerOf(s, e.r), committed) && UnderWay(RunnerOf(Next(s, e), e.r))
    ensures RanSince(RunnerOf(Next(s, e), e.r), committed)
  {
    var u := s.runners[e.r];
    assert RunnerOk(all, s.db, u);
    if u.next < |u.list| {
      assert committed == all[..|committed|] && u.list[u.next] == all[u.next];
      VersionInPrefix(all, |committed|, u.next);
      hide VersionsIn, RanFrom, Apply, RunnerOk, Knew;
      RanFromStep(u.list, |committed|, u.next, u.ran);
    }
  }

  /**
    Every call that is past its reading, or has returned without an error, rests on one, and ran what
    was missing then.
   */
  lemma {:induction false} CallRestsOnReading(all: seq<Migration>, run: Run, i: nat, r: RunnerId) returns (k: nat)
    requires Ascending(all) && IsRun(all, run) && i < |run.states| && UnderWay(RunnerOf(run.states[i], r))
    ensures ReadsFor(run, k, i, r) && RanSince(RunnerOf(run.states[i], r), run.states[k].db.committed)
  {
    hide Inv, RanSince, VersionsIn;
    var s, e := run.states[i - 1], run.events[i - 1];
    RunsKeepInv(all, run, i - 1);
    if e.r == r && e.Read? {
      k := i - 1;
      FreshReading(s, r);
    } else {
      k := CallRestsOnReading(all, run, i - 1, r);
      if e.r == r {
        CommittedIsAlwaysAPrefix(all, run, k, i - 1);
        OwnStepKeepsReport(all, s, e, run.states[k].db.committed);
      }
    }
  }

  predicate HasList(u: Runner) { u.Ensured? || UnderWay(u) }

  /** Event `a` started the call of `r` that stands at state `i`, with its list. */
  ghost predicate StartsFor(run: Run, a: nat, i: nat, r: RunnerId, list: seq<Migration>) {
    && a < i <= |run.events| && run.events[a] == Start(r, list)
    && forall m | a < m < i && run.events[m].r == r :: !run.events[m].Start?
  }

  lemma {:induction false} CallHasItsList(all: seq<Migration>, run: Run, i: nat, r: RunnerId) returns (a: nat)
    requires IsRun(all, run) && i < |run.states| && HasList(RunnerOf(run.states[i], r))
    ensures StartsFor(run, a, i, r, RunnerOf(run.states[i], r).list)
  {
    var e := run.events[i - 1];
    if e.r == r && e.Start? {
      a := i - 1;
    } else {
      a := CallHasItsList(all, run, i - 1, r);
    }
  }

  lemma FreshReading(s: System, r: RunnerId)
    requires RunnerOf(s, r).Ensured?
    ensures RanSince(RunnerOf(Next(s, Read(r)), r), s.db.committed)
  {
  }

  /**
    A call of Up that returns no error leaves the whole list it was started with, at event `a`, committed,
    then and for ever, and it reports exactly the migrations that were missing when it read the table, at
    event `k`.
   */
  lemma SuccessfulUpIsComplete(all: seq<Migration>, run: Run, i: nat, j: nat, r: RunnerId) returns (a: nat, k: nat)
    requires Ascending(all) && IsRun(all, run) && i <= j < |run.states|
    requires RunnerOf(run.states[i], r).Returned? && RunnerOf(run.states[i], r).ok
    ensures a < k && StartsFor(run, a, i, r, RunnerOf(run.states[i], r).list) && ReadsFor(run, k, i, r)
    ensures run.events[a].list <= run.states[j].db.committed
    ensures RunnerOf(run.states[i], r).ran == Missing(run.events[a].list, run.states[k].db.committed)
  {
    hide Enabled, Next;
    a := CallHasItsList(all, run, i, r);
    RunsKeepInv(all, run, i);
    CommittedIsAlwaysAPrefix(all, run, i, j);
    k := CallRestsOnReading(all, run, i, r);
    var u := RunnerOf(run.states[i], r);
    RanAll(u.list, run.states[k].db.committed, u.ran);
  }

  // ---------------------------------------------------------------- Up as it runs

  class MigrationStore {
    var created: bool
    var committed: seq<Migration>

    /** What the last successful reading found. */
    ghost var lastRead: seq<Migration>

    function Contents(): Db
      reads this
    {
      Db(created, committed)
    }

    constructor ()
      ensures Contents() == Db(false, [])
    {
      created, committed, lastRead := false, [], [];
    }

    /** What the other processes may have done between two calls; nothing if there are none. */
    method OthersRun(ghost all: seq<Migration>, alone: bool)
      requires committed <= all
      modifies this`created, this`committed
      ensures old(committed) <= committed <= all && (old(created) ==> created)
      ensures alone ==> Contents() == old(Contents())
    {
    }

    method Ensure(reachable: bool) returns (ok: bool)
      modifies this`created
      ensures ok == reachable && created == (old(created) || reachable)
    {
      if reachable {
        created := true;
      }
      return reachable;
    }

    method AppliedVersions(reachable: bool) returns (versions: Option<set<int>>)
      modifies this`lastRead
      ensures versions == if reachable then Some(VersionsIn(committed)) else None
      ensures lastRead == if reachable then committed else old(lastRead)
    {
      if !reachable {
        return None;
      }
      lastRead := committed;
      return Some(set m | m in committed :: m.version);
    }

    /** Apply: true exactly if the transaction committed and its answer arrived. */
    method ApplyMigration(m: Migration, succeeds: bool, answered: bool) returns (ok: bool)
      modifies this`committed
      ensures Contents() == Apply(old(Contents()), m, succeeds)
      ensures ok == (Contents() != old(Contents()) && answered)
    {
      if !succeeds || !created || m.version in set x | x in committed :: x.version {
        return false;
      }
      committed := committed + [m];
      return answered;
    }
  }

  /** The faults one call of Up meets; `applies[k]` belongs to the k-th migration of its list. */
  datatype Faults = Faults(ensured: bool, readable: bool, applies: seq<(bool, bool)>, alone: bool)

  predicate NoneFails(f: Faults) { forall a | a in f.applies :: a == (true, true) }

  /** No fault at all, and nobody else at work. */
  predicate Smooth(f: Faults) { f.ensured && f.readable && f.alone && NoneFails(f) }

  /** One round of Up's loop for a version that was missing when it read. */
  method ApplyNext(store: MigrationStore, list: seq<Migration>, k: nat, succeeds: bool, answered: bool, alone: bool,
                   ghost all: seq<Migration>)
    returns (ok: bool)
    requires Ascending(all) && list <= all && k < |list|
    requires store.created && store.committed <= all && k <= |store.committed|
    modifies store`created, store`committed
    ensures store.created && old(store.committed) <= store.committed <= all
    ensures ok ==> k < |store.committed| && succeeds && answered
    ensures alone && ok ==> |store.committed| == Max(|old(store.committed)|, k + 1)
    ensures alone && succeeds && answered && |old(store.committed)| == k ==> ok
  {
    store.OthersRun(all, alone);
    ApplyKeepsPrefix(all, store.Contents(), list, k, succeeds);
    VersionInPrefix(all, |store.committed|, k);
    assert store.committed == all[..|store.committed|] && list[k] == all[k];
    ok := store.ApplyMigration(list[k], succeeds, answered);
  }

  /**
    Runner.Up beside other processes: it only ever extends the committed prefix; without an error its
    whole list is committed and `ran` is what was missing when it read the table; with one, `ran` is a
    first part of that; left alone, it succeeds.
   */
  method Up(store: MigrationStore, list: seq<Migration>, faults: Faults, ghost all: seq<Migration>)
    returns (ran: seq<Migration>, ok: bool)
    requires Ascending(all) && list <= all && store.committed <= all && |faults.applies| == |list|
    modifies store
    ensures old(store.committed) <= store.committed <= all
    ensures ran <= Missing(list, store.lastRead)
    ensures ok ==> list <= store.committed && old(store.committed) <= store.lastRead <= store.committed
    ensures ok ==> ran == Missing(list, store.lastRead)
    ensures ok ==> faults.ensured && faults.readable
    ensures ok ==> forall k | |store.lastRead| <= k < |list| :: faults.applies[k] == (true, true)
    ensures Smooth(faults) ==> ok && store.lastRead == old(store.committed)
  {
    hide RanFrom, Missing, VersionsIn, NoneFails;
    ran := [];
    var ready := store.Ensure(faults.ensured);
    NothingRan(list, |store.lastRead|);
    RanSome(list, store.lastRead, 0, []);
    if !ready {
      return [], false;
    }
    store.OthersRun(all, faults.alone);
    var versions := store.AppliedVersions(faults.readable);
    if versions.None? {
      return [], false;
    }
    ghost var read := store.committed;
    NothingRan(list, |read|);
    ran, ok := ApplyMissing(store, list, versions.value, faults, all);
    if ok {
      RanAll(list, read, ran);
    }
    if faults.alone {
      assert read == old(store.committed);
    }
  }

  /** Up's loop, from the reading on. */
  method ApplyMissing(store: MigrationStore, list: seq<Migration>, applied: set<int>, faults: Faults,
                      ghost all: seq<Migration>)
    returns (ran: seq<Migration>, ok: bool)
    requires Ascending(all) && list <= all && |faults.applies| == |list|
    requires store.created && store.committed <= all && applied == VersionsIn(store.committed)
    modifies store`created, store`committed
    ensures old(store.committed) <= store.committed <= all
    ensures ran <= Missing(list, old(store.committed))
    ensures ok ==> list <= store.committed && RanFrom(list, |old(store.committed)|, |list|, ran)
    ensures ok ==> forall k | |old(store.committed)| <= k < |list| :: faults.applies[k] == (true, true)
    ensures faults.alone && NoneFails(faults) ==> ok
  {
    hide RanFrom, Missing, VersionsIn, Ascending;
    ghost var read := store.committed;
    assert read == all[..|read|];
    ran := [];
    NothingRan(list, |read|);
    for k := 0 to |list|
      invariant store.created && read <= store.committed <= all && k <= |store.committed|
      invariant RanFrom(list, |read|, k, ran)
      invariant forall i | |read| <= i < k :: faults.applies[i] == (true, true)
      invariant faults.alone ==> |store.committed| == Max(|read|, k)
    {
      assert list[k] == all[k];
      VersionInPrefix(all, |read|, k);
      RanFromStep(list, |read|, k, ran);
      if list[k].version !in applied {
        var (succeeds, answered) := faults.applies[k];
        assert faults.applies[k] in faults.applies;
        var applies := ApplyNext(store, list, k, succeeds, answered, faults.alone, all);
        if !applies {
          RanSome(list, read, k, ran);
          return ran, false;
        }
        ran := ran + [list[k]];
      }
    }
    RanSome(list, read, |list|, ran);
    return ran, true;
  }

  lemma NothingRan(list: seq<Migration>, known: nat)
    ensures RanFrom(list, known, 0, [])
  {
  }
}
