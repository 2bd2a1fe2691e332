/** The bounded login limiter, and the unbounded one it stands for. */
module LoginLimiter {
  import opened Base
  import opened Text

  const WINDOW: int := 15 * 60 * 1_000_000_000
  const MAX_ENTRIES: nat := 10_000
  const ATTEMPT_LIMIT := 5
  const SOURCE_LIMIT := 50

  /** A clock reading; never the zero time, which the Go code uses for "no window yet". */
  type Instant = t: int | t > 0 witness 1

  datatype Window = Window(count: int, start: Instant)

  type Table = map<string, Window>

  function KeyOf(key: string): string { if Blank(key) then "unknown" else key }

  predicate Over(w: Window, now: int) { now - w.start >= WINDOW }

  // ---------------------------------------------------------------- one call

  function Unexpired(m: Table, now: int): Table { map k | k in m && !Over(m[k], now) :: m[k] }

  /** The entry that may be evicted: one with the earliest window start. */
  ghost predicate IsOldest(m: Table, victim: string) {
    victim in m && forall k | k in m :: m[victim].start <= m[k].start
  }

  /** Making room: only a new key finding a full table cleans up, and only if that is not enough it evicts. */
  ghost predicate MakesRoom(m: Table, key: string, now: int, victim: Option<string>, m': Table) {
    var full := key !in m && |m| >= MAX_ENTRIES;
    var kept := if full then Unexpired(m, now) else m;
    && (victim.Some? <==> full && |kept| >= MAX_ENTRIES)
    && (victim.Some? ==> IsOldest(kept, victim.value))
    && m' == if victim.Some? then kept - {victim.value} else kept
  }

  /** The window an attempt counts in. */
  function Current(b: Option<Window>, now: Instant): Window {
    if b.None? || Over(b.value, now) then Window(0, now) else b.value
  }

  function Lookup(m: Table, key: string): Option<Window> { if key in m then Some(m[key]) else None }

  /** Allow for an already normalised key. */
  ghost predicate AllowStep(m: Table, limit: int, key: string, now: Instant, victim: Option<string>, m': Table,
                            ok: bool) {
    exists room: Table ::
      && MakesRoom(m, key, now, victim, room)
      && var w := Current(Lookup(m, key), now);
         ok == (w.count < limit) && m' == if ok then room[key := w.(count := w.count + 1)] else room
  }

  /** The attempts that an entry counts at `now`: none once 15 minutes have passed since it began. */
  function CountedAt(m: Table, key: string, now: int): int {
    if key in m && now - m[key].start < 15 * 60 * 1_000_000_000 then m[key].count else 0
  }

  /** What a call does to the calling key's entry: it counts in the running window, or begins a new one. */
  lemma AllowInEntries(m: Table, limit: int, key: string, now: Instant, victim: Option<string>, m': Table, ok: bool)
    requires AllowStep(m, limit, key, now, victim, m', ok)
    ensures ok <==> CountedAt(m, key, now) < limit
    ensures ok ==> key in m' && m'[key].count == CountedAt(m, key, now) + 1
    ensures ok ==> m'[key].start == if key in m && now - m[key].start < WINDOW then m[key].start else now
    ensures !ok ==> (key in m' <==> key in m) && (key in m ==> m'[key] == m[key])
  {
  }

  /** The entries whose windows still run. */
  function LiveKeys(m: Table, now: int): set<string> { set k | k in m && now - m[k].start < WINDOW }

  /** What it does to the others: nothing, unless a new key finds 10,000 entries; then those that are over go. */
  lemma AllowSparesOthers(m: Table, limit: int, key: string, now: Instant, victim: Option<string>, m': Table, ok: bool,
                          other: string)
    requires AllowStep(m, limit, key, now, victim, m', ok) && other != key
    ensures var full := key !in m && |m| >= 10_000;
            other in m' <==> other in m && victim != Some(other) && (full ==> other in LiveKeys(m, now))
    ensures other in m' ==> m'[other] == m[other]
  {
  }

  /** One live entry is evicted exactly if a new key finds 10,000 of them, and it is one that began first. */
  lemma EvictionTakesTheOldest(m: Table, limit: int, key: string, now: Instant, victim: Option<string>, m': Table,
                               ok: bool)
    requires AllowStep(m, limit, key, now, victim, m', ok)
    ensures victim.Some? <==> key !in m && |m| >= 10_000 && |LiveKeys(m, now)| >= 10_000
    ensures victim.Some? ==> victim.value in LiveKeys(m, now)
    ensures victim.Some? ==> forall k | k in LiveKeys(m, now) :: m[victim.value].start <= m[k].start
  {
    assert Unexpired(m, now).Keys == LiveKeys(m, now);
  }

  predicate TableOk(m: Table) { |m| <= MAX_ENTRIES && forall k | k in m :: !Blank(k) }

  lemma UnknownIsNotBlank()
    ensures !Blank("unknown")
  {
    VisibleIsTrimmed("unknown");
  }

  class LoginLimiter {
    var attempts: Table
    const limit: int

    constructor (limit: int)
      ensures attempts == map[] && this.limit == limit && TableOk(attempts)
    {
      attempts := map[];
      this.limit := limit;
    }

    /** The loop over the full table: drops expired entries and remembers the oldest of the others. */
    method CleanUp(now: Instant) returns (oldestKey: string)
      requires TableOk(attempts)
      modifies this
      ensures attempts == Unexpired(old(attempts), now)
      ensures if attempts == map[] then oldestKey == "" else oldestKey != "" && IsOldest(attempts, oldestKey)
    {
      hide Blank;
      ghost var was := attempts;
      BlankEmpty();
      oldestKey := "";
      var oldest := 0;
      var todo := attempts.Keys;
      while todo != {}
        invariant todo <= attempts.Keys <= was.Keys
        invariant forall k | k in attempts :: attempts[k] == was[k]
        invariant forall k | k in was && k !in attempts :: Over(was[k], now)
        invariant forall k | k in attempts && k !in todo :: !Over(was[k], now)
        invariant oldestKey == "" ==> forall k | k in attempts :: k in todo
        invariant oldestKey != "" ==> oldestKey in attempts && oldestKey !in todo && oldest == attempts[oldestKey].start
        invariant oldestKey != "" ==> forall k | k in attempts && k !in todo :: oldest <= attempts[k].start
        decreases todo
      {
        var k :| k in todo;
        todo := todo - {k};
        assert k != "";
        if Over(attempts[k], now) {
          attempts := attempts - {k};
        } else if oldestKey == "" || attempts[k].start < oldest {
          oldestKey, oldest := k, attempts[k].start;
        }
      }
      assert attempts == Unexpired(was, now);
    }

    /** What Allow does before it counts: nothing, or clean up, or clean up and evict. */
    method MakeRoom(key: string, now: Instant) returns (ghost victim: Option<string>)
      requires TableOk(attempts)
      modifies this
      ensures MakesRoom(old(attempts), key, now, victim, attempts)
      ensures TableOk(attempts) && (key !in old(attempts) ==> |attempts| < MAX_ENTRIES)
      ensures key in old(attempts) ==> key in attempts
    {
      hide Blank, Over;
      victim := None;
      if key !in attempts && |attempts| >= MAX_ENTRIES {
        UnexpiredIsSmaller(attempts, now);
        var oldestKey := CleanUp(now);
        if |attempts| >= MAX_ENTRIES && oldestKey != "" {
          victim := Some(oldestKey);
          RemovingShrinks(attempts, oldestKey);
          attempts := attempts - {oldestKey};
        }
      }
    }

    method Allow(key: string, now: Instant) returns (ok: bool, ghost victim: Option<string>)
      requires TableOk(attempts)
      modifies this
      ensures TableOk(attempts)
      ensures AllowStep(old(attempts), limit, KeyOf(key), now, victim, attempts, ok)
    {
      hide Blank, MakesRoom, Current;
      UnknownIsNotBlank();
      var k := if Blank(key) then "unknown" else key;
      var w := Current(Lookup(attempts, k), now);
      victim := MakeRoom(k, now);
      ghost var room := attempts;
      if w.count >= limit {
        return false, victim;
      }
      InsertingGrows(attempts, k, w.(count := w.count + 1));
      attempts := attempts[k := w.(count := w.count + 1)];
      return true, victim;
    }

    method Reset(key: string)
      requires TableOk(attempts)
      modifies this
      ensures TableOk(attempts) && attempts == old(attempts) - {KeyOf(key)}
    {
      UnexpiredIsSmallerKeys(attempts, KeyOf(key));
      attempts := attempts - {if Blank(key) then "unknown" else key};
    }
  }

  lemma BlankEmpty()
    ensures Blank("")
  {
  }

  lemma RemovingShrinks(m: Table, k: string)
    requires k in m
    ensures |m - {k}| == |m| - 1
  {
    assert (m - {k}).Keys == m.Keys - {k};
  }

  lemma UnexpiredIsSmallerKeys(m: Table, k: string)
    ensures |m - {k}| <= |m|
  {
    if k in m {
      RemovingShrinks(m, k);
    } else {
      assert m - {k} == m;
    }
  }

  lemma SubsetIsSmaller(a: set<string>, b: set<string>)
    requires a <= b
    ensures |a| <= |b|
  {
    assert b == a + (b - a);
  }

  lemma UnexpiredIsSmaller(m: Table, now: int)
    ensures |Unexpired(m, now)| <= |m|
  {
    SubsetIsSmaller(Unexpired(m, now).Keys, m.Keys);
  }

  lemma InsertingGrows(m: Table, k: string, w: Window)
    ensures |m[k := w]| <= |m| + 1
    ensures k in m ==> |m[k := w]| == |m|
  {
    assert m[k := w].Keys == m.Keys + {k};
  }

  // ---------------------------------------------------------------- runs

  /** A call with the answer it got and the live entry it evicted, if any. Keys are normalised. */
  datatype Event =
    | Tried(key: string, now: Instant, victim: Option<string>, ok: bool)
    | Forgotten(key: string)

  datatype Run = Run(tables: seq<Table>, events: seq<Event>)

  ghost predicate EventOk(m: Table, limit: int, e: Event, m': Table) {
    match e
    case Tried(key, now, victim, ok) => AllowStep(m, limit, key, now, victim, m', ok)
    case Forgotten(key) => m' == m - {key}
  }

  /** Any sequence of calls from an empty limiter, with a clock that never runs back. */
  ghost predicate IsRun(limit: int, r: Run) {
    && |r.tables| == |r.events| + 1 && r.tables[0] == map[]
    && (forall i {:trigger r.events[i]} | 0 <= i < |r.events| ::
          EventOk(r.tables[i], limit, r.events[i], r.tables[i + 1]))
    && (forall i, j | 0 <= i < j < |r.events| && r.events[i].Tried? && r.events[j].Tried? ::
          r.events[i].now <= r.events[j].now)
  }

  lemma StepKeepsSize(m: Table, limit: int, key: string, now: Instant, victim: Option<string>, m': Table, ok: bool)
    requires |m| <= MAX_ENTRIES && AllowStep(m, limit, key, now, victim, m', ok)
    ensures |m'| <= MAX_ENTRIES
  {
    var room: Table :| MakesRoom(m, key, now, victim, room)
      && var w := Current(Lookup(m, key), now);
         ok == (w.count < limit) && m' == if ok then room[key := w.(count := w.count + 1)] else room;
    UnexpiredIsSmaller(m, now);
    if victim.Some? {
      RemovingShrinks(Unexpired(m, now), victim.value);
    }
    var w := Current(Lookup(m, key), now);
    InsertingGrows(room, key, w.(count := w.count + 1));
  }

  /** The map never holds more than 10,000 entries, whatever is evicted. */
  lemma {:induction false} SizeIsBounded(limit: int, r: Run, i: nat)
    requires IsRun(limit, r) && i < |r.tables|
    ensures |r.tables[i]| <= MAX_ENTRIES
  {
    hide AllowStep;
    if i > 0 {
      SizeIsBounded(limit, r, i - 1);
      var e := r.events[i - 1];
      match e {
        case Tried(key, now, victim, ok) => StepKeepsSize(r.tables[i - 1], limit, key, now, victim, r.tables[i], ok);
        case Forgotten(key) => UnexpiredIsSmallerKeys(r.tables[i - 1], key);
      }
    }
  }

  // ---------------------------------------------------------------- the unbounded limiter

  /** One key of a limiter that forgets nothing: its window, and the times it let through. */
  datatype Meter = Meter(bucket: Option<Window>, allowed: seq<Instant>)

  predicate Admits(m: Meter, limit: int, now: Instant) { Current(m.bucket, now).count < limit }

  function Feed(m: Meter, limit: int, now: Instant): Meter {
    var w := Current(m.bucket, now);
    if w.count < limit then Meter(Some(w.(count := w.count + 1)), m.allowed + [now]) else m
  }

  /** The unbounded limiter's entry for `key` after the first `n` calls. */
  function MeterAt(limit: int, events: seq<Event>, key: string, n: nat): Meter
    requires n <= |events|
  {
    if n == 0 then Meter(None, [])
    else
      var m := MeterAt(limit, events, key, n - 1);
      match events[n - 1]
      case Tried(k, now, _, _) => if k == key then Feed(m, limit, now) else m
      case Forgotten(k) => if k == key then m.(bucket := None) else m
  }

  /** The latest clock reading among the first `n` calls. */
  function Clock(events: seq<Event>, n: nat): int
    requires n <= |events|
  {
    if n == 0 then 0 else if events[n - 1].Tried? then events[n - 1].now else Clock(events, n - 1)
  }

  ghost predicate NeverEvicted(events: seq<Event>, key: string, n: nat) {
    forall i | 0 <= i < n && i < |events| && events[i].Tried? :: events[i].victim != Some(key)
  }

  /** The table and the unbounded limiter agree on a key, up to a window that is over. */
  predicate Agrees(entry: Option<Window>, bucket: Option<Window>, clock: int) {
    if entry.Some? then bucket == entry else bucket.None? || Over(bucket.value, clock)
  }

  /** Making room leaves a key's entry as it is, unless it is evicted or over. */
  lemma RoomKeepsEntry(m: Table, newcomer: string, now: int, victim: Option<string>, room: Table, key: string)
    requires MakesRoom(m, newcomer, now, victim, room) && victim != Some(key)
    ensures key in room ==> key in m && room[key] == m[key]
    ensures key in m && key !in room ==> Over(m[key], now)
  {
  }

  lemma TriedKeepsAgreement(m: Table, limit: int, e: Event, m': Table, key: string, meter: Meter, clock: int)
    requires e.Tried? && EventOk(m, limit, e, m') && clock <= e.now && e.victim != Some(key)
    requires Agrees(Lookup(m, key), meter.bucket, clock)
    ensures Agrees(Lookup(m', key), if e.key == key then Feed(meter, limit, e.now).bucket else meter.bucket, e.now)
    ensures e.key == key ==> e.ok == Admits(meter, limit, e.now)
  {
    var room: Table :| MakesRoom(m, e.key, e.now, e.victim, room)
      && var w := Current(Lookup(m, e.key), e.now);
         e.ok == (w.count < limit) && m' == if e.ok then room[e.key := w.(count := w.count + 1)] else room;
    RoomKeepsEntry(m, e.key, e.now, e.victim, room, key);
    hide MakesRoom, Over;
  }

  lemma ClockGrows(limit: int, r: Run, n: nat)
    requires IsRun(limit, r) && n < |r.events| && r.events[n].Tried?
    ensures Clock(r.events, n) <= r.events[n].now
    decreases n
  {
    ClockIsSomeReading(r.events, n);
  }

  lemma {:induction false} ClockIsSomeReading(events: seq<Event>, n: nat)
    requires n <= |events|
    ensures Clock(events, n) == 0 || exists i | 0 <= i < n :: events[i].Tried? && events[i].now == Clock(events, n)
  {
    if n > 0 && !events[n - 1].Tried? {
      ClockIsSomeReading(events, n - 1);
    }
  }

  lemma {:induction false} AgreementHolds(limit: int, r: Run, key: string, n: nat)
    requires IsRun(limit, r) && n <= |r.events| && NeverEvicted(r.events, key, n)
    ensures Agrees(Lookup(r.tables[n], key), MeterAt(limit, r.events, key, n).bucket, Clock(r.events, n))
  {
    hide EventOk, Agrees, Feed;
    if n == 0 {
      assert Agrees(None, None, 0) by {
        EmptyAgrees();
      }
    } else {
      AgreementHolds(limit, r, key, n - 1);
      var e := r.events[n - 1];
      var m, meter, clock := r.tables[n - 1], MeterAt(limit, r.events, key, n - 1), Clock(r.events, n - 1);
      if e.Tried? {
        ClockGrows(limit, r, n - 1);
        TriedKeepsAgreement(m, limit, e, r.tables[n], key, meter, clock);
      } else {
        ForgottenKeepsAgreement(m, limit, e, r.tables[n], key, meter, clock);
      }
    }
  }

  lemma EmptyAgrees()
    ensures Agrees(None, None, 0)
  {
  }

  lemma ForgottenKeepsAgreement(m: Table, limit: int, e: Event, m': Table, key: string, meter: Meter, clock: int)
    requires e.Forgotten? && EventOk(m, limit, e, m') && Agrees(Lookup(m, key), meter.bucket, clock)
    ensures Agrees(Lookup(m', key), if e.key == key then None else meter.bucket, clock)
  {
  }

  /**
    As long as a key's live entry is not evicted, every one of its calls gets the answer of the
    unbounded limiter; on runs without live evictions that is every call.
   */
  lemma AnswersLikeUnbounded(limit: int, r: Run, key: string, n: nat)
    requires IsRun(limit, r) && n < |r.events| && NeverEvicted(r.events, key, n + 1)
    requires r.events[n].Tried? && r.events[n].key == key
    ensures r.events[n].ok == Admits(MeterAt(limit, r.events, key, n), limit, r.events[n].now)
  {
    AgreementHolds(limit, r, key, n);
    ClockGrows(limit, r, n);
    var e := r.events[n];
    hide EventOk, Agrees, Admits, Feed;
    TriedKeepsAgreement(r.tables[n], limit, e, r.tables[n + 1], key, MeterAt(limit, r.events, key, n),
      Clock(r.events, n));
  }

  /** An evicted key starts over at once, even one the unbounded limiter would still refuse. */
  lemma EvictionForgives(m: Table, limit: int, e: Event, m': Table, f: Event, m'': Table, meter: Meter)
    requires limit > 0 && e.Tried? && e.victim.Some? && EventOk(m, limit, e, m')
    requires f.Tried? && f.key == e.victim.value && EventOk(m', limit, f, m'')
    requires meter.bucket == Lookup(m, f.key)
    ensures f.ok
    ensures f.key in m && !Over(m[f.key], e.now)
    ensures !Over(m[f.key], f.now) && m[f.key].count >= limit ==> !Admits(meter, limit, f.now)
  {
    var room: Table :| MakesRoom(m, e.key, e.now, e.victim, room)
      && var w := Current(Lookup(m, e.key), e.now);
         e.ok == (w.count < limit) && m' == if e.ok then room[e.key := w.(count := w.count + 1)] else room;
    assert f.key !in m';
  }

  // ---------------------------------------------------------------- what it takes to evict a live entry

  /** The call at `i` let `key` through at this time. */
  predicate LetsThrough(events: seq<Event>, i: nat, key: string, time: int) {
    i < |events| && events[i].Tried? && events[i].ok && events[i].key == key && events[i].now == time
  }

  /** The keys let through after `since` by the first `n` calls. */
  function LetThrough(events: seq<Event>, n: nat, since: int): set<string>
    requires n <= |events|
  {
    set i | 0 <= i < n && events[i].Tried? && events[i].ok && events[i].now > since :: events[i].key
  }

  /** Every entry's window began with a call that was let through. */
  ghost predicate EntriesExplained(m: Table, events: seq<Event>, n: nat) {
    forall k | k in m :: exists i | 0 <= i < n :: LetsThrough(events, i, k, m[k].start)
  }

  lemma StepExplainsEntries(m: Table, limit: int, events: seq<Event>, n: nat, m': Table)
    requires n < |events| && EventOk(m, limit, events[n], m') && EntriesExplained(m, events, n)
    ensures EntriesExplained(m', events, n + 1)
  {
    var e := events[n];
    forall k | k in m'
      ensures exists i | 0 <= i < n + 1 :: LetsThrough(events, i, k, m'[k].start)
    {
      if k in m && m'[k].start == m[k].start {
        var i :| 0 <= i < n && LetsThrough(events, i, k, m[k].start);
      } else {
        assert LetsThrough(events, n, k, m'[k].start);
      }
    }
  }

  lemma {:induction false} EntriesComeFromCalls(limit: int, r: Run, n: nat)
    requires IsRun(limit, r) && n <= |r.events|
    ensures EntriesExplained(r.tables[n], r.events, n)
  {
    hide EventOk, EntriesExplained;
    if n == 0 {
      EmptyIsExplained(r.events);
    } else {
      EntriesComeFromCalls(limit, r, n - 1);
      var e := r.events[n - 1];
      StepExplainsEntries(r.tables[n - 1], limit, r.events, n - 1, r.tables[n]);
    }
  }

  lemma EmptyIsExplained(events: seq<Event>)
    ensures EntriesExplained(map[], events, 0)
  {
  }

  lemma EvictingKeepsTooMany(m: Table, limit: int, e: Event, m': Table)
    requires e.Tried? && e.victim.Some? && EventOk(m, limit, e, m')
    ensures e.key !in m && e.victim.value in Unexpired(m, e.now) && |Unexpired(m, e.now)| >= MAX_ENTRIES
  {
  }

  /**
    A live entry is evicted only under heavy traffic: within the last 15 minutes 10,000 different keys,
    the victim among them and the evicting key not in the table, were let through.
   */
  lemma EvictionNeedsTraffic(limit: int, r: Run, n: nat)
    requires IsRun(limit, r) && n < |r.events| && r.events[n].Tried? && r.events[n].victim.Some?
    ensures var e := r.events[n];
            var through := LetThrough(r.events, n, e.now - WINDOW);
            |through| >= MAX_ENTRIES && e.victim.value in through && e.key !in r.tables[n]
  {
    var e := r.events[n];
    var kept := Unexpired(r.tables[n], e.now);
    EntriesComeFromCalls(limit, r, n);
    EvictingKeepsTooMany(r.tables[n], limit, e, r.tables[n + 1]);
    forall k | k in kept
      ensures k in LetThrough(r.events, n, e.now - WINDOW)
    {
      var i :| 0 <= i < n && LetsThrough(r.events, i, k, kept[k].start);
    }
    SubsetIsSmaller(kept.Keys, LetThrough(r.events, n, e.now - WINDOW));
  }

  /** As long as fewer than 10,000 keys get through in any 15 minutes, nobody's live entry is evicted. */
  lemma QuietTrafficEvictsNobody(limit: int, r: Run, key: string, n: nat)
    requires IsRun(limit, r) && n <= |r.events|
    requires forall i | 0 <= i < n && r.events[i].Tried? ::
               |LetThrough(r.events, i, r.events[i].now - WINDOW)| < MAX_ENTRIES
    ensures NeverEvicted(r.events, key, n)
  {
    forall i | 0 <= i < n && r.events[i].Tried?
      ensures r.events[i].victim != Some(key)
    {
      if r.events[i].victim.Some? {
        EvictionNeedsTraffic(limit, r, i);
      }
    }
  }

  // ---------------------------------------------------------------- how many attempts get through

  /** How many of the times lie in [from, to). */
  function CountIn(times: seq<Instant>, from: int, to: int): nat {
    if times == [] then 0
    else CountIn(times[..|times| - 1], from, to) + if from <= times[|times| - 1] < to then 1 else 0
  }

  lemma {:induction false} CountAdds(times: seq<Instant>, a: int, b: int, c: int)
    requires a <= b <= c
    ensures CountIn(times, a, c) == CountIn(times, a, b) + CountIn(times, b, c)
  {
    if times != [] {
      CountAdds(times[..|times| - 1], a, b, c);
    }
  }

  lemma {:induction false} CountGrows(times: seq<Instant>, a: int, a': int, b': int, b: int)
    requires a <= a' && b' <= b
    ensures CountIn(times, a', b') <= CountIn(times, a, b)
  {
    if times != [] {
      CountGrows(times[..|times| - 1], a, a', b', b);
    }
  }

  lemma CountAppend(times: seq<Instant>, now: Instant, a: int, b: int)
    ensures CountIn(times + [now], a, b) == CountIn(times, a, b) + if a <= now < b then 1 else 0
  {
    assert (times + [now])[..|times|] == times;
  }

  lemma {:induction false} CountPast(times: seq<Instant>, a: int, b: int)
    requires forall i | 0 <= i < |times| :: times[i] < a
    ensures CountIn(times, a, b) == 0
  {
    if times != [] {
      CountPast(times[..|times| - 1], a, b);
    }
  }

  function WindowCount(times: seq<Instant>, t: int): nat { CountIn(times, t, t + WINDOW) }

  /**
    What holds of the allowed times of a meter: those of the current window are counted by its entry,
    and at most `limit` lie in the stretch of one window length before it.
   */
  ghost predicate Bounded(m: Meter, limit: nat, clock: int) {
    && (forall i | 0 <= i < |m.allowed| :: m.allowed[i] <= clock)
    && (forall t: int :: WindowCount(m.allowed, t) <= 2 * limit)
    && match m.bucket
       case None => m.allowed == []
       case Some(w) =>
         && w.start <= clock && 0 <= w.count <= limit
         && (forall i | 0 <= i < |m.allowed| :: m.allowed[i] < w.start + WINDOW)
         && CountIn(m.allowed, w.start, clock + 1) == w.count
         && forall t: int | w.start - WINDOW < t :: CountIn(m.allowed, t, w.start) <= limit
  }

  /** Nothing lies after the clock, so counting further changes nothing. */
  lemma CountStops(times: seq<Instant>, a: int, clock: int, b: int)
    requires a <= clock + 1 <= b && forall i | 0 <= i < |times| :: times[i] <= clock
    ensures CountIn(times, a, b) == CountIn(times, a, clock + 1)
  {
    CountAdds(times, a, clock + 1, b);
    CountPast(times, clock + 1, b);
  }

  lemma WaitingKeepsBounded(m: Meter, limit: nat, clock: int, now: int)
    requires Bounded(m, limit, clock) && clock <= now
    ensures Bounded(m, limit, now)
  {
    if m.bucket.Some? {
      CountStops(m.allowed, m.bucket.value.start, clock, now + 1);
    }
  }

  /** If the part before `start` and the part from `start` on are small, so is any window that reaches `now`. */
  lemma TwoParts(times: seq<Instant>, start: int, now: Instant, limit: nat)
    requires start <= now < start + WINDOW && forall i | 0 <= i < |times| :: times[i] <= now
    requires CountIn(times, start, now + 1) <= limit
    requires forall t: int | start - WINDOW < t :: CountIn(times, t, start) <= limit
    ensures forall t: int | t <= now < t + WINDOW :: WindowCount(times, t) <= 2 * limit
  {
    forall t: int | t <= now < t + WINDOW
      ensures WindowCount(times, t) <= 2 * limit
    {
      CountStops(times, t, now, t + WINDOW);
      if t <= start {
        CountAdds(times, t, start, now + 1);
      } else {
        CountGrows(times, start, t, now + 1, now + 1);
      }
    }
  }

  lemma OtherWindows(times: seq<Instant>, now: Instant, limit: nat)
    requires forall t: int :: WindowCount(times, t) <= 2 * limit
    requires forall t: int | t <= now < t + WINDOW :: WindowCount(times + [now], t) <= 2 * limit
    ensures forall t: int :: WindowCount(times + [now], t) <= 2 * limit
  {
    forall t: int
      ensures WindowCount(times + [now], t) <= 2 * limit
    {
      assert WindowCount(times, t) <= 2 * limit;
      CountAppend(times, now, t, t + WINDOW);
    }
  }

  lemma SameWindowKeepsBounded(m: Meter, limit: nat, clock: int, now: Instant)
    requires Bounded(m, limit, clock) && clock <= now
    requires m.bucket.Some? && !Over(m.bucket.value, now) && m.bucket.value.count < limit
    ensures Bounded(Feed(m, limit, now), limit, now)
  {
    WaitingKeepsBounded(m, limit, clock, now);
    var w := m.bucket.value;
    var times := m.allowed + [now];
    CountAppend(m.allowed, now, w.start, now + 1);
    forall t: int | w.start - WINDOW < t
      ensures CountIn(times, t, w.start) <= limit
    {
      CountAppend(m.allowed, now, t, w.start);
    }
    TwoParts(times, w.start, now, limit);
    OtherWindows(m.allowed, now, limit);
  }

  lemma NewWindowKeepsBounded(m: Meter, limit: nat, clock: int, now: Instant)
    requires Bounded(m, limit, clock) && clock <= now && 0 < limit
    requires m.bucket.None? || Over(m.bucket.value, now)
    ensures Bounded(Feed(m, limit, now), limit, now)
  {
    WaitingKeepsBounded(m, limit, clock, now);
    var times := m.allowed + [now];
    CountAppend(m.allowed, now, now, now + 1);
    CountPast(m.allowed, now, now + 1);
    forall t: int | now - WINDOW < t
      ensures CountIn(times, t, now) <= limit
    {
      CountAppend(m.allowed, now, t, now);
      if m.bucket.Some? {
        CountGrows(m.allowed, m.bucket.value.start, t, now, now + 1);
      }
    }
    TwoParts(times, now, now, limit);
    OtherWindows(m.allowed, now, limit);
  }

  lemma FeedKeepsBounded(m: Meter, limit: nat, clock: int, now: Instant)
    requires Bounded(m, limit, clock) && clock <= now
    ensures Bounded(Feed(m, limit, now), limit, now)
  {
    hide Bounded;
    if !Admits(m, limit, now) {
      WaitingKeepsBounded(m, limit, clock, now);
    } else if m.bucket.Some? && !Over(m.bucket.value, now) {
      SameWindowKeepsBounded(m, limit, clock, now);
    } else {
      NewWindowKeepsBounded(m, limit, clock, now);
    }
  }

  ghost predicate NeverForgotten(events: seq<Event>, key: string, n: nat) {
    forall i | 0 <= i < n && i < |events| && events[i].Forgotten? :: events[i].key != key
  }

  lemma {:induction false} MeterIsBounded(limit: nat, r: Run, key: string, n: nat)
    requires IsRun(limit, r) && n <= |r.events| && NeverForgotten(r.events, key, n)
    ensures Bounded(MeterAt(limit, r.events, key, n), limit, Clock(r.events, n))
  {
    hide Bounded, EventOk, Feed;
    if n == 0 {
      EmptyMeterIsBounded(limit);
    } else {
      MeterIsBounded(limit, r, key, n - 1);
      var e := r.events[n - 1];
      var m := MeterAt(limit, r.events, key, n - 1);
      if e.Tried? {
        ClockGrows(limit, r, n - 1);
        WaitingKeepsBounded(m, limit, Clock(r.events, n - 1), e.now);
        FeedKeepsBounded(m, limit, Clock(r.events, n - 1), e.now);
      }
    }
  }

  lemma EmptyMeterIsBounded(limit: nat)
    ensures Bounded(Meter(None, []), limit, 0)
  {
  }

  /** The times at which a run's own answers let the key through. */
  function AllowedTimes(events: seq<Event>, key: string, n: nat): seq<Instant>
    requires n <= |events|
  {
    if n == 0 then []
    else
      var e := events[n - 1];
      AllowedTimes(events, key, n - 1) + if e.Tried? && e.key == key && e.ok then [e.now] else []
  }

  lemma {:induction false} AllowedLikeUnbounded(limit: int, r: Run, key: string, n: nat)
    requires IsRun(limit, r) && n <= |r.events| && NeverEvicted(r.events, key, n)
    ensures AllowedTimes(r.events, key, n) == MeterAt(limit, r.events, key, n).allowed
  {
    hide EventOk;
    if n > 0 {
      AllowedLikeUnbounded(limit, r, key, n - 1);
      var e := r.events[n - 1];
      if e.Tried? && e.key == key {
        AnswersLikeUnbounded(limit, r, key, n - 1);
      }
    }
  }

  /** A key that is neither evicted nor reset gets through at most 2*limit times in any 15 minutes. */
  lemma AnyWindowIsBounded(limit: nat, r: Run, key: string, n: nat, t: int)
    requires IsRun(limit, r) && n <= |r.events|
    requires NeverEvicted(r.events, key, n) && NeverForgotten(r.events, key, n)
    ensures CountIn(AllowedTimes(r.events, key, n), t, t + WINDOW) <= 2 * limit
  {
    hide EventOk;
    AllowedLikeUnbounded(limit, r, key, n);
    MeterIsBounded(limit, r, key, n);
    assert WindowCount(MeterAt(limit, r.events, key, n).allowed, t) <= 2 * limit;
  }

  lemma MeterCountsItsWindow(m: Meter, limit: nat, clock: int)
    requires Bounded(m, limit, clock) && m.bucket.Some?
    ensures var w := m.bucket.value; CountIn(m.allowed, w.start, w.start + WINDOW) == w.count <= limit
  {
    hide CountIn;
    var w := m.bucket.value;
    var last := Max(clock + 1, w.start + WINDOW);
    CountStops(m.allowed, w.start, clock, last);
    CountAdds(m.allowed, w.start, w.start + WINDOW, last);
    CountPast(m.allowed, w.start + WINDOW, last);
  }

  /**
    The entry of a key that is neither evicted nor reset counts exactly what its window let through:
    at most `limit`.
   */
  lemma OneWindowIsBounded(limit: nat, r: Run, key: string, n: nat)
    requires IsRun(limit, r) && n <= |r.events| && key in r.tables[n]
    requires NeverEvicted(r.events, key, n) && NeverForgotten(r.events, key, n)
    ensures var w := r.tables[n][key];
            CountIn(AllowedTimes(r.events, key, n), w.start, w.start + WINDOW) == w.count <= limit
  {
    hide EventOk, Feed, MeterAt, AllowedTimes, Bounded, CountIn, NeverEvicted, NeverForgotten, IsRun;
    AllowedLikeUnbounded(limit, r, key, n);
    AgreementHolds(limit, r, key, n);
    MeterIsBounded(limit, r, key, n);
    MeterCountsItsWindow(MeterAt(limit, r.events, key, n), limit, Clock(r.events, n));
  }

  /** The entry counts no more than its key was let through since the entry's start. */
  predicate EntryEarned(entry: Option<Window>, times: seq<Instant>, clock: int) {
    entry.Some? ==>
      entry.value.start <= clock && entry.value.count <= CountIn(times, entry.value.start, clock + 1)
  }

  lemma TriedKeepsEarned(m: Table, limit: int, e: Event, m': Table, key: string, times: seq<Instant>, clock: int)
    requires e.Tried? && EventOk(m, limit, e, m') && clock <= e.now && EntryEarned(Lookup(m, key), times, clock)
    ensures EntryEarned(Lookup(m', key), times + if e.key == key && e.ok then [e.now] else [], e.now)
  {
    assert times + [] == times;
    if key in m' {
      var start := m'[key].start;
      CountGrows(times, start, start, clock + 1, e.now + 1);
      CountAppend(times, e.now, start, e.now + 1);
    }
  }

  lemma {:induction false} EntriesAreEarned(limit: int, r: Run, key: string, n: nat)
    requires IsRun(limit, r) && n <= |r.events|
    ensures EntryEarned(Lookup(r.tables[n], key), AllowedTimes(r.events, key, n), Clock(r.events, n))
  {
    hide EventOk, EntryEarned;
    if n == 0 {
      NothingIsEarned();
    } else {
      EntriesAreEarned(limit, r, key, n - 1);
      var e := r.events[n - 1];
      var times, clock := AllowedTimes(r.events, key, n - 1), Clock(r.events, n - 1);
      if e.Tried? {
        ClockGrows(limit, r, n - 1);
        TriedKeepsEarned(r.tables[n - 1], limit, e, r.tables[n], key, times, clock);
      } else {
        ForgottenKeepsEarned(r.tables[n - 1], limit, e, r.tables[n], key, times, clock);
      }
    }
  }

  lemma NothingIsEarned()
    ensures EntryEarned(None, [], 0)
  {
  }

  lemma ForgottenKeepsEarned(m: Table, limit: int, e: Event, m': Table, key: string, times: seq<Instant>, clock: int)
    requires e.Forgotten? && EventOk(m, limit, e, m') && EntryEarned(Lookup(m, key), times, clock)
    ensures EntryEarned(Lookup(m', key), times + [], clock)
  {
    assert times + [] == times;
  }

  /** A stretch that began within the last 15 minutes and has let `limit` attempts or more through. */
  predicate IsBusy(times: seq<Instant>, start: int, now: int, limit: int) {
    now - WINDOW < start <= now && CountIn(times, start, now + 1) >= limit
  }

  lemma RefusedWindow(m: Table, limit: int, e: Event, m': Table, times: seq<Instant>, clock: int)
    requires e.Tried? && !e.ok && EventOk(m, limit, e, m') && clock <= e.now
         && EntryEarned(Lookup(m, e.key), times, clock)
    ensures exists start :: IsBusy(times, start, e.now, limit)
  {
    var w := Current(Lookup(m, e.key), e.now);
    CountGrows(times, w.start, w.start, clock + 1, e.now + 1);
    assert IsBusy(times, w.start, e.now, limit);
  }

  /**
    The limiter never refuses too early, in any run and for any key, reset or evicted before or not: at a
    refusal the key has got through `limit` times or more within the last 15 minutes.
   */
  lemma RefusalIsEarned(limit: int, r: Run, n: nat)
    requires IsRun(limit, r) && n < |r.events| && r.events[n].Tried? && !r.events[n].ok
    ensures var e := r.events[n]; exists start :: IsBusy(AllowedTimes(r.events, e.key, n), start, e.now, limit)
  {
    hide EventOk, EntryEarned;
    var e := r.events[n];
    EntriesAreEarned(limit, r, e.key, n);
    ClockGrows(limit, r, n);
    RefusedWindow(r.tables[n], limit, e, r.tables[n + 1], AllowedTimes(r.events, e.key, n), Clock(r.events, n));
  }

  /** A window that began within the last 15 minutes and has let `limit` attempts through. */
  predicate IsFullWindow(times: seq<Instant>, start: int, now: int, limit: nat) {
    now - WINDOW < start <= now && CountIn(times, start, now + 1) == limit
  }

  /** For a key neither reset nor evicted it is exactly `limit` times, all of them inside one window of the limiter. */
  lemma RefusalFillsWindow(limit: nat, r: Run, key: string, n: nat)
    requires 0 < limit && IsRun(limit, r) && n < |r.events|
    requires NeverEvicted(r.events, key, n + 1) && NeverForgotten(r.events, key, n)
    requires r.events[n].Tried? && r.events[n].key == key && !r.events[n].ok
    ensures exists start :: IsFullWindow(AllowedTimes(r.events, key, n), start, r.events[n].now, limit)
  {
    hide EventOk, Feed;
    AllowedLikeUnbounded(limit, r, key, n);
    AnswersLikeUnbounded(limit, r, key, n);
    MeterIsBounded(limit, r, key, n);
    ClockGrows(limit, r, n);
    var now := r.events[n].now;
    var m := MeterAt(limit, r.events, key, n);
    WaitingKeepsBounded(m, limit, Clock(r.events, n), now);
    assert IsFullWindow(m.allowed, m.bucket.value.start, now, limit);
  }
}
