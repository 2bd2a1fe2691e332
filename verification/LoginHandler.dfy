/** The login handler's use of its two limiters: one per source address, one per account. */
module LoginHandler {
  import opened Base
  import opened Text
  import opened LoginLimiter

  /** One login request: which limiters let it pass, and whether the credentials were right. */
  datatype Login = Login(
    source: string, key: string, now: Instant,
    sourceVictim: Option<string>, sourceOk: bool,
    keyVictim: Option<string>, keyOk: bool,
    accepted: bool)

  /** handleLogin: the account limiter is asked only if the source limiter agrees; success resets only the former. */
  ghost predicate LoginStep(sources: Table, keys: Table, l: Login, sources': Table, keys': Table) {
    && AllowStep(sources, SOURCE_LIMIT, l.source, l.now, l.sourceVictim, sources', l.sourceOk)
    && if !l.sourceOk then keys' == keys && !l.keyOk
       else
         exists mid: Table :: AllowStep(keys, ATTEMPT_LIMIT, l.key, l.now, l.keyVictim, mid, l.keyOk)
           && keys' == if l.keyOk && l.accepted then mid - {l.key} else mid
  }

  predicate Reaches(l: Login) { l.sourceOk && l.keyOk }

  /** What a login does to the account's entry, by how it ends. */
  lemma LoginInEntries(sources: Table, keys: Table, l: Login, sources': Table, keys': Table)
    requires LoginStep(sources, keys, l, sources', keys')
    ensures l.sourceOk <==> CountedAt(sources, l.source, l.now) < 50
    ensures !l.sourceOk ==> !l.keyOk && keys' == keys
    ensures l.sourceOk ==> (l.keyOk <==> CountedAt(keys, l.key, l.now) < 5)
    ensures l.sourceOk && !l.keyOk ==> Lookup(keys', l.key) == Lookup(keys, l.key)
    ensures l.keyOk && l.accepted ==> l.key !in keys'
    ensures l.keyOk && !l.accepted ==> l.key in keys' && keys'[l.key].count == CountedAt(keys, l.key, l.now) + 1
  {
    hide AllowStep;
    AllowInEntries(sources, SOURCE_LIMIT, l.source, l.now, l.sourceVictim, sources', l.sourceOk);
    if l.sourceOk {
      var mid: Table :| AllowStep(keys, ATTEMPT_LIMIT, l.key, l.now, l.keyVictim, mid, l.keyOk)
        && keys' == if l.keyOk && l.accepted then mid - {l.key} else mid;
      AllowInEntries(keys, ATTEMPT_LIMIT, l.key, l.now, l.keyVictim, mid, l.keyOk);
    }
  }

  ghost predicate IsLoginRun(sources: seq<Table>, keys: seq<Table>, logins: seq<Login>) {
    && |sources| == |logins| + 1 && |keys| == |logins| + 1 && sources[0] == map[] && keys[0] == map[]
    && (forall i {:trigger logins[i]} | 0 <= i < |logins| ::
          LoginStep(sources[i], keys[i], logins[i], sources[i + 1], keys[i + 1]))
    && (forall i, j | 0 <= i < j < |logins| :: logins[i].now <= logins[j].now)
  }

  function SourceEvents(logins: seq<Login>): seq<Event> {
    seq(|logins|, i requires 0 <= i < |logins| =>
      Tried(logins[i].source, logins[i].now, logins[i].sourceVictim, logins[i].sourceOk))
  }

  /** How many of the first `n` logins from `source` in [from, to) got as far as checking credentials. */
  function CountReaching(logins: seq<Login>, source: string, n: nat, from: int, to: int): nat
    requires n <= |logins|
  {
    if n == 0 then 0
    else
      var l := logins[n - 1];
      CountReaching(logins, source, n - 1, from, to)
      + if l.source == source && Reaches(l) && from <= l.now < to then 1 else 0
  }

  lemma {:induction false} ReachingIsAllowed(logins: seq<Login>, source: string, n: nat, from: int, to: int)
    requires n <= |logins|
    ensures CountReaching(logins, source, n, from, to)
         <= CountIn(AllowedTimes(SourceEvents(logins), source, n), from, to)
  {
    if n > 0 {
      ReachingIsAllowed(logins, source, n - 1, from, to);
      var e := SourceEvents(logins)[n - 1];
      var before := AllowedTimes(SourceEvents(logins), source, n - 1);
      assert before + [] == before;
      CountAppend(AllowedTimes(SourceEvents(logins), source, n - 1), e.now, from, to);
    }
  }

  /**
    However often successful logins reset the account limiter, one source has at most 100 passwords
    checked in any 15 minutes, unless its own entry is evicted.
   */
  lemma PasswordChecksPerSourceAreBounded(sources: seq<Table>, keys: seq<Table>, logins: seq<Login>, source: string,
                                          t: int)
    requires IsLoginRun(sources, keys, logins)
    requires forall i | 0 <= i < |logins| :: logins[i].sourceVictim != Some(source)
    ensures CountReaching(logins, source, |logins|, t, t + WINDOW) <= 100
  {
    hide AllowStep;
    var r := Run(sources, SourceEvents(logins));
    assert forall i | 0 <= i < |logins| :: LoginStep(sources[i], keys[i], logins[i], sources[i + 1], keys[i + 1]);
    assert IsRun(SOURCE_LIMIT, r);
    ReachingIsAllowed(logins, source, |logins|, t, t + WINDOW);
    AnyWindowIsBounded(SOURCE_LIMIT, r, source, |logins|, t);
  }

  // ---------------------------------------------------------------- wrong passwords for one account

  /** The times of wrong passwords that were checked for the account since its last accepted login. */
  function WrongSince(logins: seq<Login>, key: string, n: nat): seq<Instant>
    requires n <= |logins|
  {
    if n == 0 then [] else WrongAfter(WrongSince(logins, key, n - 1), logins[n - 1], key)
  }

  function WrongAfter(before: seq<Instant>, l: Login, key: string): seq<Instant> {
    if l.key != key || !l.sourceOk || !l.keyOk then before
    else if l.accepted then [] else before + [l.now]
  }

  /** The account's entry in a limiter that forgets nothing; an accepted login starts it afresh. */
  function AccountMeter(logins: seq<Login>, key: string, n: nat): Meter
    requires n <= |logins|
  {
    if n == 0 then Meter(None, []) else MeterAfter(AccountMeter(logins, key, n - 1), logins[n - 1], key)
  }

  function MeterAfter(m: Meter, l: Login, key: string): Meter {
    if l.key != key || !l.sourceOk then m
    else if l.keyOk && l.accepted then Meter(None, [])
    else Feed(m, ATTEMPT_LIMIT, l.now)
  }

  function LastLogin(logins: seq<Login>, n: nat): int
    requires n <= |logins|
  {
    if n == 0 then 0 else logins[n - 1].now
  }

  /** Table and meter agree, and the meter has the wrong passwords' times. */
  ghost predicate AccountOk(keys: Table, m: Meter, wrong: seq<Instant>, key: string, clock: int) {
    Agrees(Lookup(keys, key), m.bucket, clock) && m.allowed == wrong && Bounded(m, ATTEMPT_LIMIT, clock)
  }

  lemma NoAccountYet(key: string)
    ensures AccountOk(map[], Meter(None, []), [], key, 0)
  {
  }

  lemma LaterIsOk(keys: Table, m: Meter, wrong: seq<Instant>, key: string, clock: int, now: int)
    requires AccountOk(keys, m, wrong, key, clock) && clock <= now
    ensures AccountOk(keys, m, wrong, key, now)
  {
    hide Bounded;
    WaitingKeepsBounded(m, ATTEMPT_LIMIT, clock, now);
  }

  lemma AttemptIsOk(keys: Table, m: Meter, wrong: seq<Instant>, key: string, l: Login, mid: Table)
    requires AccountOk(keys, m, wrong, key, l.now) && l.keyVictim != Some(key)
    requires AllowStep(keys, ATTEMPT_LIMIT, l.key, l.now, l.keyVictim, mid, l.keyOk)
    ensures l.key == key ==> l.keyOk == Admits(m, ATTEMPT_LIMIT, l.now)
    ensures l.key == key ==>
              AccountOk(mid, Feed(m, ATTEMPT_LIMIT, l.now), wrong + if l.keyOk then [l.now] else [], key, l.now)
    ensures l.key != key ==> AccountOk(mid, m, wrong, key, l.now)
  {
    hide AllowStep, Bounded, Agrees;
    var e := Tried(l.key, l.now, l.keyVictim, l.keyOk);
    TriedKeepsAgreement(keys, ATTEMPT_LIMIT, e, mid, key, m, l.now);
    FeedKeepsBounded(m, ATTEMPT_LIMIT, l.now, l.now);
    assert wrong + [] == wrong;
  }

  lemma ForgettingIsOk(mid: Table, m: Meter, wrong: seq<Instant>, key: string, other: string, now: int)
    requires AccountOk(mid, m, wrong, key, now)
    ensures other != key ==> AccountOk(mid - {other}, m, wrong, key, now)
    ensures AccountOk(mid - {key}, Meter(None, []), [], key, now)
  {
  }

  lemma LoginKeepsOk(sources: Table, keys: Table, l: Login, sources': Table, keys': Table,
                     m: Meter, wrong: seq<Instant>, key: string)
    requires LoginStep(sources, keys, l, sources', keys')
    requires AccountOk(keys, m, wrong, key, l.now) && l.keyVictim != Some(key)
    ensures AccountOk(keys', MeterAfter(m, l, key), WrongAfter(wrong, l, key), key, l.now)
  {
    hide AccountOk, AllowStep, Feed, Admits;
    if l.sourceOk {
      var mid: Table :| AllowStep(keys, ATTEMPT_LIMIT, l.key, l.now, l.keyVictim, mid, l.keyOk)
        && keys' == if l.keyOk && l.accepted then mid - {l.key} else mid;
      AttemptIsOk(keys, m, wrong, key, l, mid);
      assert wrong + [] == wrong;
      if l.keyOk && l.accepted {
        if l.key == key {
          ForgettingIsOk(mid, Feed(m, ATTEMPT_LIMIT, l.now), wrong + [l.now], key, l.key, l.now);
        } else {
          ForgettingIsOk(mid, m, wrong, key, l.key, l.now);
        }
      }
    }
  }

  ghost predicate AccountNotEvicted(logins: seq<Login>, key: string) {
    forall i | 0 <= i < |logins| :: logins[i].keyVictim != Some(key)
  }

  lemma {:induction false} AccountsAreOk(sources: seq<Table>, keys: seq<Table>, logins: seq<Login>, key: string, n: nat)
    requires IsLoginRun(sources, keys, logins) && AccountNotEvicted(logins, key) && n <= |logins|
    ensures AccountOk(keys[n], AccountMeter(logins, key, n), WrongSince(logins, key, n), key, LastLogin(logins, n))
  {
    hide AccountOk, LoginStep, MeterAfter, WrongAfter;
    if n == 0 {
      NoAccountYet(key);
    } else {
      AccountsAreOk(sources, keys, logins, key, n - 1);
      var l := logins[n - 1];
      var m, wrong := AccountMeter(logins, key, n - 1), WrongSince(logins, key, n - 1);
      ClockRuns(sources, keys, logins, n);
      LaterIsOk(keys[n - 1], m, wrong, key, LastLogin(logins, n - 1), l.now);
      LoginKeepsOk(sources[n - 1], keys[n - 1], l, sources[n], keys[n], m, wrong, key);
    }
  }

  lemma ClockRuns(sources: seq<Table>, keys: seq<Table>, logins: seq<Login>, n: nat)
    requires IsLoginRun(sources, keys, logins) && 0 < n <= |logins|
    ensures LastLogin(logins, n - 1) <= logins[n - 1].now
    ensures LoginStep(sources[n - 1], keys[n - 1], logins[n - 1], sources[n], keys[n])
  {
    hide LoginStep;
    var l := logins[n - 1];
  }

  /** The account's entry counts the wrong passwords since its window began, at most five. */
  lemma FiveWrongPasswordsAWindow(sources: seq<Table>, keys: seq<Table>, logins: seq<Login>, key: string)
    requires IsLoginRun(sources, keys, logins) && AccountNotEvicted(logins, key) && key in keys[|logins|]
    ensures var w := keys[|logins|][key];
            CountIn(WrongSince(logins, key, |logins|), w.start, w.start + WINDOW) == w.count <= 5
  {
    hide IsLoginRun, AccountMeter, WrongSince, CountIn, Bounded;
    var n := |logins|;
    AccountsAreOk(sources, keys, logins, key, n);
    MeterCountsItsWindow(AccountMeter(logins, key, n), ATTEMPT_LIMIT, LastLogin(logins, n));
  }

  /** How many wrong passwords were checked for the account in [from, to) by the first `n` logins. */
  function CountWrong(logins: seq<Login>, key: string, n: nat, from: int, to: int): nat
    requires n <= |logins|
  {
    if n == 0 then 0
    else
      var l := logins[n - 1];
      CountWrong(logins, key, n - 1, from, to)
      + if l.key == key && l.sourceOk && l.keyOk && !l.accepted && from <= l.now < to then 1 else 0
  }

  /** No login for the account succeeds in [from, to). */
  predicate NoSuccess(logins: seq<Login>, key: string, from: int, to: int) {
    forall i | 0 <= i < |logins| && logins[i].key == key && from <= logins[i].now < to ::
      !(logins[i].sourceOk && logins[i].keyOk && logins[i].accepted)
  }

  lemma {:induction false} NoneBefore(logins: seq<Login>, key: string, n: nat, from: int, to: int)
    requires n <= |logins| && forall i | 0 <= i < n :: logins[i].now < from
    ensures CountWrong(logins, key, n, from, to) == 0
  {
    if n > 0 {
      NoneBefore(logins, key, n - 1, from, to);
    }
  }

  /** Up to the end of the stretch, its wrong passwords are all among those since the last success. */
  lemma {:induction false} WrongAreRemembered(logins: seq<Login>, key: string, n: nat, from: int, to: int)
    requires n <= |logins| && NoSuccess(logins, key, from, to)
    requires forall i, j | 0 <= i < j < |logins| :: logins[i].now <= logins[j].now
    requires forall i | 0 <= i < n :: logins[i].now < to
    ensures CountWrong(logins, key, n, from, to) == CountIn(WrongSince(logins, key, n), from, to)
  {
    if n > 0 {
      var l := logins[n - 1];
      WrongAreRemembered(logins, key, n - 1, from, to);
      CountAppend(WrongSince(logins, key, n - 1), l.now, from, to);
      if l.key == key && l.sourceOk && l.keyOk && l.accepted {
        NoneBefore(logins, key, n, from, to);
      }
    }
  }

  /**
    For an account whose entry is never evicted, at most ten wrong passwords are checked in any 15
    minutes without an accepted login for it.
   */
  lemma {:induction false} WrongPasswordsAreBounded(sources: seq<Table>, keys: seq<Table>, logins: seq<Login>,
                                                    key: string,
                                                    n: nat, t: int)
    requires IsLoginRun(sources, keys, logins) && AccountNotEvicted(logins, key) && n <= |logins|
    requires NoSuccess(logins, key, t, t + WINDOW)
    ensures CountWrong(logins, key, n, t, t + WINDOW) <= 10
  {
    hide LoginStep, Bounded;
    if n > 0 {
      if logins[n - 1].now < t + WINDOW {
        WrongAreRemembered(logins, key, n, t, t + WINDOW);
        AccountsAreOk(sources, keys, logins, key, n);
        AnyWindowOfMeter(AccountMeter(logins, key, n), LastLogin(logins, n), t);
      } else {
        WrongPasswordsAreBounded(sources, keys, logins, key, n - 1, t);
      }
    }
  }

  lemma AnyWindowOfMeter(m: Meter, clock: int, t: int)
    requires Bounded(m, ATTEMPT_LIMIT, clock)
    ensures CountIn(m.allowed, t, t + WINDOW) <= 10
  {
    assert WindowCount(m.allowed, t) <= 2 * ATTEMPT_LIMIT;
  }

  // ---------------------------------------------------------------- the handler as it runs

  /** `lower` is strings.ToLower. */
  function AccountKey(source: string, email: string, lower: string -> string): string {
    source + ['\0'] + lower(Trim(email))
  }

  lemma NulIsVisible(s: string)
    requires '\0' in s
    ensures !Blank(s)
  {
    hide IsSpace, TrimLeft, TrimRight;
    var i :| 0 <= i < |s| && s[i] == '\0';
    if Trim(s) == "" {
      BlankIsSpace(s);
      assert IsSpace(s[i]);
      NulIsNoSpace();
    }
  }

  lemma {:induction false} BlankIsSpace(s: string)
    requires Blank(s)
    ensures forall i | 0 <= i < |s| :: IsSpace(s[i])
  {
    hide IsSpace;
    if s != "" {
      if IsSpace(s[0]) {
        BlankIsSpace(s[1..]);
      }
    }
  }

  lemma NulIsNoSpace()
    ensures !IsSpace('\0')
  {
  }

  /** Different sources, and different accounts of one source, have different entries. */
  lemma AccountsHaveTheirOwnEntries(s: string, e: string, s': string, e': string, lower: string -> string)
    requires '\0' !in s && '\0' !in s'
    ensures KeyOf(AccountKey(s, e, lower)) == KeyOf(AccountKey(s', e', lower)) <==>
              s == s' && lower(Trim(e)) == lower(Trim(e'))
  {
    hide Trim, Blank;
    var k, k' := AccountKey(s, e, lower), AccountKey(s', e', lower);
    assert k[|s|] == '\0' && k'[|s'|] == '\0';
    NulIsVisible(k);
    NulIsVisible(k');
    if k == k' {
      assert |s| == |s'|;
      assert k[..|s|] == s && k'[..|s|] == s';
      assert k[|s| + 1..] == lower(Trim(e)) && k'[|s| + 1..] == lower(Trim(e'));
    }
  }

  /** Sources share an entry only if they are equal or both unknown. */
  lemma SourcesHaveTheirOwnEntries(s: string, s': string)
    ensures KeyOf(s) == KeyOf(s') <==>
              s == s' || ((Blank(s) || s == "unknown") && (Blank(s') || s' == "unknown"))
  {
    hide Blank;
    UnknownIsNotBlank();
  }

  /**
    handleLogin from the limiters on. `source` is the request's address, empty when it has none that
    parses; `accepted` is the verdict on the credentials.
   */
  method HandleLogin(sources: LoginLimiter, accounts: LoginLimiter, source: string, email: string,
                     lower: string -> string, now: Instant, accepted: bool)
    returns (checked: bool, ghost login: Login)
    requires sources != accounts && TableOk(sources.attempts) && TableOk(accounts.attempts)
    requires sources.limit == SOURCE_LIMIT && accounts.limit == ATTEMPT_LIMIT
    modifies sources, accounts
    ensures TableOk(sources.attempts) && TableOk(accounts.attempts)
    ensures login.source == KeyOf(source) && login.key == KeyOf(AccountKey(source, email, lower))
    ensures login.now == now && login.accepted == accepted && checked == Reaches(login)
    ensures LoginStep(old(sources.attempts), old(accounts.attempts), login, sources.attempts, accounts.attempts)
  {
    hide AllowStep, Blank, KeyOf, AccountKey;
    var key := AccountKey(source, email, lower);
    var sourceOk, sourceVictim := sources.Allow(source, now);
    login := Login(KeyOf(source), KeyOf(key), now, sourceVictim, sourceOk, None, false, accepted);
    if !sourceOk {
      return false, login;
    }
    var keyOk, keyVictim := accounts.Allow(key, now);
    login := login.(keyVictim := keyVictim, keyOk := keyOk);
    if keyOk && accepted {
      accounts.Reset(key);
    }
    return keyOk, login;
  }
}
