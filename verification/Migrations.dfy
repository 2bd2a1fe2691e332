/** Loading the migration list from a directory. */
module Migrations {
  import opened Base
  import opened Text
  import opened Spelling

  datatype Migration = Migration(version: int, name: string, path: string, sql: string)

  predicate Ascending(ms: seq<Migration>) { forall i, j | 0 <= i < j < |ms| :: ms[i].version < ms[j].version }

  // ---------------------------------------------------------------- loading

  /** A directory entry; the content is None when reading the file fails. */
  datatype Entry = Entry(name: string, isDir: bool, content: Option<string>)

  predicate Digit(c: char) { '0' <= c <= '9' }

  predicate LabelChar(c: char) { 'a' <= c <= 'z' || 'A' <= c <= 'Z' || Digit(c) || c == '_' || c == '-' }

  function LeadingDigits(s: string): (n: nat)
    ensures n <= |s|
  {
    if s != "" && Digit(s[0]) then 1 + LeadingDigits(s[1..]) else 0
  }

  /** The parts of a name matching ^([0-9]+)_([a-zA-Z0-9_-]+)\\.sql$. */
  function MatchName(name: string): Option<(string, string)> {
    var n := LeadingDigits(name);
    if n == 0 || |name| < n + 6 || name[n] != '_' || name[|name| - 4..] != ".sql" then None
    else
      var digits, title := name[..n], name[n + 1..|name| - 4];
      if forall i | 0 <= i < |title| :: LabelChar(title[i]) then Some((digits, title)) else None
  }

  function DecimalValue(digits: string): int {
    if digits == "" then 0
    else DecimalValue(digits[..|digits| - 1]) * 10 + (digits[|digits| - 1] as int - '0' as int)
  }

  const MAX_INT: int := 0x7FFF_FFFF_FFFF_FFFF

  predicate IsMigrationFile(e: Entry) { !e.isDir && MatchName(e.name).Some? }

  predicate Loadable(e: Entry)
    requires IsMigrationFile(e)
  {
    DecimalValue(MatchName(e.name).value.0) <= MAX_INT && e.content.Some? && !Blank(e.content.value)
  }

  function VersionOf(e: Entry): int
    requires IsMigrationFile(e)
  {
    DecimalValue(MatchName(e.name).value.0)
  }

  function MigrationOf(e: Entry): Migration
    requires IsMigrationFile(e) && Loadable(e)
  {
    Migration(VersionOf(e), MatchName(e.name).value.1, e.name, Trim(e.content.value))
  }

  /** The directory can be loaded: every migration file can, and no two have the same version number. */
  predicate DirectoryOk(entries: seq<Entry>) {
    && (forall i | 0 <= i < |entries| && IsMigrationFile(entries[i]) :: Loadable(entries[i]))
    && (forall i, j | 0 <= i < j < |entries| && IsMigrationFile(entries[i]) && IsMigrationFile(entries[j]) ::
          VersionOf(entries[i]) != VersionOf(entries[j]))
  }

  /** The migrations of the migration files, in the directory's order. */
  function Collect(entries: seq<Entry>): seq<Migration> {
    if entries == [] then []
    else
      var last := entries[|entries| - 1];
      Collect(entries[..|entries| - 1]) + if IsMigrationFile(last) && Loadable(last) then [MigrationOf(last)] else []
  }

  function Versions(entries: seq<Entry>): set<int> {
    set i | 0 <= i < |entries| && IsMigrationFile(entries[i]) :: VersionOf(entries[i])
  }

  lemma {:induction false} CollectsEachFile(entries: seq<Entry>, m: Migration)
    ensures m in Collect(entries) <==>
              exists i | 0 <= i < |entries| ::
                IsMigrationFile(entries[i]) && Loadable(entries[i]) && MigrationOf(entries[i]) == m
  {
    hide MatchName, DecimalValue, Blank, Trim;
    if entries != [] {
      var front := entries[..|entries| - 1];
      CollectsEachFile(front, m);
      assert forall i | 0 <= i < |front| :: front[i] == entries[i];
      if m in Collect(entries) && m !in Collect(front) {
        assert MigrationOf(entries[|entries| - 1]) == m;
      }
    }
  }

  lemma DirectoryStep(front: seq<Entry>, e: Entry)
    ensures DirectoryOk(front + [e]) <==>
              DirectoryOk(front) && (IsMigrationFile(e) ==> Loadable(e) && VersionOf(e) !in Versions(front))
    ensures Versions(front + [e]) == Versions(front) + if IsMigrationFile(e) then {VersionOf(e)} else {}
    ensures Collect(front + [e]) == Collect(front) + if IsMigrationFile(e) && Loadable(e) then [MigrationOf(e)] else []
  {
    hide IsMigrationFile, Loadable, VersionOf, MigrationOf;
    var all := front + [e];
    assert all[..|all| - 1] == front;
    assert forall i | 0 <= i < |front| :: all[i] == front[i];
    assert all[|front|] == e;
  }

  lemma PartOfOkDirectory(entries: seq<Entry>, n: nat)
    requires n <= |entries| && DirectoryOk(entries)
    ensures DirectoryOk(entries[..n])
  {
    hide IsMigrationFile, Loadable, VersionOf;
  }

  lemma {:induction false} CollectedVersions(entries: seq<Entry>)
    requires DirectoryOk(entries)
    ensures var ms := Collect(entries);
            && (forall i | 0 <= i < |ms| :: ms[i].version in Versions(entries))
            && (forall i, j | 0 <= i < j < |ms| :: ms[i].version != ms[j].version)
  {
    hide IsMigrationFile, Loadable, VersionOf, MigrationOf, DirectoryOk, Collect, Versions;
    if entries == [] {
      CollectNothing();
    } else {
      var front, e := entries[..|entries| - 1], entries[|entries| - 1];
      assert entries == front + [e];
      PartOfOkDirectory(entries, |entries| - 1);
      CollectedVersions(front);
      DirectoryStep(front, e);
      if IsMigrationFile(e) && Loadable(e) {
        CarriesItsVersion(e);
      }
    }
  }

  lemma CarriesItsVersion(e: Entry)
    requires IsMigrationFile(e) && Loadable(e)
    ensures MigrationOf(e).version == VersionOf(e)
  {
  }

  lemma CollectNothing()
    ensures Collect([]) == []
  {
  }

  // ---------------------------------------------------------------- what is loaded, read off the file

  /** The value of decimal digits, each by its place. */
  function PlaceValue(digits: string): int {
    if digits == "" then 0
    else (digits[0] as int - '0' as int) * PowerOfTen(|digits| - 1) + PlaceValue(digits[1..])
  }

  function PowerOfTen(n: nat): nat { if n == 0 then 1 else 10 * PowerOfTen(n - 1) }

  lemma {:induction false} DecimalStep(a: string, b: string)
    ensures DecimalValue(a + b) == DecimalValue(a) * PowerOfTen(|b|) + DecimalValue(b)
  {
    if b == "" {
      assert a + b == a;
    } else {
      var front, last := b[..|b| - 1], b[|b| - 1];
      var p, d := PowerOfTen(|b| - 1), last as int - '0' as int;
      assert (a + b)[..|a + b| - 1] == a + front && (a + b)[|a + b| - 1] == last;
      DecimalStep(a, front);
      Shift(DecimalValue(a), p, DecimalValue(front), d);
    }
  }

  lemma Shift(x: int, p: int, y: int, d: int)
    ensures (x * p + y) * 10 + d == x * (10 * p) + (y * 10 + d)
  {
  }

  lemma {:induction false} DecimalIsPlaceValue(digits: string)
    ensures DecimalValue(digits) == PlaceValue(digits)
  {
    if digits != "" {
      DecimalIsPlaceValue(digits[1..]);
      assert digits == [digits[0]] + digits[1..];
      DecimalStep([digits[0]], digits[1..]);
      assert [digits[0]][..0] == "";
    }
  }

  predicate IsDigits(s: string) { s != "" && forall i | 0 <= i < |s| :: '0' <= s[i] <= '9' }

  predicate IsTitle(s: string) {
    s != "" && forall i | 0 <= i < |s| ::
      'a' <= s[i] <= 'z' || 'A' <= s[i] <= 'Z' || '0' <= s[i] <= '9' || s[i] == '_' || s[i] == '-'
  }

  /** A migration file's name: digits, an underscore, a title, and the ending. */
  predicate IsNamed(name: string, digits: string, title: string) {
    name == digits + "_" + title + ".sql" && IsDigits(digits) && IsTitle(title)
  }

  lemma {:induction false} LeadingDigitsStop(digits: string, rest: string)
    requires (forall i | 0 <= i < |digits| :: Digit(digits[i])) && (rest == "" || !Digit(rest[0]))
    ensures LeadingDigits(digits + rest) == |digits|
  {
    if digits == "" {
      assert digits + rest == rest;
    } else {
      assert (digits + rest)[1..] == digits[1..] + rest;
      LeadingDigitsStop(digits[1..], rest);
    }
  }

  lemma {:induction false} LeadingDigitsAre(s: string)
    ensures forall i | 0 <= i < LeadingDigits(s) :: Digit(s[i])
  {
    if s != "" && Digit(s[0]) {
      LeadingDigitsAre(s[1..]);
      assert forall i | 0 < i < LeadingDigits(s) :: s[i] == s[1..][i - 1];
    }
  }

  lemma NamesMatch(name: string, digits: string, title: string)
    requires IsNamed(name, digits, title)
    ensures MatchName(name) == Some((digits, title))
  {
    var rest := "_" + title + ".sql";
    assert name == digits + rest;
    LeadingDigitsStop(digits, rest);
    assert name[..|digits|] == digits && name[|digits|] == '_';
    assert name[|name| - 4..] == ".sql" && name[|digits| + 1..|name| - 4] == title;
  }

  lemma MatchesAreNames(name: string)
    requires MatchName(name).Some?
    ensures IsNamed(name, MatchName(name).value.0, MatchName(name).value.1)
  {
    var n := LeadingDigits(name);
    var (digits, title) := MatchName(name).value;
    LeadingDigitsAre(name);
    assert |title| == |name| - 4 - (n + 1) && |title| >= 1;
    assert name == name[..n] + [name[n]] + name[n + 1..|name| - 4] + name[|name| - 4..];
  }

  /** Migration `m` stands in this file: its version and name in the file's name, its SQL in the trimmed text. */
  ghost predicate StandsIn(m: Migration, e: Entry) {
    && !e.isDir && m.path == e.name
    && e.content.Some? && IsTrimmed(e.content.value, m.sql) && m.sql != ""
    && exists digits :: IsNamed(e.name, digits, m.name) && PlaceValue(digits) == m.version <= 0x7FFF_FFFF_FFFF_FFFF
  }

  lemma StandsInExactly(m: Migration, e: Entry)
    ensures StandsIn(m, e) <==> IsMigrationFile(e) && Loadable(e) && MigrationOf(e) == m
  {
    hide MatchName, DecimalValue, PlaceValue, IsNamed, IsTrimmed, Trim;
    if IsMigrationFile(e) {
      MatchesAreNames(e.name);
      DecimalIsPlaceValue(MatchName(e.name).value.0);
      if e.content.Some? {
        TrimIsExact(e.content.value);
      }
    }
    if StandsIn(m, e) {
      var digits :| IsNamed(e.name, digits, m.name) && PlaceValue(digits) == m.version;
      NamesMatch(e.name, digits, m.name);
      OneTrimmed(e.content.value, m.sql, Trim(e.content.value));
    }
  }

  /** The migrations collected from a directory are exactly those that stand in one of its files. */
  lemma CollectsWhatStandsInFiles(entries: seq<Entry>, m: Migration)
    ensures m in Collect(entries) <==> exists i | 0 <= i < |entries| :: StandsIn(m, entries[i])
  {
    hide StandsIn, IsMigrationFile, Loadable, MigrationOf, Collect;
    CollectsEachFile(entries, m);
    forall i | 0 <= i < |entries|
      ensures StandsIn(m, entries[i]) <==>
                IsMigrationFile(entries[i]) && Loadable(entries[i]) && MigrationOf(entries[i]) == m
    {
      StandsInExactly(m, entries[i]);
    }
  }

  /** The file is named like a migration. */
  ghost predicate LooksLikeMigration(e: Entry) { !e.isDir && exists digits, title :: IsNamed(e.name, digits, title) }

  lemma LooksExactly(e: Entry)
    ensures LooksLikeMigration(e) <==> IsMigrationFile(e)
  {
    hide MatchName, IsNamed;
    if IsMigrationFile(e) {
      MatchesAreNames(e.name);
    }
    if LooksLikeMigration(e) {
      var digits, title :| IsNamed(e.name, digits, title);
      NamesMatch(e.name, digits, title);
    }
  }

  /** A directory is in order if every file named like a migration holds one, and no two hold the same version. */
  ghost predicate InOrder(entries: seq<Entry>) {
    && (forall i | 0 <= i < |entries| && LooksLikeMigration(entries[i]) :: exists m :: StandsIn(m, entries[i]))
    && (forall i, j, m, n | 0 <= i < j < |entries| && StandsIn(m, entries[i]) && StandsIn(n, entries[j]) ::
          m.version != n.version)
  }

  lemma InOrderExactly(entries: seq<Entry>)
    ensures InOrder(entries) <==> DirectoryOk(entries)
  {
    hide StandsIn, LooksLikeMigration, IsMigrationFile, Loadable, MigrationOf, VersionOf;
    forall i, m | 0 <= i < |entries|
      ensures StandsIn(m, entries[i]) <==>
                IsMigrationFile(entries[i]) && Loadable(entries[i]) && MigrationOf(entries[i]) == m
    {
      StandsInExactly(m, entries[i]);
    }
    forall i | 0 <= i < |entries|
      ensures LooksLikeMigration(entries[i]) <==> IsMigrationFile(entries[i])
      ensures IsMigrationFile(entries[i]) && Loadable(entries[i]) ==>
                && StandsIn(MigrationOf(entries[i]), entries[i])
                && MigrationOf(entries[i]).version == VersionOf(entries[i])
    {
      LooksExactly(entries[i]);
      if IsMigrationFile(entries[i]) && Loadable(entries[i]) {
        CarriesItsVersion(entries[i]);
      }
    }
    if DirectoryOk(entries) {
      assert InOrder(entries);
    }
    if InOrder(entries) {
      forall i, j | 0 <= i < j < |entries| && IsMigrationFile(entries[i]) && IsMigrationFile(entries[j])
        ensures VersionOf(entries[i]) != VersionOf(entries[j])
      {
        assert StandsIn(MigrationOf(entries[i]), entries[i]) && StandsIn(MigrationOf(entries[j]), entries[j]);
      }
    }
  }

  /** Where an ascending list takes a further version. */
  lemma InsertionKeepsAscending(sorted: seq<Migration>, at: nat, m: Migration)
    requires at <= |sorted| && Ascending(sorted)
    requires forall i | 0 <= i < at :: sorted[i].version < m.version
    requires forall i | at <= i < |sorted| :: m.version < sorted[i].version
    ensures Ascending(sorted[..at] + [m] + sorted[at..])
    ensures forall x :: x in sorted[..at] + [m] + sorted[at..] <==> x in sorted || x == m
  {
    assert sorted == sorted[..at] + sorted[at..];
  }

  method InsertByVersion(sorted: seq<Migration>, m: Migration) returns (longer: seq<Migration>)
    requires Ascending(sorted) && forall i | 0 <= i < |sorted| :: sorted[i].version != m.version
    ensures Ascending(longer) && forall x :: x in longer <==> x in sorted || x == m
  {
    var at := 0;
    while at < |sorted| && sorted[at].version < m.version
      invariant at <= |sorted|
      invariant forall i | 0 <= i < at :: sorted[i].version < m.version
    {
      at := at + 1;
    }
    InsertionKeepsAscending(sorted, at, m);
    longer := sorted[..at] + [m] + sorted[at..];
  }

  /** sort.Slice by version, as far as its result on distinct versions goes. */
  method SortByVersion(ms: seq<Migration>) returns (sorted: seq<Migration>)
    requires forall i, j | 0 <= i < j < |ms| :: ms[i].version != ms[j].version
    ensures Ascending(sorted) && forall m :: m in sorted <==> m in ms
  {
    sorted := [];
    for n := 0 to |ms|
      invariant Ascending(sorted)
      invariant forall m :: m in sorted <==> m in ms[..n]
    {
      assert forall i | 0 <= i < |sorted| :: sorted[i] in ms[..n];
      sorted := InsertByVersion(sorted, ms[n]);
      assert ms[..n + 1] == ms[..n] + [ms[n]];
    }
    assert ms[..|ms|] == ms;
  }

  /** LoadMigrations: succeeds exactly on directories that are in order, with all migrations, sorted. */
  method LoadMigrations(entries: seq<Entry>) returns (loaded: Option<seq<Migration>>)
    ensures loaded.Some? <==> InOrder(entries)
    ensures loaded.Some? ==> Ascending(loaded.value)
    ensures loaded.Some? ==>
              forall m :: m in loaded.value <==> exists i | 0 <= i < |entries| :: StandsIn(m, entries[i])
  {
    InOrderExactly(entries);
    hide InOrder, StandsIn;
    hide IsMigrationFile, Loadable, VersionOf, MigrationOf, DirectoryOk, Collect, Versions;
    var migrations: seq<Migration> := [];
    var seen: set<int> := {};
    EmptyDirectory();
    for n := 0 to |entries|
      invariant DirectoryOk(entries[..n])
      invariant seen == Versions(entries[..n])
      invariant migrations == Collect(entries[..n])
    {
      var e := entries[n];
      assert entries[..n + 1] == entries[..n] + [e];
      DirectoryStep(entries[..n], e);
      if IsMigrationFile(e) {
        if !Loadable(e) || VersionOf(e) in seen {
          if DirectoryOk(entries) {
            PartOfOkDirectory(entries, n + 1);
            assert false;
          }
          return None;
        }
        seen := seen + {VersionOf(e)};
        migrations := migrations + [MigrationOf(e)];
      }
    }
    assert entries[..|entries|] == entries;
    CollectedVersions(entries);
    var sorted := SortByVersion(migrations);
    forall m
      ensures m in sorted <==> exists i | 0 <= i < |entries| :: StandsIn(m, entries[i])
    {
      CollectsWhatStandsInFiles(entries, m);
    }
    return Some(sorted);
  }

  lemma EmptyDirectory()
    ensures DirectoryOk([]) && Versions([]) == {} && Collect([]) == []
  {
  }

  /** Ascending lists with the same migrations are equal, so loading does not depend on the directory's order. */
  lemma {:induction false} AscendingListsAgree(ms: seq<Migration>, ns: seq<Migration>)
    requires Ascending(ms) && Ascending(ns) && forall m :: m in ms <==> m in ns
    ensures ms == ns
  {
    if ns != [] {
      assert ns[0] in ms;
    }
    if ms != [] {
      assert ms[0] in ns;
      assert ms[0] == ns[0];
      assert forall m :: m in ms[1..] <==> m in ms && m != ms[0];
      assert forall m :: m in ns[1..] <==> m in ns && m != ns[0];
      AscendingListsAgree(ms[1..], ns[1..]);
    }
  }
}
