/** Action results: what a worker accepts from an executor before anything is written to the table. */
module Results {
  import opened Base
  import opened Text
  import opened Json

  const MAX_RESULT_CODE_BYTES := 64
  const MAX_PAYLOAD_BYTES := 65536
  const MAX_RESULT_LOGS := 100

  datatype LogEntry = LogEntry(level: string, message: string)

  datatype ActionResult = ActionResult(code: string, data: string, logs: seq<LogEntry>)

  /**
    JSON as the two sides see it: which texts are valid to encoding/json, which tree it decodes a text
    to, and how PostgreSQL writes out the text's value as jsonb, None if it cannot convert the text.
   */
  datatype JsonLibrary = JsonLibrary(
    valid: string -> bool,
    decode: string -> Option<Json>,
    jsonb: string -> Option<string>)

  predicate Separator(c: char) { c in "_-." }

  function StripSeparators(s: string): string {
    if s == "" then ""
    else if Separator(s[0]) then StripSeparators(s[1..])
    else [s[0]] + StripSeparators(s[1..])
  }

  predicate SensitiveName(name: string) {
    var n := StripSeparators(Lower(name));
    || Contains(n, "password") || Contains(n, "secret") || Contains(n, "token")
    || Contains(n, "credential") || Contains(n, "privatekey") || Contains(n, "apikey")
  }

  predicate ContainsSensitiveKey(v: Json) {
    match v
    case JObject(members) =>
      exists i | 0 <= i < |members| :: SensitiveName(members[i].name) || ContainsSensitiveKey(members[i].value)
    case JArray(items) => exists i | 0 <= i < |items| :: ContainsSensitiveKey(items[i])
    case _ => false
  }

  /** The object at `path` has a member whose name is sensitive. */
  ghost predicate SensitiveAt(v: Json, path: Path) {
    var x := At(v, path);
    x.Some? && x.value.JObject? && exists m | m in x.value.members :: SensitiveName(m.name)
  }

  lemma {:induction false} SensitiveAtImpliesContains(v: Json, path: Path)
    requires SensitiveAt(v, path)
    ensures ContainsSensitiveKey(v)
    decreases |path|
  {
    if path != [] {
      SensitiveAtImpliesContains(Child(v, path[0]).value, path[1..]);
    }
  }

  lemma {:induction false} ContainsImpliesSensitiveAt(v: Json) returns (path: Path)
    requires ContainsSensitiveKey(v)
    ensures SensitiveAt(v, path)
  {
    if v.JObject? && exists m | m in v.members :: SensitiveName(m.name) {
      path := [];
    } else if v.JObject? {
      var i :| 0 <= i < |v.members| && ContainsSensitiveKey(v.members[i].value);
      var below := ContainsImpliesSensitiveAt(v.members[i].value);
      path := [i] + below;
      assert path[1..] == below;
    } else {
      var i :| 0 <= i < |v.items| && ContainsSensitiveKey(v.items[i]);
      var below := ContainsImpliesSensitiveAt(v.items[i]);
      path := [i] + below;
      assert path[1..] == below;
    }
  }

  /** The recursive search finds exactly the values that hold a sensitive name at some depth. */
  lemma SensitiveSearchIsExact(v: Json)
    ensures ContainsSensitiveKey(v) <==> exists path :: SensitiveAt(v, path)
  {
    if ContainsSensitiveKey(v) {
      var path := ContainsImpliesSensitiveAt(v);
    }
    if path :| SensitiveAt(v, path) {
      SensitiveAtImpliesContains(v, path);
    }
  }

  function Level(log: LogEntry): string { Lower(Trim(log.level)) }

  predicate KnownLevel(level: string) { level in ["debug", "info", "warn", "error"] }

  function NormalizeLog(log: LogEntry): LogEntry { LogEntry(Level(log), SafeMessage(log.message)) }

  function NormalizeLogs(logs: seq<LogEntry>): seq<LogEntry> {
    seq(|logs|, i requires 0 <= i < |logs| => NormalizeLog(logs[i]))
  }

  predicate LevelsKnown(logs: seq<LogEntry>) { forall i | 0 <= i < |logs| :: KnownLevel(Level(logs[i])) }

  predicate DataAcceptable(data: string, lib: JsonLibrary) {
    && Utf8Size(data) <= MAX_PAYLOAD_BYTES
    && (data != "" ==> data[0] == '{' && lib.valid(data))
  }

  predicate DataSensitive(data: string, lib: JsonLibrary) {
    data != "" && (lib.decode(data).None? || ContainsSensitiveKey(lib.decode(data).value))
  }

  /** normalizeResult; every refusal is a permanent error with the given message. */
  function NormalizeResult(r: ActionResult, lib: JsonLibrary): Result<ActionResult, string> {
    var code, data := Trim(r.code), Trim(r.data);
    if code == "" || Utf8Size(code) > MAX_RESULT_CODE_BYTES then Err("agent returned an invalid result code")
    else if !DataAcceptable(data, lib) then Err("agent returned invalid result data")
    else if DataSensitive(data, lib) then Err("agent result data contains a sensitive field")
    else if |r.logs| > MAX_RESULT_LOGS then Err("agent returned too many result logs")
    else if !LevelsKnown(r.logs) then Err("agent returned an invalid log level")
    else Ok(ActionResult(code, data, NormalizeLogs(r.logs)))
  }

  /** The CHECK constraints on what a result writes, as far as they depend on the panel's text alone. */
  predicate CodeFits(code: string) { 1 <= Utf8Size(code) <= MAX_RESULT_CODE_BYTES }

  predicate LogFits(log: LogEntry) { KnownLevel(log.level) && |log.message| <= MAX_MESSAGE_RUNES }

  predicate ResultFits(r: ActionResult) { CodeFits(r.code) && forall i | 0 <= i < |r.logs| :: LogFits(r.logs[i]) }

  /**
    The database can convert the values an UPDATE writes for the result. They are parameters of the
    statement, converted before it looks at any row.
   */
  predicate Converts(r: ActionResult, lib: JsonLibrary) {
    Textual(r.code) && (r.data == "" || lib.jsonb(r.data).Some?)
  }

  /** The size limit on the data is one on the text that the database renders. */
  predicate RendersWithin(data: string, lib: JsonLibrary) {
    data == "" || (lib.jsonb(data).Some? && Utf8Size(lib.jsonb(data).value) <= MAX_PAYLOAD_BYTES)
  }

  /** What the table can hold of a result that meets the panel's own limits. */
  predicate Storable(r: ActionResult, lib: JsonLibrary) {
    && Converts(r, lib) && RendersWithin(r.data, lib)
    && forall i | 0 <= i < |r.logs| :: Textual(r.logs[i].message)
  }

  lemma PlainTextIsNormal(s: string)
    requires s != "" && forall i | 0 <= i < |s| :: 'a' <= s[i] <= 'z'
    ensures Lower(Trim(s)) == s
  {
  }

  lemma KnownLevelIsNormal(level: string)
    requires KnownLevel(level)
    ensures Lower(Trim(level)) == level
  {
    hide Trim, Lower;
    PlainTextIsNormal(level);
  }

  /** Two results that differ at most in white space at the end of log messages. */
  predicate DiffersInTrailingSpace(r: ActionResult, r': ActionResult) {
    && r'.code == r.code && r'.data == r.data && |r'.logs| == |r.logs|
    && forall i | 0 <= i < |r.logs| ::
         r'.logs[i].level == r.logs[i].level && r'.logs[i].message == TrimRight(r.logs[i].message)
  }

  /** White space at the end of messages makes no difference to what the table can hold. */
  lemma TrailingSpaceIsStorable(r: ActionResult, r': ActionResult, lib: JsonLibrary)
    requires DiffersInTrailingSpace(r, r')
    ensures Converts(r', lib) <==> Converts(r, lib)
    ensures Storable(r', lib) <==> Storable(r, lib)
  {
    hide Textual, RendersWithin, TrimRight;
    forall i | 0 <= i < |r.logs|
      ensures Textual(r'.logs[i].message) <==> Textual(r.logs[i].message)
    {
      TrimmingKeepsTextual(r.logs[i].message);
    }
  }

  /** What becomes of one entry over two further rounds. */
  ghost predicate LogSettles(log: LogEntry, once: LogEntry, twice: LogEntry) {
    && once == NormalizeLog(log) && twice == NormalizeLog(once) && NormalizeLog(twice) == twice
    && LogFits(once) && LogFits(twice) && KnownLevel(Level(once)) && KnownLevel(Level(twice))
    && twice.level == once.level && twice.message == TrimRight(once.message)
  }

  lemma NormalizeLogAgain(log: LogEntry)
    requires KnownLevel(Level(log))
    ensures LogSettles(log, NormalizeLog(log), NormalizeLog(NormalizeLog(log)))
  {
    hide SafeMessage, Trim, Lower, TrimRight, MentionsSecret, IsSpace;
    KnownLevelIsNormal(Level(log));
    SafeMessageIsSafe(log.message);
    SafeMessageAgain(log.message);
    SafeMessageIsSafe(SafeMessage(log.message));
  }

  /**
    Both the worker and the queue normalise a result, and the queue does so on every try. A result
    the worker accepts is accepted each time after; only white space at a cut can still go, once,
    which makes no difference to whether the table can hold it; and its code, levels and message
    lengths meet the table's constraints.
   */
  lemma NormalizingAgainIsHarmless(r: ActionResult, lib: JsonLibrary)
    requires NormalizeResult(r, lib).Ok?
    ensures var once := NormalizeResult(r, lib).value;
            && ResultFits(once)
            && NormalizeResult(once, lib).Ok?
            && var twice := NormalizeResult(once, lib).value;
               && DiffersInTrailingSpace(once, twice)
               && ResultFits(twice) && (Storable(twice, lib) <==> Storable(once, lib))
               && NormalizeResult(twice, lib) == Ok(twice)
  {
    hide SafeMessage, Trim, Lower, TrimRight, MentionsSecret;
    hide IsSpace, DataSensitive, DataAcceptable, NormalizeLog, Level;
    var once := NormalizeResult(r, lib).value;
    TrimIsStable(r.code);
    TrimIsStable(r.data);
    forall i | 0 <= i < |r.logs|
      ensures LogSettles(r.logs[i], once.logs[i], NormalizeLog(once.logs[i]))
    {
      NormalizeLogAgain(r.logs[i]);
    }
    hide NormalizeLog, LogFits, KnownLevel;
    assert LevelsKnown(once.logs);
    var twice := NormalizeResult(once, lib).value;
    assert forall i | 0 <= i < |r.logs| :: twice.logs[i] == NormalizeLog(once.logs[i]);
    assert LevelsKnown(twice.logs);
    assert NormalizeLogs(twice.logs) == twice.logs;
    assert once.code != "" ==> Utf8Size(once.code) >= 1;
    TrailingSpaceIsStorable(once, twice, lib);
  }

  /** The first `k` entries were rewritten before an unknown level was met at `k`, or none were. */
  ghost predicate PartlyRewritten(was: seq<LogEntry>, now: seq<LogEntry>, k: nat) {
    && k <= |was| && now == NormalizeLogs(was[..k]) + was[k..]
    && LevelsKnown(was[..k]) && (k == 0 || (k < |was| && !KnownLevel(Level(was[k]))))
  }

  lemma StoppedAt(was: seq<LogEntry>, now: seq<LogEntry>, k: nat)
    requires |now| == |was| && k <= |was|
    requires k == 0 || (k < |was| && !KnownLevel(Level(was[k])))
    requires forall i | 0 <= i < k :: KnownLevel(Level(was[i])) && now[i] == NormalizeLog(was[i])
    requires forall i | k <= i < |was| :: now[i] == was[i]
    ensures PartlyRewritten(was, now, k)
  {
    hide NormalizeLog, KnownLevel, Level;
    assert now == NormalizeLogs(was[..k]) + was[k..];
  }

  lemma SomeUnknown(logs: seq<LogEntry>, i: nat)
    requires i < |logs| && !KnownLevel(Level(logs[i]))
    ensures !LevelsKnown(logs)
  {
  }

  lemma AllRewritten(was: seq<LogEntry>, now: seq<LogEntry>)
    requires |now| == |was|
    requires forall i | 0 <= i < |was| :: KnownLevel(Level(was[i])) && now[i] == NormalizeLog(was[i])
    ensures LevelsKnown(was) && now == NormalizeLogs(was)
  {
    hide NormalizeLog, KnownLevel, Level;
  }

  /**
    normalizeResult as it runs: the caller's log slice is rewritten in place, also when an entry
    further on makes the call fail.
   */
  method NormalizeInPlace(code: string, data: string, logs: array<LogEntry>, lib: JsonLibrary)
    returns (answer: Result<(string, string), string>)
    modifies logs
    ensures answer == (match NormalizeResult(ActionResult(code, data, old(logs[..])), lib)
                       case Ok(r) => Ok((r.code, r.data))
                       case Err(e) => Err(e))
    ensures answer.Ok? ==> logs[..] == NormalizeLogs(old(logs[..]))
    ensures answer.Err? ==> exists k :: PartlyRewritten(old(logs[..]), logs[..], k)
  {
    hide Trim, Utf8Size, DataAcceptable, DataSensitive, KnownLevel;
    hide SafeMessage, Lower, LevelsKnown, NormalizeLogs, PartlyRewritten;
    var code', data' := Trim(code), Trim(data);
    ghost var was := logs[..];
    StoppedAt(was, logs[..], 0);
    if code' == "" || Utf8Size(code') > MAX_RESULT_CODE_BYTES {
      return Err("agent returned an invalid result code");
    }
    if !DataAcceptable(data', lib) {
      return Err("agent returned invalid result data");
    }
    if DataSensitive(data', lib) {
      return Err("agent result data contains a sensitive field");
    }
    if logs.Length > MAX_RESULT_LOGS {
      return Err("agent returned too many result logs");
    }
    for i := 0 to logs.Length
      invariant forall k | 0 <= k < i :: KnownLevel(Level(was[k])) && logs[k] == NormalizeLog(was[k])
      invariant forall k | i <= k < logs.Length :: logs[k] == was[k]
    {
      var level := Lower(Trim(logs[i].level));
      if !KnownLevel(level) {
        StoppedAt(was, logs[..], i);
        assert !LevelsKnown(was) by {
          SomeUnknown(was, i);
        }
        return Err("agent returned an invalid log level");
      }
      logs[i] := LogEntry(level, SafeMessage(logs[i].message));
    }
    AllRewritten(was, logs[..]);
    return Ok((code', data'));
  }
}
