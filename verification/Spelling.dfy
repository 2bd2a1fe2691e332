/**
  What the searches for suspicious words find, said letter by letter: secrets in messages, sensitive
  names in results. The letters may be in either case, and in names separators may stand between them.
 */
module Spelling {
  import opened Text
  import opened Json
  import opened Results

  /** `c` is the lower-case letter `letter`, its capital, or one of the two other runes that become one. */
  predicate IsLetter(c: char, letter: char) {
    || c == letter
    || ('a' <= letter <= 'z' && c as int == letter as int - 32)
    || (letter == 'i' && c == '\U{0130}') || (letter == 'k' && c == '\U{212A}')
  }

  /** The stretch of `s` from `i` on says `word`. */
  predicate Says(s: string, i: nat, word: string) {
    i + |word| <= |s| && forall k | 0 <= k < |word| :: IsLetter(s[i + k], word[k])
  }

  predicate SaysSomewhere(s: string, word: string) { exists i | 0 <= i <= |s| :: Says(s, i, word) }

  /** Of the ASCII letters and signs that the searched words are made of, none is a capital. */
  predicate LowerCase(word: string) { forall c | c in word :: c < '\U{0080}' && !('A' <= c <= 'Z') }

  lemma LowerRuneSpells(c: char, letter: char)
    requires letter < '\U{0080}' && !('A' <= letter <= 'Z')
    ensures LowerRune(c) == letter <==> IsLetter(c, letter)
  {
  }

  lemma SearchIsExact(s: string, word: string)
    requires LowerCase(word)
    ensures Contains(Lower(s), word) <==> SaysSomewhere(s, word)
  {
    hide LowerRune, IsLetter;
    forall i: nat | i <= |s|
      ensures IsAt(word, Lower(s), i) <==> Says(s, i, word)
    {
      if i + |word| <= |s| {
        forall k | 0 <= k < |word|
          ensures Lower(s)[i..i + |word|][k] == word[k] <==> IsLetter(s[i + k], word[k])
        {
          assert word[k] in word;
          LowerRuneSpells(s[i + k], word[k]);
        }
      }
    }
  }

  // ---------------------------------------------------------------- messages

  predicate SaysSecret(s: string) {
    || SaysSomewhere(s, "password") || SaysSomewhere(s, "secret") || SaysSomewhere(s, "token")
    || SaysSomewhere(s, "postgres://") || SaysSomewhere(s, "postgresql://")
  }

  /** A message is replaced exactly if it says one of the five words somewhere, in whatever case. */
  lemma RedactionIsExact(s: string)
    ensures Redact(s) == if SaysSecret(s) then "[REDACTED]" else s
  {
    hide Contains, Lower, SaysSomewhere;
    SearchIsExact(s, "password");
    SearchIsExact(s, "secret");
    SearchIsExact(s, "token");
    SearchIsExact(s, "postgres://");
    SearchIsExact(s, "postgresql://");
  }

  /** `t` is `s` without the white space at both ends. */
  ghost predicate IsTrimmed(s: string, t: string) {
    && (t != "" ==> !IsSpace(t[0]) && !IsSpace(t[|t| - 1]))
    && exists before, after ::
         s == before + t + after && AllSpace(before) && AllSpace(after)
  }

  predicate AllSpace(s: string) { forall i | 0 <= i < |s| :: IsSpace(s[i]) }

  lemma SpaceIsJoined(a: string, b: string)
    requires AllSpace(a) && AllSpace(b)
    ensures AllSpace(a + b)
  {
    hide IsSpace;
  }

  /** What TrimLeft drops is white space. */
  lemma {:induction false} TrimLeftIsExact(s: string)
    ensures AllSpace(s[..|s| - |TrimLeft(s)|])
  {
    hide IsSpace, AllSpace;
    if s != "" && IsSpace(s[0]) {
      var tail := s[1..];
      TrimLeftIsExact(tail);
      assert TrimLeft(s) == TrimLeft(tail);
      hide TrimLeft;
      var n := |tail| - |TrimLeft(tail)|;
      assert s[..n + 1] == [s[0]] + tail[..n];
      OneSpace(s[0]);
      SpaceIsJoined([s[0]], tail[..n]);
    } else {
      assert TrimLeft(s) == s;
      NoSpace();
    }
  }

  lemma OneSpace(c: char)
    requires IsSpace(c)
    ensures AllSpace([c])
  {
  }

  lemma NoSpace()
    ensures AllSpace("")
  {
  }

  lemma TrimRightIsExact(s: string)
    ensures s == TrimRight(s) + s[|TrimRight(s)|..] && AllSpace(s[|TrimRight(s)|..])
  {
    hide IsSpace, TrimRight;
  }

  lemma TrimIsExact(s: string)
    ensures IsTrimmed(s, Trim(s))
  {
    TrimmedIsVisible(s);
    var l := TrimLeft(s);
    TrimLeftIsExact(s);
    TrimRightIsExact(l);
    hide IsSpace, AllSpace, TrimLeft, TrimRight;
    var before, after := s[..|s| - |l|], l[|Trim(s)|..];
    assert s == before + l;
    assert before + l == before + Trim(s) + after;
  }

  /** A visible sign, and where it stands. */
  lemma VisibleAt(a: string, t: string, b: string, k: nat)
    requires k < |t| && !IsSpace(t[k])
    ensures !AllSpace(a + t + b) && !IsSpace((a + t + b)[|a| + k])
  {
    hide IsSpace;
    assert (a + t + b)[|a| + k] == t[k];
  }

  lemma SpaceInFront(a: string, rest: string, i: nat)
    requires AllSpace(a) && i < |a + rest| && !IsSpace((a + rest)[i])
    ensures |a| <= i
  {
  }

  lemma SpaceBehind(rest: string, b: string, i: nat)
    requires AllSpace(b) && i < |rest + b| && !IsSpace((rest + b)[i])
    ensures i < |rest|
  {
  }

  lemma Middle(a: string, t: string, b: string)
    ensures (a + t + b)[|a|..|a| + |t|] == t
  {
  }

  lemma BlankHasNoMiddle(a: string, b: string, a': string, t': string, b': string)
    requires a + b == a' + t' + b' && AllSpace(a) && AllSpace(b) && (t' != "" ==> !IsSpace(t'[0]))
    ensures t' == ""
  {
    hide IsSpace, AllSpace;
    SpaceIsJoined(a, b);
    if t' != "" {
      VisibleAt(a', t', b', 0);
    }
  }

  lemma SameEnds(s: string, a: string, t: string, b: string, a': string, t': string, b': string)
    requires s == a + t + b && s == a' + t' + b' && AllSpace(a') && AllSpace(b')
    requires t != "" && !IsSpace(t[0]) && !IsSpace(t[|t| - 1])
    ensures |a'| <= |a| && |a| + |t| <= |a'| + |t'|
  {
    hide IsSpace, AllSpace;
    VisibleAt(a, t, b, 0);
    VisibleAt(a, t, b, |t| - 1);
    assert s == a' + (t' + b');
    SpaceInFront(a', t' + b', |a|);
    SpaceBehind(a' + t', b', |a| + |t| - 1);
  }

  lemma SameMiddle(s: string, a: string, t: string, b: string, a': string, t': string, b': string)
    requires s == a + t + b && s == a' + t' + b'
    requires AllSpace(a) && AllSpace(b) && AllSpace(a') && AllSpace(b') && t != "" && t' != ""
    requires !IsSpace(t[0]) && !IsSpace(t[|t| - 1]) && !IsSpace(t'[0]) && !IsSpace(t'[|t'| - 1])
    ensures t == t'
  {
    hide IsSpace, AllSpace;
    SameEnds(s, a, t, b, a', t', b');
    SameEnds(s, a', t', b', a, t, b);
    Middle(a, t, b);
    Middle(a', t', b');
  }

  /** A text can be trimmed in one way only. */
  lemma OneTrimmed(s: string, t: string, t': string)
    requires IsTrimmed(s, t) && IsTrimmed(s, t')
    ensures t == t'
  {
    hide IsSpace, AllSpace;
    var a, b :| s == a + t + b && AllSpace(a) && AllSpace(b);
    var a', b' :| s == a' + t' + b' && AllSpace(a') && AllSpace(b');
    if t != "" && t' != "" {
      SameMiddle(s, a, t, b, a', t', b');
    } else if t == "" {
      assert a + t == a;
      BlankHasNoMiddle(a, b, a', t', b');
    } else {
      assert a' + t' == a';
      BlankHasNoMiddle(a', b', a, t, b);
    }
  }

  /** The cleaned message: redacted, or trimmed and cut after 1024 characters. */
  lemma SafeMessageIsExact(s: string)
    ensures SaysSecret(s) ==> SafeMessage(s) == "[REDACTED]"
    ensures !SaysSecret(s) ==>
              exists t :: IsTrimmed(s, t) && SafeMessage(s) == if |t| <= 1024 then t else t[..1024]
  {
    hide SaysSecret, Trim, IsTrimmed;
    RedactionIsExact(s);
    TrimIsExact(s);
    NoticeIsTrimmed();
    hide Redact;
    assert |Trim(s)| <= 1024 ==> Truncate(Trim(s)) == Trim(s);
  }

  lemma NoticeIsTrimmed()
    ensures Trim("[REDACTED]") == "[REDACTED]" && |"[REDACTED]"| == 10
  {
    VisibleIsTrimmed("[REDACTED]");
  }

  // ---------------------------------------------------------------- names

  /** `s` says the word with nothing but separators between and around its letters. */
  predicate Spells(s: string, word: string) {
    if s == "" then word == ""
    else if s[0] in "_-." then Spells(s[1..], word)
    else word != "" && IsLetter(s[0], word[0]) && Spells(s[1..], word[1..])
  }

  predicate SpellsSomewhere(s: string, word: string) {
    exists i, j | 0 <= i <= j <= |s| :: Spells(s[i..j], word)
  }

  predicate IsPrefix(word: string, s: string) { |word| <= |s| && s[..|word|] == word }

  /** A name that starts with the word, once lowered and stripped, has a stretch in front that spells it. */
  lemma {:induction false} PrefixIsSpelled(s: string, word: string) returns (j: nat)
    requires LowerCase(word) && IsPrefix(word, StripSeparators(Lower(s)))
    ensures j <= |s| && Spells(s[..j], word)
    decreases |s|
  {
    hide LowerRune, IsLetter, Spells;
    if word == "" {
      j := 0;
      assert s[..0] == "";
      EmptySpellsEmpty();
    } else {
      var low := Lower(s);
      assert low[1..] == Lower(s[1..]) && low[0] == LowerRune(s[0]);
      SeparatorsStay(s[0]);
      if s[0] in "_-." {
        var rest := PrefixIsSpelled(s[1..], word);
        j := rest + 1;
        assert s[..j][1..] == s[1..][..rest];
        SpellsAfterSeparator(s[..j], word);
      } else {
        var stripped := StripSeparators(low);
        assert stripped == [low[0]] + StripSeparators(low[1..]);
        assert word[0] == stripped[..|word|][0] == low[0];
        assert word[1..] == stripped[..|word|][1..] == StripSeparators(low[1..])[..|word| - 1];
        assert forall c | c in word[1..] :: c in word;
        var rest := PrefixIsSpelled(s[1..], word[1..]);
        j := rest + 1;
        assert word[0] in word;
        LowerRuneSpells(s[0], word[0]);
        assert s[..j][1..] == s[1..][..rest];
        SpellsAfterLetter(s[..j], word);
      }
    }
  }

  lemma EmptySpellsEmpty()
    ensures Spells("", "")
  {
  }

  lemma SeparatorsStay(c: char)
    ensures c in "_-." <==> LowerRune(c) in "_-."
    ensures c in "_-." ==> LowerRune(c) == c
    ensures Separator(c) <==> c in "_-."
  {
  }

  lemma SpellsAfterSeparator(s: string, word: string)
    requires s != "" && s[0] in "_-." && Spells(s[1..], word)
    ensures Spells(s, word)
  {
  }

  lemma SpellsAfterLetter(s: string, word: string)
    requires s != "" && s[0] !in "_-." && word != "" && IsLetter(s[0], word[0]) && Spells(s[1..], word[1..])
    ensures Spells(s, word)
  {
    hide IsLetter;
  }

  lemma {:induction false} FoundIsSpelled(s: string, word: string)
    requires LowerCase(word) && Contains(StripSeparators(Lower(s)), word)
    ensures SpellsSomewhere(s, word)
    decreases |s|
  {
    hide Spells, LowerRune;
    var stripped := StripSeparators(Lower(s));
    var at :| 0 <= at <= |stripped| && IsAt(word, stripped, at);
    if at == 0 {
      var j := PrefixIsSpelled(s, word);
      assert s[0..j] == s[..j];
    } else {
      var low := Lower(s);
      assert low[1..] == Lower(s[1..]);
      SeparatorsStay(s[0]);
      if s[0] in "_-." {
        assert IsAt(word, StripSeparators(low[1..]), at);
      } else {
        assert stripped == [low[0]] + StripSeparators(low[1..]);
        assert IsAt(word, StripSeparators(low[1..]), at - 1);
      }
      FoundIsSpelled(s[1..], word);
      var i, j :| 0 <= i <= j <= |s[1..]| && Spells(s[1..][i..j], word);
      TailStretch(s, i, j);
    }
  }

  lemma TailStretch(s: string, i: nat, j: nat)
    requires s != "" && i <= j < |s|
    ensures s[1..][i..j] == s[i + 1..j + 1]
  {
  }

  lemma {:induction false} StripJoins(a: string, b: string)
    ensures StripSeparators(a + b) == StripSeparators(a) + StripSeparators(b)
  {
    if a == "" {
      assert a + b == b;
    } else {
      assert (a + b)[1..] == a[1..] + b;
      StripJoins(a[1..], b);
    }
  }

  lemma {:induction false} SpelledIsStripped(s: string, word: string)
    requires LowerCase(word) && Spells(s, word)
    ensures StripSeparators(Lower(s)) == word
    decreases |s|
  {
    hide LowerRune, IsLetter;
    if s != "" {
      var low := Lower(s);
      assert low[1..] == Lower(s[1..]) && low[0] == LowerRune(s[0]);
      SeparatorsStay(s[0]);
      if s[0] in "_-." {
        SpelledIsStripped(s[1..], word);
      } else {
        assert word[0] in word;
        LowerRuneSpells(s[0], word[0]);
        assert forall c | c in word[1..] :: c in word;
        SpelledIsStripped(s[1..], word[1..]);
        assert word == [word[0]] + word[1..];
      }
    }
  }

  lemma SpelledIsFound(s: string, word: string)
    requires LowerCase(word) && SpellsSomewhere(s, word)
    ensures Contains(StripSeparators(Lower(s)), word)
  {
    hide Spells, LowerRune, StripSeparators;
    var i, j :| 0 <= i <= j <= |s| && Spells(s[i..j], word);
    var a, v, b := Lower(s[..i]), Lower(s[i..j]), Lower(s[j..]);
    assert Lower(s) == a + (v + b);
    StripJoins(a, v + b);
    StripJoins(v, b);
    SpelledIsStripped(s[i..j], word);
    assert IsAt(word, StripSeparators(Lower(s)), |StripSeparators(a)|);
  }

  predicate SpellsSensitive(name: string) {
    || SpellsSomewhere(name, "password") || SpellsSomewhere(name, "secret") || SpellsSomewhere(name, "token")
    || SpellsSomewhere(name, "credential") || SpellsSomewhere(name, "privatekey") || SpellsSomewhere(name, "apikey")
  }

  lemma NameSearchIsExact(s: string, word: string)
    requires LowerCase(word)
    ensures Contains(StripSeparators(Lower(s)), word) <==> SpellsSomewhere(s, word)
  {
    hide Contains, SpellsSomewhere, StripSeparators, Lower;
    if Contains(StripSeparators(Lower(s)), word) {
      FoundIsSpelled(s, word);
    }
    if SpellsSomewhere(s, word) {
      SpelledIsFound(s, word);
    }
  }

  /** A name is sensitive exactly if it spells one of the six words somewhere. */
  lemma SensitiveNamesExactly(name: string)
    ensures SensitiveName(name) <==> SpellsSensitive(name)
  {
    hide Contains, StripSeparators, Lower, SpellsSomewhere;
    NameSearchIsExact(name, "password");
    NameSearchIsExact(name, "secret");
    NameSearchIsExact(name, "token");
    NameSearchIsExact(name, "credential");
    NameSearchIsExact(name, "privatekey");
    NameSearchIsExact(name, "apikey");
  }

  // ---------------------------------------------------------------- results

  /** At some depth of the value stands an object with a name that spells a sensitive word. */
  ghost predicate SpellsSensitiveInside(v: Json) {
    exists path :: At(v, path).Some? && At(v, path).value.JObject? && AnySensitive(At(v, path).value.members)
  }

  predicate AnySensitive(members: seq<Member>) { exists i | 0 <= i < |members| :: SpellsSensitive(members[i].name) }

  lemma SensitiveInsideExactly(v: Json)
    ensures ContainsSensitiveKey(v) <==> SpellsSensitiveInside(v)
  {
    hide SensitiveName, SpellsSensitive, ContainsSensitiveKey;
    SensitiveSearchIsExact(v);
    forall path
      ensures SensitiveAt(v, path) <==>
                At(v, path).Some? && At(v, path).value.JObject? && AnySensitive(At(v, path).value.members)
    {
      var x := At(v, path);
      if x.Some? && x.value.JObject? {
        forall m | m in x.value.members
          ensures SensitiveName(m.name) <==> SpellsSensitive(m.name)
        {
          SensitiveNamesExactly(m.name);
        }
      }
    }
  }

  /** When normalizeResult accepts, in terms of the trimmed code and data and of the entries' own levels. */
  predicate LevelOk(level: string) { Lower(Trim(level)) in ["debug", "info", "warn", "error"] }

  ghost predicate Acceptable(r: ActionResult, lib: JsonLibrary) {
    var code, data := Trim(r.code), Trim(r.data);
    && 1 <= |code| && Utf8Size(code) <= 64
    && Utf8Size(data) <= 65536
    && (data != "" ==>
          && data[0] == '{' && lib.valid(data) && lib.decode(data).Some?
          && !SpellsSensitiveInside(lib.decode(data).value))
    && |r.logs| <= 100 && forall i | 0 <= i < |r.logs| :: LevelOk(r.logs[i].level)
  }

  /**
    A result is accepted exactly if its code and data are within limits, its data is a JSON object with
    no sensitive name at any depth, and its entries are at most 100 with known levels; then code and data
    are the trimmed ones, and every entry has the plain level and the cleaned message.
   */
  lemma AcceptsResultsExactly(r: ActionResult, lib: JsonLibrary)
    ensures NormalizeResult(r, lib).Ok? <==> Acceptable(r, lib)
    ensures NormalizeResult(r, lib).Ok? ==>
              var normal := NormalizeResult(r, lib).value;
              && normal.code == Trim(r.code) && normal.data == Trim(r.data) && |normal.logs| == |r.logs|
              && forall i | 0 <= i < |r.logs| ::
                   normal.logs[i] == LogEntry(Lower(Trim(r.logs[i].level)), SafeMessage(r.logs[i].message))
  {
    hide Trim, Lower, Utf8Size, ContainsSensitiveKey, SpellsSensitiveInside, SafeMessage;
    var data := Trim(r.data);
    if data != "" && lib.decode(data).Some? {
      SensitiveInsideExactly(lib.decode(data).value);
    }
    assert LevelsKnown(r.logs) <==> forall i | 0 <= i < |r.logs| :: LevelOk(r.logs[i].level);
    hide LevelsKnown, LevelOk;
  }
}
