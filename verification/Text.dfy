/**
  Strings as sequences of Unicode code points, with the library operations the panel applies to
  untrusted text: trimming, lower-casing, searching, and the redaction of log messages.
 */
module Text {

  /** unicode.IsSpace: the White_Space property. */
  predicate IsSpace(c: char) {
    || '\t' <= c <= '\r' || c == ' ' || c == '\U{0085}' || c == '\U{00A0}' || c == '\U{1680}'
    || '\U{2000}' <= c <= '\U{200A}' || c == '\U{2028}' || c == '\U{2029}' || c == '\U{202F}'
    || c == '\U{205F}' || c == '\U{3000}'
  }

  function TrimLeft(s: string): (t: string)
    ensures |t| <= |s| && t == s[|s| - |t|..]
    ensures t != "" ==> !IsSpace(t[0])
  {
    if s != "" && IsSpace(s[0]) then TrimLeft(s[1..]) else s
  }

  function TrimRight(s: string): (t: string)
    ensures |t| <= |s| && t == s[..|t|]
    ensures t != "" ==> !IsSpace(t[|t| - 1])
    ensures forall i | |t| <= i < |s| :: IsSpace(s[i])
  {
    if s != "" && IsSpace(s[|s| - 1]) then TrimRight(s[..|s| - 1]) else s
  }

  /** strings.TrimSpace. */
  function Trim(s: string): string { TrimRight(TrimLeft(s)) }

  predicate Blank(s: string) { Trim(s) == "" }

  lemma VisibleIsTrimmed(s: string)
    requires s == "" || (!IsSpace(s[0]) && !IsSpace(s[|s| - 1]))
    ensures Trim(s) == s
  {
    hide IsSpace;
    assert TrimLeft(s) == s;
    assert TrimRight(s) == s;
  }

  lemma TrimmedIsVisible(s: string)
    ensures Trim(s) != "" ==> !IsSpace(Trim(s)[0]) && !IsSpace(Trim(s)[|Trim(s)| - 1])
  {
    hide IsSpace, TrimLeft, TrimRight;
    var l := TrimLeft(s);
    var t := TrimRight(l);
    assert t != "" ==> t[0] == l[0];
  }

  lemma TrimmedIsPart(s: string)
    ensures IsPart(Trim(s), s)
  {
    hide IsSpace, TrimLeft, TrimRight;
    var l := TrimLeft(s);
    assert IsAt(TrimRight(l), s, |s| - |l|);
  }

  /** Trimming a trimmed text changes nothing. */
  lemma TrimIsStable(s: string)
    ensures Trim(Trim(s)) == Trim(s)
  {
    hide Trim, IsSpace;
    TrimmedIsVisible(s);
    VisibleIsTrimmed(Trim(s));
  }

  /** What a TEXT column can hold: every code point but U+0000. */
  predicate Textual(s: string) { '\0' !in s }

  /** U+0000 is no white space, so trimming keeps it. */
  lemma TrimmingKeepsTextual(s: string)
    ensures Textual(TrimRight(s)) <==> Textual(s)
  {
    hide TrimRight;
    var t := TrimRight(s);
    assert forall i | 0 <= i < |s| :: if i < |t| then s[i] == t[i] else s[i] != '\0';
  }

  predicate IsAt(part: string, s: string, i: nat) {
    i + |part| <= |s| && part == s[i..i + |part|]
  }

  /** `part` occurs in `s` as one consecutive stretch. */
  predicate IsPart(part: string, s: string) {
    exists i | 0 <= i <= |s| :: IsAt(part, s, i)
  }

  /** The number of bytes of one code point in UTF-8. */
  function Utf8Width(c: char): nat {
    if c < '\U{0080}' then 1 else if c < '\U{0800}' then 2 else if c <= '\U{FFFF}' then 3 else 4
  }

  /** Go's len on a string. */
  function Utf8Size(s: string): nat {
    if s == "" then 0 else Utf8Width(s[0]) + Utf8Size(s[1..])
  }

  /** unicode.ToLower as far as it yields ASCII letters: besides A-Z only U+0130 and U+212A do. */
  function LowerRune(c: char): char {
    if 'A' <= c <= 'Z' then (c as int + 32) as char
    else if c == '\U{0130}' then 'i'
    else if c == '\U{212A}' then 'k'
    else c
  }

  function Lower(s: string): string {
    seq(|s|, i requires 0 <= i < |s| => LowerRune(s[i]))
  }

  /** strings.Contains. */
  predicate Contains(s: string, word: string) { IsPart(word, s) }

  predicate MentionsSecret(s: string) {
    var lower := Lower(s);
    || Contains(lower, "password") || Contains(lower, "secret") || Contains(lower, "token")
    || Contains(lower, "postgres://") || Contains(lower, "postgresql://")
  }

  const REDACTED := "[REDACTED]"

  /** logging.Redact. */
  function Redact(s: string): string { if MentionsSecret(s) then REDACTED else s }

  const MAX_MESSAGE_RUNES := 1024

  function Truncate(s: string): string { if |s| > MAX_MESSAGE_RUNES then s[..MAX_MESSAGE_RUNES] else s }

  /** safeFailureMessage. */
  function SafeMessage(s: string): string { Truncate(Trim(Redact(s))) }

  lemma PartOfLower(part: string, s: string, word: string)
    requires IsPart(part, s) && Contains(Lower(part), word)
    ensures Contains(Lower(s), word)
  {
    var i :| 0 <= i <= |s| && IsAt(part, s, i);
    var j :| 0 <= j <= |part| && IsAt(word, Lower(part), j);
    var lower := Lower(s);
    assert Lower(part) == lower[i..i + |part|];
    assert word == lower[i + j..i + j + |word|];
    assert IsAt(word, lower, i + j);
  }

  /** A stretch of a message that needed no redaction needs none either. */
  lemma PartsStayClean(part: string, s: string)
    requires IsPart(part, s) && !MentionsSecret(s)
    ensures !MentionsSecret(part)
  {
    forall word | Contains(Lower(part), word)
      ensures Contains(Lower(s), word)
    {
      PartOfLower(part, s, word);
    }
  }

  lemma MissingLetter(s: string, word: string, k: nat)
    requires k < |word| && word[k] !in s
    ensures !Contains(s, word)
  {
    forall i: nat | i <= |s|
      ensures !IsAt(word, s, i)
    {
      assert i + |word| <= |s| ==> s[i + k] in s && s[i..i + |word|][k] == s[i + k];
    }
  }

  lemma RedactedIsClean()
    ensures !MentionsSecret(REDACTED)
  {
    var lower := Lower(REDACTED);
    assert |lower| == 10;
    assert forall i | 0 <= i < 10 :: lower[i] != 'p' && lower[i] != 's' && lower[i] != 'o';
    MissingLetter(lower, "password", 0);
    MissingLetter(lower, "secret", 0);
    MissingLetter(lower, "token", 1);
    MissingLetter(lower, "postgres://", 0);
    MissingLetter(lower, "postgresql://", 0);
  }

  lemma PrefixOfPart(part: string, s: string, n: nat)
    requires IsPart(part, s) && n <= |part|
    ensures IsPart(part[..n], s)
  {
    var i :| 0 <= i <= |s| && IsAt(part, s, i);
    assert IsAt(part[..n], s, i);
  }

  /** The result of cleaning a message never mentions a secret and fits the table's 1024 characters. */
  lemma SafeMessageIsSafe(s: string)
    ensures !MentionsSecret(SafeMessage(s)) && |SafeMessage(s)| <= MAX_MESSAGE_RUNES
    ensures SafeMessage(s) != "" ==> !IsSpace(SafeMessage(s)[0])
  {
    var clean := Redact(s);
    assert !MentionsSecret(clean) by {
      RedactedIsClean();
    }
    var t := Trim(clean);
    TrimmedIsVisible(clean);
    TrimmedIsPart(clean);
    var m := SafeMessage(s);
    PrefixOfPart(t, clean, |m|);
    assert m == t[..|m|];
    PartsStayClean(m, clean);
  }

  lemma CleanMessageIsOnlyTrimmed(s: string, m: string)
    requires m == SafeMessage(s)
    ensures SafeMessage(m) == TrimRight(m)
  {
    SafeMessageIsSafe(s);
    hide MentionsSecret, IsSpace, TrimRight;
    assert TrimLeft(m) == m;
  }

  lemma TrimRightIsStable(s: string)
    ensures TrimRight(TrimRight(s)) == TrimRight(s)
  {
    hide IsSpace;
  }

  lemma ShortMessageIsTrimmed(s: string)
    requires |Trim(Redact(s))| <= MAX_MESSAGE_RUNES
    ensures TrimRight(SafeMessage(s)) == SafeMessage(s)
  {
    hide Redact, IsSpace, TrimLeft;
    TrimRightIsStable(TrimLeft(Redact(s)));
  }

  /**
    Cleaning a message twice can only strip white space that the 1024-rune cut left at its end;
    a third time changes nothing.
   */
  lemma SafeMessageAgain(s: string)
    ensures SafeMessage(SafeMessage(s)) == TrimRight(SafeMessage(s))
    ensures SafeMessage(SafeMessage(SafeMessage(s))) == SafeMessage(SafeMessage(s))
    ensures |Trim(Redact(s))| <= MAX_MESSAGE_RUNES ==> SafeMessage(SafeMessage(s)) == SafeMessage(s)
  {
    hide SafeMessage;
    var m := SafeMessage(s);
    CleanMessageIsOnlyTrimmed(s, m);
    CleanMessageIsOnlyTrimmed(m, SafeMessage(m));
    TrimRightIsStable(m);
    if |Trim(Redact(s))| <= MAX_MESSAGE_RUNES {
      ShortMessageIsTrimmed(s);
    }
  }
}
