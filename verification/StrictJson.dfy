/** Strict reading of action payloads: the token reader that refuses repeated names at any depth. */
module StrictJson {
  import opened Base
  import opened Json

  /** What json.Decoder.Token returns; commas and colons never show. */
  datatype Token =
    | ObjectOpen
    | ObjectClose
    | ArrayOpen
    | ArrayClose
    | Text(text: string)
    | Null
    | Bool(b: bool)
    | Number(literal: string)

  // ---------------------------------------------------------------- values as tokens

  function Tokens(v: Json): (ts: seq<Token>)
    ensures |ts| > 0
  {
    match v
    case JNull => [Null]
    case JBool(b) => [Bool(b)]
    case JNumber(literal) => [Number(literal)]
    case JString(text) => [Text(text)]
    case JArray(items) => [ArrayOpen] + ItemTokens(items) + [ArrayClose]
    case JObject(members) => [ObjectOpen] + MemberTokens(members) + [ObjectClose]
  }

  function ItemTokens(items: seq<Json>): seq<Token> {
    if items == [] then [] else Tokens(items[0]) + ItemTokens(items[1..])
  }

  function MemberTokens(members: seq<Member>): seq<Token> {
    if members == [] then []
    else [Text(members[0].name)] + Tokens(members[0].value) + MemberTokens(members[1..])
  }

  /** Section 4 of RFC 8259: the names within every object, at every depth, are unique. */
  predicate Unique(v: Json) {
    match v
    case JArray(items) => forall i | 0 <= i < |items| :: Unique(items[i])
    case JObject(members) =>
      && (forall i, j | 0 <= i < j < |members| :: members[i].name != members[j].name)
      && forall i | 0 <= i < |members| :: Unique(members[i].value)
    case _ => true
  }

  // ---------------------------------------------------------------- the reader

  /** decoder.More: another item or member follows. */
  predicate More(ts: seq<Token>) { ts != [] && !ts[0].ObjectClose? && !ts[0].ArrayClose? }

  /** readUniqueJSONValue: the tokens left after one value, or None for an error. */
  function ReadValue(ts: seq<Token>): (rest: Option<seq<Token>>)
    ensures rest.Some? ==> |rest.value| < |ts|
    decreases |ts|, 1
  {
    if ts == [] then None
    else
      match ts[0]
      case ObjectOpen => ReadMembers(ts[1..], {})
      case ArrayOpen => ReadItems(ts[1..])
      case ObjectClose => None
      case ArrayClose => None
      case _ => Some(ts[1..])
  }

  /** The loop over an object's members, and its closing token. */
  function ReadMembers(ts: seq<Token>, seen: set<string>): (rest: Option<seq<Token>>)
    ensures rest.Some? ==> |rest.value| < |ts|
    decreases |ts|, 0
  {
    if !More(ts) then if ts != [] && ts[0].ObjectClose? then Some(ts[1..]) else None
    else if !ts[0].Text? || ts[0].text in seen then None
    else
      match ReadValue(ts[1..])
      case None => None
      case Some(rest) => ReadMembers(rest, seen + {ts[0].text})
  }

  /** The loop over an array's items, and its closing token. */
  function ReadItems(ts: seq<Token>): (rest: Option<seq<Token>>)
    ensures rest.Some? ==> |rest.value| < |ts|
    decreases |ts|, 2
  {
    if !More(ts) then if ts != [] && ts[0].ArrayClose? then Some(ts[1..]) else None
    else
      match ReadValue(ts)
      case None => None
      case Some(rest) => ReadItems(rest)
  }

  // ---------------------------------------------------------------- the reader accepts exactly unique values

  /** The members have pairwise distinct names, none of them in `seen`, and unique values. */
  predicate MembersFit(members: seq<Member>, seen: set<string>) {
    && (forall i, j | 0 <= i < j < |members| :: members[i].name != members[j].name)
    && (forall i | 0 <= i < |members| :: members[i].name !in seen && Unique(members[i].value))
  }

  lemma MembersFitStep(members: seq<Member>, seen: set<string>)
    requires members != []
    ensures MembersFit(members, seen) <==>
              && members[0].name !in seen && Unique(members[0].value)
              && MembersFit(members[1..], seen + {members[0].name})
  {
    hide Unique;
    var tail := members[1..];
    if MembersFit(tail, seen + {members[0].name}) && members[0].name !in seen && Unique(members[0].value) {
      forall i | 0 <= i < |members|
        ensures members[i].name !in seen && Unique(members[i].value)
        ensures i > 0 ==> members[i].name != members[0].name
      {
        if i > 0 {
          assert members[i] == tail[i - 1];
        }
      }
      forall i, j | 0 <= i < j < |members|
        ensures members[i].name != members[j].name
      {
        if i > 0 {
          assert members[i] == tail[i - 1] && members[j] == tail[j - 1];
        }
      }
    }
  }

  predicate ItemsFit(items: seq<Json>) { forall i | 0 <= i < |items| :: Unique(items[i]) }

  /** On the tokens of any value, whatever follows: exactly the rest if its names are unique, else an error. */
  lemma {:induction false} ReadsItsValue(v: Json, rest: seq<Token>)
    ensures ReadValue(Tokens(v) + rest) == if Unique(v) then Some(rest) else None
    decreases v, 0
  {
    var ts := Tokens(v) + rest;
    match v {
      case JArray(items) =>
        assert ts[1..] == ItemTokens(items) + ([ArrayClose] + rest);
        ReadsItsItems(items, rest);
        assert Unique(v) == ItemsFit(items);
      case JObject(members) =>
        assert ts[1..] == MemberTokens(members) + ([ObjectClose] + rest);
        ReadsItsMembers(members, {}, rest);
        assert Unique(v) == MembersFit(members, {});
      case _ =>
        assert ts[1..] == rest;
    }
  }

  lemma {:induction false} ReadsItsItems(items: seq<Json>, rest: seq<Token>)
    ensures ReadItems(ItemTokens(items) + ([ArrayClose] + rest)) == if ItemsFit(items) then Some(rest) else None
    decreases items, 1
  {
    var ts := ItemTokens(items) + ([ArrayClose] + rest);
    if items == [] {
      assert ts[0] == ArrayClose && ts[1..] == rest;
    } else {
      var after := ItemTokens(items[1..]) + ([ArrayClose] + rest);
      assert ts == Tokens(items[0]) + after;
      FirstTokenOpens(items[0]);
      ReadsItsValue(items[0], after);
      ReadsItsItems(items[1..], rest);
      ItemsFitStep(items);
    }
  }

  lemma ItemsFitStep(items: seq<Json>)
    requires items != []
    ensures ItemsFit(items) <==> Unique(items[0]) && ItemsFit(items[1..])
  {
    hide Unique;
    assert items == [items[0]] + items[1..];
  }

  lemma FirstTokenOpens(v: Json)
    ensures !Tokens(v)[0].ObjectClose? && !Tokens(v)[0].ArrayClose?
  {
  }

  lemma {:induction false} ReadsItsMembers(members: seq<Member>, seen: set<string>, rest: seq<Token>)
    ensures ReadMembers(MemberTokens(members) + ([ObjectClose] + rest), seen)
         == if MembersFit(members, seen) then Some(rest) else None
    decreases members, 1
  {
    var ts := MemberTokens(members) + ([ObjectClose] + rest);
    if members == [] {
      assert ts[0] == ObjectClose && ts[1..] == rest;
    } else {
      var m := members[0];
      var after := MemberTokens(members[1..]) + ([ObjectClose] + rest);
      assert ts == [Text(m.name)] + (Tokens(m.value) + after);
      assert ts[1..] == Tokens(m.value) + after;
      MembersFitStep(members, seen);
      ReadsItsValue(m.value, after);
      ReadsItsMembers(members[1..], seen + {m.name}, rest);
      hide MembersFit, Unique;
    }
  }

  /** Whatever the reader accepts starts with the tokens of a value whose names are unique. */
  lemma {:induction false} AcceptedStartsWithValue(ts: seq<Token>) returns (v: Json)
    requires ReadValue(ts).Some?
    ensures Unique(v) && ts == Tokens(v) + ReadValue(ts).value
    decreases |ts|, 1
  {
    match ts[0] {
      case ObjectOpen =>
        var members := AcceptedMembers(ts[1..], {});
        v := JObject(members);
      case ArrayOpen =>
        var items := AcceptedItems(ts[1..]);
        v := JArray(items);
      case Text(text) => v := JString(text);
      case Null => v := JNull;
      case Bool(b) => v := JBool(b);
      case Number(literal) => v := JNumber(literal);
    }
  }

  lemma {:induction false} AcceptedMembers(ts: seq<Token>, seen: set<string>) returns (members: seq<Member>)
    requires ReadMembers(ts, seen).Some?
    ensures MembersFit(members, seen)
    ensures ts == MemberTokens(members) + ([ObjectClose] + ReadMembers(ts, seen).value)
    decreases |ts|, 0
  {
    if !More(ts) {
      members := [];
    } else {
      var name := ts[0].text;
      var v := AcceptedStartsWithValue(ts[1..]);
      var rest := ReadValue(ts[1..]).value;
      var tail := AcceptedMembers(rest, seen + {name});
      members := [Member(name, v)] + tail;
      assert ReadMembers(ts, seen) == ReadMembers(rest, seen + {name});
      hide MembersFit, Unique, ReadValue, ReadMembers;
      assert members[1..] == tail;
      MembersFitStep(members, seen);
      hide Tokens;
      assert ts == [Text(name)] + ts[1..];
    }
  }

  lemma {:induction false} AcceptedItems(ts: seq<Token>) returns (items: seq<Json>)
    requires ReadItems(ts).Some?
    ensures ItemsFit(items)
    ensures ts == ItemTokens(items) + ([ArrayClose] + ReadItems(ts).value)
    decreases |ts|, 2
  {
    if !More(ts) {
      items := [];
    } else {
      var v := AcceptedStartsWithValue(ts);
      var rest := ReadValue(ts).value;
      var tail := AcceptedItems(rest);
      items := [v] + tail;
      assert items[1..] == tail;
      ItemsFitStep(items);
    }
  }

  /** For every token sequence: the reader succeeds, leaving `rest`, exactly on a unique value followed by `rest`. */
  lemma ReaderIsExact(ts: seq<Token>, rest: seq<Token>)
    ensures ReadValue(ts) == Some(rest) <==> exists v :: Unique(v) && ts == Tokens(v) + rest
  {
    hide Unique;
    if ReadValue(ts) == Some(rest) {
      var v := AcceptedStartsWithValue(ts);
    }
    if v :| Unique(v) && ts == Tokens(v) + rest {
      ReadsItsValue(v, rest);
    }
  }

  // ---------------------------------------------------------------- tokens have one reading

  lemma ItemsStart(items: seq<Json>, rest: seq<Token>)
    ensures (ItemTokens(items) + ([ArrayClose] + rest))[0].ArrayClose? <==> items == []
  {
    if items != [] {
      FirstTokenOpens(items[0]);
    }
  }

  lemma MembersStart(members: seq<Member>, rest: seq<Token>)
    ensures (MemberTokens(members) + ([ObjectClose] + rest))[0].ObjectClose? <==> members == []
  {
  }

  /** Equal token streams come from equal values: no payload has two readings. */
  lemma {:induction false} OneReading(v: Json, w: Json, r: seq<Token>, q: seq<Token>)
    requires Tokens(v) + r == Tokens(w) + q
    ensures v == w && r == q
    decreases v, 0
  {
    var ts := Tokens(v) + r;
    assert ts[0] == Tokens(v)[0] == Tokens(w)[0];
    match v {
      case JArray(items) =>
        assert ts[1..] == ItemTokens(items) + ([ArrayClose] + r);
        assert ts[1..] == ItemTokens(w.items) + ([ArrayClose] + q);
        OneReadingOfItems(items, w.items, r, q);
      case JObject(members) =>
        assert ts[1..] == MemberTokens(members) + ([ObjectClose] + r);
        assert ts[1..] == MemberTokens(w.members) + ([ObjectClose] + q);
        OneReadingOfMembers(members, w.members, r, q);
      case _ =>
        assert ts[1..] == r && ts[1..] == q;
    }
  }

  lemma {:induction false} OneReadingOfItems(xs: seq<Json>, ys: seq<Json>, r: seq<Token>, q: seq<Token>)
    requires ItemTokens(xs) + ([ArrayClose] + r) == ItemTokens(ys) + ([ArrayClose] + q)
    ensures xs == ys && r == q
    decreases xs, 1
  {
    var ts := ItemTokens(xs) + ([ArrayClose] + r);
    ItemsStart(xs, r);
    ItemsStart(ys, q);
    if xs == [] {
      assert ts[1..] == r && ts[1..] == q;
    } else {
      var after, after' := ItemTokens(xs[1..]) + ([ArrayClose] + r), ItemTokens(ys[1..]) + ([ArrayClose] + q);
      assert ts == Tokens(xs[0]) + after && ts == Tokens(ys[0]) + after';
      OneReading(xs[0], ys[0], after, after');
      OneReadingOfItems(xs[1..], ys[1..], r, q);
      assert xs == [xs[0]] + xs[1..] && ys == [ys[0]] + ys[1..];
    }
  }

  lemma {:induction false} OneReadingOfMembers(xs: seq<Member>, ys: seq<Member>, r: seq<Token>, q: seq<Token>)
    requires MemberTokens(xs) + ([ObjectClose] + r) == MemberTokens(ys) + ([ObjectClose] + q)
    ensures xs == ys && r == q
    decreases xs, 1
  {
    var ts := MemberTokens(xs) + ([ObjectClose] + r);
    MembersStart(xs, r);
    MembersStart(ys, q);
    if xs == [] {
      assert ts[1..] == r && ts[1..] == q;
    } else {
      var x, y := xs[0], ys[0];
      var after, after' := MemberTokens(xs[1..]) + ([ObjectClose] + r), MemberTokens(ys[1..]) + ([ObjectClose] + q);
      assert ts == [Text(x.name)] + (Tokens(x.value) + after) && ts == [Text(y.name)] + (Tokens(y.value) + after');
      assert ts[0] == Text(x.name) && ts[0] == Text(y.name);
      assert ts[1..] == Tokens(x.value) + after && ts[1..] == Tokens(y.value) + after';
      OneReading(x.value, y.value, after, after');
      OneReadingOfMembers(xs[1..], ys[1..], r, q);
      assert xs == [x] + xs[1..] && ys == [y] + ys[1..];
    }
  }

  // ---------------------------------------------------------------- the reader as it runs

  /** json.Decoder in token mode: a position and the brackets that are open. */
  class Decoder {
    const tokens: seq<Token>
    var pos: nat
    var open: seq<Token>

    constructor (tokens: seq<Token>)
      ensures Valid() && this.tokens == tokens && Rest() == tokens && open == []
    {
      this.tokens, pos, open := tokens, 0, [];
    }

    predicate Valid()
      reads this
    {
      pos <= |tokens|
    }

    function Rest(): seq<Token>
      requires Valid()
      reads this
    {
      tokens[pos..]
    }

    /** The next token; None at the end of the input or for a bracket that closes nothing. */
    method Next() returns (t: Option<Token>)
      requires Valid()
      modifies this
      ensures Valid() && (t.None? ==> pos == old(pos) && open == old(open))
      ensures t.Some? ==>
                && old(Rest()) != [] && t.value == old(Rest())[0] && Rest() == old(Rest())[1..] && pos == old(pos) + 1
                && open == match t.value
                           case ObjectOpen => old(open) + [ObjectOpen]
                           case ArrayOpen => old(open) + [ArrayOpen]
                           case ObjectClose => if old(open) == [] then [] else old(open)[..|old(open)| - 1]
                           case ArrayClose => if old(open) == [] then [] else old(open)[..|old(open)| - 1]
                           case _ => old(open)
      ensures t.None? <==>
                || old(Rest()) == []
                || (old(Rest())[0].ObjectClose? && (old(open) == [] || !old(open)[|old(open)| - 1].ObjectOpen?))
                || (old(Rest())[0].ArrayClose? && (old(open) == [] || !old(open)[|old(open)| - 1].ArrayOpen?))
    {
      if pos == |tokens| {
        return None;
      }
      var next := tokens[pos];
      match next {
        case ObjectOpen => open := open + [ObjectOpen];
        case ArrayOpen => open := open + [ArrayOpen];
        case ObjectClose =>
          if open == [] || !open[|open| - 1].ObjectOpen? {
            return None;
          }
          open := open[..|open| - 1];
        case ArrayClose =>
          if open == [] || !open[|open| - 1].ArrayOpen? {
            return None;
          }
          open := open[..|open| - 1];
        case _ =>
      }
      pos := pos + 1;
      return Some(next);
    }
  }

  /** readUniqueJSONValue. */
  method ReadUniqueValue(d: Decoder) returns (ok: bool)
    requires d.Valid()
    modifies d
    ensures d.Valid()
    ensures ok <==> ReadValue(old(d.Rest())).Some?
    ensures ok ==> ReadValue(old(d.Rest())) == Some(d.Rest()) && d.open == old(d.open) && d.pos > old(d.pos)
    decreases |d.tokens| - d.pos
  {
    ghost var ts, outer := d.Rest(), d.open;
    var start := d.Next();
    if start.None? {
      return false;
    }
    match start.value {
      case ObjectOpen =>
        var seen: set<string> := {};
        while More(d.Rest())
          invariant d.Valid() && d.pos > old(d.pos) && d.open == outer + [ObjectOpen]
          invariant ReadValue(ts) == ReadMembers(d.Rest(), seen)
          decreases |d.tokens| - d.pos
        {
          var key := d.Next();
          if key.None? || !key.value.Text? || key.value.text in seen {
            return false;
          }
          seen := seen + {key.value.text};
          var read := ReadUniqueValue(d);
          if !read {
            return false;
          }
        }
      case ArrayOpen =>
        while More(d.Rest())
          invariant d.Valid() && d.pos > old(d.pos) && d.open == outer + [ArrayOpen]
          invariant ReadValue(ts) == ReadItems(d.Rest())
          decreases |d.tokens| - d.pos
        {
          var read := ReadUniqueValue(d);
          if !read {
            return false;
          }
        }
      case ObjectClose => return false;
      case ArrayClose => return false;
      case _ => return true;
    }
    var end := d.Next();
    return end.Some?;
  }

  lemma WholeInputIsOneValue(ts: seq<Token>)
    ensures ReadValue(ts) == Some([]) <==> exists v :: Unique(v) && ts == Tokens(v)
  {
    hide Unique, ReadValue, Tokens;
    ReaderIsExact(ts, []);
    if v :| Unique(v) && ts == Tokens(v) {
      assert ts == Tokens(v) + [];
    }
    if ReadValue(ts) == Some([]) {
      var v :| Unique(v) && ts == Tokens(v) + [];
      assert ts == Tokens(v);
    }
  }

  /** rejectDuplicateJSONKeys: one value with unique names, and nothing after it. */
  method RejectDuplicateKeys(tokens: seq<Token>) returns (ok: bool)
    ensures ok <==> exists v :: Unique(v) && tokens == Tokens(v)
  {
    hide Unique, ReadValue, Tokens;
    var d := new Decoder(tokens);
    ok := ReadUniqueValue(d);
    if ok {
      var more := d.Next();
      ok := more.None? && d.pos == |tokens|;
    }
    WholeInputIsOneValue(tokens);
  }
}
