/** Payload schemas: which Go types an action may declare, and which values fit one exactly. */
module ActionSchema {
  import opened Base
  import Text
  import Spelling
  import opened Json
  import opened StrictJson

  /** A finite Go type as reflection shows it, as far as the two walks distinguish types. */
  datatype Schema =
    | Byte
    | Str
    | OtherScalar
    | Pointer(elem: Schema)
    | Slice(elem: Schema)
    | Array(elem: Schema)
    | Struct(fields: seq<Field>)
    | Opaque     // map, interface, func, chan, unsafe pointer

  datatype Field = Field(goName: string, tag: string, exported: bool, embedded: bool, schema: Schema)

  /** strings.Cut(tag, ","). */
  function BeforeComma(tag: string): string {
    if tag == "" || tag[0] == ',' then "" else [tag[0]] + BeforeComma(tag[1..])
  }

  /** jsonFieldName; empty for a field that JSON skips. */
  function JsonName(f: Field): string {
    var name := BeforeComma(f.tag);
    if name == "-" then "" else if name == "" then f.goName else name
  }

  function Deref(s: Schema): Schema { if s.Pointer? then Deref(s.elem) else s }

  /** rejectsRawCommandField. */
  predicate RejectsRawCommand(f: Field) {
    var name := Text.Lower(f.goName + " " + JsonName(f));
    || Text.Contains(name, "shell") || Text.Contains(name, "script")
    || (Text.Contains(name, "command") && Deref(f.schema) != Slice(Str))
  }

  /** The part of a tag up to its first comma. */
  predicate IsTagName(tag: string, name: string) {
    name <= tag && ',' !in name && (|name| < |tag| ==> tag[|name|] == ',')
  }

  lemma {:induction false} CutAtComma(tag: string)
    ensures IsTagName(tag, BeforeComma(tag))
  {
    if tag != "" && tag[0] != ',' {
      CutAtComma(tag[1..]);
    }
  }

  /** A field's JSON name: what its tag says before the first comma, its own name if that is empty, none for "-". */
  lemma JsonNamesExactly(f: Field)
    ensures exists name ::
              && IsTagName(f.tag, name)
              && JsonName(f) == if name == "-" then "" else if name == "" then f.goName else name
  {
    CutAtComma(f.tag);
  }

  /** A list of strings, perhaps behind pointers: the one type a command may have. */
  predicate IsArgumentList(s: Schema) {
    match s
    case Pointer(elem) => IsArgumentList(elem)
    case Slice(elem) => elem == Str
    case _ => false
  }

  lemma {:induction false} ArgumentListsExactly(s: Schema)
    ensures Deref(s) == Slice(Str) <==> IsArgumentList(s)
  {
    if s.Pointer? {
      ArgumentListsExactly(s.elem);
    }
  }

  /**
    A raw command is a field whose name, in Go or in JSON and in whatever case, says shell or script, or
    says command without being a list of arguments.
   */
  lemma RawCommandsExactly(f: Field)
    ensures var names := f.goName + " " + JsonName(f);
            RejectsRawCommand(f) <==>
              || Spelling.SaysSomewhere(names, "shell") || Spelling.SaysSomewhere(names, "script")
              || (Spelling.SaysSomewhere(names, "command") && !IsArgumentList(f.schema))
  {
    hide JsonName, Deref, IsArgumentList, Text.Contains, Text.Lower, Spelling.SaysSomewhere;
    var names := f.goName + " " + JsonName(f);
    ArgumentListsExactly(f.schema);
    Spelling.SearchIsExact(names, "shell");
    Spelling.SearchIsExact(names, "script");
    Spelling.SearchIsExact(names, "command");
  }

  // ---------------------------------------------------------------- validatePayloadType

  predicate AcceptsType(s: Schema) {
    match s
    case Pointer(elem) => AcceptsType(elem)
    case Struct(fields) => AcceptsFields(fields, {})
    case Slice(elem) => elem != Byte && AcceptsType(elem)
    case Array(elem) => elem != Byte && AcceptsType(elem)
    case Opaque => false
    case _ => true
  }

  /** The loop over a struct's fields with the JSON names seen so far. */
  predicate AcceptsFields(fields: seq<Field>, seen: set<string>) {
    if fields == [] then true
    else
      var f := fields[0];
      var name := JsonName(f);
      && f.exported && !f.embedded
      && if name == "" then AcceptsFields(fields[1..], seen)
         else
           && name !in seen && !RejectsRawCommand(f)
           && AcceptsType(f.schema)
           && AcceptsFields(fields[1..], seen + {name})
  }

  predicate AcceptsRoot(s: Schema) { s.Struct? && AcceptsType(s) }

  /** A position inside a type: a field's index, or 0 for what a pointer or list holds. */
  function SubType(s: Schema, path: Path): Option<Schema> {
    if path == [] then Some(s)
    else
      match s
      case Pointer(elem) => if path[0] == 0 then SubType(elem, path[1..]) else None
      case Slice(elem) => if path[0] == 0 then SubType(elem, path[1..]) else None
      case Array(elem) => if path[0] == 0 then SubType(elem, path[1..]) else None
      case Struct(fields) =>
        if path[0] < |fields| && JsonName(fields[path[0]]) != ""
        then SubType(fields[path[0]].schema, path[1..]) else None
      case _ => None
  }

  /** What one position of an accepted type looks like. */
  predicate PositionOk(s: Schema) {
    match s
    case Struct(fields) =>
      && (forall i | 0 <= i < |fields| :: fields[i].exported && !fields[i].embedded)
      && (forall i, j | 0 <= i < j < |fields| && JsonName(fields[i]) != "" ::
        JsonName(fields[i]) != JsonName(fields[j]))
      && (forall i | 0 <= i < |fields| && JsonName(fields[i]) != "" :: !RejectsRawCommand(fields[i]))
    case Slice(elem) => elem != Byte
    case Array(elem) => elem != Byte
    case Opaque => false
    case _ => true
  }

  ghost predicate EveryPositionOk(s: Schema) {
    forall path :: SubType(s, path).Some? ==> PositionOk(SubType(s, path).value)
  }

  /** The loop over the fields, without the loop. */
  predicate FieldsOk(fields: seq<Field>, seen: set<string>) {
    && (forall i | 0 <= i < |fields| :: fields[i].exported && !fields[i].embedded)
    && (forall i, j | 0 <= i < j < |fields| && JsonName(fields[i]) != "" :: JsonName(fields[i]) != JsonName(fields[j]))
    && (forall i | 0 <= i < |fields| && JsonName(fields[i]) != "" ::
          JsonName(fields[i]) !in seen && !RejectsRawCommand(fields[i]) && AcceptsType(fields[i].schema))
  }

  lemma FieldsOkStep(fields: seq<Field>, seen: set<string>)
    requires fields != []
    ensures var f := fields[0];
            FieldsOk(fields, seen) <==>
              && f.exported && !f.embedded
              && (JsonName(f) != "" ==> JsonName(f) !in seen && !RejectsRawCommand(f) && AcceptsType(f.schema))
              && FieldsOk(fields[1..], if JsonName(f) == "" then seen else seen + {JsonName(f)})
  {
    hide JsonName, RejectsRawCommand, AcceptsType;
    var f, tail := fields[0], fields[1..];
    var seen' := if JsonName(f) == "" then seen else seen + {JsonName(f)};
    assert fields == [f] + tail;
    if FieldsOk(fields, seen) {
      assert forall i | 0 <= i < |tail| :: tail[i] == fields[i + 1];
    }
    if f.exported && !f.embedded && FieldsOk(tail, seen')
       && (JsonName(f) != "" ==> JsonName(f) !in seen && !RejectsRawCommand(f) && AcceptsType(f.schema)) {
      assert forall i | 0 < i < |fields| :: fields[i] == tail[i - 1];
    }
  }

  lemma {:induction false} FieldsLoop(fields: seq<Field>, seen: set<string>)
    ensures AcceptsFields(fields, seen) <==> FieldsOk(fields, seen)
    decreases |fields|
  {
    hide JsonName, RejectsRawCommand, AcceptsType, FieldsOk;
    if fields == [] {
      NoFieldsOk(seen);
    } else {
      FieldsOkStep(fields, seen);
      FieldsLoop(fields[1..], if JsonName(fields[0]) == "" then seen else seen + {JsonName(fields[0])});
    }
  }

  lemma NoFieldsOk(seen: set<string>)
    ensures FieldsOk([], seen)
  {
  }

  lemma {:induction false} AcceptedPositionsAreOk(s: Schema, path: Path)
    requires AcceptsType(s) && SubType(s, path).Some?
    ensures PositionOk(SubType(s, path).value)
    decreases s, |path|
  {
    hide JsonName, RejectsRawCommand;
    if s.Struct? {
      FieldsLoop(s.fields, {});
    }
    if path != [] {
      match s {
        case Pointer(elem) => AcceptedPositionsAreOk(elem, path[1..]);
        case Slice(elem) => AcceptedPositionsAreOk(elem, path[1..]);
        case Array(elem) => AcceptedPositionsAreOk(elem, path[1..]);
        case Struct(fields) => AcceptedPositionsAreOk(fields[path[0]].schema, path[1..]);
      }
    }
  }

  lemma SubTypeStep(s: Schema, i: nat, inner: Schema)
    requires SubType(s, [i]) == Some(inner) && EveryPositionOk(s)
    ensures EveryPositionOk(inner)
  {
    hide JsonName, PositionOk;
    forall path | SubType(inner, path).Some?
      ensures PositionOk(SubType(inner, path).value)
    {
      assert ([i] + path)[1..] == path && [i][1..] == [];
      assert SubType(s, [i] + path) == SubType(inner, path);
    }
  }

  lemma {:induction false} OkPositionsAreAccepted(s: Schema)
    requires EveryPositionOk(s)
    ensures AcceptsType(s)
  {
    hide JsonName, RejectsRawCommand;
    assert SubType(s, []) == Some(s);
    assert PositionOk(s);
    assert [0][1..] == [];
    match s {
      case Pointer(elem) => SubTypeStep(s, 0, elem); OkPositionsAreAccepted(elem);
      case Slice(elem) => SubTypeStep(s, 0, elem); OkPositionsAreAccepted(elem);
      case Array(elem) => SubTypeStep(s, 0, elem); OkPositionsAreAccepted(elem);
      case Struct(fields) =>
        forall i | 0 <= i < |fields| && JsonName(fields[i]) != ""
          ensures AcceptsType(fields[i].schema)
        {
          assert [i][1..] == [];
          SubTypeStep(s, i, fields[i].schema);
          OkPositionsAreAccepted(fields[i].schema);
        }
        FieldsLoop(fields, {});
      case _ =>
    }
  }

  /**
    validatePayloadType accepts a type exactly when it is a struct and nowhere inside it, however
    deep, is there an open-ended type, a byte list, a hidden or ambiguous field, or a raw command.
   */
  lemma AcceptedTypesExactly(s: Schema)
    ensures AcceptsRoot(s) <==> s.Struct? && EveryPositionOk(s)
  {
    hide JsonName, PositionOk;
    if AcceptsType(s) {
      forall path | SubType(s, path).Some?
        ensures PositionOk(SubType(s, path).value)
      {
        AcceptedPositionsAreOk(s, path);
      }
    }
    if EveryPositionOk(s) {
      OkPositionsAreAccepted(s);
    }
  }

  /** Nowhere inside an accepted type is there an open-ended type or a list of bytes, or a hidden or embedded field. */
  lemma AcceptedTypesAreClosed(s: Schema, path: Path)
    requires AcceptsRoot(s) && SubType(s, path).Some?
    ensures SubType(s, path).value !in {Opaque, Slice(Byte), Array(Byte)}
    ensures SubType(s, path).value.Struct? ==>
              forall f | f in SubType(s, path).value.fields :: f.exported && !f.embedded
  {
    AcceptedPositionsAreOk(s, path);
  }

  // ---------------------------------------------------------------- validateJSONFieldNames

  /** The entry for a name in the map built from the fields: the last field with that JSON name. */
  function FieldFor(fields: seq<Field>, name: string): (r: Option<Field>)
    ensures r.Some? ==> r.value in fields && JsonName(r.value) == name && name != ""
    ensures r.None? ==> forall f | f in fields :: name == "" || JsonName(f) != name
  {
    if fields == [] || name == "" then None
    else
      var last := fields[|fields| - 1];
      if JsonName(last) == name then Some(last) else FieldFor(fields[..|fields| - 1], name)
  }

  /** Of several fields with one JSON name the last is taken. */
  lemma {:induction false} LastFieldWins(fields: seq<Field>, name: string) returns (k: nat)
    requires FieldFor(fields, name).Some?
    ensures k < |fields| && FieldFor(fields, name) == Some(fields[k]) && JsonName(fields[k]) == name
    ensures forall j | k < j < |fields| :: JsonName(fields[j]) != name
  {
    hide JsonName;
    k := |fields| - 1;
    if JsonName(fields[k]) != name {
      k := LastFieldWins(fields[..k], name);
    }
  }

  /** Unmarshalling an object into a map keeps the last member of each name. */
  predicate Kept(members: seq<Member>, i: nat)
    requires i < |members|
  {
    forall j | i < j < |members| :: members[j].name != members[i].name
  }

  predicate NamesFit(v: Json, s: Schema)
    decreases v, s
  {
    match s
    case Pointer(elem) => v.JNull? || NamesFit(v, elem)
    case Struct(fields) =>
      v.JObject? && forall i | 0 <= i < |v.members| && Kept(v.members, i) ::
        var f := FieldFor(fields, v.members[i].name);
        f.Some? && NamesFit(v.members[i].value, f.value.schema)
    case Slice(elem) => v.JNull? || (v.JArray? && forall i | 0 <= i < |v.items| :: NamesFit(v.items[i], elem))
    case Array(elem) => v.JNull? || (v.JArray? && forall i | 0 <= i < |v.items| :: NamesFit(v.items[i], elem))
    case _ => true
  }

  /** Null stands for everything but a struct; otherwise a struct takes an object, and a list an array. */
  lemma ShapesFit(v: Json, s: Schema)
    ensures NamesFit(JNull, s) <==> !s.Struct?
    ensures s.Struct? && NamesFit(v, s) ==> v.JObject?
    ensures (s.Slice? || s.Array?) && NamesFit(v, s) ==> v.JNull? || v.JArray?
  {
  }

  /** The part of a payload at `path`, with the part of the schema it is held against. */
  function Reach(v: Json, s: Schema, path: Path): Option<(Json, Schema)>
    decreases |path|, s
  {
    if path == [] then Some((v, s))
    else
      match s
      case Pointer(elem) => Reach(v, elem, path)
      case Struct(fields) =>
        if v.JObject? && path[0] < |v.members| then
          match FieldFor(fields, v.members[path[0]].name)
          case None => None
          case Some(f) => Reach(v.members[path[0]].value, f.schema, path[1..])
        else None
      case Slice(elem) => if v.JArray? && path[0] < |v.items| then Reach(v.items[path[0]], elem, path[1..]) else None
      case Array(elem) => if v.JArray? && path[0] < |v.items| then Reach(v.items[path[0]], elem, path[1..]) else None
      case _ => None
  }

  /** A value against the schema of its own position only. */
  predicate Matches(v: Json, s: Schema) {
    match s
    case Pointer(elem) => v.JNull? || Matches(v, elem)
    case Struct(fields) => v.JObject? && forall m | m in v.members :: FieldFor(fields, m.name).Some?
    case Slice(_) => v.JNull? || v.JArray?
    case Array(_) => v.JNull? || v.JArray?
    case _ => true
  }

  ghost predicate MatchesEverywhere(v: Json, s: Schema) {
    forall path :: Reach(v, s, path).Some? ==> Matches(Reach(v, s, path).value.0, Reach(v, s, path).value.1)
  }

  lemma UniqueKeepsAll(v: Json, i: nat)
    requires Unique(v) && v.JObject? && i < |v.members|
    ensures Kept(v.members, i) && Unique(v.members[i].value)
  {
  }

  lemma {:induction false} FittingMatches(v: Json, s: Schema)
    requires Unique(v) && NamesFit(v, s)
    ensures Matches(v, s)
    decreases s
  {
    hide FieldFor;
    match s {
      case Pointer(elem) =>
        if !v.JNull? {
          FittingMatches(v, elem);
        }
      case Struct(fields) =>
        forall m | m in v.members
          ensures FieldFor(fields, m.name).Some?
        {
          var i :| 0 <= i < |v.members| && v.members[i] == m;
          UniqueKeepsAll(v, i);
        }
      case _ =>
    }
  }

  lemma {:induction false} FittingMatchesAt(v: Json, s: Schema, path: Path)
    requires Unique(v) && NamesFit(v, s) && Reach(v, s, path).Some?
    ensures Matches(Reach(v, s, path).value.0, Reach(v, s, path).value.1)
    decreases |path|, s
  {
    hide FieldFor, Matches;
    if path == [] {
      FittingMatches(v, s);
    } else {
      match s {
        case Pointer(elem) =>
          if v.JNull? {
            NullReachesNothing(elem, path);
          }
          FittingMatchesAt(v, elem, path);
        case Struct(fields) =>
          UniqueKeepsAll(v, path[0]);
          FittingMatchesAt(v.members[path[0]].value, FieldFor(fields, v.members[path[0]].name).value.schema, path[1..]);
        case Slice(elem) => FittingMatchesAt(v.items[path[0]], elem, path[1..]);
        case Array(elem) => FittingMatchesAt(v.items[path[0]], elem, path[1..]);
      }
    }
  }

  lemma {:induction false} NullReachesNothing(s: Schema, path: Path)
    requires path != []
    ensures Reach(JNull, s, path).None?
    decreases s
  {
    if s.Pointer? {
      NullReachesNothing(s.elem, path);
    }
  }

  /** What matches everywhere matches everywhere below. */
  lemma MatchesBelow(v: Json, s: Schema, i: nat, w: Json, inner: Schema)
    requires MatchesEverywhere(v, s)
    requires forall path: Path :: Reach(v, s, [i] + path) == Reach(w, inner, path)
    ensures MatchesEverywhere(w, inner)
  {
    hide Matches, Reach;
    forall path | Reach(w, inner, path).Some?
      ensures Matches(Reach(w, inner, path).value.0, Reach(w, inner, path).value.1)
    {
      assert Reach(v, s, [i] + path) == Reach(w, inner, path);
    }
  }

  lemma ReachMember(v: Json, fields: seq<Field>, i: nat, path: Path)
    requires v.JObject? && i < |v.members| && FieldFor(fields, v.members[i].name).Some?
    ensures Reach(v, Struct(fields), [i] + path)
         == Reach(v.members[i].value, FieldFor(fields, v.members[i].name).value.schema, path)
  {
    hide FieldFor;
    assert ([i] + path)[1..] == path;
  }

  lemma ReachItem(v: Json, s: Schema, i: nat, path: Path)
    requires v.JArray? && i < |v.items| && (s.Slice? || s.Array?)
    ensures Reach(v, s, [i] + path) == Reach(v.items[i], s.elem, path)
  {
    assert ([i] + path)[1..] == path;
  }

  lemma ThroughPointer(v: Json, s: Schema)
    requires s.Pointer? && !v.JNull? && MatchesEverywhere(v, s)
    ensures MatchesEverywhere(v, s.elem)
  {
    forall path | Reach(v, s.elem, path).Some?
      ensures Matches(Reach(v, s.elem, path).value.0, Reach(v, s.elem, path).value.1)
    {
      assert path != [] ==> Reach(v, s, path) == Reach(v, s.elem, path);
      assert Reach(v, s, []) == Some((v, s));
    }
  }

  lemma {:induction false} MatchingFits(v: Json, s: Schema)
    requires MatchesEverywhere(v, s)
    ensures NamesFit(v, s)
    decreases v, s
  {
    hide FieldFor;
    assert Reach(v, s, []) == Some((v, s));
    assert Matches(v, s);
    match s {
      case Pointer(elem) =>
        if !v.JNull? {
          ThroughPointer(v, s);
          MatchingFits(v, elem);
        }
      case Struct(fields) =>
        forall i | 0 <= i < |v.members|
          ensures FieldFor(fields, v.members[i].name).Some?
          ensures NamesFit(v.members[i].value, FieldFor(fields, v.members[i].name).value.schema)
        {
          assert v.members[i] in v.members;
          var inner := FieldFor(fields, v.members[i].name).value.schema;
          forall path: Path
            ensures Reach(v, s, [i] + path) == Reach(v.members[i].value, inner, path)
          {
            ReachMember(v, fields, i, path);
          }
          MatchesBelow(v, s, i, v.members[i].value, inner);
          MatchingFits(v.members[i].value, inner);
        }
      case Slice(elem) => MatchingItemsFit(v, s);
      case Array(elem) => MatchingItemsFit(v, s);
      case _ =>
    }
  }

  lemma {:induction false} MatchingItemsFit(v: Json, s: Schema)
    requires (s.Slice? || s.Array?) && MatchesEverywhere(v, s)
    ensures v.JArray? ==> forall i | 0 <= i < |v.items| :: NamesFit(v.items[i], s.elem)
    decreases v, s, 0
  {
    if v.JArray? {
      forall i | 0 <= i < |v.items|
        ensures NamesFit(v.items[i], s.elem)
      {
        forall path: Path
          ensures Reach(v, s, [i] + path) == Reach(v.items[i], s.elem, path)
        {
          ReachItem(v, s, i, path);
        }
        MatchesBelow(v, s, i, v.items[i], s.elem);
        MatchingFits(v.items[i], s.elem);
      }
    }
  }

  // ---------------------------------------------------------------- the whole payload check

  /** decodeActionPayload up to the decoding itself. */
  ghost predicate AcceptsPayload(ts: seq<Token>, s: Schema) {
    ReadValue(ts) == Some([]) && exists v :: ts == Tokens(v) && v.JObject? && NamesFit(v, s)
  }

  /**
    A payload passes all checks exactly when it is one object whose names are unique at every depth
    and which matches the schema at every position.
   */
  lemma AcceptedPayloadsExactly(ts: seq<Token>, s: Schema)
    ensures AcceptsPayload(ts, s) <==>
              exists v :: ts == Tokens(v) && v.JObject? && Unique(v) && MatchesEverywhere(v, s)
  {
    hide Unique, NamesFit, MatchesEverywhere, ReadValue;
    if v :| ts == Tokens(v) && v.JObject? && NamesFit(v, s) && ReadValue(ts) == Some([]) {
      assert Tokens(v) + [] == Tokens(v);
      ReadsItsValue(v, []);
      forall path | Reach(v, s, path).Some?
        ensures Matches(Reach(v, s, path).value.0, Reach(v, s, path).value.1)
      {
        FittingMatchesAt(v, s, path);
      }
      assert MatchesEverywhere(v, s) by {
        EverywhereByPaths(v, s);
      }
    }
    if v :| ts == Tokens(v) && v.JObject? && Unique(v) && MatchesEverywhere(v, s) {
      assert Tokens(v) + [] == Tokens(v);
      ReadsItsValue(v, []);
      MatchingFits(v, s);
    }
  }

  lemma EverywhereByPaths(v: Json, s: Schema)
    requires forall path :: Reach(v, s, path).Some? ==> Matches(Reach(v, s, path).value.0, Reach(v, s, path).value.1)
    ensures MatchesEverywhere(v, s)
  {
  }

  lemma {:induction false} UniqueBelow(v: Json, s: Schema, path: Path)
    requires Unique(v) && Reach(v, s, path).Some?
    ensures Unique(Reach(v, s, path).value.0)
    decreases |path|, s
  {
    hide FieldFor;
    if path != [] {
      match s {
        case Pointer(elem) => UniqueBelow(v, elem, path);
        case Struct(fields) =>
          UniqueKeepsAll(v, path[0]);
          UniqueBelow(v.members[path[0]].value, FieldFor(fields, v.members[path[0]].name).value.schema, path[1..]);
        case Slice(elem) => UniqueBelow(v.items[path[0]], elem, path[1..]);
        case Array(elem) => UniqueBelow(v.items[path[0]], elem, path[1..]);
      }
    }
  }

  /** Every schema a payload is held against is a position of the whole schema. */
  lemma {:induction false} ReachedTypeIsInside(v: Json, s: Schema, path: Path) returns (at: Path)
    requires Reach(v, s, path).Some?
    ensures SubType(s, at) == Some(Reach(v, s, path).value.1)
    decreases |path|, s
  {
    hide JsonName;
    at := [];
    if path != [] {
      var below;
      var step := 0;
      match s {
        case Pointer(elem) => below := ReachedTypeIsInside(v, elem, path);
        case Struct(fields) =>
          var f := FieldFor(fields, v.members[path[0]].name).value;
          below := ReachedTypeIsInside(v.members[path[0]].value, f.schema, path[1..]);
          step :| 0 <= step < |fields| && fields[step] == f;
        case Slice(elem) => below := ReachedTypeIsInside(v.items[path[0]], elem, path[1..]);
        case Array(elem) => below := ReachedTypeIsInside(v.items[path[0]], elem, path[1..]);
      }
      at := [step] + below;
      assert at[1..] == below;
    }
  }

  /** The name is the JSON name of exactly one field, and that field is plain and no raw command. */
  ghost predicate DeclaredOnce(fields: seq<Field>, name: string) {
    exists k | 0 <= k < |fields| ::
      && JsonName(fields[k]) == name && fields[k].exported && !fields[k].embedded && !RejectsRawCommand(fields[k])
      && forall i | 0 <= i < |fields| && i != k :: JsonName(fields[i]) != name
  }

  lemma MatchedNamesAreDeclaredOnce(fields: seq<Field>, name: string)
    requires PositionOk(Struct(fields)) && FieldFor(fields, name).Some?
    ensures DeclaredOnce(fields, name)
  {
    hide JsonName, RejectsRawCommand;
    var f := FieldFor(fields, name).value;
    var k :| 0 <= k < |fields| && fields[k] == f;
    assert forall i | 0 <= i < |fields| && i != k :: JsonName(fields[i]) != name;
  }

  /**
    At every struct position of an accepted payload under an accepted schema stands an object with
    distinct names, each spelled exactly as exactly one field declares it.
   */
  lemma AcceptedObjectsAreExact(v: Json, s: Schema, path: Path)
    requires AcceptsRoot(s) && AcceptsPayload(Tokens(v), s)
    requires Reach(v, s, path).Some? && Reach(v, s, path).value.1.Struct?
    ensures var (x, t) := Reach(v, s, path).value;
            && x.JObject?
            && (forall i, j | 0 <= i < j < |x.members| :: x.members[i].name != x.members[j].name)
            && forall m | m in x.members :: DeclaredOnce(t.fields, m.name)
  {
    hide PositionOk, AcceptsType, DeclaredOnce, FieldFor;
    var w :| Tokens(v) == Tokens(w) && w.JObject? && NamesFit(w, s);
    assert Tokens(v) + [] == Tokens(v) && Tokens(w) + [] == Tokens(w);
    OneReading(v, w, [], []);
    ReadsItsValue(v, []);
    UniqueBelow(v, s, path);
    FittingMatchesAt(v, s, path);
    var at := ReachedTypeIsInside(v, s, path);
    AcceptedPositionsAreOk(s, at);
    var (x, t) := Reach(v, s, path).value;
    hide Tokens, ReadValue, NamesFit, Reach;
    forall m | m in x.members
      ensures DeclaredOnce(t.fields, m.name)
    {
      MatchedNamesAreDeclaredOnce(t.fields, m.name);
    }
  }
}
