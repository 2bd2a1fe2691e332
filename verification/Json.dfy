/** JSON values as trees; an object keeps its members in document order, duplicates included. */
module Json {
  import opened Base

  datatype Json =
    | JNull
    | JBool(b: bool)
    | JNumber(literal: string)
    | JString(text: string)
    | JArray(items: seq<Json>)
    | JObject(members: seq<Member>)

  datatype Member = Member(name: string, value: Json)

  /** A position inside a value: the index of an item or member at every level on the way down. */
  type Path = seq<nat>

  function Child(v: Json, i: nat): Option<Json> {
    match v
    case JArray(items) => if i < |items| then Some(items[i]) else None
    case JObject(members) => if i < |members| then Some(members[i].value) else None
    case _ => None
  }

  function At(v: Json, path: Path): Option<Json> {
    if path == [] then Some(v)
    else
      match Child(v, path[0])
      case None => None
      case Some(child) => At(child, path[1..])
  }
}
