/** The JSON documents the indexing samples read (nlohmann::json), as values.
    Numbers are integers here; floating-point numbers are not modelled. */
module JsonValue {

  datatype Json =
    | JsonNull
    | Boolean(b: bool)
    | Number(n: int)
    | Str(s: string)
    | Array(elements: seq<Json>)
    | Object(members: map<string, Json>)

  /** json::contains: false on anything that is not an object. */
  predicate Contains(j: Json, key: string)
  {
    j.Object? && key in j.members
  }

  /** The member `key` of an object that contains it. */
  function Member(j: Json, key: string): Json
    requires Contains(j, key)
  {
    j.members[key]
  }

  /** The document parsed from an absent event payload, "{}". */
  const EmptyObject := Object(map[])
}
