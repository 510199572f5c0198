/**
 * The tree a JSON parser hands to the mapper, reduced to what the mapper and
 * the repository binding can observe. Parsing itself is not modelled: the
 * service receives it as an oracle from text to `Parse<Json>`.
 */
module JsonTree {
  import opened Wrappers

  datatype Json =
    | JObject(fields: map<string, Json>)
    | JArray(items: seq<Json>)
    | JString(text: string)
      /** A number or boolean, carrying the text the parser renders it as. */
    | JScalar(text: string)
    | JNull
      /** The node a lookup returns for an absent key. */
    | JMissing

  /** Outcome of the parsing oracle: a tree, or a processing failure. */
  datatype Parse<+T> = Parsed(tree: T) | ParseFail

  /** Jackson's `path(key)`: the member of an object, else the missing node. */
  function Path(node: Json, key: string): (r: Json)
    ensures node.JObject? && key in node.fields ==> r == node.fields[key]
    ensures !(node.JObject? && key in node.fields) ==> r == JMissing
  {
    if node.JObject? && key in node.fields then node.fields[key] else JMissing
  }

  /** Jackson's `asText(null)`: text of a value node, `""` for a container, null otherwise. */
  function AsTextOrNull(node: Json): (r: Option<string>)
    ensures r.None? <==> node.JNull? || node.JMissing?
    ensures node.JString? || node.JScalar? ==> r == Some(node.text)
    ensures node.JObject? || node.JArray? ==> r == Some("")
  {
    match node
    case JString(t) => Some(t)
    case JScalar(t) => Some(t)
    case JObject(_) => Some("")
    case JArray(_) => Some("")
    case JNull => None
    case JMissing => None
  }
}
