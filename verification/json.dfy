/** JSON values as the core handles them after `json.loads` or before
    `json.dumps`: the payloads of action details, finding evidence and the
    investigation context, and the snapshot tree itself. */
module JsonValues {
  import opened Wrappers
  import opened Dicts

  /** Objects keep their members in document order. Numbers are integers. */
  datatype Json =
    | JNull
    | JBool(b: bool)
    | JInt(i: int)
    | JStr(s: string)
    | JArr(items: seq<Json>)
    | JObj(fields: seq<(string, Json)>)

  /** The members of a JSON object; also the model of a Python
      `Dict[str, Any]` payload. */
  type Fields = seq<(string, Json)>

  /** Python's truthiness of a loaded value (`if value:`). */
  predicate Truthy(j: Json) {
    match j
    case JNull => false
    case JBool(b) => b
    case JInt(i) => i != 0
    case JStr(s) => |s| > 0
    case JArr(items) => |items| > 0
    case JObj(fields) => |fields| > 0
  }

  /** `obj.get(k)` on the dict `json.loads` builds from an object's members:
      when a member name repeats, the later member wins. */
  function Member(fields: Fields, k: string): Option<Json> {
    LastBinding(fields, k)
  }

  /** A member appended under another name leaves a lookup unchanged. */
  lemma MemberAfterOther(fields: Fields, k: string, v: Json, other: string)
    requires k != other
    ensures Member(fields + [(k, v)], other) == Member(fields, other)
  {
    assert (fields + [(k, v)])[..|fields|] == fields;
  }

  /** `Member` is the lookup in the dict built from the members. */
  lemma MemberIsDictLookup(fields: Fields, k: string)
    ensures Member(fields, k) == Get(FromPairs(fields), k)
  {
    AssignGet([], fields, k);
  }
}
