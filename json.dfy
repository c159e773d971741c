/**
 * JSON values as Python sees them after `json.loads`, and the few Python
 * operations the core applies to them (`in`, `[]`, `.get`, truthiness,
 * `len`, iteration and `str`). Each operation that can raise in Python
 * returns None in that case.
 */
module Json {
  import opened Wrappers
  import opened Text
  import opened Dicts

  /** Objects keep their members in document order; `json.loads` leaves their keys distinct. */
  datatype Json =
    | JNull
    | JBool(b: bool)
    | JNum(n: int)
    | JStr(s: string)
    | JArr(items: seq<Json>)
    | JObj(members: Dict<Json>)

  /** `json.loads`, supplied from outside: None when it raises. */
  type Parser = string -> Option<Json>

  /** Python `key in j`: membership of keys for a dict, of elements for a list, of substrings for a str. */
  function PyIn(key: string, j: Json): (r: Option<bool>)
    ensures r.None? <==> !(j.JObj? || j.JArr? || j.JStr?)
    ensures j.JObj? ==> r == Some(HasKey(j.members, key))
  {
    match j
    case JObj(m) => Some(HasKey(m, key))
    case JArr(items) => Some(JStr(key) in items)
    case JStr(s) => Some(Contains(s, key))
    case _ => None
  }

  /** Python `j[key]` with a string key: only a dict holding `key` answers, everything else raises. */
  function PyIndex(j: Json, key: string): (r: Option<Json>)
    ensures r.Some? <==> j.JObj? && HasKey(j.members, key)
    ensures j.JObj? ==> r == Get(j.members, key)
  {
    if j.JObj? then Get(j.members, key) else None
  }

  /** Python `j.get(key, default)`: raises (None) unless `j` is a dict. */
  function PyGet(j: Json, key: string, default: Json): (r: Option<Json>)
    ensures r.Some? <==> j.JObj?
    ensures j.JObj? && HasKey(j.members, key) ==> r == Get(j.members, key)
    ensures j.JObj? && !HasKey(j.members, key) ==> r == Some(default)
  {
    if j.JObj? then Some(Get(j.members, key).GetOr(default)) else None
  }

  /** Python truthiness. */
  predicate Truthy(j: Json) {
    match j
    case JNull => false
    case JBool(b) => b
    case JNum(n) => n != 0
    case JStr(s) => s != ""
    case JArr(items) => items != []
    case JObj(m) => m != []
  }

  /** Python `len(j)`: defined for strings, lists and dicts only. */
  function PyLen(j: Json): (r: Option<nat>)
    ensures r.Some? <==> (j.JStr? || j.JArr? || j.JObj?)
  {
    match j
    case JStr(s) => Some(|s|)
    case JArr(items) => Some(|items|)
    case JObj(m) => Some(|m|)
    case _ => None
  }

  /** Python `for x in j`: list elements, dict keys, or the characters of a string. */
  function PyIter(j: Json): (r: Option<seq<Json>>)
    ensures r.Some? <==> (j.JStr? || j.JArr? || j.JObj?)
    ensures j.JArr? ==> r == Some(j.items)
  {
    match j
    case JArr(items) => Some(items)
    case JObj(m) => Some(seq(|m|, i requires 0 <= i < |m| => JStr(m[i].0)))
    case JStr(s) => Some(seq(|s|, i requires 0 <= i < |s| => JStr([s[i]])))
    case _ => None
  }

  /** Python `str(j)`: the text itself for a string, the representation otherwise. */
  function PyStr(j: Json): string {
    if j.JStr? then j.s else PyRepr(j)
  }

  /**
   * Python `repr(j)` for the values `json.loads` builds. String quoting is
   * simplified to single quotes with no escaping.
   */
  function PyRepr(j: Json): string
    decreases j
  {
    match j
    case JNull => "None"
    case JBool(b) => if b then "True" else "False"
    case JNum(n) => IntToString(n)
    case JStr(s) => "'" + s + "'"
    case JArr(items) =>
      "[" + Join(seq(|items|, i requires 0 <= i < |items| => PyRepr(items[i])), ", ") + "]"
    case JObj(m) =>
      "{" + Join(seq(|m|, i requires 0 <= i < |m| => "'" + m[i].0 + "': " + PyRepr(m[i].1)), ", ") + "}"
  }
}
