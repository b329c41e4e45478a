/**
 * JSON documents as values, in the shape `json.loads` gives them to Python code
 * (objects become dicts, arrays lists). The text form and floating-point numbers
 * are not modelled.
 */
module JsonValue {
  import opened Wrappers

  datatype Json =
    | JNull
    | JBool(b: bool)
    | JInt(i: int)
    | JStr(s: string)
    | JArr(items: seq<Json>)
    | JObj(fields: map<string, Json>)

  /** Python truthiness of the decoded value (`if v:`, `v or default`, `bool(v)`). */
  predicate Truthy(v: Json) {
    match v
    case JNull => false
    case JBool(b) => b
    case JInt(i) => i != 0
    case JStr(s) => s != ""
    case JArr(items) => items != []
    case JObj(fields) => fields != map[]
  }

  /** The name Python reports for the value's type (`type(v).__name__`). */
  function TypeName(v: Json): string {
    match v
    case JNull => "NoneType"
    case JBool(_) => "bool"
    case JInt(_) => "int"
    case JStr(_) => "str"
    case JArr(_) => "list"
    case JObj(_) => "dict"
  }

  /** The message of the AttributeError raised when `v.attr` does not exist. */
  function NoAttribute(v: Json, attr: string): string {
    "'" + TypeName(v) + "' object has no attribute '" + attr + "'"
  }

  /**
   * `v.get(key)`: only a dict has `get`; a missing key gives None. Any other value
   * raises AttributeError.
   */
  function Get(v: Json, key: string): (r: Result<Json, Raised>)
    ensures r.Success? <==> v.JObj?
    ensures r.Success? && key in v.fields ==> r.value == v.fields[key]
    ensures r.Success? && key !in v.fields ==> r.value == JNull
    ensures r.Failure? ==> r.error == Raised(OtherError, NoAttribute(v, "get"))
  {
    if v.JObj? then Success(if key in v.fields then v.fields[key] else JNull)
    else Failure(Raised(OtherError, NoAttribute(v, "get")))
  }
}
