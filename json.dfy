/** JSON values as Python holds them after `json.loads`, and the few built-ins the transforms
  * and the analytics apply to them. */
module JsonValues {

  /** `None`, `bool`, `int`, `float`, `str`, `list` and `dict`. */
  datatype Json =
    | Null
    | Bool(b: bool)
    | Int(i: int)
    | Float(f: real)
    | Str(s: string)
    | List(elems: seq<Json>)
    | Dict(fields: map<string, Json>)

  /** Python truthiness: `None`, `False`, zero, and empty strings, lists and dicts are false. */
  predicate Truthy(j: Json) {
    match j
    case Null => false
    case Bool(b) => b
    case Int(i) => i != 0
    case Float(f) => f != 0.0
    case Str(s) => s != []
    case List(e) => e != []
    case Dict(m) => |m| != 0
  }

  /** `a or b`. */
  function Or(a: Json, b: Json): Json {
    if Truthy(a) then a else b
  }

  /** `d.get(k, default)`. */
  function GetKey(d: map<string, Json>, k: string, default: Json): Json {
    if k in d then d[k] else default
  }

  /** `str(j)` for a string is the string itself; for every other value it is Python's
    * `repr`-like rendering, which is not modelled and comes in as `render`. */
  function Display(j: Json, render: Json -> string): string {
    if j.Str? then j.s else render(j)
  }
}
