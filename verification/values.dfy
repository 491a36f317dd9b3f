/**
 * The dynamically typed values that flow through the system: document
 * metadata, parsed intent JSON, operation results. Dictionaries keep their
 * insertion order (see OrderedDict).
 */
module Values {
  import opened Wrappers
  import opened OrderedDict
  import opened Strings

  /** A Python value. `VOpaque` stands for objects the model never looks into. */
  datatype Value =
    | VNone
    | VBool(b: bool)
    | VInt(i: int)
    | VReal(r: real)
    | VStr(s: string)
    | VList(items: seq<Value>)
    | VDict(entries: seq<(string, Value)>)
    | VOpaque(name: string)

  /** A Python `dict` with string keys. */
  type Dict = seq<(string, Value)>

  /** Python truthiness: `if v:`. */
  predicate Truthy(v: Value) {
    match v
    case VNone => false
    case VBool(b) => b
    case VInt(i) => i != 0
    case VReal(r) => r != 0.0
    case VStr(s) => |s| > 0
    case VList(items) => |items| > 0
    case VDict(entries) => |entries| > 0
    case VOpaque(_) => true
  }

  /** `x or default`, as in `max_requests or settings.RATE_LIMIT_MAX_REQUESTS`. */
  function Or(x: Value, default: Value): Value {
    if Truthy(x) then x else default
  }

  /** The value under `k`, or None (`d.get(k)`). */
  function Lookup(d: Dict, k: string): Option<Value> {
    Get(d, k)
  }

  predicate Has(d: Dict, k: string) {
    k in Keys(d)
  }

  /** A `:.2f` format spec formats numbers (and booleans) and raises on anything else. */
  predicate Formattable(v: Value) {
    v.VInt? || v.VReal? || v.VBool?
  }

  /** Lists and dicts cannot be hashed, so they cannot be looked up in a dict. */
  predicate Hashable(v: Value) {
    !v.VList? && !v.VDict?
  }

  /** The TypeError a dict lookup raises on an unhashable value. */
  function Unhashable(v: Value): string {
    "unhashable type: '" + (if v.VList? then "list" else "dict") + "'"
  }

  /** `str(v)`: a string is itself; rendering anything else is the parameter `show`. */
  function Str(v: Value, show: Value -> string): string {
    if v.VStr? then v.s else show(v)
  }

  /** `x in coll` for a string `x`; None stands for the TypeError on a value that is not a container. */
  function In(x: string, coll: Value): Option<bool> {
    match coll
    case VList(items) => Some(VStr(x) in items)
    case VStr(s) => Some(Contains(s, x))
    case VDict(entries) => Some(x in Keys(entries))
    case _ => None
  }
}
