/** Python values as they flow through the ingesters: the JSON-like data
    read from indexer output, stat dictionaries, and the keyword arguments
    handed to record constructors.
 */
module Values {

  import opened Errors
  import opened Dicts

  datatype Value =
    | VNone
    | VBool(b: bool)
    | VInt(i: int)
    | VFloat(f: real)
    | VStr(s: string)
    | VBytes(bytes: seq<int>)
    | VUuid(text: string)      // a `uuid.UUID` object; `text` is `str(u)`
    | VList(items: seq<Value>)
    | VDict(entries: Dict<Value>)

  /** A list of `str` values. */
  function Strs(xs: seq<string>): (r: seq<Value>)
    ensures |r| == |xs|
    ensures forall i :: 0 <= i < |xs| ==> r[i] == VStr(xs[i])
  {
    seq(|xs|, i requires 0 <= i < |xs| => VStr(xs[i]))
  }

  /** `k in v` for a dictionary value. */
  predicate HasField(v: Value, k: string) {
    v.VDict? && k in Keys(v.entries)
  }

  /** `v[k]` for a dictionary value; a missing key raises KeyError. */
  function Field(v: Value, k: string): (r: Result<Value>)
    requires v.VDict?
    ensures r.Ok? <==> HasField(v, k)
    ensures r.Err? ==> r.error == KeyError
  {
    At(v.entries, k)
  }

  /** A value used where Python needs a `str` (concatenation, `startswith`). */
  function AsStr(v: Value, e: PyError): (r: Result<string>)
    ensures r.Ok? <==> v.VStr?
    ensures r.Ok? ==> v == VStr(r.value)
    ensures r.Err? ==> r.error == e
  {
    if v.VStr? then Ok(v.s) else Err(e)
  }

  /** A value whose `replace` is called with `str` arguments: a `bytes`
      value refuses them (TypeError), and every other non-`str` has no
      `replace` at all (AttributeError). */
  function AsReplaceable(v: Value): (r: Result<string>)
    ensures r.Ok? <==> v.VStr?
    ensures r.Ok? ==> v == VStr(r.value)
    ensures r.Err? ==> (r.error == TypeError <==> v.VBytes?) && (r.error == AttributeError <==> !v.VBytes?)
  {
    match v
    case VStr(s) => Ok(s)
    case VBytes(_) => Err(TypeError)
    case _ => Err(AttributeError)
  }

  /** A value used with `&`: Python `bool` is an `int` subclass. */
  function AsInt(v: Value): (r: Result<int>)
    ensures r.Ok? <==> v.VInt? || v.VBool?
    ensures v.VInt? ==> r == Ok(v.i)
    ensures r.Err? ==> r.error == TypeError
  {
    match v
    case VInt(i) => Ok(i)
    case VBool(b) => Ok(if b then 1 else 0)
    case _ => Err(TypeError)
  }

  /** Python's `bool(v)`. */
  predicate Truthy(v: Value) {
    match v
    case VNone => false
    case VBool(b) => b
    case VInt(i) => i != 0
    case VFloat(f) => f != 0.0
    case VStr(s) => |s| > 0
    case VBytes(bs) => |bs| > 0
    case VUuid(_) => true
    case VList(xs) => |xs| > 0
    case VDict(d) => |d| > 0
  }

  /** Values usable as `dict` keys; lists and dicts raise TypeError. */
  predicate Hashable(v: Value) {
    !v.VList? && !v.VDict?
  }

  /** `v.get(k, default)` on a dictionary value. */
  function GetOr(d: Dict<Value>, k: string, default: Value): (r: Value)
    ensures k !in Keys(d) ==> r == default
    ensures k in Keys(d) ==> Get(d, k) == Some(r)
  {
    match Get(d, k)
    case Some(v) => v
    case None => default
  }

  /** Values `json.dumps` can write with its default encoder: bytes and
      `uuid.UUID` objects raise TypeError. */
  predicate JsonSerializable(v: Value)
    decreases v
  {
    match v
    case VBytes(_) => false
    case VUuid(_) => false
    case VList(xs) => forall i :: 0 <= i < |xs| ==> JsonSerializable(xs[i])
    case VDict(d) => forall i :: 0 <= i < |d| ==> JsonSerializable(d[i].1)
    case _ => true
  }
}
