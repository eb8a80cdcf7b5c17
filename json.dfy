/**
 * The values the Python code handles: what `json.loads` produces from the
 * classifier's text or from a request body, and what boto3 hands back for a
 * DynamoDB item attribute. The module also gives the three pieces of Python
 * semantics the code applies to such values: truthiness (`if score`),
 * `int(v)`, and whether a value can be a dictionary key or a set member.
 */
module Json {
  import opened Wrappers
  import PyStr

  datatype Value =
    | JNull
    | JBool(b: bool)
    | JInt(i: int)
    /** A number with a fractional part (a JSON float, or a non-integral DynamoDB Decimal). */
    | JFloat(r: real)
    | JString(s: string)
    | JList(items: seq<Value>)
    | JObject(fields: map<string, Value>)

  /** A stored intake record, or any other JSON object: attribute name to value. */
  type Record = map<string, Value>

  /** `item.get(key, default)`. */
  function Get(item: Record, key: string, default: Value): Value {
    if key in item then item[key] else default
  }

  /** `bool(v)`: `None`, `False`, zero, the empty string and empty containers are false. */
  predicate Truthy(v: Value) {
    match v
    case JNull => false
    case JBool(b) => b
    case JInt(i) => i != 0
    case JFloat(r) => r != 0.0
    case JString(s) => s != ""
    case JList(items) => items != []
    case JObject(fields) => fields != map[]
  }

  /** Lists and dicts are unhashable: using one as a dict key or testing set membership raises `TypeError`. */
  predicate Hashable(v: Value) {
    !v.JList? && !v.JObject?
  }

  /** `int(r)` on a float or Decimal truncates toward zero. */
  function Truncate(r: real): (n: int)
    ensures 0.0 <= r ==> n as real <= r < n as real + 1.0
    ensures r < 0.0 ==> n as real - 1.0 < r <= n as real
  {
    if r >= 0.0 then r.Floor else -((-r).Floor)
  }

  predicate IsDigit(c: char) {
    '0' <= c <= '9'
  }

  /** The value of a string of ASCII decimal digits. */
  function DigitsValue(d: string): nat
    requires forall k :: 0 <= k < |d| ==> IsDigit(d[k])
    decreases |d|
  {
    if |d| == 0 then 0
    else
      assert IsDigit(d[|d| - 1]);
      10 * DigitsValue(d[..|d| - 1]) + (d[|d| - 1] as int - '0' as int)
  }

  /** `int(t)` on an already stripped string: an optional sign followed by one or more ASCII digits. */
  function ParseInt(t: string): Option<int> {
    if |t| > 0 && (t[0] == '+' || t[0] == '-') then
      var d := t[1..];
      if |d| > 0 && forall k :: 0 <= k < |d| ==> IsDigit(d[k]) then
        var n: int := DigitsValue(d);
        Some(if t[0] == '-' then -n else n)
      else None
    else if |t| > 0 && forall k :: 0 <= k < |t| ==> IsDigit(t[k]) then Some(DigitsValue(t) as int)
    else None
  }

  /**
   * `int(v)`, or `None` where Python raises (`TypeError` for `None`, lists and
   * dicts, `ValueError` for a string that is not an integer literal).
   */
  function PyInt(v: Value): Option<int> {
    match v
    case JNull => None
    case JBool(b) => Some(if b then 1 else 0)
    case JInt(i) => Some(i)
    case JFloat(r) => Some(Truncate(r))
    case JString(s) => ParseInt(PyStr.Strip(s))
    case JList(_) => None
    case JObject(_) => None
  }
}
