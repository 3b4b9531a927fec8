/** The Python values that flow through templates, payloads and history records:
    `None`, `bool`, `int`, `str`, `list`, `dict`, and the `(key, value)` pairs that
    iterating `dict.items()` produces. */
module Values {
  import opened Wrappers
  import opened Text
  import opened Dicts

  datatype Value =
    | Null
    | Bool(b: bool)
    | Int(i: int)
    | Str(s: string)
    | List(items: seq<Value>)
    | Map(entries: Dict<Value>)
    | Item(key: string, val: Value)

  /** Python truthiness: `None`, `False`, `0` and empty containers are false. */
  predicate Truthy(v: Value) {
    match v
    case Null => false
    case Bool(b) => b
    case Int(i) => i != 0
    case Str(s) => |s| > 0
    case List(xs) => |xs| > 0
    case Map(d) => |d| > 0
    case Item(_, _) => true
  }

  /** `d.get(k)`: the value under `k`, or `None` when the key is absent. */
  function Lookup(d: Dict<Value>, k: string): Value {
    GetOr(d, k, Null)
  }

  /** `a or b` */
  function Or(a: Value, b: Value): Value {
    if Truthy(a) then a else b
  }

  /** `str(v)`. Containers use `repr` for their elements. */
  function ToStr(v: Value): string
    decreases v, 0
  {
    match v
    case Null => "None"
    case Bool(b) => if b then "True" else "False"
    case Int(i) => IntToString(i)
    case Str(s) => s
    case List(xs) => "[" + Join(seq(|xs|, i requires 0 <= i < |xs| => Repr(xs[i])), ", ") + "]"
    case Map(d) =>
      "{" + Join(seq(|d|, i requires 0 <= i < |d| => QuoteString(d[i].0) + ": " + Repr(d[i].1)), ", ") + "}"
    case Item(k, x) => "(" + QuoteString(k) + ", " + Repr(x) + ")"
  }

  /** `repr(v)`: strings are quoted, everything else prints as `str`. */
  function Repr(v: Value): string
    decreases v, 1
  {
    if v.Str? then QuoteString(v.s) else ToStr(v)
  }

  function QuoteString(s: string): string {
    "'" + s + "'"
  }

  /** Whether Python can hash the value, as a dict key, a set element or an
      operand of `in` on a set. */
  predicate Hashable(v: Value) {
    match v
    case List(_) => false
    case Map(_) => false
    case Item(_, x) => Hashable(x)
    case _ => true
  }

  /** The `TypeError` hashing `v` raises: it names the list or dict inside. */
  function UnhashableError(v: Value): Error {
    match v
    case Item(_, x) => UnhashableError(x)
    case _ => TypeError("unhashable type: '" + TypeName(v) + "'")
  }

  /** `type(v).__name__`, for error messages. */
  function TypeName(v: Value): string {
    match v
    case Null => "NoneType"
    case Bool(_) => "bool"
    case Int(_) => "int"
    case Str(_) => "str"
    case List(_) => "list"
    case Map(_) => "dict"
    case Item(_, _) => "tuple"
  }

  /** `v.get(k, default)`: only dicts have `get`. */
  function DictGet(v: Value, k: string, default: Value): (r: Result<Value>)
    ensures v.Map? <==> r.Success?
    ensures v.Map? ==> r.value == GetOr(v.entries, k, default)
  {
    if v.Map? then Success(GetOr(v.entries, k, default))
    else Failure(AttributeError("'" + TypeName(v) + "' object has no attribute 'get'"))
  }

  /** The one-character strings of a string, in order. */
  function Chars(s: string): (r: seq<Value>)
    ensures |r| == |s| && forall i :: 0 <= i < |s| ==> r[i] == Str([s[i]])
  {
    seq(|s|, i requires 0 <= i < |s| => Str([s[i]]))
  }

  /** The keys of a dict as values, in order. */
  function KeyValues(d: Dict<Value>): (r: seq<Value>)
    ensures |r| == |d| && forall i :: 0 <= i < |d| ==> r[i] == Str(d[i].0)
  {
    seq(|d|, i requires 0 <= i < |d| => Str(d[i].0))
  }

  /** What `for x in v` visits: list elements, dict keys, the characters of a
      string, the two parts of a pair; other values are not iterable. */
  function Iterate(v: Value): (r: Result<seq<Value>>)
    ensures r.Failure? <==> v.Null? || v.Bool? || v.Int?
    ensures v.List? ==> r == Success(v.items)
  {
    match v
    case List(xs) => Success(xs)
    case Map(d) => Success(KeyValues(d))
    case Str(s) => Success(Chars(s))
    case Item(k, x) => Success([Str(k), x])
    case _ => Failure(TypeError("'" + TypeName(v) + "' object is not iterable"))
  }

  /** All of `vs` are strings. */
  predicate AllStr(vs: seq<Value>) {
    forall i :: 0 <= i < |vs| ==> vs[i].Str?
  }

  /** The strings of `vs` glued with `sep` between them. */
  function JoinValues(vs: seq<Value>, sep: string): string
    requires AllStr(vs)
  {
    Join(seq(|vs|, i requires 0 <= i < |vs| => vs[i].s), sep)
  }

  /** A join starts with its first string. */
  lemma JoinValuesFirst(vs: seq<Value>, sep: string)
    requires AllStr(vs) && |vs| > 0
    ensures |JoinValues(vs, sep)| >= |vs[0].s|
  {
    var parts := seq(|vs|, i requires 0 <= i < |vs| => vs[i].s);
    assert parts[0] == vs[0].s;
    if |parts| > 1 {
      assert Join(parts, sep) == parts[0] + sep + Join(parts[1..], sep);
    }
  }

  /** `sep.join(vs)`: every element must be a string. */
  function JoinStrs(vs: seq<Value>, sep: string): (r: Result<string>)
    ensures r.Success? <==> AllStr(vs)
    ensures r.Success? ==> r.value == JoinValues(vs, sep)
  {
    if AllStr(vs) then Success(JoinValues(vs, sep))
    else Failure(TypeError("sequence item: expected str instance"))
  }
}
