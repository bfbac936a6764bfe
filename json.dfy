/** JSON values as `json.loads` returns them, with the Python operations the
    scraper applies to them: truthiness, `dict.get`, `a or b`, `str()`, and the
    message of the `AttributeError` raised by calling a string or dict method on
    a value of the wrong type. */
module Json {
  import opened Text

  /** A parsed JSON document. `JNull` is Python's `None`. Numbers are integers. */
  datatype Json =
    | JNull
    | JBool(b: bool)
    | JInt(i: int)
    | JStr(s: string)
    | JArr(items: seq<Json>)
    | JObj(members: seq<Member>)

  datatype Member = Member(key: string, value: Json)

  /** Python's `bool(v)`. */
  predicate Truthy(j: Json)
  {
    match j
    case JNull => false
    case JBool(b) => b
    case JInt(i) => i != 0
    case JStr(s) => s != []
    case JArr(items) => items != []
    case JObj(members) => members != []
  }

  /** The name Python reports for the value's type. */
  function TypeName(j: Json): string
  {
    match j
    case JNull => "NoneType"
    case JBool(_) => "bool"
    case JInt(_) => "int"
    case JStr(_) => "str"
    case JArr(_) => "list"
    case JObj(_) => "dict"
  }

  /** The message of the `AttributeError` raised by `v.attr(...)`. */
  function AttributeError(j: Json, attr: string): string
  {
    "'" + TypeName(j) + "' object has no attribute '" + attr + "'"
  }

  /** The value stored under key k, if any. */
  function Get(ms: seq<Member>, k: string): (r: Option<Json>)
    ensures r.Some? ==> exists i :: 0 <= i < |ms| && ms[i].key == k && ms[i].value == r.value
    ensures r.None? ==> forall i :: 0 <= i < |ms| ==> ms[i].key != k
  {
    if ms == [] then None
    else if ms[0].key == k then Some(ms[0].value)
    else Get(ms[1..], k)
  }

  /** `d.get(k, default)` on a dict. */
  function GetOr(d: Json, k: string, default: Json): (r: Json)
    requires d.JObj?
    ensures r == default || exists i :: 0 <= i < |d.members| && d.members[i].key == k && d.members[i].value == r
  {
    match Get(d.members, k)
    case Some(v) => v
    case None => default
  }

  /** Python's `a or b`. */
  function Or(a: Json, b: Json): (r: Json)
    ensures Truthy(a) ==> r == a
    ensures !Truthy(a) ==> r == b
  {
    if Truthy(a) then a else b
  }

  /** Python's `str(v)`: strings as they are, everything else as its `repr`. */
  function Str(j: Json): string
  {
    match j
    case JNull => "None"
    case JBool(b) => if b then "True" else "False"
    case JInt(i) => IntToString(i)
    case JStr(s) => s
    case JArr(_) => Repr(j)
    case JObj(_) => Repr(j)
  }

  /** Python's `repr(v)`; strings are quoted with `'` and not escaped. */
  function Repr(j: Json): (r: string)
    ensures r != []
    decreases j, 1
  {
    match j
    case JStr(s) => "'" + s + "'"
    case JArr(_) => "[" + ReprItems(j, 0) + "]"
    case JObj(_) => "{" + ReprMembers(j, 0) + "}"
    case JNull => "None"
    case JBool(b) => if b then "True" else "False"
    case JInt(i) => IntToString(i)
  }

  function ReprItems(a: Json, i: nat): string
    requires a.JArr?
    decreases a, 0, |a.items| - i
  {
    if i >= |a.items| then ""
    else Repr(a.items[i]) + (if i + 1 < |a.items| then ", " + ReprItems(a, i + 1) else "")
  }

  function ReprMembers(o: Json, i: nat): string
    requires o.JObj?
    decreases o, 0, |o.members| - i
  {
    if i >= |o.members| then ""
    else
      "'" + o.members[i].key + "': " + Repr(o.members[i].value)
      + (if i + 1 < |o.members| then ", " + ReprMembers(o, i + 1) else "")
  }

  /** `str(v)` of a truthy value is never empty, and `str` of a list or dict
      starts with its bracket. */
  lemma StrShape(j: Json)
    ensures Truthy(j) ==> Str(j) != []
    ensures j.JArr? ==> Str(j)[0] == '['
    ensures j.JObj? ==> Str(j)[0] == '{'
  {
    if j.JInt? {
      assert Str(j) == IntToString(j.i);
    }
  }
}
