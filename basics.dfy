/** Values shared by both front-ends and the configuration validator: an
    optional value, the JSON values Python's json module produces, the result
    of one read-modify-write step on a stored list, and the two list
    operations both front-ends use (first index of an id, list.pop(i)). */
module Basics {

  datatype Option<+T> = None | Some(value: T)
  {
    function GetOr(default: T): T
    {
      match this
      case Some(v) => v
      case None => default
    }
  }

  /** A wall-clock reading, `datetime.now().isoformat()`; the model never looks inside it. */
  type Timestamp = string

  /** A value decoded by Python's json module (or, in a configuration, any plain Python value). */
  datatype Json =
    | JNull
    | JBool(b: bool)
    | JInt(i: int)
    | JFloat(f: real)
    | JStr(s: string)
    | JArray(items: seq<Json>)
    | JObject(fields: map<string, Json>)

  /** Python's truth value of the decoded object (`if not x:`). */
  predicate Truthy(v: Json)
  {
    match v
    case JNull => false
    case JBool(b) => b
    case JInt(i) => i != 0
    case JFloat(f) => f != 0.0
    case JStr(s) => s != ""
    case JArray(items) => items != []
    case JObject(fields) => fields != map[]
  }

  /** `type(v).__name__` of the decoded object. */
  function TypeName(v: Json): string
  {
    match v
    case JNull => "NoneType"
    case JBool(_) => "bool"
    case JInt(_) => "int"
    case JFloat(_) => "float"
    case JStr(_) => "str"
    case JArray(_) => "list"
    case JObject(_) => "dict"
  }

  /** One load-modify-save step: the list left in storage, what the caller
      is told, and whether the list was written back. */
  datatype Step<T, O> = Step(todos: seq<T>, outcome: O, saved: bool)

  /** Position of the first x in xs: what a `for` loop that stops at the
      first record with a matching id finds. */
  function IndexOf(xs: seq<int>, x: int): (r: Option<nat>)
    ensures r.Some? ==> r.value < |xs| && xs[r.value] == x
    ensures r.Some? ==> forall k :: 0 <= k < r.value ==> xs[k] != x
    ensures r.None? <==> x !in xs
  {
    if xs == [] then None
    else if xs[0] == x then Some(0)
    else match IndexOf(xs[1..], x)
      case None => None
      case Some(i) => Some(i + 1)
  }

  /** A position holding x with no x before it is the one IndexOf finds. */
  lemma IndexOfIsFirst(xs: seq<int>, x: int, i: nat)
    requires i < |xs| && xs[i] == x
    requires forall k :: 0 <= k < i ==> xs[k] != x
    ensures IndexOf(xs, x) == Some(i)
  {
  }

  /** `list.pop(i)`: the list without its i-th element, the rest in order. */
  function RemoveAt<T>(s: seq<T>, i: nat): (r: seq<T>)
    requires i < |s|
    ensures |r| == |s| - 1
    ensures forall k :: 0 <= k < i ==> r[k] == s[k]
    ensures forall k :: i <= k < |r| ==> r[k] == s[k + 1]
    ensures multiset(r) + multiset{s[i]} == multiset(s)
  {
    assert s == s[..i] + [s[i]] + s[i + 1..];
    s[..i] + s[i + 1..]
  }
}
