/** JSON values as the routes see them after `JSON.parse`, with JavaScript's
    notion of truthiness and property access. */
module JsonValue {
  import opened Wrappers
  import Text

  datatype Json =
    | JNull
    | JBool(b: bool)
    | JNum(n: real)
    | JStr(s: string)
    | JArr(items: seq<Json>)
    | JObj(fields: map<string, Json>)

  /** JavaScript truthiness (`NaN` is not modelled). */
  predicate Truthy(j: Json)
  {
    match j
    case JNull => false
    case JBool(b) => b
    case JNum(n) => n != 0.0
    case JStr(s) => |s| > 0
    case JArr(_) => true
    case JObj(_) => true
  }

  /** Outcome of reading `value[key]`. */
  datatype Lookup = Throws | Undefined | Found(value: Json)

  /** Property access: throws on `null`, gives `undefined` for a missing
      key and for every non-object (the model keeps no array or string
      properties). */
  function Get(j: Json, key: string): (r: Lookup)
    ensures r.Throws? <==> j.JNull?
    ensures r.Found? ==> j.JObj? && key in j.fields && r.value == j.fields[key]
  {
    match j
    case JNull => Throws
    case JObj(fields) => if key in fields then Found(fields[key]) else Undefined
    case _ => Undefined
  }

  /** `value[key]` tested with `!`: present and truthy. */
  predicate HasTruthy(j: Json, key: string)
  {
    var l := Get(j, key);
    l.Found? && Truthy(l.value)
  }

  /** `a || b` over property reads. */
  function OrElse(l: Lookup, fallback: Json): Json
  {
    if l.Found? && Truthy(l.value) then l.value else fallback
  }

  /** The own enumerable properties object spread (`{...v}`) copies out of
      `v`: the fields of an object, index-keyed elements of an array or
      characters of a string, nothing for other values. */
  function SpreadFields(j: Json): map<string, Json>
  {
    match j
    case JObj(fields) => fields
    case JArr(items) => IndexKeyed(items, 0)
    case JStr(s) => IndexKeyed(seq(|s|, i requires 0 <= i < |s| => JStr([s[i]])), 0)
    case _ => map[]
  }

  /** `k` is the decimal rendering of an index in [from, to). */
  ghost predicate IndexKeyIn(k: string, from: nat, to: nat)
  {
    exists i :: from <= i < to && k == Text.NatToString(i)
  }

  /** Index-keyed entries `"from"`, `"from+1"`, ... of `items`. */
  function IndexKeyed(items: seq<Json>, from: nat): (m: map<string, Json>)
    ensures forall i :: from <= i < |items| ==> Text.NatToString(i) in m && m[Text.NatToString(i)] == items[i]
    ensures forall k :: k in m ==> IndexKeyIn(k, from, |items|)
    decreases |items| - from
  {
    if from >= |items| then map[]
    else
      var rest := IndexKeyed(items, from + 1);
      var m := rest[Text.NatToString(from) := items[from]];
      assert IndexKeyIn(Text.NatToString(from), from, |items|);
      assert forall k :: k in rest ==> IndexKeyIn(k, from, |items|) by {
        forall k | k in rest ensures IndexKeyIn(k, from, |items|) {
          var i :| from + 1 <= i < |items| && k == Text.NatToString(i);
        }
      }
      assert forall i :: from < i < |items| ==> Text.NatToString(i) != Text.NatToString(from) by {
        forall i | from < i < |items| ensures Text.NatToString(i) != Text.NatToString(from) {
          if Text.NatToString(i) == Text.NatToString(from) {
            Text.NatToStringInjective(i, from);
          }
        }
      }
      m
  }
}
