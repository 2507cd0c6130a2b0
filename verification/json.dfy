/** Parsed JSON values as the scrapers see them after `json.loads` /
    `resp.json()`, with the Python operations applied to them: truthiness,
    `dict.get`, chains of `or`, and `float(...)`. */
module Json {
  import opened Wrappers
  import opened Text
  import opened Numbers

  /** A JSON number is an exact real; an object keeps its members in order. */
  datatype Json =
    | JNull
    | JBool(b: bool)
    | JNum(n: real)
    | JStr(s: string)
    | JArr(items: seq<Json>)
    | JObj(members: seq<Member>)

  datatype Member = Member(key: string, value: Json)

  /** Python truthiness of the decoded value. */
  predicate Truthy(j: Json) {
    match j
    case JNull => false
    case JBool(b) => b
    case JNum(n) => n != 0.0
    case JStr(s) => s != []
    case JArr(xs) => xs != []
    case JObj(ms) => ms != []
  }

  /** `obj.get(key)`: the member's value, or None (JNull) when absent. */
  function Get(ms: seq<Member>, key: string): (r: Json)
    ensures r != JNull ==> exists i | 0 <= i < |ms| :: ms[i].key == key && ms[i].value == r
    ensures (forall i | 0 <= i < |ms| :: ms[i].key != key) ==> r == JNull
    ensures (exists i | 0 <= i < |ms| :: ms[i].key == key) ==>
      exists i | 0 <= i < |ms| :: ms[i].key == key && r == ms[i].value && forall j | 0 <= j < i :: ms[j].key != key
  {
    if ms == [] then JNull
    else if ms[0].key == key then ms[0].value
    else Get(ms[1..], key)
  }

  /** `obj.get(k1) or obj.get(k2) or ... or obj.get(kn)`: the first truthy
      value, or else the value for the last key. */
  function FirstTruthy(ms: seq<Member>, keys: seq<string>): (r: Json)
    requires |keys| >= 1
    ensures Truthy(r) <==> exists k | 0 <= k < |keys| :: Truthy(Get(ms, keys[k]))
    ensures Truthy(r) ==> exists k | 0 <= k < |keys| ::
              r == Get(ms, keys[k]) && forall k' | 0 <= k' < k :: !Truthy(Get(ms, keys[k']))
    ensures !Truthy(r) ==> r == Get(ms, keys[|keys| - 1])
  {
    if |keys| == 1 then Get(ms, keys[0])
    else if Truthy(Get(ms, keys[0])) then Get(ms, keys[0])
    else
      var r := FirstTruthy(ms, keys[1..]);
      FirstTruthyShift(ms, keys, r);
      r
  }

  /** The chain's facts for `keys[1..]` carry over to `keys` when the first
      key's value is falsy. */
  lemma FirstTruthyShift(ms: seq<Member>, keys: seq<string>, r: Json)
    requires |keys| >= 2 && !Truthy(Get(ms, keys[0]))
    requires Truthy(r) <==> exists k | 0 <= k < |keys[1..]| :: Truthy(Get(ms, keys[1..][k]))
    requires Truthy(r) ==> exists k | 0 <= k < |keys[1..]| ::
               r == Get(ms, keys[1..][k]) && forall k' | 0 <= k' < k :: !Truthy(Get(ms, keys[1..][k']))
    requires !Truthy(r) ==> r == Get(ms, keys[1..][|keys[1..]| - 1])
    ensures Truthy(r) <==> exists k | 0 <= k < |keys| :: Truthy(Get(ms, keys[k]))
    ensures Truthy(r) ==> exists k | 0 <= k < |keys| ::
              r == Get(ms, keys[k]) && forall k' | 0 <= k' < k :: !Truthy(Get(ms, keys[k']))
    ensures !Truthy(r) ==> r == Get(ms, keys[|keys| - 1])
  {
    var tail := keys[1..];
    if Truthy(r) {
      var k :| 0 <= k < |tail| && r == Get(ms, tail[k]) && forall k' | 0 <= k' < k :: !Truthy(Get(ms, tail[k']));
      assert keys[k + 1] == tail[k];
      forall k' | 0 <= k' < k + 1
        ensures !Truthy(Get(ms, keys[k']))
      {
        if k' > 0 {
          assert keys[k'] == tail[k' - 1];
        }
      }
    } else {
      forall k | 0 <= k < |keys|
        ensures !Truthy(Get(ms, keys[k]))
      {
        if k > 0 {
          assert keys[k] == tail[k - 1];
        }
      }
      assert keys[|keys| - 1] == tail[|tail| - 1];
    }
  }

  /** `float(x)`, or None where it raises (TypeError, ValueError). */
  function FloatOf(j: Json): (r: Option<real>)
    ensures j.JNum? ==> r == Some(j.n)
    ensures j.JBool? ==> r == Some(if j.b then 1.0 else 0.0)
    ensures j.JStr? ==> r == ParseDecimal(j.s)
    ensures j.JNull? || j.JArr? || j.JObj? ==> r.None?
  {
    match j
    case JBool(b) => Some(if b then 1.0 else 0.0)
    case JNum(n) => Some(n)
    case JStr(s) => ParseDecimal(s)
    case _ => None
  }

  /** `str(x)`: a string stays itself; how other values print is Python's
      formatting, supplied by the caller as `render`. */
  function StrOf(j: Json, render: Json -> string): (r: string)
    ensures j.JStr? ==> r == j.s
  {
    if j.JStr? then j.s else render(j)
  }
}
