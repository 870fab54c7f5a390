/**
 * The part of JavaScript's value semantics the validator relies on: values as
 * `JSON.parse` produces them, the truthiness test performed by `!v`, and
 * property lookup and `Object.keys` on a parsed object.
 */
module Json {
  import opened Wrappers

  /** A value produced by `JSON.parse`. JSON has no NaN, so a number is a real. */
  datatype Value =
    | Null
    | Bool(b: bool)
    | Number(n: real)
    | String(s: string)
    | Array(elements: seq<Value>)
    | Object(members: Members)

  /**
   * A parsed object: its members as (key, value) pairs in `Object.keys` order.
   */
  type Members = seq<(string, Value)>

  /**
   * The keys are distinct, as in every object `JSON.parse` returns. Only
   * lemmas that relate positions to lookups need it; a member list with a
   * repeated key stands for no parsed object.
   */
  predicate DistinctKeys(obj: Members) {
    forall a, b :: 0 <= a < b < |obj| ==> obj[a].0 != obj[b].0
  }

  /** JavaScript truthiness: `null`, `false`, `0`, `-0` and `""` are falsy. */
  predicate Truthy(v: Value) {
    match v
    case Null => false
    case Bool(b) => b
    case Number(n) => n != 0.0
    case String(s) => s != ""
    case Array(_) => true
    case Object(_) => true
  }

  /** `Object.keys(obj)`. */
  function Keys(obj: Members): seq<string> {
    seq(|obj|, k requires 0 <= k < |obj| => obj[k].0)
  }

  /** `obj[key]` on an own property; `None` is `undefined`. */
  function Lookup(obj: Members, key: string): Option<Value> {
    if obj == [] then None
    else if obj[0].0 == key then Some(obj[0].1)
    else Lookup(obj[1..], key)
  }

  /** A lookup finds a value exactly when the key is one of `Object.keys`. */
  lemma {:induction false} LookupDefinedIff(obj: Members, key: string)
    ensures Lookup(obj, key).Some? <==> key in Keys(obj)
  {
    if obj != [] {
      assert Keys(obj) == [obj[0].0] + Keys(obj[1..]);
      LookupDefinedIff(obj[1..], key);
    }
  }

  /** In a parsed object, looking up the key at position `k` gives the value at position `k`. */
  lemma {:induction false} LookupAtKey(obj: Members, k: nat)
    requires DistinctKeys(obj)
    requires k < |obj|
    ensures Lookup(obj, Keys(obj)[k]) == Some(obj[k].1)
  {
    if k > 0 {
      assert obj[0].0 != obj[k].0;
      assert Keys(obj[1..])[k - 1] == Keys(obj)[k];
      LookupAtKey(obj[1..], k - 1);
    }
  }
}
