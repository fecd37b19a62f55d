/**
 * JSON values as the session manager handles them: the parsed bodies of
 * server replies and the decoded session blob. A JavaScript object is a
 * list of fields in insertion order. `JSON.stringify` writes integer-like
 * keys first, in ascending order, and a JavaScript object never repeats a
 * key; neither holds for a `Payload` in general. The manager only adds or
 * removes `accessToken` and `refreshToken`, which are not integer-like, and
 * `Put` never adds a second copy of a key.
 */
module Json {
  import opened Wrappers

  datatype Json =
    | Null
    | Bool(b: bool)
    | Str(s: string)
    | Arr(items: seq<Json>)
    | Obj(fields: seq<Field>)

  datatype Field = Field(key: string, val: Json)

  /** A JSON object: what a session payload is. */
  type Payload = seq<Field>

  /** `obj[k]`: the value of the first field named k, or undefined. */
  function Lookup(p: Payload, k: string): Option<Json> {
    if p == [] then None
    else if p[0].key == k then Some(p[0].val)
    else Lookup(p[1..], k)
  }

  /** `obj[k] = v`: replaces the value of field k in place, or appends a new field k. */
  function Put(p: Payload, k: string, v: Json): Payload {
    if p == [] then [Field(k, v)]
    else if p[0].key == k then [Field(k, v)] + p[1..]
    else [p[0]] + Put(p[1..], k, v)
  }

  /** `delete obj[k]`: the object without its field k, the other fields in their order. */
  function Without(p: Payload, k: string): Payload {
    if p == [] then []
    else if p[0].key == k then Without(p[1..], k)
    else [p[0]] + Without(p[1..], k)
  }

  /** JavaScript truthiness of a JSON value (numbers are not modelled). */
  predicate Truthy(v: Json) {
    match v
    case Null => false
    case Bool(b) => b
    case Str(s) => s != ""
    case Arr(_) => true
    case Obj(_) => true
  }

  /**
   * `String(v)`, the coercion a storage backend applies to every value it
   * stores; None is `undefined`.
   */
  function JsString(v: Option<Json>): string {
    match v
    case None => "undefined"
    case Some(j) => Stringify(j)
  }

  function Stringify(j: Json): string
    decreases j
  {
    match j
    case Null => "null"
    case Bool(b) => if b then "true" else "false"
    case Str(s) => s
    case Arr(items) => JoinItems(items)
    case Obj(_) => "[object Object]"
  }

  /** `Array.prototype.join(",")`: null elements become the empty string. */
  function JoinItems(items: seq<Json>): string
    decreases items
  {
    if items == [] then ""
    else
      var head := if items[0] == Null then "" else Stringify(items[0]);
      if |items| == 1 then head else head + "," + JoinItems(items[1..])
  }

  lemma {:induction false} LookupPut(p: Payload, k: string, v: Json, k': string)
    ensures Lookup(Put(p, k, v), k') == if k' == k then Some(v) else Lookup(p, k')
  {
    if p != [] && p[0].key != k {
      LookupPut(p[1..], k, v, k');
    }
  }

  lemma {:induction false} LookupWithout(p: Payload, k: string, k': string)
    ensures Lookup(Without(p, k), k') == if k' == k then None else Lookup(p, k')
  {
    if p != [] {
      LookupWithout(p[1..], k, k');
    }
  }

  /** Deleting a field the object does not have leaves it as it was. */
  lemma {:induction false} WithoutAbsent(p: Payload, k: string)
    requires Lookup(p, k) == None
    ensures Without(p, k) == p
  {
    if p != [] {
      WithoutAbsent(p[1..], k);
      assert [p[0]] + p[1..] == p;
    }
  }

  /** Setting a field and then deleting it is the same as deleting it. */
  lemma {:induction false} WithoutPut(p: Payload, k: string, v: Json)
    ensures Without(Put(p, k, v), k) == Without(p, k)
  {
    if p == [] {
      assert Put(p, k, v)[1..] == [];
    } else if p[0].key == k {
      assert Put(p, k, v)[1..] == p[1..];
      WithoutDeletesAll(p[1..], k);
    } else {
      assert Put(p, k, v)[1..] == Put(p[1..], k, v);
      WithoutPut(p[1..], k, v);
    }
  }

  /** Deleting a field twice is deleting it once. */
  lemma {:induction false} WithoutDeletesAll(p: Payload, k: string)
    ensures Without(Without(p, k), k) == Without(p, k)
  {
    LookupWithout(p, k, k);
    WithoutAbsent(Without(p, k), k);
  }
}
