/**
 * The part of `serde_json::Value` the proxy relies on: member lookup
 * (`Value::get`), `Value::as_str`, and assignment through `value[key] = x`
 * (`IndexMut`). Objects keep their members in insertion order, as serde_json
 * does with its `preserve_order` feature. Numbers are modelled as integers;
 * parsing and printing JSON text are not part of this module.
 */
module Json {
  import opened Wrappers

  datatype Value =
    | Null
    | Bool(b: bool)
    | Number(n: int)
    | Str(s: string)
    | Array(items: seq<Value>)
    | Object(members: seq<(string, Value)>)

  /** The position of the first member named `key`, or `|members|` when there is none. */
  function IndexOf(members: seq<(string, Value)>, key: string): (k: nat)
    ensures k <= |members|
    ensures forall j :: 0 <= j < k ==> members[j].0 != key
    ensures k < |members| ==> members[k].0 == key
  {
    if members == [] then 0
    else if members[0].0 == key then 0
    else 1 + IndexOf(members[1..], key)
  }

  /** The first `k` members have other names and the `k`-th (or the end) is `key`'s. */
  lemma IndexOfAt(members: seq<(string, Value)>, key: string, k: nat)
    requires k <= |members| && forall j :: 0 <= j < k ==> members[j].0 != key
    requires k < |members| ==> members[k].0 == key
    ensures IndexOf(members, key) == k
  {
  }

  /** `Value::get(key)`: the member's value for an object that has it, `None` for anything else. */
  function Get(v: Value, key: string): (r: Option<Value>)
    ensures r.Some? <==> v.Object? && exists j :: 0 <= j < |v.members| && v.members[j].0 == key
  {
    if v.Object? && IndexOf(v.members, key) < |v.members| then
      Some(v.members[IndexOf(v.members, key)].1)
    else None
  }

  /** `Value::as_str`. */
  function AsStr(v: Value): (r: Option<string>)
    ensures r.Some? <==> v.Str?
  {
    if v.Str? then Some(v.s) else None
  }

  /** `v.get(key).and_then(Value::as_str)`. */
  function GetStr(v: Value, key: string): Option<string> {
    match Get(v, key)
    case Some(x) => AsStr(x)
    case None => None
  }

  /**
   * `v[key] = x`. On `null` it first becomes an empty object; an object gets
   * its member replaced in place or appended at the end; any other value makes
   * serde_json panic, which is `None` here.
   */
  function SetMember(v: Value, key: string, x: Value): (r: Option<Value>)
    ensures r.Some? <==> v.Null? || v.Object?
    ensures r.Some? ==> r.value.Object? && Get(r.value, key) == Some(x)
    ensures r.Some? ==> forall k :: k != key ==> Get(r.value, k) == Get(v, k)
  {
    match v
    case Null =>
      var r := Object([(key, x)]);
      assert forall k :: k != key ==> Get(r, k) == None by {
        forall k | k != key ensures Get(r, k) == None { assert IndexOf(r.members, k) == 1; }
      }
      Some(r)
    case Object(ms) =>
      var i := IndexOf(ms, key);
      var ms' := if i < |ms| then ms[i := (key, x)] else ms + [(key, x)];
      SetMemberOthers(ms, i, key, x, ms');
      Some(Object(ms'))
    case _ => None
  }

  lemma SetMemberOthers(ms: seq<(string, Value)>, i: nat, key: string, x: Value, ms': seq<(string, Value)>)
    requires i == IndexOf(ms, key)
    requires ms' == if i < |ms| then ms[i := (key, x)] else ms + [(key, x)]
    ensures IndexOf(ms', key) == i && ms'[i] == (key, x)
    ensures forall k :: k != key ==> Get(Object(ms'), k) == Get(Object(ms), k)
  {
    IndexOfUpdate(ms, i, key, x, ms');
    forall k | k != key ensures Get(Object(ms'), k) == Get(Object(ms), k) {
      IndexOfOther(ms, i, key, x, ms', k);
    }
  }

  lemma {:induction false} IndexOfUpdate(ms: seq<(string, Value)>, i: nat, key: string, x: Value, ms': seq<(string, Value)>)
    requires i == IndexOf(ms, key)
    requires ms' == if i < |ms| then ms[i := (key, x)] else ms + [(key, x)]
    ensures IndexOf(ms', key) == i && ms'[i] == (key, x)
  {
    if ms != [] && ms[0].0 != key {
      var t' := if i < |ms| then ms[1..][i - 1 := (key, x)] else ms[1..] + [(key, x)];
      assert ms'[1..] == t';
      IndexOfUpdate(ms[1..], i - 1, key, x, t');
    }
  }

  lemma {:induction false} IndexOfOther(ms: seq<(string, Value)>, i: nat, key: string, x: Value, ms': seq<(string, Value)>, k: string)
    requires i == IndexOf(ms, key) && k != key
    requires ms' == if i < |ms| then ms[i := (key, x)] else ms + [(key, x)]
    ensures IndexOf(ms', k) < |ms'| <==> IndexOf(ms, k) < |ms|
    ensures IndexOf(ms, k) < |ms| ==> IndexOf(ms', k) == IndexOf(ms, k) && ms'[IndexOf(ms', k)] == ms[IndexOf(ms, k)]
  {
    if ms == [] {
      assert ms' == [(key, x)];
    } else if ms[0].0 == key {
      assert ms'[0] == (key, x);
      assert ms'[1..] == ms[1..];
    } else if ms[0].0 == k {
    } else {
      var t' := if i < |ms| then ms[1..][i - 1 := (key, x)] else ms[1..] + [(key, x)];
      assert ms'[1..] == t';
      IndexOfOther(ms[1..], i - 1, key, x, t', k);
    }
  }
}
