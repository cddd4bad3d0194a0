/**
 * The JSON value grammar of section 3 of RFC 8259 (`JsonValue` in
 * src/types/editor.types.ts), and the JavaScript operations the editor
 * applies to such values: `typeof v === 'object'`, `Object.keys`,
 * `String(v)` and property access `v[key]`.
 */
module Json {
  import opened Wrappers
  import Decimal

  /**
   * A JSON value. A number is carried as the decimal text `String(n)`
   * prints for it: the editor never computes with JSON numbers, it only
   * shows them. An object's members are listed in the order `Object.keys`
   * enumerates them.
   */
  datatype JsonValue =
    | JNull
    | JBool(b: bool)
    | JNumber(text: string)
    | JString(s: string)
    | JArray(items: seq<JsonValue>)
    | JObject(members: seq<Member>)

  datatype Member = Member(key: string, value: JsonValue)

  /** `typeof v === 'object'`: true of null as well as of arrays and objects. */
  predicate TypeofObject(v: JsonValue) {
    v.JNull? || v.JArray? || v.JObject?
  }

  /** `v !== null && typeof v === 'object'`: the values that have children. */
  predicate IsContainer(v: JsonValue) {
    v.JArray? || v.JObject?
  }

  /** The values that are neither null nor containers: strings, numbers, booleans. */
  predicate IsScalar(v: JsonValue) {
    v.JBool? || v.JNumber? || v.JString?
  }

  /** JavaScript truthiness: null, false, 0 and the empty string are falsy; containers are truthy. */
  predicate Truthy(v: JsonValue) {
    !(v.JNull? || v == JBool(false) || v == JNumber("0") || v == JString(""))
  }

  /** `Object.keys(v)` of a container: member keys, or the indices "0".."n-1" of an array. */
  function Keys(v: JsonValue): (ks: seq<string>)
    requires IsContainer(v)
    ensures v.JArray? ==> |ks| == |v.items|
    ensures v.JObject? ==> |ks| == |v.members|
    ensures v.JArray? ==> forall i :: 0 <= i < |ks| ==> Decimal.ParseIndex(ks[i]) == Some(i)
    ensures v.JObject? ==> forall i :: 0 <= i < |ks| ==> ks[i] == v.members[i].key
  {
    if v.JArray? then
      IndexKeysParse(|v.items|);
      seq(|v.items|, i requires 0 <= i < |v.items| => Decimal.NatToDecimal(i))
    else
      seq(|v.members|, i requires 0 <= i < |v.members| => v.members[i].key)
  }

  lemma IndexKeysParse(n: nat)
    ensures forall i: nat :: i < n ==> Decimal.ParseIndex(Decimal.NatToDecimal(i)) == Some(i)
  {
    forall i: nat | i < n {
      Decimal.ParseIndexOfDecimal(i);
    }
  }

  /**
   * `Object.entries(v)` of a container: the (key, child) pairs in
   * enumeration order.
   */
  function Entry(v: JsonValue, i: nat): (m: Member)
    requires IsContainer(v)
    requires i < |Keys(v)|
    ensures m.key == Keys(v)[i]
    ensures m.value < v
  {
    if v.JArray? then Member(Decimal.NatToDecimal(i), v.items[i]) else v.members[i]
  }

  /** `String(v)` as JavaScript converts a JSON value to text. */
  function ToText(v: JsonValue): string
    decreases v, 1
  {
    match v
    case JNull => "null"
    case JBool(b) => if b then "true" else "false"
    case JNumber(t) => t
    case JString(s) => s
    case JObject(_) => "[object Object]"
    case JArray(items) => JoinFrom(v, 0)
  }

  /**
   * `Array.prototype.join(",")` over the items of `v` from index `i`:
   * items are converted with `String`, except that null becomes "".
   */
  function JoinFrom(v: JsonValue, i: nat): string
    requires v.JArray? && i <= |v.items|
    decreases v, 0, |v.items| - i
  {
    if i == |v.items| then ""
    else
      var item := v.items[i];
      var text := if item.JNull? then "" else ToText(item);
      if i + 1 == |v.items| then text else text + "," + JoinFrom(v, i + 1)
  }

  /** Thrown by `v[key]` when `v` is null. */
  datatype TypeError = TypeError

  /**
   * `row[key]`: `None` is `undefined`. An object yields its member, an
   * array or a string the item or character at a canonical index, null
   * throws, and a number or boolean has no such property.
   */
  function Property(row: JsonValue, key: string): (r: Result<Option<JsonValue>, TypeError>)
    ensures r.Failure? <==> row.JNull?
    ensures row.JObject? && r.Success? && r.value.Some? ==>
              exists i :: 0 <= i < |row.members| && row.members[i].key == key && row.members[i].value == r.value.value
    ensures row.JObject? ==> (r.Success? && r.value.None? <==> forall i :: 0 <= i < |row.members| ==> row.members[i].key != key)
    ensures row.JArray? && r.value.Some? ==> r.value.value in row.items
    ensures row.JString? && r.value.Some? ==> r.value.value.JString? && |r.value.value.s| == 1 && r.value.value.s[0] in row.s
    ensures row.JNumber? || row.JBool? ==> r == Success(None)
  {
    match row
    case JNull => Failure(TypeError)
    case JObject(ms) => Success(MemberValue(ms, key))
    case JArray(items) =>
      var idx := Decimal.ParseIndex(key);
      Success(if idx.Some? && idx.value < |items| then Some(items[idx.value]) else None)
    case JString(s) =>
      var idx := Decimal.ParseIndex(key);
      Success(if idx.Some? && idx.value < |s| then Some(JString([s[idx.value]])) else None)
    case _ => Success(None)
  }

  /**
   * An array row's canonical index key selects that item and a string
   * row's selects that character; an index past the end is undefined.
   */
  lemma PropertyAtIndex(row: JsonValue, i: nat)
    requires row.JArray? || row.JString?
    ensures row.JArray? && i < |row.items| ==> Property(row, Decimal.NatToDecimal(i)) == Success(Some(row.items[i]))
    ensures row.JString? && i < |row.s| ==> Property(row, Decimal.NatToDecimal(i)) == Success(Some(JString([row.s[i]])))
    ensures row.JArray? && i >= |row.items| ==> Property(row, Decimal.NatToDecimal(i)) == Success(None)
    ensures row.JString? && i >= |row.s| ==> Property(row, Decimal.NatToDecimal(i)) == Success(None)
  {
    Decimal.ParseIndexOfDecimal(i);
  }

  /** The value of the first member named `key`. */
  function MemberValue(ms: seq<Member>, key: string): (r: Option<JsonValue>)
    ensures r.Some? ==> exists i :: 0 <= i < |ms| && ms[i].key == key && ms[i].value == r.value
    ensures r.None? <==> forall i :: 0 <= i < |ms| ==> ms[i].key != key
  {
    if |ms| == 0 then None
    else if ms[0].key == key then Some(ms[0].value)
    else MemberValue(ms[1..], key)
  }
}
