/** JSON values as the write engine sees them (internal/dataapi/value.go, apply.go). */
module Values {

  /**
   `Missing` is the absent value, told apart from null. A finite number is carried by the spelling
   String(n) gives it, a number JSON cannot hold by its name. Fields are in the order Keys() gives.
   */
  datatype Value =
    | Missing
    | Null
    | Str(text: string)
    | Bool(flag: bool)
    | Num(spelling: string)
    | NonFinite(name: string)
    | Arr(items: seq<Value>)
    | Obj(fields: seq<Field>)

  datatype Field = Field(key: string, value: Value)

  datatype Option<T> = None | Some(value: T)

  predicate IsNullish(v: Value) {
    v.Null? || v.Missing?
  }

  /** The value under `key`, `Missing` when there is none. */
  function Get(fields: seq<Field>, key: string): Value {
    if fields == [] then Missing
    else if fields[0].key == key then fields[0].value
    else Get(fields[1..], key)
  }

  function Keys(fields: seq<Field>): (r: seq<string>)
    ensures |r| == |fields|
  {
    seq(|fields|, i requires 0 <= i < |fields| => fields[i].key)
  }

  /** String(v). */
  function JsString(v: Value): string {
    match v
    case Missing => "undefined"
    case Null => "null"
    case Str(s) => s
    case Bool(b) => if b then "true" else "false"
    case Num(s) => s
    case NonFinite(s) => s
    case Arr(items) => JoinItems(items)
    case Obj(_) => "[object Object]"
  }

  function JoinItems(items: seq<Value>): string {
    if items == [] then ""
    else
      var head := if IsNullish(items[0]) then "" else JsString(items[0]);
      if |items| == 1 then head else head + "," + JoinItems(items[1..])
  }

  /** No key twice, as an object has it. */
  ghost predicate UniqueKeys(fields: seq<Field>) {
    forall a, b :: 0 <= a < b < |fields| ==> fields[a].key != fields[b].key
  }

  predicate HasKey(fields: seq<Field>, k: nat, key: string) {
    exists i :: 0 <= i < k && i < |fields| && fields[i].key == key
  }

  lemma {:induction false} GetAbsent(fields: seq<Field>, key: string)
    requires !HasKey(fields, |fields|, key)
    ensures Get(fields, key) == Missing
  {
    if fields != [] {
      assert fields[0].key != key;
      assert forall i :: 0 <= i < |fields| - 1 ==> fields[1..][i] == fields[i + 1];
      GetAbsent(fields[1..], key);
    }
  }

  /** No object anywhere in the value has a key twice. */
  ghost predicate Proper(v: Value) {
    match v
    case Arr(items) => forall i :: 0 <= i < |items| ==> Proper(items[i])
    case Obj(fields) => UniqueKeys(fields) && forall i :: 0 <= i < |fields| ==> Proper(fields[i].value)
    case _ => true
  }

  lemma {:induction false} GetAt(fields: seq<Field>, i: nat)
    requires UniqueKeys(fields) && i < |fields|
    ensures Get(fields, fields[i].key) == fields[i].value
  {
    if i > 0 {
      var rest := fields[1..];
      assert fields[0].key != fields[i].key;
      assert forall j :: 0 <= j < |rest| ==> rest[j] == fields[j + 1];
      GetAt(rest, i - 1);
    }
  }
}
