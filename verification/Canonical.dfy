/**
 The canonical encoding of a page value (canonical of internal/pageadmission/pageadmission.go; RFC 8785).
 Two values are encoded alike exactly when they differ in nothing but the order of object members and
 in which number JSON cannot hold stands where null could.
 */
module Canonical {
  import opened JsonText
  import opened Orders
  import opened Sequences
  import opened Utf16
  import opened Values

  /** A decoded value: nothing absent, no key twice, numbers spelled as numbers. */
  ghost predicate Json(v: Value) {
    match v
    case Missing => false
    case Num(s) => Plain(v)
    case Arr(items) => forall i :: 0 <= i < |items| ==> Json(items[i])
    case Obj(fields) => UniqueKeys(fields) && forall i :: 0 <= i < |fields| ==> Json(fields[i].value)
    case _ => true
  }

  /** Equal but for member order, at any depth, and for what null stands for. */
  ghost predicate Alike(v: Value, w: Value) {
    match v
    case Missing => false
    case Null => w.Null? || w.NonFinite?
    case NonFinite(_) => w.Null? || w.NonFinite?
    case Arr(items) => w.Arr? && |w.items| == |items| && forall i :: 0 <= i < |items| ==> Alike(items[i], w.items[i])
    case Obj(fields) =>
      && w.Obj? && SameKeys(fields, w.fields)
      && forall i :: 0 <= i < |fields| ==> Alike(fields[i].value, Get(w.fields, fields[i].key))
    case _ => w == v
  }

  ghost predicate SameKeys(a: seq<Field>, b: seq<Field>) {
    forall k :: k in Keys(a) <==> k in Keys(b)
  }

  // ----- the one form of each value -----

  /** Members in order of their keys, at every depth. */
  function Norm(v: Value): Value {
    match v
    case NonFinite(_) => Null
    case Arr(items) => Arr(seq(|items|, i requires 0 <= i < |items| => Norm(items[i])))
    case Obj(fields) => Obj(Arranged(SortKeys(Keys(fields)), seq(|fields|, i requires 0 <= i < |fields| => Field(fields[i].key, Norm(fields[i].value)))))
    case _ => v
  }

  function Arranged(keys: seq<string>, fields: seq<Field>): (r: seq<Field>)
    ensures |r| == |keys| && forall i :: 0 <= i < |keys| ==> r[i] == Field(keys[i], Get(fields, keys[i]))
  {
    seq(|keys|, i requires 0 <= i < |keys| => Field(keys[i], Get(fields, keys[i])))
  }

  function Normed(fields: seq<Field>): (r: seq<Field>)
    ensures |r| == |fields| && forall i :: 0 <= i < |fields| ==> r[i] == Field(fields[i].key, Norm(fields[i].value))
  {
    seq(|fields|, i requires 0 <= i < |fields| => Field(fields[i].key, Norm(fields[i].value)))
  }

  function Members(fields: seq<Field>): seq<Field> {
    Arranged(SortKeys(Keys(fields)), Normed(fields))
  }

  lemma {:induction false} NormIs(fields: seq<Field>)
    ensures Norm(Obj(fields)) == Obj(Members(fields))
  {
    assert Normed(fields) == seq(|fields|, i requires 0 <= i < |fields| => Field(fields[i].key, Norm(fields[i].value)));
  }

  lemma {:induction false} KeyAt(fields: seq<Field>, k: string) returns (i: nat)
    requires k in Keys(fields)
    ensures i < |fields| && fields[i].key == k
  {
    i :| 0 <= i < |fields| && Keys(fields)[i] == k;
  }

  lemma {:induction false} NormedAt(fields: seq<Field>, i: nat)
    requires UniqueKeys(fields) && i < |fields|
    ensures Get(fields, fields[i].key) == fields[i].value && Get(Normed(fields), fields[i].key) == Norm(fields[i].value)
  {
    GetAt(fields, i);
    GetAt(Normed(fields), i);
  }

  lemma {:induction false} KeysSorted(fields: seq<Field>)
    requires UniqueKeys(fields)
    ensures var sorted := SortKeys(Keys(fields)); InOrder(sorted, Less) && forall k :: k in sorted <==> k in Keys(fields)
  {
    SortKeysSorts(Keys(fields));
  }

  lemma {:induction false} NormIsPlain(v: Value)
    requires Json(v)
    ensures Plain(Norm(v))
  {
    match v
    case Arr(items) =>
      forall i | 0 <= i < |items| ensures Plain(Norm(items[i])) {
        NormIsPlain(items[i]);
      }
    case Obj(fields) =>
      NormIs(fields);
      KeysSorted(fields);
      var sorted := SortKeys(Keys(fields));
      forall j | 0 <= j < |sorted| ensures Plain(Members(fields)[j].value) {
        assert sorted[j] in sorted;
        var i := KeyAt(fields, sorted[j]);
        NormedAt(fields, i);
        NormIsPlain(fields[i].value);
      }
    case _ =>
  }

  /** Alike values have one form, and only they. */
  lemma {:induction false} NormExact(v: Value, w: Value)
    requires Json(v) && Json(w)
    ensures Norm(v) == Norm(w) <==> Alike(v, w)
  {
    match v
    case Arr(items) =>
      assert |Norm(v).items| == |items| && (w.Arr? ==> |Norm(w).items| == |w.items|);
      if w.Arr? && |w.items| == |items| {
        forall i | 0 <= i < |items| ensures Norm(items[i]) == Norm(w.items[i]) <==> Alike(items[i], w.items[i]) {
          NormExact(items[i], w.items[i]);
        }
        ArrExact(items, w.items);
      }
    case Obj(fields) =>
      if w.Obj? {
        if SameKeys(fields, w.fields) {
          forall i | 0 <= i < |fields|
            ensures Norm(fields[i].value) == Norm(Get(w.fields, fields[i].key)) <==> Alike(fields[i].value, Get(w.fields, fields[i].key))
          {
            assert Keys(fields)[i] in Keys(fields);
            var j := KeyAt(w.fields, fields[i].key);
            GetAt(w.fields, j);
            NormExact(fields[i].value, w.fields[j].value);
          }
        }
        ObjExact(fields, w.fields);
      }
    case _ =>
  }

  lemma {:induction false} ArrExact(a: seq<Value>, b: seq<Value>)
    requires |a| == |b|
    ensures Norm(Arr(a)) == Norm(Arr(b)) <==> forall i :: 0 <= i < |a| ==> Norm(a[i]) == Norm(b[i])
  {
    var x, y := Norm(Arr(a)).items, Norm(Arr(b)).items;
    if forall i :: 0 <= i < |a| ==> Norm(a[i]) == Norm(b[i]) {
      assert x == y;
    }
    if x == y {
      forall i | 0 <= i < |a| ensures Norm(a[i]) == Norm(b[i]) {
        assert x[i] == y[i];
      }
    }
  }

  lemma {:induction false} ObjExact(a: seq<Field>, b: seq<Field>)
    requires UniqueKeys(a) && UniqueKeys(b)
    ensures Norm(Obj(a)) == Norm(Obj(b)) <==>
      SameKeys(a, b) && forall i :: 0 <= i < |a| ==> Norm(a[i].value) == Norm(Get(b, a[i].key))
  {
    NormIs(a);
    NormIs(b);
    KeysSorted(a);
    KeysSorted(b);
    if Members(a) == Members(b) {
      MembersTell(a, b);
    }
    if SameKeys(a, b) && forall i :: 0 <= i < |a| ==> Norm(a[i].value) == Norm(Get(b, a[i].key)) {
      MembersMeet(a, b);
    }
  }

  lemma {:induction false} MembersTell(a: seq<Field>, b: seq<Field>)
    requires UniqueKeys(a) && UniqueKeys(b) && Members(a) == Members(b)
    ensures SameKeys(a, b) && forall i :: 0 <= i < |a| ==> Norm(a[i].value) == Norm(Get(b, a[i].key))
  {
    var x, y := SortKeys(Keys(a)), SortKeys(Keys(b));
    KeysSorted(a);
    KeysSorted(b);
    forall i | 0 <= i < |x| ensures x[i] == y[i] {
      assert Members(a)[i].key == Members(b)[i].key;
    }
    assert x == y;
    forall i | 0 <= i < |a| ensures Norm(a[i].value) == Norm(Get(b, a[i].key)) {
      var k := a[i].key;
      assert Keys(a)[i] in Keys(a);
      var j := KeyAt(b, k);
      NormedAt(a, i);
      NormedAt(b, j);
      var at :| 0 <= at < |x| && x[at] == k;
      assert Members(a)[at] == Members(b)[at];
    }
  }

  lemma {:induction false} MembersMeet(a: seq<Field>, b: seq<Field>)
    requires UniqueKeys(a) && UniqueKeys(b) && SameKeys(a, b)
    requires forall i :: 0 <= i < |a| ==> Norm(a[i].value) == Norm(Get(b, a[i].key))
    ensures Members(a) == Members(b)
  {
    var x, y := SortKeys(Keys(a)), SortKeys(Keys(b));
    KeysSorted(a);
    KeysSorted(b);
    LessIsOrder();
    OneOrder(x, y, Less);
    forall at | 0 <= at < |x| ensures Members(a)[at] == Members(b)[at] {
      assert x[at] in x;
      var i := KeyAt(a, x[at]);
      var j := KeyAt(b, x[at]);
      NormedAt(a, i);
      NormedAt(b, j);
    }
  }

  /** The encoding does not depend on member order, and tells any other two values apart. */
  lemma {:induction false} EncodingExact(v: Value, w: Value)
    requires Json(v) && Json(w)
    ensures Spell(Norm(v)) == Spell(Norm(w)) <==> Alike(v, w)
  {
    NormExact(v, w);
    NormIsPlain(v);
    NormIsPlain(w);
    if Spell(Norm(v)) == Spell(Norm(w)) {
      SpellInjective(Norm(v), Norm(w));
    }
  }

  /** What is encoded decodes to the value's one form. */
  lemma {:induction false} EncodingDecodes(v: Value)
    requires Json(v)
    ensures Decode(Spell(Norm(v))) == Got(Norm(v), "")
  {
    NormIsPlain(v);
    SpelledReads(Norm(v), "");
    assert Spell(Norm(v)) + "" == Spell(Norm(v));
  }

  // ----- the encoder -----

  method Encode(v: Value) returns (out: string)
    requires Json(v)
    ensures out == Spell(Norm(v))
    decreases v, 1
  {
    match v {
      case Obj(fields) => out := EncodeObject(fields);
      case Arr(items) => out := EncodeArray(items);
      case Str(s) => out := CanonicalString(s);
      case Bool(b) => out := if b then "true" else "false";
      case Num(s) => out := s;
      case _ => out := "null";
    }
  }

  lemma {:induction false} Appends(out: string, text: string, rest: string)
    ensures out + ("," + (text + rest)) == out + "," + text + rest
  {
    Assoc(out, ",", text + rest);
    Assoc(out + ",", text, rest);
  }

  method EncodeArray(items: seq<Value>) returns (out: string)
    requires forall i :: 0 <= i < |items| ==> Json(items[i])
    ensures out == Spell(Norm(Arr(items)))
    decreases items, 0
  {
    ghost var norm := Norm(Arr(items)).items;
    out := "[";
    for i := 0 to |items|
      invariant out + (if i == 0 then SpellItems(norm) else MoreItems(norm[i..])) == Spell(Arr(norm))
    {
      var encoded := Encode(items[i]);
      ItemOn(out, norm, i);
      out := out + (if i > 0 then "," else "") + encoded;
    }
    out := out + "]";
  }

  lemma {:induction false} ItemOn(out: string, norm: seq<Value>, i: nat)
    requires i < |norm|
    ensures out + (if i == 0 then SpellItems(norm) else MoreItems(norm[i..]))
      == out + (if i > 0 then "," else "") + Spell(norm[i]) + MoreItems(norm[i + 1..])
  {
    assert norm[i..][1..] == norm[i + 1..] && norm[i..][0] == norm[i];
    var text := Spell(norm[i]);
    if i == 0 {
      assert norm[0..] == norm;
      assert out + "" == out;
      Assoc(out, text, MoreItems(norm[1..]));
    } else {
      Appends(out, text, MoreItems(norm[i + 1..]));
    }
  }

  method EncodeObject(fields: seq<Field>) returns (out: string)
    requires UniqueKeys(fields) && forall i :: 0 <= i < |fields| ==> Json(fields[i].value)
    ensures out == Spell(Norm(Obj(fields)))
    decreases fields, 0
  {
    var keys := SortKeys(Keys(fields));
    ghost var norm := Members(fields);
    NormIs(fields);
    KeysSorted(fields);
    out := "{";
    for i := 0 to |keys|
      invariant out + (if i == 0 then SpellFields(norm) else MoreFields(norm[i..])) == Spell(Obj(norm))
    {
      assert keys[i] in keys;
      ghost var at := KeyAt(fields, keys[i]);
      NormedAt(fields, at);
      var key := CanonicalString(keys[i]);
      var encoded := Encode(Get(fields, keys[i]));
      FieldOn(out, norm, i);
      out := out + (if i > 0 then "," else "") + (key + (":" + encoded));
    }
    out := out + "}";
  }

  lemma {:induction false} FieldOn(out: string, norm: seq<Field>, i: nat)
    requires i < |norm|
    ensures out + (if i == 0 then SpellFields(norm) else MoreFields(norm[i..]))
      == out + (if i > 0 then "," else "") + SpellField(norm[i]) + MoreFields(norm[i + 1..])
  {
    assert norm[i..][1..] == norm[i + 1..] && norm[i..][0] == norm[i];
    var text := SpellField(norm[i]);
    if i == 0 {
      assert norm[0..] == norm;
      assert out + "" == out;
      Assoc(out, text, MoreFields(norm[1..]));
    } else {
      Appends(out, text, MoreFields(norm[i + 1..]));
    }
  }
}
