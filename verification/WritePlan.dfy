/**
 The checks that come before any write (internal/dataapi/writeplan.go; validateShape of apply.go): body
 keys no rule defines, scalar rules that match nothing, values of the wrong shape. What was read and is
 posted back passes them all, but for scalar rules that match nothing.
 */
module WritePlan {
  import opened Dom
  import opened PageTree
  import opened Rules
  import opened Sequences
  import opened Values

  datatype Step = Key(name: string) | Index(i: nat)

  type Path = seq<Step>

  datatype Finding = UnknownKey(path: Path) | Unmatched(path: Path, selector: string) | Mismatch(path: Path, expected: string, got: string)

  /** The findings below `base`, named from the root. */
  function Under(base: Path, found: seq<Finding>): (r: seq<Finding>)
    ensures |r| == |found| && forall i :: 0 <= i < |r| ==> r[i] == found[i].(path := base + found[i].path)
  {
    seq(|found|, i requires 0 <= i < |found| => found[i].(path := base + found[i].path))
  }

  lemma {:induction false} UnderNext(start: seq<Finding>, base: Path, step: Step, before: seq<Finding>, found: seq<Finding>)
    ensures start + Under(base, before) + Under(base + [step], found) == start + Under(base, before + Under([step], found))
  {
    var all := before + Under([step], found);
    forall i | |before| <= i < |all| ensures Under(base + [step], found)[i - |before|] == Under(base, all)[i] {
      Assoc(base, [step], found[i - |before|].path);
    }
  }

  lemma {:induction false} UnderNothing(found: seq<Finding>)
    ensures Under([], found) == found
  {
    forall i | 0 <= i < |found| ensures Under([], found)[i] == found[i] {
      assert [] + found[i].path == found[i].path;
    }
  }

  // ----- keys no rule defines -----

  function Unknown(rule: Value, value: Value): seq<Finding>
    decreases value, 1, 0
  {
    match rule
    case Arr(items) => if ShapeOf(items).Obj? && value.Arr? then UnknownItems(ShapeOf(items), value.items, |value.items|) else []
    case Obj(fields) => if value.Obj? then UnknownFields(fields, value.fields, |value.fields|) else []
    case _ => []
  }

  function UnknownItems(shape: Value, items: seq<Value>, k: nat): seq<Finding>
    requires k <= |items|
    decreases items, 0, k
  {
    if k == 0 then [] else UnknownItems(shape, items, k - 1) + Under([Index(k - 1)], Unknown(shape, items[k - 1]))
  }

  function UnknownFields(rules: seq<Field>, fields: seq<Field>, k: nat): seq<Finding>
    requires k <= |fields|
    decreases fields, 0, k
  {
    if k == 0 then []
    else UnknownFields(rules, fields, k - 1) + Under([Key(fields[k - 1].key)], UnknownField(rules, fields[k - 1]))
  }

  function UnknownField(rules: seq<Field>, field: Field): seq<Finding>
    decreases field, 0, 0
  {
    if HasKey(rules, |rules|, field.key) then Unknown(Get(rules, field.key), field.value) else [UnknownKey([])]
  }

  // ----- scalar rules that match nothing -----

  /** The selector of a scalar rule that needs an element; lists, "." and "@name" need none. */
  function SelectorNeeded(e: Engine, rule: string): Option<string> {
    match FormOf(e, rule)
    case NamedForm(selector, _) => if selector == "" then None else Some(selector)
    case TextForm(selector) => if selector == "" then None else Some(selector)
    case _ => None
  }

  /** None when a selector on the way cannot be read. */
  function Missed(e: Engine, dom: Dom, ctx: Id, rule: Value, value: Value): Option<seq<Finding>>
    decreases rule, 1, 0
  {
    if value.Missing? then Some([])
    else
      match rule
      case Str(r) => MissedScalar(e, dom, ctx, r)
      case Obj(fields) => if value.Obj? then MissedFields(e, dom, ctx, fields, value.fields, |fields|) else Some([])
      case _ => Some([])
  }

  function MissedScalar(e: Engine, dom: Dom, ctx: Id, rule: string): Option<seq<Finding>> {
    var selector := SelectorNeeded(e, rule);
    if selector.None? then Some([])
    else
      var rows := e.find(dom, ctx, selector.value);
      if rows.None? then None else Some(if rows.value == [] then [Unmatched([], selector.value)] else [])
  }

  function MissedFields(e: Engine, dom: Dom, ctx: Id, rules: seq<Field>, fields: seq<Field>, k: nat): Option<seq<Finding>>
    requires k <= |rules|
    decreases rules, 0, k
  {
    if k == 0 then Some([])
    else
      var before, found := MissedFields(e, dom, ctx, rules, fields, k - 1), Missed(e, dom, ctx, rules[k - 1].value, Get(fields, rules[k - 1].key));
      if before.None? || found.None? then None else Some(before.value + Under([Key(rules[k - 1].key)], found.value))
  }

  lemma {:induction false} StaysFailed(e: Engine, dom: Dom, ctx: Id, rules: seq<Field>, fields: seq<Field>, i: nat, k: nat)
    requires i <= k <= |rules| && MissedFields(e, dom, ctx, rules, fields, i).None?
    ensures MissedFields(e, dom, ctx, rules, fields, k).None?
    decreases k
  {
    if i < k {
      StaysFailed(e, dom, ctx, rules, fields, i, k - 1);
    }
  }

  // ----- values of the wrong shape -----

  predicate Scalar(v: Value) {
    !v.Arr? && !v.Obj?
  }

  function TypeOf(v: Value): string {
    match v
    case Missing => "undefined"
    case Null => "null"
    case Str(_) => "string"
    case Bool(_) => "boolean"
    case Num(_) => "number"
    case NonFinite(_) => "number"
    case Arr(_) => "array"
    case Obj(_) => "object"
  }

  function Misshapen(rule: Value, value: Value): seq<Finding>
    decreases rule, 1, 0
  {
    if value.Missing? then []
    else
      match rule
      case Str(r) =>
        if !EndsWith(r, "[]") then MisshapenText(value)
        else if value.Arr? then MisshapenTexts(value.items, |value.items|)
        else [Mismatch([], "array", TypeOf(value))]
      case Arr(items) =>
        if !value.Arr? then [Mismatch([], "array", TypeOf(value))]
        else if |items| > 1 then MisshapenItems(items[1], value.items, |value.items|)
        else []
      case Obj(fields) =>
        if value.Obj? then MisshapenFields(fields, value.fields, |fields|) else [Mismatch([], "object", TypeOf(value))]
      case _ => []
  }

  function MisshapenTexts(items: seq<Value>, k: nat): seq<Finding>
    requires k <= |items|
  {
    if k == 0 then []
    else MisshapenTexts(items, k - 1) + Under([Index(k - 1)], MisshapenText(items[k - 1]))
  }

  function MisshapenText(item: Value): seq<Finding> {
    if Scalar(item) then [] else [Mismatch([], "scalar", TypeOf(item))]
  }

  function MisshapenItems(shape: Value, items: seq<Value>, k: nat): seq<Finding>
    requires k <= |items|
    decreases shape, 2, k
  {
    if k == 0 then [] else MisshapenItems(shape, items, k - 1) + Under([Index(k - 1)], Misshapen(shape, items[k - 1]))
  }

  function MisshapenFields(rules: seq<Field>, fields: seq<Field>, k: nat): seq<Finding>
    requires k <= |rules|
    decreases rules, 0, k
  {
    if k == 0 then []
    else
      MisshapenFields(rules, fields, k - 1) + Under([Key(rules[k - 1].key)], Misshapen(rules[k - 1].value, Get(fields, rules[k - 1].key)))
  }

  class Plan {
    var unknownKeys: seq<Finding>
    var unmatched: seq<Finding>
    var mismatches: seq<Finding>

    constructor ()
      ensures unknownKeys == [] && unmatched == [] && mismatches == []
    {
      unknownKeys, unmatched, mismatches := [], [], [];
    }

    /** checkKeys. */
    method CheckKeys(rule: Value, value: Value, path: Path)
      modifies this`unknownKeys
      ensures unknownKeys == old(unknownKeys) + Under(path, Unknown(rule, value))
      decreases value, 2
    {
      if rule.Arr? && ShapeOf(rule.items).Obj? && value.Arr? {
        CheckItems(ShapeOf(rule.items), value.items, path);
      } else if rule.Obj? && value.Obj? {
        CheckFields(rule.fields, value.fields, path);
      }
    }

    method CheckItems(shape: Value, items: seq<Value>, path: Path)
      modifies this`unknownKeys
      ensures unknownKeys == old(unknownKeys) + Under(path, UnknownItems(shape, items, |items|))
      decreases items, 1
    {
      for i := 0 to |items|
        invariant unknownKeys == old(unknownKeys) + Under(path, UnknownItems(shape, items, i))
      {
        CheckKeys(shape, items[i], path + [Index(i)]);
        UnderNext(old(unknownKeys), path, Index(i), UnknownItems(shape, items, i), Unknown(shape, items[i]));
      }
    }

    method CheckFields(rules: seq<Field>, fields: seq<Field>, path: Path)
      modifies this`unknownKeys
      ensures unknownKeys == old(unknownKeys) + Under(path, UnknownFields(rules, fields, |fields|))
      decreases fields, 1
    {
      for i := 0 to |fields|
        invariant unknownKeys == old(unknownKeys) + Under(path, UnknownFields(rules, fields, i))
      {
        CheckField(rules, fields[i], path + [Key(fields[i].key)]);
        UnderNext(old(unknownKeys), path, Key(fields[i].key), UnknownFields(rules, fields, i), UnknownField(rules, fields[i]));
      }
    }

    method CheckField(rules: seq<Field>, field: Field, path: Path)
      modifies this`unknownKeys
      ensures unknownKeys == old(unknownKeys) + Under(path, UnknownField(rules, field))
      decreases field, 0
    {
      if !HasKey(rules, |rules|, field.key) {
        unknownKeys := unknownKeys + [UnknownKey(path)];
        assert path + [] == path;
      } else {
        CheckKeys(Get(rules, field.key), field.value, path);
      }
    }

    /** checkTargets. */
    method CheckTargets(e: Engine, dom: Dom, ctx: Id, rule: Value, value: Value, path: Path) returns (failed: bool)
      modifies this`unmatched
      ensures var found := Missed(e, dom, ctx, rule, value);
        failed == found.None? && (found.Some? ==> unmatched == old(unmatched) + Under(path, found.value))
      decreases rule, 2
    {
      if value.Missing? {
        return false;
      }
      match rule {
        case Str(r) => failed := CheckTarget(e, dom, ctx, r, path);
        case Obj(fields) =>
          if !value.Obj? {
            return false;
          }
          failed := CheckTargetFields(e, dom, ctx, fields, value.fields, path);
        case _ => return false;
      }
    }

    method CheckTarget(e: Engine, dom: Dom, ctx: Id, rule: string, path: Path) returns (failed: bool)
      modifies this`unmatched
      ensures var found := MissedScalar(e, dom, ctx, rule);
        failed == found.None? && (found.Some? ==> unmatched == old(unmatched) + Under(path, found.value))
    {
      var selector := SelectorNeeded(e, rule);
      if selector.None? {
        return false;
      }
      var rows := e.find(dom, ctx, selector.value);
      if rows.None? {
        return true;
      }
      if rows.value == [] {
        unmatched := unmatched + [Unmatched(path, selector.value)];
        assert path + [] == path;
      }
      return false;
    }

    method CheckTargetFields(e: Engine, dom: Dom, ctx: Id, rules: seq<Field>, fields: seq<Field>, path: Path) returns (failed: bool)
      modifies this`unmatched
      ensures var found := MissedFields(e, dom, ctx, rules, fields, |rules|);
        failed == found.None? && (found.Some? ==> unmatched == old(unmatched) + Under(path, found.value))
      decreases rules, 1
    {
      for i := 0 to |rules|
        invariant var found := MissedFields(e, dom, ctx, rules, fields, i); found.Some? && unmatched == old(unmatched) + Under(path, found.value)
      {
        failed := CheckTargets(e, dom, ctx, rules[i].value, Get(fields, rules[i].key), path + [Key(rules[i].key)]);
        if failed {
          StaysFailed(e, dom, ctx, rules, fields, i + 1, |rules|);
          return true;
        }
        UnderNext(old(unmatched), path, Key(rules[i].key), MissedFields(e, dom, ctx, rules, fields, i).value,
          Missed(e, dom, ctx, rules[i].value, Get(fields, rules[i].key)).value);
      }
      return false;
    }

    /** validateShape. */
    method ValidateShape(rule: Value, value: Value, path: Path)
      modifies this`mismatches
      ensures mismatches == old(mismatches) + Under(path, Misshapen(rule, value))
      decreases rule, 1
    {
      if value.Missing? {
        return;
      }
      match rule {
        case Str(r) =>
          if !EndsWith(r, "[]") {
            if !Scalar(value) {
              Push(path, "scalar", value);
            }
          } else if value.Arr? {
            ValidateTexts(value.items, path);
          } else {
            Push(path, "array", value);
          }
        case Arr(items) =>
          if !value.Arr? {
            Push(path, "array", value);
          } else if |items| > 1 {
            ValidateItems(items[1], value.items, path);
          }
        case Obj(fields) =>
          if value.Obj? {
            ValidateFields(fields, value.fields, path);
          } else {
            Push(path, "object", value);
          }
        case _ =>
      }
    }

    /** pushMismatch. */
    method Push(path: Path, expected: string, got: Value)
      modifies this`mismatches
      ensures mismatches == old(mismatches) + Under(path, [Mismatch([], expected, TypeOf(got))])
    {
      mismatches := mismatches + [Mismatch(path, expected, TypeOf(got))];
      assert path + [] == path;
    }

    method ValidateTexts(items: seq<Value>, path: Path)
      modifies this`mismatches
      ensures mismatches == old(mismatches) + Under(path, MisshapenTexts(items, |items|))
    {
      for i := 0 to |items|
        invariant mismatches == old(mismatches) + Under(path, MisshapenTexts(items, i))
      {
        if !Scalar(items[i]) {
          Push(path + [Index(i)], "scalar", items[i]);
        }
        UnderNext(old(mismatches), path, Index(i), MisshapenTexts(items, i), MisshapenText(items[i]));
      }
    }

    method ValidateItems(shape: Value, items: seq<Value>, path: Path)
      modifies this`mismatches
      ensures mismatches == old(mismatches) + Under(path, MisshapenItems(shape, items, |items|))
      decreases shape, 2
    {
      for i := 0 to |items|
        invariant mismatches == old(mismatches) + Under(path, MisshapenItems(shape, items, i))
      {
        ValidateShape(shape, items[i], path + [Index(i)]);
        UnderNext(old(mismatches), path, Index(i), MisshapenItems(shape, items, i), Misshapen(shape, items[i]));
      }
    }

    method ValidateFields(rules: seq<Field>, fields: seq<Field>, path: Path)
      modifies this`mismatches
      ensures mismatches == old(mismatches) + Under(path, MisshapenFields(rules, fields, |rules|))
      decreases rules, 1
    {
      for i := 0 to |rules|
        invariant mismatches == old(mismatches) + Under(path, MisshapenFields(rules, fields, i))
      {
        ValidateShape(rules[i].value, Get(fields, rules[i].key), path + [Key(rules[i].key)]);
        UnderNext(old(mismatches), path, Key(rules[i].key), MisshapenFields(rules, fields, i), Misshapen(rules[i].value, Get(fields, rules[i].key)));
      }
    }
  }

  // ----- what each path says -----

  lemma {:induction false} InUnder(step: Step, found: seq<Finding>, f: Finding)
    ensures f in Under([step], found) <==> f.path != [] && f.path[0] == step && f.(path := f.path[1..]) in found
  {
    var all := Under([step], found);
    if f in all {
      var i :| 0 <= i < |all| && all[i] == f;
      assert f.path[1..] == found[i].path;
      assert found[i] == f.(path := f.path[1..]);
    }
    if f.path != [] && f.path[0] == step && f.(path := f.path[1..]) in found {
      var i :| 0 <= i < |found| && found[i] == f.(path := f.path[1..]);
      assert f.path == [step] + f.path[1..];
      assert all[i] == f;
    }
  }

  /** Body and rules part at the end of this path: the rules have no such key. */
  ghost predicate UnknownAt(rule: Value, value: Value, p: Path)
    decreases |p|
  {
    p != [] &&
    match rule
    case Arr(items) =>
      && ShapeOf(items).Obj? && value.Arr? && p[0].Index? && p[0].i < |value.items|
      && UnknownAt(ShapeOf(items), value.items[p[0].i], p[1..])
    case Obj(fields) => value.Obj? && p[0].Key? && UnknownFieldAt(fields, value.fields, p)
    case _ => false
  }

  ghost predicate UnknownFieldAt(rules: seq<Field>, fields: seq<Field>, p: Path)
    requires p != [] && p[0].Key?
    decreases |p|, 0
  {
    var key := p[0].name;
    && HasKey(fields, |fields|, key)
    && if HasKey(rules, |rules|, key) then UnknownAt(Get(rules, key), Get(fields, key), p[1..]) else |p| == 1
  }

  /** checkKeys reports a path just when body and rules part there. */
  lemma {:induction false} UnknownExact(rule: Value, value: Value, p: Path)
    requires Proper(value)
    ensures UnknownKey(p) in Unknown(rule, value) <==> UnknownAt(rule, value, p)
    decreases |p|, 1, 0
  {
    if rule.Arr? && ShapeOf(rule.items).Obj? && value.Arr? {
      UnknownItemsExact(ShapeOf(rule.items), value.items, |value.items|, p);
    } else if rule.Obj? && value.Obj? {
      UnknownFieldsExact(rule.fields, value.fields, |value.fields|, p);
    }
  }

  lemma {:induction false} UnknownItemsExact(shape: Value, items: seq<Value>, k: nat, p: Path)
    requires k <= |items| && forall i :: 0 <= i < |items| ==> Proper(items[i])
    ensures UnknownKey(p) in UnknownItems(shape, items, k) <==>
      p != [] && p[0].Index? && p[0].i < k && UnknownAt(shape, items[p[0].i], p[1..])
    decreases |p|, 0, k
  {
    if k > 0 {
      UnknownItemsExact(shape, items, k - 1, p);
      InUnder(Index(k - 1), Unknown(shape, items[k - 1]), UnknownKey(p));
      if p != [] {
        UnknownExact(shape, items[k - 1], p[1..]);
      }
    }
  }

  lemma {:induction false} UnknownFieldsExact(rules: seq<Field>, fields: seq<Field>, k: nat, p: Path)
    requires k <= |fields| && UniqueKeys(fields) && forall i :: 0 <= i < |fields| ==> Proper(fields[i].value)
    ensures UnknownKey(p) in UnknownFields(rules, fields, k) <==>
      p != [] && p[0].Key? && HasKey(fields, k, p[0].name) && UnknownFieldAt(rules, fields, p)
    decreases |p|, 0, k
  {
    if k > 0 {
      var field := fields[k - 1];
      UnknownFieldsExact(rules, fields, k - 1, p);
      InUnder(Key(field.key), UnknownField(rules, field), UnknownKey(p));
      if p != [] && p[0] == Key(field.key) {
        assert HasKey(fields, k, field.key) && HasKey(fields, |fields|, field.key);
        GetAt(fields, k - 1);
        UnknownExact(Get(rules, field.key), field.value, p[1..]);
      }
    }
  }

  /** The scalar rule at the end of this path of keys is given a value, and its selector matches nothing. */
  ghost predicate MissedAt(e: Engine, dom: Dom, ctx: Id, rule: Value, value: Value, p: Path, selector: string)
    decreases |p|
  {
    && !value.Missing?
    && match rule
       case Str(r) => p == [] && SelectorNeeded(e, r) == Some(selector) && e.find(dom, ctx, selector) == Some([])
       case Obj(fields) => value.Obj? && p != [] && p[0].Key? && MissedFieldAt(e, dom, ctx, fields, value.fields, p, selector)
       case _ => false
  }

  ghost predicate MissedFieldAt(e: Engine, dom: Dom, ctx: Id, rules: seq<Field>, fields: seq<Field>, p: Path, selector: string)
    requires p != [] && p[0].Key?
    decreases |p|, 0
  {
    HasKey(rules, |rules|, p[0].name) && MissedAt(e, dom, ctx, Get(rules, p[0].name), Get(fields, p[0].name), p[1..], selector)
  }

  /** checkTargets reports a path and a selector just when the rule there was given a value and matches nothing. */
  lemma {:induction false} MissedExact(e: Engine, dom: Dom, ctx: Id, rule: Value, value: Value, p: Path, selector: string)
    requires Proper(rule) && Missed(e, dom, ctx, rule, value).Some?
    ensures Unmatched(p, selector) in Missed(e, dom, ctx, rule, value).value <==> MissedAt(e, dom, ctx, rule, value, p, selector)
    decreases |p|, 1, 0
  {
    if rule.Obj? && value.Obj? {
      MissedFieldsExact(e, dom, ctx, rule.fields, value.fields, |rule.fields|, p, selector);
    }
  }

  lemma {:induction false} MissedFieldsExact(e: Engine, dom: Dom, ctx: Id, rules: seq<Field>, fields: seq<Field>, k: nat, p: Path, selector: string)
    requires k <= |rules| && UniqueKeys(rules) && (forall i :: 0 <= i < |rules| ==> Proper(rules[i].value))
    requires MissedFields(e, dom, ctx, rules, fields, k).Some?
    ensures Unmatched(p, selector) in MissedFields(e, dom, ctx, rules, fields, k).value <==>
      p != [] && p[0].Key? && HasKey(rules, k, p[0].name) && MissedFieldAt(e, dom, ctx, rules, fields, p, selector)
    decreases |p|, 0, k
  {
    if k > 0 {
      var rule := rules[k - 1];
      MissedFieldsExact(e, dom, ctx, rules, fields, k - 1, p, selector);
      InUnder(Key(rule.key), Missed(e, dom, ctx, rule.value, Get(fields, rule.key)).value, Unmatched(p, selector));
      if p != [] && p[0] == Key(rule.key) {
        assert HasKey(rules, k, rule.key) && HasKey(rules, |rules|, rule.key);
        GetAt(rules, k - 1);
        MissedExact(e, dom, ctx, rule.value, Get(fields, rule.key), p[1..], selector);
      }
    }
  }

  /** The rule each item of a list value is held against. */
  function ItemRule(rule: Value): Option<Value> {
    match rule
    case Str(r) => if EndsWith(r, "[]") then Some(Str("")) else None
    case Arr(items) => if |items| > 1 then Some(items[1]) else None
    case _ => None
  }

  /** The rule and the value that rules and body hold at a path, when both go that far. */
  ghost function Reached(rule: Value, value: Value, p: Path): Option<(Value, Value)>
    decreases |p|
  {
    if p == [] then Some((rule, value))
    else
      match p[0]
      case Index(i) =>
        if value.Arr? && i < |value.items| && ItemRule(rule).Some? then Reached(ItemRule(rule).value, value.items[i], p[1..]) else None
      case Key(name) =>
        if rule.Obj? && value.Obj? && HasKey(rule.fields, |rule.fields|, name) then
          Reached(Get(rule.fields, name), Get(value.fields, name), p[1..])
        else None
  }

  /** The kind of value a rule asks for; none when any will do. */
  function Asked(rule: Value): Option<string> {
    match rule
    case Str(r) => Some(if EndsWith(r, "[]") then "array" else "scalar")
    case Arr(_) => Some("array")
    case Obj(_) => Some("object")
    case _ => None
  }

  predicate Suits(rule: Value, value: Value) {
    match rule
    case Str(r) => if EndsWith(r, "[]") then value.Arr? else Scalar(value)
    case Arr(_) => value.Arr?
    case Obj(_) => value.Obj?
    case _ => true
  }

  /** Where the path leads, the body has a value of another kind than the rule asks for. */
  ghost predicate MisshapenAt(rule: Value, value: Value, p: Path, f: Finding) {
    match Reached(rule, value, p)
    case Some((r, v)) => f.Mismatch? && !v.Missing? && !Suits(r, v) && Asked(r) == Some(f.expected) && f.got == TypeOf(v)
    case None => false
  }

  /** validateShape reports a path just when the value there is not what the rule there asks for. */
  lemma {:induction false} MisshapenExact(rule: Value, value: Value, f: Finding)
    requires Proper(rule)
    ensures f in Misshapen(rule, value) <==> MisshapenAt(rule, value, f.path, f)
    decreases |f.path|, 1, 0
  {
    match rule
    case Str(r) =>
      if EndsWith(r, "[]") && value.Arr? {
        MisshapenTextsExact(value.items, |value.items|, f);
      }
    case Arr(items) =>
      if |items| > 1 && value.Arr? {
        MisshapenItemsExact(items[1], value.items, |value.items|, f);
      }
    case Obj(fields) =>
      if value.Obj? {
        MisshapenFieldsExact(fields, value.fields, |fields|, f);
      }
    case _ =>
  }

  lemma {:induction false} MisshapenTextsExact(items: seq<Value>, k: nat, f: Finding)
    requires k <= |items|
    ensures f in MisshapenTexts(items, k) <==>
      f.path != [] && f.path[0].Index? && f.path[0].i < k && MisshapenAt(Str(""), items[f.path[0].i], f.path[1..], f)
    decreases k
  {
    if k > 0 {
      MisshapenTextsExact(items, k - 1, f);
      InUnder(Index(k - 1), MisshapenText(items[k - 1]), f);
    }
  }

  lemma {:induction false} MisshapenItemsExact(shape: Value, items: seq<Value>, k: nat, f: Finding)
    requires k <= |items| && Proper(shape)
    ensures f in MisshapenItems(shape, items, k) <==>
      f.path != [] && f.path[0].Index? && f.path[0].i < k && MisshapenAt(shape, items[f.path[0].i], f.path[1..], f)
    decreases |f.path|, 0, k
  {
    if k > 0 {
      MisshapenItemsExact(shape, items, k - 1, f);
      InUnder(Index(k - 1), Misshapen(shape, items[k - 1]), f);
      if f.path != [] {
        MisshapenExact(shape, items[k - 1], f.(path := f.path[1..]));
      }
    }
  }

  lemma {:induction false} MisshapenFieldsExact(rules: seq<Field>, fields: seq<Field>, k: nat, f: Finding)
    requires k <= |rules| && UniqueKeys(rules) && forall i :: 0 <= i < |rules| ==> Proper(rules[i].value)
    ensures f in MisshapenFields(rules, fields, k) <==>
      f.path != [] && f.path[0].Key? && HasKey(rules, k, f.path[0].name)
      && MisshapenAt(Get(rules, f.path[0].name), Get(fields, f.path[0].name), f.path[1..], f)
    decreases |f.path|, 0, k
  {
    if k > 0 {
      var rule := rules[k - 1];
      MisshapenFieldsExact(rules, fields, k - 1, f);
      InUnder(Key(rule.key), Misshapen(rule.value, Get(fields, rule.key)), f);
      if f.path != [] && f.path[0] == Key(rule.key) {
        GetAt(rules, k - 1);
        MisshapenExact(rule.value, Get(fields, rule.key), f.(path := f.path[1..]));
      }
    }
  }

  /** If rules and body both reach this path, the body has a value of the kind asked for there, or none. */
  ghost predicate FitsAt(rule: Value, value: Value, p: Path) {
    match Reached(rule, value, p)
    case Some((r, v)) => v.Missing? || Suits(r, v)
    case None => true
  }

  /** So nothing is reported just when rules and body fit at every path. */
  lemma {:induction false} ShapedExactly(rule: Value, value: Value)
    requires Proper(rule)
    ensures Misshapen(rule, value) == [] <==> forall p: Path :: FitsAt(rule, value, p)
  {
    var found := Misshapen(rule, value);
    if found != [] {
      assert found[0] in found;
      MisshapenExact(rule, value, found[0]);
      assert !FitsAt(rule, value, found[0].path);
    }
    forall p: Path | found == [] ensures FitsAt(rule, value, p) {
      if Reached(rule, value, p).Some? {
        var (r, v) := Reached(rule, value, p).value;
        if Asked(r).Some? {
          MisshapenExact(rule, value, Mismatch(p, Asked(r).value, TypeOf(v)));
        }
      }
    }
  }
}
