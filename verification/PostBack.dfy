/**
 Posting back exactly what was read (internal/dataapi/apply.go, listdiff.go): it changes nothing, records
 no refusal and fails nowhere, at any depth, just when the rule is settled.
 */
module PostBack {
  import opened Alignment
  import opened Dom
  import opened ListDiff
  import opened PageTree
  import opened RowMatch
  import opened Rules
  import opened Sequences
  import opened StyleVars
  import opened Values
  import opened Walk

  // ----- silent or not -----

  /** Something shows that the write was not a no-op. */
  ghost predicate Loud(before: Marks, after: Marks, err: bool) {
    err || after.1 != {} || |after.3| > |before.3|
  }

  /** A write that was to be silent was, and one that was not shows. */
  ghost predicate Told(silent: bool, before: Marks, after: Marks, err: bool) {
    match silent
    case true => !err && after == before
    case false => Loud(before, after, err)
  }

  /** What was read is written in silence just when it is settled. */
  lemma {:induction false} ActedTold(act: Act, e: Engine, before: Marks, after: Marks, err: bool,
                  tokens: string -> set<string>, t: Id)
    requires Acted(act, e, before, after, err, tokens, t)
    ensures Told(Silent(act), before, after, err) && Adds(before, after)
  {
  }

  // ----- what comes back -----

  /** A list's value as it was read: texts, or nulls under a literal null shape, or what the shape reads. */
  ghost predicate RowsBack(e: Engine, dom: Dom, rows: seq<Id>, shape: Value, items: seq<Value>, depth: nat)
    requires depth <= MAX_RULE_DEPTH
  {
    && |items| == |rows|
    && if shape.Null? then items == Texts(e, dom, rows) || forall i :: 0 <= i < |items| ==> items[i] == Null
       else forall i :: 0 <= i < |rows| ==> ItemBack(e, dom, rows[i], shape, items[i], depth)
  }

  ghost predicate ItemBack(e: Engine, dom: Dom, n: Id, shape: Value, item: Value, depth: nat) {
    shape.Null? || Extract(e, dom, n, shape, depth + 1) == Some(item)
  }

  ghost predicate ItemSettled(e: Engine, dom: Dom, n: Id, shape: Value, item: Value, depth: nat) {
    if shape.Null? then Trim(e.textOf(dom, n)) == EmptyIfNull(item) else RuleSettled(e, dom, n, shape, depth + 1)
  }

  ghost predicate ItemsSettled(e: Engine, dom: Dom, rows: seq<Id>, shape: Value, items: seq<Value>, depth: nat, k: nat)
    requires k <= |rows| == |items|
  {
    forall i :: 0 <= i < k ==> ItemSettled(e, dom, rows[i], shape, items[i], depth)
  }

  ghost predicate ListBack(e: Engine, dom: Dom, ctx: Id, selector: Option<string>, shape: Value, items: seq<Value>, depth: nat)
    requires depth <= MAX_RULE_DEPTH
  {
    var found := Found(e, dom, ctx, selector);
    found.Some? && RowsBack(e, dom, found.value, shape, items, depth)
  }

  ghost predicate ListSettled(e: Engine, dom: Dom, ctx: Id, selector: Option<string>, shape: Value, items: seq<Value>, depth: nat)
    requires depth <= MAX_RULE_DEPTH && ListBack(e, dom, ctx, selector, shape, items, depth)
  {
    ItemsSettled(e, dom, Found(e, dom, ctx, selector).value, shape, items, depth, |items|)
  }

  ghost predicate FieldsBack(e: Engine, dom: Dom, ctx: Id, fields: seq<Field>, value: Value, depth: nat) {
    depth <= MAX_RULE_DEPTH &&
    var read := ExtractFields(e, dom, ctx, fields, |fields|, depth);
    read.Some? && value == Obj(read.value)
  }

  ghost predicate FieldsSettled(e: Engine, dom: Dom, ctx: Id, fields: seq<Field>, depth: nat, k: nat)
    requires k <= |fields|
  {
    forall i :: 0 <= i < k && fields[i].key != "__proto__" ==> RuleSettled(e, dom, ctx, fields[i].value, depth + 1)
  }

  /** The rule of one key was told; the swallowed key's rule is given nothing. */
  ghost predicate FieldTold(e: Engine, dom: Dom, ctx: Id, field: Field, depth: nat,
                            before: Marks, after: Marks, err: bool) {
    if field.key == "__proto__" then !err && after == before
    else Told(RuleSettled(e, dom, ctx, field.value, depth + 1), before, after, err)
  }

  /** Nothing reads as the absent value. */
  lemma {:induction false} ExtractIsPresent(e: Engine, dom: Dom, ctx: Id, rule: Value, depth: nat)
    ensures Extract(e, dom, ctx, rule, depth) != Some(Missing)
  {
  }

  /** What rows read for matching is what was read before. */
  lemma {:induction false} ReadAgain(e: Engine, dom: Dom, rows: seq<Id>, shape: Value, items: seq<Value>, depth: nat)
    requires depth <= MAX_RULE_DEPTH && RowsBack(e, dom, rows, shape, items, depth) && !shape.Null?
    ensures forall i :: 0 <= i < |rows| ==> Extract(e, dom, rows[i], shape, 0) == Some(items[i])
  {
    forall i | 0 <= i < |rows| ensures Extract(e, dom, rows[i], shape, 0) == Some(items[i]) {
      assert ItemBack(e, dom, rows[i], shape, items[i], depth);
      ShallowerReads(e, dom, rows[i], shape, depth + 1, 0);
    }
  }

  lemma {:induction false} SameItems(e: Engine, dom: Dom, rows: seq<Id>, shape: Value, items: seq<Value>, depth: nat, values: seq<Value>)
    requires depth <= MAX_RULE_DEPTH && RowsBack(e, dom, rows, shape, items, depth)
    requires IsRead(e, dom, rows, shape, values)
    ensures |items| == |values| == |rows| && (items == values || forall i :: 0 <= i < |items| ==> items[i] == Null)
  {
    if !shape.Null? {
      ReadAgain(e, dom, rows, shape, items, depth);
    }
  }

  /** A list read back is matched row for row. */
  lemma {:induction false} MatchedInPlace(e: Engine, dom: Dom, rows: seq<Id>, shape: Value, items: seq<Value>, depth: nat, values: seq<Value>, matches: seq<int>)
    requires depth <= MAX_RULE_DEPTH && RowsBack(e, dom, rows, shape, items, depth) && Matched(e, dom, rows, shape, items, values, matches)
    requires FitsMachine(|items|, |items|, shape)
    ensures Identity(matches, |rows|)
  {
    SameItems(e, dom, rows, shape, items, depth, values);
    if items != values {
      var pairs :| BestMatch(items, values, shape, e.encode, None, matches, pairs);
      AlikeInPlace(items, values, shape, e.encode, matches, pairs);
    }
  }

  /** Every list of the body is short enough for its costs to be summed in the machine's integers. */
  ghost predicate Measured(rule: Value, value: Value)
    decreases rule
  {
    match rule
    case Str(_) => ListMeasured(Null, value)
    case Arr(items) =>
      && ListMeasured(ShapeOf(items), value)
      && (value.Arr? && |items| > 1 ==> forall i :: 0 <= i < |value.items| ==> Measured(items[1], value.items[i]))
    case Obj(fields) => forall i :: 0 <= i < |fields| ==> Measured(fields[i].value, SubValue(value, fields[i].key))
    case _ => true
  }

  ghost predicate ListMeasured(shape: Value, value: Value) {
    match value
    case Arr(items) => FitsMachine(|items|, |items|, shape)
    case _ => true
  }

  ghost predicate ItemsMeasured(shape: Value, items: seq<Value>) {
    FitsMachine(|items|, |items|, shape) && forall i :: 0 <= i < |items| ==> Measured(shape, items[i])
  }

  lemma {:induction false} TextsMeasured(items: seq<Value>)
    requires FitsMachine(|items|, |items|, Null)
    ensures ItemsMeasured(Null, items)
  {
  }

  lemma {:induction false} AlikeInPlace(items: seq<Value>, values: seq<Value>, shape: Value, encode: Encoder, matches: seq<int>, pairs: seq<(nat, nat)>)
    requires |items| == |values| == |matches| && (forall i :: 0 <= i < |items| ==> items[i] == Null)
    requires BestMatch(items, values, shape, encode, None, matches, pairs)
    requires ItemKeys(items, shape, encode) == ItemKeys(values, shape, encode) ==> forall i :: 0 <= i < |matches| ==> matches[i] == i
    ensures forall i :: 0 <= i < |matches| ==> matches[i] == i
  {
    var newKeys, oldKeys := ItemKeys(items, shape, encode), ItemKeys(values, shape, encode);
    assert Locks(None, |items|, |values|) == seq(|items|, _ => -1);
    forall i | 0 <= i < |matches| ensures matches[i] == i {
      AlikeKeysStay(newKeys, oldKeys, RowMatch.Settled(items, values, shape, encode, None), pairs, i);
    }
  }

  /** What a list rule reads comes back as its items, and is settled where the rule is. */
  lemma {:induction false} ListReadsBack(e: Engine, dom: Dom, ctx: Id, items: seq<Value>, value: Value, depth: nat)
    requires depth <= MAX_RULE_DEPTH && value.Arr?
    ensures Extract(e, dom, ctx, Arr(items), depth) == Some(value) ==>
      && ListBack(e, dom, ctx, SelectorOf(items), ShapeOf(items), value.items, depth)
      && ListSettled(e, dom, ctx, SelectorOf(items), ShapeOf(items), value.items, depth) == RuleSettled(e, dom, ctx, Arr(items), depth)
  {
    if Extract(e, dom, ctx, Arr(items), depth) == Some(value) {
      var rows, shape := RowsOf(e, dom, ctx, items).value, ShapeOf(items);
      forall i | 0 <= i < |rows| ensures Extract(e, dom, rows[i], shape, depth + 1) == Some(value.items[i]) {
        RowRead(e, dom, rows, |rows|, shape, depth, i);
      }
      RowsSettled(e, dom, rows, shape, value.items, depth);
    }
  }

  lemma {:induction false} RowsSettled(e: Engine, dom: Dom, rows: seq<Id>, shape: Value, items: seq<Value>, depth: nat)
    requires depth <= MAX_RULE_DEPTH && |items| == |rows|
    requires forall i :: 0 <= i < |rows| ==> Extract(e, dom, rows[i], shape, depth + 1) == Some(items[i])
    ensures ItemsSettled(e, dom, rows, shape, items, depth, |rows|) == forall i :: 0 <= i < |rows| ==>
      if shape.Null? then Trim(e.textOf(dom, rows[i])) == "" else RuleSettled(e, dom, rows[i], shape, depth + 1)
    ensures RowsBack(e, dom, rows, shape, items, depth)
  {
    forall i | 0 <= i < |rows| && shape.Null? ensures items[i] == Null {
      assert Extract(e, dom, rows[i], shape, depth + 1) == Some(items[i]);
    }
    if ItemsSettled(e, dom, rows, shape, items, depth, |rows|) {
      forall i | 0 <= i < |rows|
        ensures if shape.Null? then Trim(e.textOf(dom, rows[i])) == "" else RuleSettled(e, dom, rows[i], shape, depth + 1)
      {
        assert ItemSettled(e, dom, rows[i], shape, items[i], depth);
      }
    }
  }

  lemma {:induction false} TextsReadBack(e: Engine, dom: Dom, ctx: Id, selector: string, depth: nat)
    requires depth <= MAX_RULE_DEPTH
    ensures var rows := e.find(dom, ctx, selector);
      rows.Some? ==>
        var items := Texts(e, dom, rows.value);
        && ListBack(e, dom, ctx, Some(selector), Null, items, depth)
        && ListSettled(e, dom, ctx, Some(selector), Null, items, depth)
  {
  }

  /** Each key's rule is given what it read, and the swallowed key's rule nothing. */
  lemma {:induction false} SubReads(e: Engine, dom: Dom, ctx: Id, fields: seq<Field>, value: Value, depth: nat, i: nat)
    requires FieldsBack(e, dom, ctx, fields, value, depth) && UniqueKeys(fields) && i < |fields|
    ensures depth + 1 <= MAX_RULE_DEPTH
    ensures
      if fields[i].key == "__proto__" then SubValue(value, fields[i].key) == Missing
      else Extract(e, dom, ctx, fields[i].value, depth + 1) == Some(SubValue(value, fields[i].key))
  {
    FieldWasRead(e, dom, ctx, fields, |fields|, depth, i);
    if fields[i].key == "__proto__" {
      FieldsHave(e, dom, ctx, fields, |fields|, depth, "__proto__");
      GetAbsent(value.fields, "__proto__");
    } else {
      FieldsRead(e, dom, ctx, fields, |fields|, depth, i);
    }
  }

  lemma {:induction false} FieldWasRead(e: Engine, dom: Dom, ctx: Id, fields: seq<Field>, k: nat, depth: nat, i: nat)
    requires depth <= MAX_RULE_DEPTH && i < k <= |fields| && ExtractFields(e, dom, ctx, fields, k, depth).Some?
    ensures Extract(e, dom, ctx, fields[i].value, depth + 1).Some?
    decreases k
  {
    if i < k - 1 {
      FieldWasRead(e, dom, ctx, fields, k - 1, depth, i);
    }
  }

  lemma {:induction false} NextItem(e: Engine, dom: Dom, rows: seq<Id>, shape: Value, items: seq<Value>, depth: nat, i: nat,
                 start: Marks, before: Marks, after: Marks, err: bool)
    requires depth <= MAX_RULE_DEPTH && i < |rows| && RowsBack(e, dom, rows, shape, items, depth) && start.0 == dom
    requires before.1 <= after.1 && before.3 <= after.3 && start.3 <= before.3
    requires Told(ItemsSettled(e, dom, rows, shape, items, depth, i), start, before, false)
    requires before.0 == dom && before == start ==> Told(ItemSettled(e, dom, rows[i], shape, items[i], depth), before, after, err)
    ensures Told(ItemsSettled(e, dom, rows, shape, items, depth, i + 1), start, after, err)
    ensures err ==> Told(ItemsSettled(e, dom, rows, shape, items, depth, |rows|), start, after, err)
  {
    assert ItemsSettled(e, dom, rows, shape, items, depth, i + 1)
      == (ItemsSettled(e, dom, rows, shape, items, depth, i) && ItemSettled(e, dom, rows[i], shape, items[i], depth));
  }

  lemma {:induction false} NextField(e: Engine, dom: Dom, ctx: Id, fields: seq<Field>, depth: nat, i: nat,
                  start: Marks, before: Marks, after: Marks, err: bool)
    requires i < |fields| && start.0 == dom && before.1 <= after.1 && before.3 <= after.3 && start.3 <= before.3
    requires Told(FieldsSettled(e, dom, ctx, fields, depth, i), start, before, false)
    requires before == start ==> FieldTold(e, dom, ctx, fields[i], depth, before, after, err)
    ensures Told(FieldsSettled(e, dom, ctx, fields, depth, i + 1), start, after, err)
    ensures err ==> Told(FieldsSettled(e, dom, ctx, fields, depth, |fields|), start, after, err)
  {
    assert FieldsSettled(e, dom, ctx, fields, depth, i + 1)
      == (FieldsSettled(e, dom, ctx, fields, depth, i)
          && (fields[i].key != "__proto__" ==> RuleSettled(e, dom, ctx, fields[i].value, depth + 1)));
  }

  // ----- the theorem -----

  /** Posting back what was read is silent just when the rule is settled, at any depth; marks and refusals only grow. */
  lemma {:induction false} WentTold(e: Engine, tokens: string -> set<string>, ctx: Id, rule: Value, value: Value, depth: nat, before: Marks, after: Marks, err: bool)
    requires KnowsFlags(e) && Proper(rule) && Went(e, tokens, ctx, rule, value, depth, before, after, err)
    ensures Adds(before, after)
    ensures Measured(rule, value) && Extract(e, before.0, ctx, rule, depth) == Some(value) ==> Told(RuleSettled(e, before.0, ctx, rule, depth), before, after, err)
    decreases MAX_RULE_DEPTH + 2 - depth, 5
  {
    if value.Missing? {
      ExtractIsPresent(e, before.0, ctx, rule, depth);
    } else if depth <= MAX_RULE_DEPTH {
      RuleTold(e, tokens, ctx, rule, value, depth, before, after, err);
    }
  }

  lemma {:induction false} RuleTold(e: Engine, tokens: string -> set<string>, ctx: Id, rule: Value, value: Value, depth: nat, before: Marks, after: Marks, err: bool)
    requires KnowsFlags(e) && Proper(rule) && depth <= MAX_RULE_DEPTH && RuleWent(e, tokens, ctx, rule, value, depth, before, after, err)
    ensures Adds(before, after)
    ensures Measured(rule, value) && Extract(e, before.0, ctx, rule, depth) == Some(value) ==> Told(RuleSettled(e, before.0, ctx, rule, depth), before, after, err)
    decreases MAX_RULE_DEPTH + 2 - depth, 4
  {
    match rule
    case Str(r) => ScalarTold(e, tokens, ctx, FormOf(e, r), value, depth, before, after, err);
    case Arr(items) =>
      ListTold(e, tokens, ctx, SelectorOf(items), ShapeOf(items), value, depth, before, after, err);
      if value.Arr? {
        ListReadsBack(e, before.0, ctx, items, value, depth);
        assert Measured(rule, value) ==> ItemsMeasured(ShapeOf(items), value.items);
      }
    case Obj(fields) => FieldsTold(e, tokens, ctx, fields, value, depth, |fields|, before, after, err);
    case _ =>
  }

  lemma {:induction false} ScalarTold(e: Engine, tokens: string -> set<string>, ctx: Id, form: Form, value: Value, depth: nat, before: Marks, after: Marks, err: bool)
    requires KnowsFlags(e) && depth <= MAX_RULE_DEPTH && ScalarWent(e, tokens, ctx, form, value, depth, before, after, err)
    ensures Adds(before, after)
    ensures ListMeasured(Null, value) && FormRead(e, before.0, ctx, form) == Some(value) ==> Told(FormSettled(e, before.0, ctx, form), before, after, err)
    decreases MAX_RULE_DEPTH + 2 - depth, 3
  {
    match form
    case ListForm(selector) =>
      TextsReadBack(e, before.0, ctx, selector, depth);
      if value.Arr? && ListMeasured(Null, value) {
        TextsMeasured(value.items);
      }
      ListTold(e, tokens, ctx, Some(selector), Null, value, depth, before, after, err);
    case _ =>
      var act := FormAct(e, before.0, ctx, form, value);
      var t :| Acted(act, e, before, after, err, tokens, t);
      ActedTold(act, e, before, after, err, tokens, t);
      BackIsSilent(e, before.0, ctx, form, value);
  }

  lemma {:induction false} ListTold(e: Engine, tokens: string -> set<string>, ctx: Id, selector: Option<string>, shape: Value, value: Value, depth: nat,
                                    before: Marks, after: Marks, err: bool)
    requires KnowsFlags(e) && Proper(shape) && depth <= MAX_RULE_DEPTH && ListWent(e, tokens, ctx, selector, shape, value, depth, before, after, err)
    ensures Adds(before, after)
    ensures value.Arr? && ItemsMeasured(shape, value.items) && ListBack(e, before.0, ctx, selector, shape, value.items, depth) ==>
      Told(ListSettled(e, before.0, ctx, selector, shape, value.items, depth), before, after, err)
    decreases MAX_RULE_DEPTH + 2 - depth, 2, 2
  {
    if value.Arr? && Found(e, before.0, ctx, selector).Some? {
      FoundTold(e, tokens, ctx, selector, Found(e, before.0, ctx, selector).value, shape, value.items, depth, before, after, err);
    }
  }

  lemma {:induction false} FoundTold(e: Engine, tokens: string -> set<string>, ctx: Id, selector: Option<string>, rows: seq<Id>, shape: Value, items: seq<Value>,
                                     depth: nat, before: Marks, after: Marks, err: bool)
    requires KnowsFlags(e) && Proper(shape) && depth <= MAX_RULE_DEPTH
    requires FoundWent(e, tokens, ctx, selector, rows, shape, items, depth, before, after, err)
    ensures Adds(before, after)
    ensures ItemsMeasured(shape, items) && RowsBack(e, before.0, rows, shape, items, depth) ==> Told(ItemsSettled(e, before.0, rows, shape, items, depth, |items|), before, after, err)
    decreases MAX_RULE_DEPTH + 2 - depth, 2, 1
  {
    var seed := SeedFor(e, before.0, ctx, selector, rows);
    if items != [] && seed.Some? {
      RowsTold(e, tokens, rows, seed.value, shape, items, depth, before, after, err);
    }
  }

  lemma {:induction false} RowsTold(e: Engine, tokens: string -> set<string>, rows: seq<Id>, seed: Id, shape: Value, items: seq<Value>, depth: nat,
                                    before: Marks, after: Marks, err: bool)
    requires KnowsFlags(e) && Proper(shape) && depth <= MAX_RULE_DEPTH && RowsWent(e, tokens, rows, seed, shape, items, depth, before, after, err)
    ensures Adds(before, after)
    ensures ItemsMeasured(shape, items) && RowsBack(e, before.0, rows, shape, items, depth) ==> Told(ItemsSettled(e, before.0, rows, shape, items, depth, |items|), before, after, err)
    decreases MAX_RULE_DEPTH + 2 - depth, 2, 0
  {
    var mid, failed, final :|
      && Settling(e, tokens, rows, seed, shape, items, before, mid, failed, final)
      && Next(failed, mid, after, err, |final| == |items| && ItemsWent(e, tokens, final, shape, items, depth, |items|, mid, after, err));
    SettlingTold(e, tokens, rows, seed, shape, items, depth, before, mid, failed, final);
    if !failed {
      ItemsTold(e, tokens, final, shape, items, depth, |items|, mid, after, err);
    }
  }

  /** Reconciling a list with what it reads keeps its rows and does nothing. */
  lemma {:induction false} SettlingTold(e: Engine, tokens: string -> set<string>, rows: seq<Id>, seed: Id, shape: Value, items: seq<Value>, depth: nat,
                                        before: Marks, mid: Marks, failed: bool, final: seq<Id>)
    requires depth <= MAX_RULE_DEPTH && Settling(e, tokens, rows, seed, shape, items, before, mid, failed, final)
    ensures Adds(before, mid)
    ensures ItemsMeasured(shape, items) && RowsBack(e, before.0, rows, shape, items, depth) ==> !failed && mid == before && final == rows
  {
    if RowsBack(e, before.0, rows, shape, items, depth) && !shape.Null? {
      ReadAgain(e, before.0, rows, shape, items, depth);
    }
    if !failed {
      var values, matches :| Matched(e, before.0, rows, shape, items, values, matches) && Reconciling(tokens, rows, seed, matches, before, mid, final);
      if ItemsMeasured(shape, items) && RowsBack(e, before.0, rows, shape, items, depth) {
        MatchedInPlace(e, before.0, rows, shape, items, depth, values, matches);
      }
    }
  }

  lemma {:induction false} ItemsTold(e: Engine, tokens: string -> set<string>, rows: seq<Id>, shape: Value, items: seq<Value>, depth: nat, k: nat,
                                     before: Marks, after: Marks, err: bool)
    requires KnowsFlags(e) && Proper(shape) && depth <= MAX_RULE_DEPTH && k <= |rows| == |items|
    requires ItemsWent(e, tokens, rows, shape, items, depth, k, before, after, err)
    ensures Adds(before, after)
    ensures ItemsMeasured(shape, items) && RowsBack(e, before.0, rows, shape, items, depth) ==> Told(ItemsSettled(e, before.0, rows, shape, items, depth, k), before, after, err)
    decreases MAX_RULE_DEPTH + 2 - depth, 1, k
  {
    if k > 0 {
      var i := k - 1;
      var mid, failed :|
        && ItemsWent(e, tokens, rows, shape, items, depth, i, before, mid, failed)
        && Next(failed, mid, after, err, ItemWent(e, tokens, rows[i], shape, items[i], depth, mid, after, err));
      ItemsTold(e, tokens, rows, shape, items, depth, i, before, mid, failed);
      if !failed {
        ItemTold(e, tokens, rows[i], shape, items[i], depth, mid, after, err);
        if ItemsMeasured(shape, items) && RowsBack(e, before.0, rows, shape, items, depth) {
          NextItem(e, before.0, rows, shape, items, depth, i, before, mid, after, err);
        }
      }
    }
  }

  lemma {:induction false} ItemTold(e: Engine, tokens: string -> set<string>, n: Id, shape: Value, item: Value, depth: nat, before: Marks, after: Marks, err: bool)
    requires KnowsFlags(e) && Proper(shape) && depth <= MAX_RULE_DEPTH && ItemWent(e, tokens, n, shape, item, depth, before, after, err)
    ensures Adds(before, after)
    ensures Measured(shape, item) && ItemBack(e, before.0, n, shape, item, depth) ==> Told(ItemSettled(e, before.0, n, shape, item, depth), before, after, err)
    decreases MAX_RULE_DEPTH + 2 - depth, 0
  {
    if shape.Null? {
      var act := FormAct(e, before.0, n, DotForm, item);
      var t :| Acted(act, e, before, after, err, tokens, t);
      ActedTold(act, e, before, after, err, tokens, t);
    } else {
      WentTold(e, tokens, n, shape, item, depth + 1, before, after, err);
    }
  }

  lemma {:induction false} FieldsTold(e: Engine, tokens: string -> set<string>, ctx: Id, fields: seq<Field>, value: Value, depth: nat, k: nat,
                                      before: Marks, after: Marks, err: bool)
    requires KnowsFlags(e) && Proper(Obj(fields)) && depth <= MAX_RULE_DEPTH && k <= |fields|
    requires FieldsWent(e, tokens, ctx, fields, value, depth, k, before, after, err)
    ensures Adds(before, after)
    ensures Measured(Obj(fields), value) && FieldsBack(e, before.0, ctx, fields, value, depth) ==> Told(FieldsSettled(e, before.0, ctx, fields, depth, k), before, after, err)
    decreases MAX_RULE_DEPTH + 2 - depth, 1, k
  {
    if k > 0 {
      var i := k - 1;
      var mid, failed :|
        && FieldsWent(e, tokens, ctx, fields, value, depth, i, before, mid, failed)
        && Next(failed, mid, after, err, Went(e, tokens, ctx, fields[i].value, SubValue(value, fields[i].key), depth + 1, mid, after, err));
      FieldsTold(e, tokens, ctx, fields, value, depth, i, before, mid, failed);
      if !failed {
        WentTold(e, tokens, ctx, fields[i].value, SubValue(value, fields[i].key), depth + 1, mid, after, err);
        if Measured(Obj(fields), value) && FieldsBack(e, before.0, ctx, fields, value, depth) {
          assert Measured(fields[i].value, SubValue(value, fields[i].key));
          SubReads(e, before.0, ctx, fields, value, depth, i);
          NextField(e, before.0, ctx, fields, depth, i, before, mid, after, err);
        }
      }
    }
  }
}
