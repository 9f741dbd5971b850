/**
 What a write does (internal/dataapi/apply.go, listdiff.go), as relations between the page before and
 after: what an edit does, what an action at a rule's target does, and what walking a rule tree against
 any body does, part by part.
 */
module Walk {
  import opened Alignment
  import opened Clones
  import opened Dom
  import opened ListDiff
  import opened PageTree
  import opened RowMatch
  import opened Rows
  import opened Rules
  import opened Sequences
  import opened Values

  // ----- an edit -----

  /** The children a text write leaves in place. */
  ghost function Staying(dom: Dom, tokens: string -> set<string>, keep: bool, n: Id): seq<Id> {
    if keep then Kept(Kids(dom, n), dom.nodes.Keys - Replaced(dom, tokens, keep)) else []
  }

  /** What a text write takes out: everything, or all that did not opt out of the data API. */
  function Replaced(dom: Dom, tokens: string -> set<string>, keep: bool): set<Id> {
    set c | c in dom.nodes && !(keep && NoData(dom.nodes[c], tokens))
  }

  /** The first of `xs` that is in `gone`, their number when there is none. */
  function FirstGone(xs: seq<Id>, gone: set<Id>): (k: nat)
    ensures k <= |xs| && (forall j :: 0 <= j < k ==> xs[j] !in gone) && (k < |xs| ==> xs[k] in gone)
  {
    if xs == [] || xs[0] in gone then 0
    else
      assert forall j :: 0 < j < |xs| ==> xs[j] == xs[1..][j - 1];
      1 + FirstGone(xs[1..], gone)
  }

  /**
   Only the children of `n` are others: those that stay keep their order, and the new text stands
   where the first of the old content stood.
   */
  ghost predicate TextStands(before: Dom, after: Dom, tokens: string -> set<string>, keep: bool, n: Id, text: string, t: Id) {
    var stay, k := Staying(before, tokens, keep, n), FirstGone(Kids(before, n), Replaced(before, tokens, keep));
    && Sound(after) && t !in before.nodes
    && (forall q :: q != n ==> Kids(after, q) == Kids(before, q))
    && (forall c :: c in before.nodes ==> c in after.nodes && after.nodes[c] == before.nodes[c])
    && if keep && text == "" then Kids(after, n) == stay
       else t in after.nodes && after.nodes[t] == NodeData.Text(text) && k <= |stay| && Kids(after, n) == stay[..k] + [t] + stay[k..]
  }

  function WithAttrs(data: NodeData, attrs: seq<Attr>): NodeData {
    if data.Element? then data.(attrs := attrs) else data
  }

  /**
   What an edit does to the page: nothing, a refusal on record, an error, other attributes, other
   text; a changed node is marked.
   */
  ghost predicate Done(edit: Edit, n: Id, before: Marks, after: Marks, err: bool,
                       tokens: string -> set<string>, keep: bool, t: Id)
    requires n in before.0.nodes
  {
    match edit
    case Keep => !err && after == before
    case Refuse => !err && after == (before.0, before.1, before.2, before.3 + [n])
    case Fail => err && after == before
    case SetAttrs(attrs) =>
      !err && after == (before.0.(nodes := before.0.nodes[n := WithAttrs(before.0.nodes[n], attrs)]), before.1 + {n}, before.2, before.3)
    case SetText(text) =>
      !err && after == (after.0, before.1 + {n}, before.2, before.3) && TextStands(before.0, after.0, tokens, keep, n, text, t)
  }

  /** What an action asked for was done. */
  ghost predicate Acted(act: Act, e: Engine, before: Marks, after: Marks, err: bool,
                        tokens: string -> set<string>, t: Id) {
    match act
    case NoAct => !err && after == before
    case Bad => err && after == before
    case At(n, edit) => n in before.0.nodes && Done(edit, n, before, after, err, tokens, e.holdsNoData(before.0, n), t)
  }

  // ----- what a walk does -----

  /** Marks and refusals are never taken back. */
  ghost predicate Adds(before: Marks, after: Marks) {
    before.1 <= after.1 && before.3 <= after.3
  }

  /** The part of the body a key's rule is given. */
  function SubValue(value: Value, key: string): Value {
    match value
    case Null => Null
    case Obj(fields) => Get(fields, key)
    case _ => Missing
  }

  /** findListRows: a selector that is no string matches nothing. */
  function Found(e: Engine, dom: Dom, ctx: Id, selector: Option<string>): Option<seq<Id>> {
    if selector.Some? then e.find(dom, ctx, selector.value) else Some([])
  }

  function SelectorOf(items: seq<Value>): Option<string> {
    if items != [] && items[0].Str? then Some(items[0].text) else None
  }

  /** What a list without rows is grown from. */
  function SeedFor(e: Engine, dom: Dom, ctx: Id, selector: Option<string>, rows: seq<Id>): Option<Id> {
    if rows != [] then Some(rows[0]) else if selector.Some? then e.seed(dom, ctx, selector.value) else None
  }

  /**
   What walking `rule` against any `value` at `ctx` does to the page: no part of the body is passed over,
   and each does what its rule asks on the page as the parts before it left it, up to the first error.
   */
  ghost predicate Went(e: Engine, tokens: string -> set<string>, ctx: Id, rule: Value, value: Value, depth: nat, before: Marks, after: Marks, err: bool)
    decreases MAX_RULE_DEPTH + 1 - depth, 3, 0
  {
    match value
    case Missing => err == (depth > MAX_RULE_DEPTH) && after == before
    case _ => if depth > MAX_RULE_DEPTH then err && after == before else RuleWent(e, tokens, ctx, rule, value, depth, before, after, err)
  }

  ghost predicate RuleWent(e: Engine, tokens: string -> set<string>, ctx: Id, rule: Value, value: Value, depth: nat, before: Marks, after: Marks, err: bool)
    requires depth <= MAX_RULE_DEPTH
    decreases MAX_RULE_DEPTH + 1 - depth, 2, 0
  {
    match rule
    case Str(r) => ScalarWent(e, tokens, ctx, FormOf(e, r), value, depth, before, after, err)
    case Arr(items) => ListWent(e, tokens, ctx, SelectorOf(items), ShapeOf(items), value, depth, before, after, err)
    case Obj(fields) => FieldsWent(e, tokens, ctx, fields, value, depth, |fields|, before, after, err)
    case _ => !err && after == before
  }

  ghost predicate ScalarWent(e: Engine, tokens: string -> set<string>, ctx: Id, form: Form, value: Value, depth: nat, before: Marks, after: Marks, err: bool)
    requires depth <= MAX_RULE_DEPTH
    decreases MAX_RULE_DEPTH + 1 - depth, 1, 3
  {
    match form
    case ListForm(selector) => ListWent(e, tokens, ctx, Some(selector), Null, value, depth, before, after, err)
    case _ => exists t :: Acted(FormAct(e, before.0, ctx, form, value), e, before, after, err, tokens, t)
  }

  /** Key by key in the rules' order. */
  ghost predicate FieldsWent(e: Engine, tokens: string -> set<string>, ctx: Id, fields: seq<Field>, value: Value, depth: nat, k: nat,
                             before: Marks, after: Marks, err: bool)
    requires depth <= MAX_RULE_DEPTH && k <= |fields|
    decreases MAX_RULE_DEPTH + 1 - depth, 1, k
  {
    if k == 0 then !err && after == before
    else
      var i := k - 1;
      exists mid, failed ::
        && FieldsWent(e, tokens, ctx, fields, value, depth, i, before, mid, failed)
        && Next(failed, mid, after, err, Went(e, tokens, ctx, fields[i].value, SubValue(value, fields[i].key), depth + 1, mid, after, err))
  }

  /** An error before ends the walk; otherwise this step is taken. */
  ghost predicate Next(failed: bool, mid: Marks, after: Marks, err: bool, step: bool) {
    if failed then err && after == mid else step
  }

  /** The rows are found, the list reconciled with the items, and each item written into its row. */
  ghost predicate ListWent(e: Engine, tokens: string -> set<string>, ctx: Id, selector: Option<string>, shape: Value, value: Value, depth: nat,
                           before: Marks, after: Marks, err: bool)
    requires depth <= MAX_RULE_DEPTH
    decreases MAX_RULE_DEPTH + 1 - depth, 1, 2
  {
    match value
    case Arr(items) =>
      (match Found(e, before.0, ctx, selector)
       case None => err && after == before
       case Some(rows) => FoundWent(e, tokens, ctx, selector, rows, shape, items, depth, before, after, err))
    case _ => !err && after == before
  }

  ghost predicate FoundWent(e: Engine, tokens: string -> set<string>, ctx: Id, selector: Option<string>, rows: seq<Id>, shape: Value, items: seq<Value>,
                            depth: nat, before: Marks, after: Marks, err: bool)
    requires depth <= MAX_RULE_DEPTH
    decreases MAX_RULE_DEPTH + 1 - depth, 1, 1
  {
    match SeedFor(e, before.0, ctx, selector, rows)
    case None => if items == [] then !err && Emptied(rows, before, after) else err && after == before
    case Some(seed) =>
      if items == [] then !err && Emptied(rows, before, after) else RowsWent(e, tokens, rows, seed, shape, items, depth, before, after, err)
  }

  ghost predicate Emptied(rows: seq<Id>, before: Marks, after: Marks) {
    && Adds(before, after) && (rows == [] ==> after == before)
    && (after.3 == before.3 ==> after.2 == before.2 && Removed(before.0, after.0, before.1, after.1, Unmatched(rows, {}, |rows|)))
  }

  ghost predicate RowsWent(e: Engine, tokens: string -> set<string>, rows: seq<Id>, seed: Id, shape: Value, items: seq<Value>, depth: nat,
                           before: Marks, after: Marks, err: bool)
    requires depth <= MAX_RULE_DEPTH
    decreases MAX_RULE_DEPTH + 1 - depth, 1, 0
  {
    exists mid, failed, final ::
      && Settling(e, tokens, rows, seed, shape, items, before, mid, failed, final)
      && Next(failed, mid, after, err, |final| == |items| && ItemsWent(e, tokens, final, shape, items, depth, |items|, mid, after, err))
  }

  /** Reading the rows failed; or a best match of items and rows was reconciled. */
  ghost predicate Settling(e: Engine, tokens: string -> set<string>, rows: seq<Id>, seed: Id, shape: Value, items: seq<Value>,
                           before: Marks, mid: Marks, failed: bool, final: seq<Id>) {
    match failed
    case true => mid == before && !shape.Null? && exists i :: 0 <= i < |rows| && Extract(e, before.0, rows[i], shape, 0).None?
    case false =>
      exists values, matches :: Matched(e, before.0, rows, shape, items, values, matches) && Reconciling(tokens, rows, seed, matches, before, mid, final)
  }

  /**
   The rows read as `values`, and the items are matched with them as well as can be, as long as the costs
   can be summed in the machine's integers.
   */
  ghost predicate Matched(e: Engine, dom: Dom, rows: seq<Id>, shape: Value, items: seq<Value>, values: seq<Value>, matches: seq<int>) {
    && IsRead(e, dom, rows, shape, values) && |matches| == |items|
    && if FitsMachine(|items|, |rows|, shape) then
         && (ItemKeys(items, shape, e.encode) == ItemKeys(values, shape, e.encode) ==> forall i :: 0 <= i < |matches| ==> matches[i] == i)
         && exists pairs :: BestMatch(items, values, shape, e.encode, None, matches, pairs)
       else matches == e.wrapped(items, values)
  }

  /** What reconciling asks of a match: no row twice, and items without a row only in a list that grew. */
  ghost predicate Usable(matches: seq<int>, items: nat, rows: nat) {
    && |matches| == items
    && (forall i :: 0 <= i < |matches| ==> matches[i] < rows && (matches[i] < 0 ==> |matches| > rows))
    && (forall i, j :: 0 <= i < j < |matches| && matches[i] >= 0 ==> matches[i] != matches[j])
  }

  ghost predicate IsRead(e: Engine, dom: Dom, rows: seq<Id>, shape: Value, values: seq<Value>) {
    match shape
    case Null => values == Texts(e, dom, rows)
    case _ => |values| == |rows| && forall i :: 0 <= i < |rows| ==> Some(values[i]) == Extract(e, dom, rows[i], shape, 0)
  }

  /**
   Matched rows are the nodes they were, the others copies; with no removal refused all stand where they
   belong, and with each row matched with its own item nothing happens.
   */
  ghost predicate Reconciling(tokens: string -> set<string>, rows: seq<Id>, seed: Id, matches: seq<int>, before: Marks, mid: Marks, final: seq<Id>) {
    && |final| == |matches| && (forall i :: 0 <= i < |matches| ==> matches[i] < |rows|)
    && (forall i :: 0 <= i < |matches| ==> if matches[i] >= 0 then final[i] == rows[matches[i]] else final[i] !in before.0.nodes)
    && Adds(before, mid) && (Identity(matches, |rows|) ==> final == rows && mid == before)
    && Copied(before.0, mid.0, tokens, rows, seed, matches, final)
    && (mid.3 == before.3 ==> Outcome(Plan(before.0, before.0, rows, seed, matches, final), mid.0, tokens))
  }

  /** Item by item in order. */
  ghost predicate ItemsWent(e: Engine, tokens: string -> set<string>, rows: seq<Id>, shape: Value, items: seq<Value>, depth: nat, k: nat,
                            before: Marks, after: Marks, err: bool)
    requires depth <= MAX_RULE_DEPTH && k <= |rows| == |items|
    decreases MAX_RULE_DEPTH + 1 - depth, 0, k
  {
    if k == 0 then !err && after == before
    else
      var i := k - 1;
      exists mid, failed ::
        && ItemsWent(e, tokens, rows, shape, items, depth, i, before, mid, failed)
        && Next(failed, mid, after, err, ItemWent(e, tokens, rows[i], shape, items[i], depth, mid, after, err))
  }

  ghost predicate ItemWent(e: Engine, tokens: string -> set<string>, n: Id, shape: Value, item: Value, depth: nat, before: Marks, after: Marks, err: bool)
    requires depth <= MAX_RULE_DEPTH
    decreases MAX_RULE_DEPTH + 1 - depth, 0, 0
  {
    match shape
    case Null => exists t :: Acted(FormAct(e, before.0, n, DotForm, item), e, before, after, err, tokens, t)
    case _ => Went(e, tokens, n, shape, item, depth + 1, before, after, err)
  }

  // ----- step by step -----

  lemma {:induction false} NextItemWent(e: Engine, tokens: string -> set<string>, rows: seq<Id>, shape: Value, items: seq<Value>, depth: nat, i: nat,
                                        start: Marks, mid: Marks, after: Marks, err: bool)
    requires depth <= MAX_RULE_DEPTH && i < |rows| == |items| && ItemsWent(e, tokens, rows, shape, items, depth, i, start, mid, false)
    requires ItemWent(e, tokens, rows[i], shape, items[i], depth, mid, after, err)
    ensures ItemsWent(e, tokens, rows, shape, items, depth, i + 1, start, after, err)
    ensures err ==> ItemsWent(e, tokens, rows, shape, items, depth, |items|, start, after, true)
  {
    assert Next(false, mid, after, err, ItemWent(e, tokens, rows[i], shape, items[i], depth, mid, after, err));
    assert ItemsWent(e, tokens, rows, shape, items, depth, i + 1, start, after, err);
    if err {
      ItemsEnded(e, tokens, rows, shape, items, depth, i + 1, |items|, start, after);
    }
  }

  lemma {:induction false} ItemsEnded(e: Engine, tokens: string -> set<string>, rows: seq<Id>, shape: Value, items: seq<Value>, depth: nat, i: nat, k: nat,
                                      start: Marks, after: Marks)
    requires depth <= MAX_RULE_DEPTH && i <= k <= |rows| == |items| && ItemsWent(e, tokens, rows, shape, items, depth, i, start, after, true)
    ensures ItemsWent(e, tokens, rows, shape, items, depth, k, start, after, true)
    decreases k
  {
    if i < k {
      ItemsEnded(e, tokens, rows, shape, items, depth, i, k - 1, start, after);
      assert Next(true, after, after, true, ItemWent(e, tokens, rows[k - 1], shape, items[k - 1], depth, after, after, true));
    }
  }

  lemma {:induction false} NextFieldWent(e: Engine, tokens: string -> set<string>, ctx: Id, fields: seq<Field>, value: Value, depth: nat, i: nat,
                                         start: Marks, mid: Marks, after: Marks, err: bool)
    requires depth <= MAX_RULE_DEPTH && i < |fields| && FieldsWent(e, tokens, ctx, fields, value, depth, i, start, mid, false)
    requires Went(e, tokens, ctx, fields[i].value, SubValue(value, fields[i].key), depth + 1, mid, after, err)
    ensures FieldsWent(e, tokens, ctx, fields, value, depth, i + 1, start, after, err)
    ensures err ==> FieldsWent(e, tokens, ctx, fields, value, depth, |fields|, start, after, true)
  {
    assert Next(false, mid, after, err, Went(e, tokens, ctx, fields[i].value, SubValue(value, fields[i].key), depth + 1, mid, after, err));
    assert FieldsWent(e, tokens, ctx, fields, value, depth, i + 1, start, after, err);
    if err {
      FieldsEnded(e, tokens, ctx, fields, value, depth, i + 1, |fields|, start, after);
    }
  }

  lemma {:induction false} FieldsEnded(e: Engine, tokens: string -> set<string>, ctx: Id, fields: seq<Field>, value: Value, depth: nat, i: nat, k: nat,
                                       start: Marks, after: Marks)
    requires depth <= MAX_RULE_DEPTH && i <= k <= |fields| && FieldsWent(e, tokens, ctx, fields, value, depth, i, start, after, true)
    ensures FieldsWent(e, tokens, ctx, fields, value, depth, k, start, after, true)
    decreases k
  {
    if i < k {
      FieldsEnded(e, tokens, ctx, fields, value, depth, i, k - 1, start, after);
      assert Next(true, after, after, true, Went(e, tokens, ctx, fields[k - 1].value, SubValue(value, fields[k - 1].key), depth + 1, after, after, true));
    }
  }

  lemma {:induction false} RowsWentSo(e: Engine, tokens: string -> set<string>, rows: seq<Id>, seed: Id, shape: Value, items: seq<Value>, depth: nat,
                                      before: Marks, mid: Marks, failed: bool, final: seq<Id>, after: Marks, err: bool)
    requires depth <= MAX_RULE_DEPTH && Settling(e, tokens, rows, seed, shape, items, before, mid, failed, final)
    requires if failed then err && after == mid
      else |final| == |items| && ItemsWent(e, tokens, final, shape, items, depth, |items|, mid, after, err)
    ensures RowsWent(e, tokens, rows, seed, shape, items, depth, before, after, err)
  {
    assert Next(failed, mid, after, err, |final| == |items| && ItemsWent(e, tokens, final, shape, items, depth, |items|, mid, after, err));
  }

  lemma {:induction false} ReconcilingIs(plan: Plan, tokens: string -> set<string>, before: Marks, mid: Marks)
    requires plan.before == before.0 && |plan.rows| == |plan.matches| && (forall i :: 0 <= i < |plan.matches| ==> plan.matches[i] < |plan.oldNodes|)
    requires forall i :: 0 <= i < |plan.matches| ==>
      if plan.matches[i] >= 0 then plan.rows[i] == plan.oldNodes[plan.matches[i]] else plan.rows[i] !in before.0.nodes
    requires Copied(before.0, mid.0, tokens, plan.oldNodes, plan.seed, plan.matches, plan.rows)
    requires Adds(before, mid) && (Identity(plan.matches, |plan.oldNodes|) ==> plan.rows == plan.oldNodes && mid == before)
    requires mid.3 == before.3 ==> Outcome(plan, mid.0, tokens)
    ensures Reconciling(tokens, plan.oldNodes, plan.seed, plan.matches, before, mid, plan.rows)
  {
  }
}
