/**
 The write pipeline (internal/dataapi/write.go): plan, shape check, then the walk. Posting back what
 was read is turned down for scalar rules that match nothing, and otherwise leaves the page exactly as
 it was, just when the rules are settled.
 */
module WriteDocument {
  import opened Apply
  import opened Clones
  import opened Dom
  import opened ListDiff
  import opened PageTree
  import opened PostBack
  import opened Rules
  import Offsets
  import Sequences
  import Spans
  import Splice
  import TextSplice
  import opened Values
  import opened Walk
  import opened WritePlan

  // ----- what was read has no unknown keys -----

  lemma {:induction false} UnknownPrefix(rules: seq<Field>, fields: seq<Field>, more: seq<Field>, k: nat)
    requires k <= |fields|
    ensures UnknownFields(rules, fields + more, k) == UnknownFields(rules, fields, k)
  {
    if k > 0 {
      UnknownPrefix(rules, fields, more, k - 1);
      assert (fields + more)[k - 1] == fields[k - 1];
    }
  }

  lemma {:induction false} PostedIsKnown(e: Engine, dom: Dom, ctx: Id, rule: Value, depth: nat)
    requires Proper(rule) && Extract(e, dom, ctx, rule, depth).Some?
    ensures Unknown(rule, Extract(e, dom, ctx, rule, depth).value) == []
    decreases MAX_RULE_DEPTH + 1 - depth, 1, 0
  {
    if rule.Arr? && ShapeOf(rule.items).Obj? {
      var rows := RowsOf(e, dom, ctx, rule.items).value;
      PostedRowsAreKnown(e, dom, rows, |rows|, ShapeOf(rule.items), depth, |rows|);
    } else if rule.Obj? {
      PostedFieldsAreKnown(e, dom, ctx, rule.fields, |rule.fields|, depth);
    }
  }

  lemma {:induction false} PostedRowsAreKnown(e: Engine, dom: Dom, rows: seq<Id>, k: nat, shape: Value, depth: nat, upto: nat)
    requires depth <= MAX_RULE_DEPTH && upto <= k <= |rows| && Proper(shape) && ExtractRows(e, dom, rows, k, shape, depth).Some?
    ensures UnknownItems(shape, ExtractRows(e, dom, rows, k, shape, depth).value, upto) == []
    decreases MAX_RULE_DEPTH + 1 - depth, 0, upto
  {
    if upto > 0 {
      PostedRowsAreKnown(e, dom, rows, k, shape, depth, upto - 1);
      RowRead(e, dom, rows, k, shape, depth, upto - 1);
      PostedIsKnown(e, dom, rows[upto - 1], shape, depth + 1);
    }
  }

  /** One more field under a key the rules have. */
  lemma {:induction false} KnownGoesOn(rules: seq<Field>, fields: seq<Field>, i: nat, value: Value)
    requires UnknownFields(rules, fields, |fields|) == [] && UniqueKeys(rules) && i < |rules| && Unknown(rules[i].value, value) == []
    ensures var more := fields + [Field(rules[i].key, value)]; UnknownFields(rules, more, |more|) == []
  {
    var field := Field(rules[i].key, value);
    UnknownPrefix(rules, fields, [field], |fields|);
    assert (fields + [field])[|fields|] == field;
    assert HasKey(rules, |rules|, field.key);
    GetAt(rules, i);
    assert UnknownField(rules, field) == [];
  }

  lemma {:induction false} PostedFieldsAreKnown(e: Engine, dom: Dom, ctx: Id, rules: seq<Field>, k: nat, depth: nat)
    requires depth <= MAX_RULE_DEPTH && k <= |rules| && UniqueKeys(rules) && (forall i :: 0 <= i < |rules| ==> Proper(rules[i].value))
    requires ExtractFields(e, dom, ctx, rules, k, depth).Some?
    ensures var read := ExtractFields(e, dom, ctx, rules, k, depth).value; UnknownFields(rules, read, |read|) == []
    decreases MAX_RULE_DEPTH + 1 - depth, 0, k
  {
    if k > 0 {
      PostedFieldsAreKnown(e, dom, ctx, rules, k - 1, depth);
      var before, rule := ExtractFields(e, dom, ctx, rules, k - 1, depth).value, rules[k - 1];
      PostedIsKnown(e, dom, ctx, rule.value, depth + 1);
      if rule.key != "__proto__" {
        KnownGoesOn(rules, before, k - 1, Extract(e, dom, ctx, rule.value, depth + 1).value);
      } else {
        assert ExtractFields(e, dom, ctx, rules, k, depth).value == before;
      }
    }
  }

  // ----- and the right shape -----

  lemma {:induction false} PostedIsShaped(e: Engine, dom: Dom, ctx: Id, rule: Value, depth: nat)
    requires Proper(rule) && Extract(e, dom, ctx, rule, depth).Some?
    ensures Misshapen(rule, Extract(e, dom, ctx, rule, depth).value) == []
    decreases MAX_RULE_DEPTH + 1 - depth, 1, 0
  {
    match rule
    case Str(r) => PostedScalarIsShaped(e, dom, ctx, r);
    case Arr(items) =>
      if |items| > 1 {
        var rows := RowsOf(e, dom, ctx, items).value;
        PostedRowsAreShaped(e, dom, rows, items[1], depth, |rows|);
      }
    case Obj(fields) => PostedFieldsAreShaped(e, dom, ctx, fields, depth, |fields|);
    case _ =>
  }

  lemma {:induction false} PostedScalarIsShaped(e: Engine, dom: Dom, ctx: Id, rule: string)
    requires ExtractScalar(e, dom, ctx, rule).Some?
    ensures Misshapen(Str(rule), ExtractScalar(e, dom, ctx, rule).value) == []
  {
    ScalarRead(e, dom, ctx, rule);
    ScalarIsShaped(rule, ExtractScalar(e, dom, ctx, rule).value);
  }

  /** A scalar rule reads a scalar, or a list of them. */
  lemma {:induction false} ScalarRead(e: Engine, dom: Dom, ctx: Id, rule: string)
    requires ExtractScalar(e, dom, ctx, rule).Some?
    ensures var v := ExtractScalar(e, dom, ctx, rule).value;
      if EndsWith(rule, "[]") then v.Arr? && forall i :: 0 <= i < |v.items| ==> Scalar(v.items[i]) else Scalar(v)
  {
  }

  lemma {:induction false} ScalarIsShaped(rule: string, v: Value)
    requires if EndsWith(rule, "[]") then v.Arr? && forall i :: 0 <= i < |v.items| ==> Scalar(v.items[i]) else Scalar(v)
    ensures Misshapen(Str(rule), v) == []
  {
    if EndsWith(rule, "[]") {
      TextsAreShaped(v.items, |v.items|);
    }
  }

  lemma {:induction false} TextsAreShaped(items: seq<Value>, k: nat)
    requires k <= |items| && forall i :: 0 <= i < |items| ==> Scalar(items[i])
    ensures MisshapenTexts(items, k) == []
  {
    if k > 0 {
      TextsAreShaped(items, k - 1);
      assert MisshapenText(items[k - 1]) == [];
    }
  }

  lemma {:induction false} PostedRowsAreShaped(e: Engine, dom: Dom, rows: seq<Id>, shape: Value, depth: nat, upto: nat)
    requires depth <= MAX_RULE_DEPTH && upto <= |rows| && Proper(shape) && ExtractRows(e, dom, rows, |rows|, shape, depth).Some?
    ensures MisshapenItems(shape, ExtractRows(e, dom, rows, |rows|, shape, depth).value, upto) == []
    decreases MAX_RULE_DEPTH + 1 - depth, 0, upto
  {
    if upto > 0 {
      PostedRowsAreShaped(e, dom, rows, shape, depth, upto - 1);
      RowRead(e, dom, rows, |rows|, shape, depth, upto - 1);
      PostedIsShaped(e, dom, rows[upto - 1], shape, depth + 1);
    }
  }

  lemma {:induction false} PostedFieldsAreShaped(e: Engine, dom: Dom, ctx: Id, rules: seq<Field>, depth: nat, upto: nat)
    requires depth <= MAX_RULE_DEPTH && upto <= |rules| && UniqueKeys(rules) && (forall i :: 0 <= i < |rules| ==> Proper(rules[i].value))
    requires ExtractFields(e, dom, ctx, rules, |rules|, depth).Some?
    ensures MisshapenFields(rules, ExtractFields(e, dom, ctx, rules, |rules|, depth).value, upto) == []
    decreases MAX_RULE_DEPTH + 1 - depth, 0, upto
  {
    if upto > 0 {
      PostedFieldsAreShaped(e, dom, ctx, rules, depth, upto - 1);
      var read := ExtractFields(e, dom, ctx, rules, |rules|, depth).value;
      SubReads(e, dom, ctx, rules, Obj(read), depth, upto - 1);
      if rules[upto - 1].key != "__proto__" {
        PostedIsShaped(e, dom, ctx, rules[upto - 1].value, depth + 1);
      }
      assert Misshapen(rules[upto - 1].value, Get(read, rules[upto - 1].key)) == [];
    }
  }

  // ----- and finds its targets where the rules do -----

  /** Every scalar rule that needs an element, outside lists, has one. */
  ghost predicate AllMatch(e: Engine, dom: Dom, ctx: Id, rule: Value) {
    match rule
    case Str(r) => SelectorNeeded(e, r).Some? ==> e.find(dom, ctx, SelectorNeeded(e, r).value) != Some([])
    case Obj(fields) => forall i :: 0 <= i < |fields| && fields[i].key != "__proto__" ==> AllMatch(e, dom, ctx, fields[i].value)
    case _ => true
  }

  lemma {:induction false} PostedMisses(e: Engine, dom: Dom, ctx: Id, rule: Value, depth: nat)
    requires Proper(rule) && Extract(e, dom, ctx, rule, depth).Some?
    ensures var found := Missed(e, dom, ctx, rule, Extract(e, dom, ctx, rule, depth).value);
      found.Some? && (found.value == [] <==> AllMatch(e, dom, ctx, rule))
    decreases MAX_RULE_DEPTH + 1 - depth, 1, 0
  {
    if rule.Obj? {
      PostedFieldsMiss(e, dom, ctx, rule.fields, depth, |rule.fields|);
    }
  }

  lemma {:induction false} PostedFieldsMiss(e: Engine, dom: Dom, ctx: Id, rules: seq<Field>, depth: nat, upto: nat)
    requires depth <= MAX_RULE_DEPTH && upto <= |rules| && UniqueKeys(rules) && (forall i :: 0 <= i < |rules| ==> Proper(rules[i].value))
    requires ExtractFields(e, dom, ctx, rules, |rules|, depth).Some?
    ensures var found := MissedFields(e, dom, ctx, rules, ExtractFields(e, dom, ctx, rules, |rules|, depth).value, upto);
      found.Some? &&
      (found.value == [] <==> forall i :: 0 <= i < upto && rules[i].key != "__proto__" ==> AllMatch(e, dom, ctx, rules[i].value))
    decreases MAX_RULE_DEPTH + 1 - depth, 0, upto
  {
    if upto > 0 {
      PostedFieldsMiss(e, dom, ctx, rules, depth, upto - 1);
      var read := ExtractFields(e, dom, ctx, rules, |rules|, depth).value;
      SubReads(e, dom, ctx, rules, Obj(read), depth, upto - 1);
      if rules[upto - 1].key != "__proto__" {
        PostedMisses(e, dom, ctx, rules[upto - 1].value, depth + 1);
      }
    }
  }

  // ----- the pipeline -----

  /** How a write ends. A change carries the page as written and what was touched and copied. */
  datatype Response =
    | BadSelector
    | Rejected(unknownKeys: seq<Finding>, unmatched: seq<Finding>)
    | Misshaped(mismatches: seq<Finding>)
    | Failed
    | Refused(targets: seq<Id>)
    | Unchanged
    | Changed(dom: Dom, dirty: set<Id>, cloned: set<Id>)

  /** What is answered before anything is written, none when the write goes ahead. */
  function TurnedDown(e: Engine, page: Dom, root: Id, rules: Value, data: Value): Option<Response> {
    var unknown, missed, misshapen := Unknown(rules, data), Missed(e, page, root, rules, data), Misshapen(rules, data);
    if missed.None? then Some(BadSelector)
    else if unknown != [] || missed.value != [] then Some(Rejected(unknown, missed.value))
    else if misshapen != [] then Some(Misshaped(misshapen))
    else None
  }

  /** planWrite and validateShape. */
  method Check(e: Engine, page: Dom, root: Id, rules: Value, data: Value) returns (r: Option<Response>)
    ensures r == TurnedDown(e, page, root, rules, data)
  {
    var plan := new WritePlan.Plan();
    plan.CheckKeys(rules, data, []);
    UnderNothing(Unknown(rules, data));
    assert plan.unknownKeys == Unknown(rules, data);
    var failed := plan.CheckTargets(e, page, root, rules, data, []);
    if failed {
      return Some(BadSelector);
    }
    UnderNothing(Missed(e, page, root, rules, data).value);
    assert plan.unmatched == Missed(e, page, root, rules, data).value;
    if plan.unknownKeys != [] || plan.unmatched != [] {
      return Some(Rejected(plan.unknownKeys, plan.unmatched));
    }
    plan.ValidateShape(rules, data, []);
    UnderNothing(Misshapen(rules, data));
    assert plan.mismatches == Misshapen(rules, data);
    if plan.mismatches != [] {
      return Some(Misshaped(plan.mismatches));
    }
    return None;
  }

  /** What posting back a read is answered with. */
  ghost predicate PostedAnswer(e: Engine, page: Dom, root: Id, rules: Value, data: Value, r: Response) {
    if !AllMatch(e, page, root, rules) then
      r.Rejected? && r.unknownKeys == [] && r.unmatched != [] && Some(r.unmatched) == Missed(e, page, root, rules, data)
    else if RuleSettled(e, page, root, rules, 0) then r == Unchanged
    else r.Failed? || r.Refused? || r.Changed?
  }

  lemma {:induction false} PostedIsTurnedDown(e: Engine, page: Dom, root: Id, rules: Value, data: Value)
    requires Proper(rules) && Extract(e, page, root, rules, 0) == Some(data)
    ensures var missed := Missed(e, page, root, rules, data);
      && missed.Some? && (missed.value == [] <==> AllMatch(e, page, root, rules))
      && TurnedDown(e, page, root, rules, data) == if missed.value == [] then None else Some(Rejected([], missed.value))
  {
    PostedIsKnown(e, page, root, rules, 0);
    PostedIsShaped(e, page, root, rules, 0);
    PostedMisses(e, page, root, rules, 0);
  }

  /** What a change leaves: the links between what was there hold or are gone, and every difference is marked. */
  ghost predicate Sensible(page: Dom, r: Response) {
    r.Changed? ==> Sound(r.dom) && Touches(page, r.dom, r.dirty) && Homed(r.dom.parent, Hooks(page)) && r.dirty != {}
  }

  /** A parsed page: a tree whose links agree and stay among the nodes; new nodes are numbered from `nextId` on. */
  ghost predicate Parsed(page: Dom, nextId: Id) {
    && Sound(page) && (forall n :: n in page.nodes ==> n < nextId)
    && (forall n :: n in page.parent ==> page.parent[n] in page.nodes)
    && exists depth: Depth :: Leads(Hooks(page), depth)
  }

  /** How the walk's end is answered. */
  function Answered(after: Marks, err: bool): Response {
    if err then Failed
    else if after.3 != [] then Refused(after.3)
    else if after.1 == {} then Unchanged
    else Changed(after.0, after.1, after.2)
  }

  /** The answer is that of some walk of the rules against the body. */
  ghost predicate AnswersWalk(e: Engine, page: Dom, root: Id, tokens: string -> set<string>, rules: Value, data: Value, r: Response) {
    exists after, err :: Went(e, tokens, root, rules, data, 0, Begun(page), after, err) && r == Answered(after, err)
  }

  /** Findings turn the write down before it begins; otherwise it is walked. */
  ghost predicate Answers(e: Engine, page: Dom, root: Id, tokens: string -> set<string>, rules: Value, data: Value, r: Response) {
    match TurnedDown(e, page, root, rules, data)
    case Some(turned) => r == turned
    case None => AnswersWalk(e, page, root, tokens, rules, data, r)
  }

  function Begun(page: Dom): Marks {
    (page, {}, {}, [])
  }

  /** writeDocument up to the splice. A refusal anywhere turns the whole write down. */
  method WriteDocument(e: Engine, page: Dom, root: Id, nextId: Id, tokens: string -> set<string>, guards: (Dom, Id) -> bool,
                       rules: Value, data: Value) returns (r: Response)
    requires Parsed(page, nextId) && root in page.nodes
    requires Reliable(e, tokens) && Proper(rules)
    ensures Answers(e, page, root, tokens, rules, data, r)
    ensures Sensible(page, r)
    ensures Measured(rules, data) && Extract(e, page, root, rules, 0) == Some(data) ==> PostedAnswer(e, page, root, rules, data, r)
  {
    var turned := Check(e, page, root, rules, data);
    r := if turned.Some? then turned.value else Unchanged;
    if turned.None? {
      r := Run(e, page, root, nextId, tokens, guards, rules, data);
    }
    PostedIsAnswered(e, page, root, tokens, rules, data, r);
  }

  /** Whatever is answered as it should be answers a read posted back as promised. */
  lemma {:induction false} PostedIsAnswered(e: Engine, page: Dom, root: Id, tokens: string -> set<string>, rules: Value, data: Value, r: Response)
    requires KnowsFlags(e) && Proper(rules)
    requires Answers(e, page, root, tokens, rules, data, r)
    ensures Measured(rules, data) && Extract(e, page, root, rules, 0) == Some(data) ==> PostedAnswer(e, page, root, rules, data, r)
  {
    if Extract(e, page, root, rules, 0) == Some(data) {
      PostedIsTurnedDown(e, page, root, rules, data);
      if TurnedDown(e, page, root, rules, data).None? {
        var after, err :| Went(e, tokens, root, rules, data, 0, Begun(page), after, err) && r == Answered(after, err);
        WentTold(e, tokens, root, rules, data, 0, Begun(page), after, err);
      }
    }
  }

  /** The walk itself. */
  method Run(e: Engine, page: Dom, root: Id, nextId: Id, tokens: string -> set<string>, guards: (Dom, Id) -> bool,
             rules: Value, data: Value) returns (r: Response)
    requires Parsed(page, nextId) && root in page.nodes
    requires Reliable(e, tokens) && Proper(rules)
    ensures AnswersWalk(e, page, root, tokens, rules, data, r)
    ensures Sensible(page, r)
  {
    ghost var depth: Depth :| Leads(Hooks(page), depth);
    var w := new Writer(tokens, guards, page, nextId, depth);
    assert w.Marks() == Begun(page);
    var err := ApplyAt(w, e, root, rules, data, 0);
    assert Went(e, tokens, root, rules, data, 0, Begun(page), w.Marks(), err);
    r := if err then Failed else if w.refusals != [] then Refused(w.refusals) else if w.dirty == {} then Unchanged else Changed(w.dom, w.dirty, w.cloned);
  }

  // ----- what the splice is given -----

  /** The page the rules are read from and the page the spans were taken from are one. */
  ghost predicate SamePage(page: Dom, doc: Doc, t: Layout) {
    && page.parent == doc.parent
    && (forall n :: n in t.order ==> n in page.nodes)
    && (forall n :: n in t.up || n in page.parent ==> n in t.order)
  }

  /** What a change leaves for the splice. */
  function Leaves(r: Response, doc: Doc, documents: set<Id>, owner: map<Id, Id>, spans: map<Id, Spans.Span>): Splice.Written
    requires r.Changed?
  {
    Splice.Written(doc.root, documents, r.dom.parent, owner, r.dirty, r.cloned, spans)
  }

  /** A write moves elements under their own parent only, or takes them out. */
  lemma {:induction false} ChangeStaysPut(page: Dom, doc: Doc, t: Layout, r: Response, documents: set<Id>, owner: map<Id, Id>, spans: map<Id, Spans.Span>)
    requires Tree(doc, t) && SamePage(page, doc, t) && Offsets.OwnsRightly(doc, t, owner)
    requires r.Changed? && Sensible(page, r)
    ensures Splice.StaysPut(Leaves(r, doc, documents, owner, spans), t.up)
  {
    forall n | n in t.up && n in r.dom.parent ensures r.dom.parent[n] == t.up[n] {
      HeldAsBefore(page, doc, t, r, n);
    }
  }

  /** A parsed node that hangs somewhere hangs where the layout has it. */
  lemma {:induction false} HeldAsBefore(page: Dom, doc: Doc, t: Layout, r: Response, n: Id)
    requires Tree(doc, t) && SamePage(page, doc, t) && r.Changed? && Sensible(page, r)
    requires n in page.nodes && n in r.dom.parent
    ensures n in t.up && r.dom.parent[n] == t.up[n] && t.up[n] in t.order && n in t.order && n != doc.root
  {
    assert AtHome(r.dom.parent, Hooks(page), n);
    assert n in page.parent && page.parent[n] == r.dom.parent[n];
    assert Laid(doc, t, n);
  }

  /** How deep a node sits after a write: parsed ones where they were, new ones below all of them. */
  ghost function DepthOf(t: Layout): Depth {
    var pos, order := t.pos, t.order;
    (n: Id) => if n in order then pos(n) else |order| + n
  }

  /** After any write the links lead upwards: new nodes hang below earlier ones, and nothing is moved below itself. */
  lemma {:induction false} ChangeIsRooted(page: Dom, doc: Doc, t: Layout, r: Response, documents: set<Id>, owner: map<Id, Id>, spans: map<Id, Spans.Span>)
    requires Tree(doc, t) && SamePage(page, doc, t) && Offsets.OwnsRightly(doc, t, owner)
    requires r.Changed? && Sensible(page, r)
    ensures Splice.Rooted(Leaves(r, doc, documents, owner, spans), DepthOf(t))
  {
    var w, depth := Leaves(r, doc, documents, owner, spans), DepthOf(t);
    var links := Splice.Links(w);
    forall n | n in links ensures depth(links[n]) < depth(n) && n != doc.root {
      if n in r.dom.parent {
        LinkLeadsUp(page, doc, t, r, n);
      } else {
        assert links[n] == owner[n] == t.up[n];
        assert Laid(doc, t, n);
      }
    }
  }

  lemma {:induction false} LinkLeadsUp(page: Dom, doc: Doc, t: Layout, r: Response, n: Id)
    requires Tree(doc, t) && SamePage(page, doc, t) && r.Changed? && Sensible(page, r) && n in r.dom.parent
    ensures DepthOf(t)(r.dom.parent[n]) < DepthOf(t)(n) && n != doc.root
  {
    var p := r.dom.parent[n];
    if n in page.nodes {
      HeldAsBefore(page, doc, t, r, n);
    } else {
      assert AtHome(r.dom.parent, Hooks(page), n);
      assert p in t.order ==> Laid(doc, t, p);
    }
  }

  /** After any write the splice's edits never overlap, whatever was moved, grown or removed. */
  lemma {:induction false} EditsApart(page: Dom, doc: Doc, t: Layout, r: Response, documents: set<Id>, owner: map<Id, Id>, spans: map<Id, Spans.Span>,
                   srcLen: nat, order: seq<Id>, outer: Id -> Splice.Bytes)
    requires Tree(doc, t) && SamePage(page, doc, t) && Offsets.OwnsRightly(doc, t, owner)
    requires Spans.Laminar(spans, t.up, t.pos, srcLen)
    requires r.Changed? && Sensible(page, r)
    requires Splice.Rooted(Leaves(r, doc, documents, owner, spans), DepthOf(t))
    requires Spans.Ordered(spans, order) && Sequences.Elements(order) == Splice.Topmost(Leaves(r, doc, documents, owner, spans), DepthOf(t))
    ensures forall x :: x in order ==> x in spans
    ensures TextSplice.Ascending(Splice.EditsOf(spans, order, outer), 0, srcLen)
  {
    ChangeStaysPut(page, doc, t, r, documents, owner, spans);
    Splice.TopmostApart(Leaves(r, doc, documents, owner, spans), t.up, t.pos, DepthOf(t), srcLen, order, outer);
  }

  // ----- the whole write -----

  /**
   What a change does to the file. When every touched element has a place in it, the ranges of the topmost
   ones, which never overlap, are replaced by what those elements look like now and all else is kept,
   provided the result reads back as the page as written; otherwise the page is rendered anew.
   */
  ghost predicate FileIs<P>(w: Splice.Written, depth: Depth, src: Splice.Bytes, full: Splice.Bytes, order: seq<Id>, outer: Id -> Splice.Bytes,
                            parse: Splice.Bytes -> Option<P>, render: P -> Splice.Bytes, out: Splice.WriteResult)
    requires Splice.Rooted(w, depth)
  {
    && out.changed == (out.html != src)
    && if Splice.AllLocated(w, depth) then
         && Spans.Ordered(w.spans, order) && Sequences.Elements(order) == Splice.Topmost(w, depth)
         && var edits := Splice.EditsOf(w.spans, order, outer);
            && TextSplice.Ascending(edits, 0, |src|)
            && var text := TextSplice.Patched(src, 0, edits);
               if parse(text).Some? && render(parse(text).value) == full then out.spliced && out.html == text
               else !out.spliced && out.html == full
       else !out.spliced && out.html == full
  }

  method SpliceChange<P>(page: Dom, doc: Doc, r: Response, documents: set<Id>, owner: map<Id, Id>, spans: map<Id, Spans.Span>, src: Splice.Bytes,
                         full: Splice.Bytes, outer: Id -> Splice.Bytes, parse: Splice.Bytes -> Option<P>, render: P -> Splice.Bytes, ghost t: Layout)
    returns (out: Splice.WriteResult, ghost order: seq<Id>)
    requires Tree(doc, t) && SamePage(page, doc, t) && Offsets.OwnsRightly(doc, t, owner) && Spans.Laminar(spans, t.up, t.pos, |src|)
    requires r.Changed? && Sensible(page, r)
    ensures Splice.Rooted(Leaves(r, doc, documents, owner, spans), DepthOf(t))
    ensures FileIs(Leaves(r, doc, documents, owner, spans), DepthOf(t), src, full, order, outer, parse, render, out)
  {
    ChangeIsRooted(page, doc, t, r, documents, owner, spans);
    var w := Leaves(r, doc, documents, owner, spans);
    out, order := Splice.Splice(w, src, full, outer, parse, render, DepthOf(t));
    if Splice.AllLocated(w, DepthOf(t)) {
      EditsApart(page, doc, t, r, documents, owner, spans, |src|, order, outer);
    }
  }

  /** Spans that fit the page as parsed; none when its elements and tags did not pair off. */
  method FitSpans(doc: Doc, raws: seq<Spans.Raw>, src: Splice.Bytes, ghost t: Layout) returns (spans: map<Id, Spans.Span>, owner: map<Id, Id>)
    requires Tree(doc, t) && (forall i :: 0 <= i < |raws| ==> raws[i].length > 0) && Spans.TotalLength(raws) <= |src|
    ensures Offsets.OwnsRightly(doc, t, owner) && Spans.Laminar(spans, t.up, t.pos, |src|)
  {
    ghost var page, closedBy, starts;
    spans, owner, page, closedBy, starts := Offsets.SourceSpans(doc, raws, |src|, t);
  }

  /** writeDocument: from the bytes of a file to the bytes that replace it, none when the write is turned down. */
  method WriteFile<P>(e: Engine, page: Dom, doc: Doc, raws: seq<Spans.Raw>, src: Splice.Bytes, nextId: Id, tokens: string -> set<string>,
                      guards: (Dom, Id) -> bool, rules: Value, data: Value, documents: set<Id>, full: Dom -> Splice.Bytes, outer: Dom -> Id -> Splice.Bytes,
                      parse: Splice.Bytes -> Option<P>, render: P -> Splice.Bytes, ghost t: Layout)
    returns (r: Response, out: Option<Splice.WriteResult>, ghost w: Splice.Written, ghost order: seq<Id>)
    requires Parsed(page, nextId) && doc.root in page.nodes
    requires Reliable(e, tokens) && Proper(rules)
    requires Tree(doc, t) && SamePage(page, doc, t)
    requires (forall i :: 0 <= i < |raws| ==> raws[i].length > 0) && Spans.TotalLength(raws) <= |src|
    ensures Answers(e, page, doc.root, tokens, rules, data, r) && (out.Some? <==> r.Unchanged? || r.Changed?)
    ensures r.Unchanged? ==> out == Some(Splice.WriteResult(src, false, true))
    ensures r.Changed? ==>
      && Spans.Laminar(w.spans, t.up, t.pos, |src|) && w == Leaves(r, doc, documents, w.owner, w.spans) && Splice.Rooted(w, DepthOf(t))
      && FileIs(w, DepthOf(t), src, full(r.dom), order, outer(r.dom), parse, render, out.value)
    ensures Measured(rules, data) && Extract(e, page, doc.root, rules, 0) == Some(data) ==> PostedAnswer(e, page, doc.root, rules, data, r)
  {
    var spans, owner := FitSpans(doc, raws, src, t);
    r := WriteDocument(e, page, doc.root, nextId, tokens, guards, rules, data);
    order, w := [], Splice.Written(doc.root, documents, page.parent, owner, {}, {}, spans);
    if !r.Changed? {
      out := if r.Unchanged? then Some(Splice.WriteResult(src, false, true)) else None;
      return;
    }
    w := Leaves(r, doc, documents, owner, spans);
    var result;
    result, order := SpliceChange(page, doc, r, documents, owner, spans, src, full(r.dom), outer(r.dom), parse, render, t);
    out := Some(result);
  }
}
