/**
 What a rule reads off the page, and what writing a value through it would change
 (internal/dataapi/extract.go, props.go, apply.go). A value just read writes nothing, except where
 `PropSettled` and `RuleSettled` say so.
 */
module Rules {
  import opened Dom
  import opened PageTree
  import opened RowMatch
  import opened Scanner
  import opened StyleVars
  import opened Values

  const MAX_RULE_DEPTH := 20

  /**
   What stands outside this module: the selector engine, rendering, and the tables of the content
   policy. `find` answers none for a selector it cannot read; `splitAt` finds the @ of "sel@name"; `wrapped` is what
   a match of items and rows gives once its cost sums have run past the machine's integers.
   */
  datatype Engine = Engine(
    find: (Dom, Id, string) -> Option<seq<Id>>,
    seed: (Dom, Id, string) -> Option<Id>,
    splitAt: string -> Option<nat>,
    textOf: (Dom, Id) -> string,
    rawTextOf: (Dom, Id) -> string,
    innerOf: (Dom, Id) -> string,
    outerOf: (Dom, Id) -> string,
    fold: string -> string,
    upper: string -> string,
    booleans: set<string>,
    readOnly: set<string>,
    holdsNoData: (Dom, Id) -> bool,
    holdsRulesTag: (Dom, Id) -> bool,
    refusedTarget: (Dom, Id) -> bool,
    refusedAttr: (string, Value) -> bool,
    refusedStyle: string -> bool,
    encode: Encoder,
    wrapped: (seq<Value>, seq<Value>) -> seq<int>)

  // ----- attributes and properties -----

  function Data(dom: Dom, n: Id): NodeData {
    if n in dom.nodes then dom.nodes[n] else Doctype
  }

  function Attrs(dom: Dom, n: Id): seq<Attr> {
    if Data(dom, n).Element? then Data(dom, n).attrs else []
  }

  predicate IsBoolean(e: Engine, name: string) {
    e.fold(name) in e.booleans
  }

  /** A present boolean attribute reads as its own name; a few form values have stand-ins. */
  function GetAttr(e: Engine, dom: Dom, n: Id, name: string): Option<string> {
    var data := Data(dom, n);
    if !data.Element? then None
    else
      var v := AttrValue(data.attrs, name);
      if v.Some? then Some(if IsBoolean(e, name) then name else v.value)
      else if data.tag == "option" && name == "value" then Some(e.rawTextOf(dom, n))
      else if data.tag == "input" && name == "value" && TypedAsChoice(data.attrs) then Some("on")
      else None
  }

  predicate TypedAsChoice(attrs: seq<Attr>) {
    AttrValue(attrs, "type") == Some("radio") || AttrValue(attrs, "type") == Some("checkbox")
  }

  /** The ways a name is read and written; anything not listed is a plain attribute. */
  datatype Kind = CustomVar | Fixed | OuterHtml | InnerHtml | PlainText | Flag | Settable | Literal

  function KindOf(e: Engine, name: string): Kind {
    if ValidName(name) then CustomVar
    else if name in e.readOnly then Fixed
    else if name == "outerHTML" then OuterHtml
    else if name == "innerHTML" then InnerHtml
    else if name == "textContent" || name == "innerText" then PlainText
    else if FlagName(name) then Flag
    else if SettableName(name) then Settable
    else Literal
  }

  predicate FlagName(name: string) {
    name == "checked" || name == "selected" || name == "disabled" || name == "readOnly"
  }

  predicate SettableName(name: string) {
    name == "type" || name == "className" || name == "id" || name == "title" || name == "value"
  }

  /** The DOM property, none where JavaScript has null or undefined. */
  function Prop(e: Engine, dom: Dom, n: Id, name: string): Option<string> {
    if name == "textContent" || name == "innerText" then Some(e.textOf(dom, n))
    else if name == "innerHTML" then Some(e.innerOf(dom, n))
    else if name == "className" then AttrValue(Attrs(dom, n), "class")
    else if name == "outerHTML" then Some(e.outerOf(dom, n))
    else if name == "tagName" || name == "nodeName" then
      if Data(dom, n).Element? then Some(e.upper(Data(dom, n).tag)) else None
    else if name == "nodeType" then Some(NodeType(Data(dom, n)))
    else if name == "nodeValue" then None
    else if name == "type" then GetAttr(e, dom, n, "type")
    else if IsBoolean(e, name) then Some(if GetAttr(e, dom, n, e.fold(name)).Some? then "true" else "false")
    else GetAttr(e, dom, n, name)
  }

  function NodeType(data: NodeData): string {
    match data
    case Element(_, _) => "1"
    case Text(_) => "3"
    case Comment(_) => "8"
    case Document => "9"
    case Doctype => "10"
  }

  function OrNull(v: Option<string>): Value {
    if v.None? then Null else Str(v.value)
  }

  function ReadName(e: Engine, dom: Dom, n: Id, name: string): Value {
    match KindOf(e, name)
    case CustomVar =>
      var style := GetAttr(e, dom, n, "style");
      if style.None? then Null else OrNull(Read(style.value, name))
    case Literal => OrNull(GetAttr(e, dom, n, name))
    case _ => OrNull(Prop(e, dom, n, name))
  }

  // ----- what writing a value changes -----

  /** Nothing; a refusal on record; an error; new attributes; new text. */
  datatype Edit = Keep | Refuse | Fail | SetAttrs(attrs: seq<Attr>) | SetText(text: string)

  function EmptyIfNull(v: Value): string {
    if v.Null? then "" else JsString(v)
  }

  function NullToEmpty(v: Value): Value {
    if v.Null? then Str("") else v
  }

  predicate Truthy(v: Value) {
    match v
    case Missing | Null => false
    case Bool(b) => b
    case Str(s) => s != ""
    case Num(s) => s != "0"
    case NonFinite(_) => true
    case Arr(_) | Obj(_) => true
  }

  predicate SameFixed(current: Option<string>, value: Value) {
    if current.None? then IsNullish(value)
    else !IsNullish(value) && JsString(value) == current.value
  }

  function AllowText(e: Engine, dom: Dom, n: Id, text: string): Edit {
    if e.refusedTarget(dom, n) || e.holdsRulesTag(dom, n) then Refuse else SetText(text)
  }

  function AllowAttr(e: Engine, dom: Dom, n: Id, name: string, value: Value, attrs: seq<Attr>): Edit {
    if e.refusedTarget(dom, n) || e.refusedAttr(name, value) then Refuse else SetAttrs(attrs)
  }

  /** setText: the comparison is against the trimmed text. */
  function TextEdit(e: Engine, dom: Dom, n: Id, value: Value): Edit {
    var target := EmptyIfNull(value);
    if Trim(e.textOf(dom, n)) == target then Keep else AllowText(e, dom, n, target)
  }

  function CustomEdit(e: Engine, dom: Dom, n: Id, name: string, value: Value): Edit {
    var want := if IsNullish(value) then "" else Trim(JsString(value));
    var attr := GetAttr(e, dom, n, "style");
    var style := if attr.None? then "" else attr.value;
    var current := Read(style, name);
    if (if current.None? then "" else current.value) == want then Keep
    else if e.refusedTarget(dom, n) || (want != "" && e.refusedStyle(want)) then Refuse
    else
      var next := Write(style, name, want);
      SetAttrs(if next.Some? then SetAttr(Attrs(dom, n), "style", next.value) else RemoveAttr(Attrs(dom, n), "style"))
  }

  function PlainEdit(e: Engine, dom: Dom, n: Id, name: string, value: Value): Edit {
    var current := GetAttr(e, dom, n, name);
    if IsNullish(value) then
      if current.None? then Keep else AllowAttr(e, dom, n, name, Null, RemoveAttr(Attrs(dom, n), name))
    else if current == Some(JsString(value)) then Keep
    else AllowAttr(e, dom, n, name, Str(JsString(value)), SetAttr(Attrs(dom, n), name, JsString(value)))
  }

  /** A boolean property is compared, and written, as the presence of the attribute of that very name. */
  function FlagEdit(e: Engine, dom: Dom, n: Id, name: string, value: Value): Edit {
    var next := value != Str("false") && Truthy(value);
    if GetAttr(e, dom, n, name).Some? == next then Keep
    else AllowAttr(e, dom, n, name, Bool(next), if next then SetAttr(Attrs(dom, n), name, "") else RemoveAttr(Attrs(dom, n), name))
  }

  function SettableEdit(e: Engine, dom: Dom, n: Id, name: string, value: Value): Edit {
    var next := NullToEmpty(value);
    var current := Prop(e, dom, n, name);
    var attr := if name == "className" then "class" else name;
    if current.Some? && next == Str(current.value) then Keep
    else AllowAttr(e, dom, n, attr, next, SetAttr(Attrs(dom, n), attr, JsString(next)))
  }

  /** writePropOrAttr. */
  function NameEdit(e: Engine, dom: Dom, n: Id, name: string, value: Value): Edit {
    match KindOf(e, name)
    case CustomVar => CustomEdit(e, dom, n, name, value)
    case Fixed => if SameFixed(Prop(e, dom, n, name), value) then Keep else Fail
    case OuterHtml => if e.outerOf(dom, n) == EmptyIfNull(value) then Keep else Refuse
    case InnerHtml => if NullToEmpty(value) == Str(e.innerOf(dom, n)) then Keep else Refuse
    case PlainText => if NullToEmpty(value) == Str(e.textOf(dom, n)) then Keep else AllowText(e, dom, n, JsString(NullToEmpty(value)))
    case Flag => FlagEdit(e, dom, n, name, value)
    case Settable => SettableEdit(e, dom, n, name, value)
    case Literal => PlainEdit(e, dom, n, name, value)
  }

  /**
   When a name just read can be written back without a change: always, but for a settable property
   that reads null, which is written back as empty text, and a flag the element carries under one
   spelling of its name and not the other.
   */
  predicate PropSettled(e: Engine, dom: Dom, n: Id, name: string) {
    match KindOf(e, name)
    case Settable => Prop(e, dom, n, name).Some?
    case Flag => GetAttr(e, dom, n, e.fold(name)).Some? == GetAttr(e, dom, n, name).Some?
    case _ => true
  }

  /** Of the names with a meaning of their own, the four flags are the boolean attributes. */
  ghost predicate KnowsFlags(e: Engine) {
    && (forall name {:trigger FlagName(name)} :: FlagName(name) ==> IsBoolean(e, name))
    && forall name {:trigger SettableName(name)} :: SettableName(name) ==> !IsBoolean(e, name)
  }

  lemma {:induction false} ReadIsTrimmed(style: string, name: string)
    ensures var v := Read(style, name); v.Some? ==> Trim(v.value) == v.value
  {
    var decls := ParseAll(Split(style));
    var d := Winner(decls, name);
    if d.Some? {
      WinnerIsThere(decls, name);
      var i :| 0 <= i < |decls| && decls[i] == d;
      DeclaredIsTrimmed(Split(style)[i]);
    }
  }

  lemma {:induction false} WinnerIsThere(decls: seq<Option<Declaration>>, name: string)
    ensures Winner(decls, name).Some? ==> exists i :: 0 <= i < |decls| && decls[i] == Winner(decls, name)
    decreases |decls|
  {
    if decls != [] {
      var init := decls[..|decls| - 1];
      WinnerIsThere(init, name);
      if Winner(decls, name).Some? {
        if Winner(init, name) == Winner(decls, name) {
          var i :| 0 <= i < |init| && init[i] == Winner(init, name);
          assert decls[i] == Winner(decls, name);
        } else {
          assert decls[|decls| - 1] == Winner(decls, name);
        }
      }
    }
  }

  lemma {:induction false} TrimTwice(s: string)
    ensures Trim(Trim(s)) == Trim(s)
  {
    var lead, tail := TrimSplits(s);
    TrimSkips("", Trim(s), "");
    assert "" + Trim(s) + "" == Trim(s);
  }

  lemma {:induction false} DeclaredIsTrimmed(part: string)
    ensures Parse(part).Some? ==> Trim(Parse(part).value.value) == Parse(part).value.value
  {
    var raw := Strip(part, 0, Bare);
    var colon := IndexOfChar(raw, ':');
    if colon.Some? {
      var value := Trim(raw[colon.value + 1..]);
      TrimTwice(raw[colon.value + 1..]);
      var at := ImportantAt(value, 0);
      if at.Some? {
        TrimTwice(value[..at.value]);
      }
    }
  }

  /** Writing back what was read changes nothing exactly when the property is settled. */
  lemma {:induction false} ReadBackKeeps(e: Engine, dom: Dom, n: Id, name: string)
    requires KnowsFlags(e)
    ensures NameEdit(e, dom, n, name, ReadName(e, dom, n, name)) == Keep <==> PropSettled(e, dom, n, name)
  {
    match KindOf(e, name)
    case CustomVar =>
      var attr := GetAttr(e, dom, n, "style");
      ReadIsTrimmed(if attr.None? then "" else attr.value, name);
      AbsentReadsNone(name);
    case Flag =>
    case _ =>
  }

  lemma {:induction false} AbsentReadsNone(name: string)
    ensures Read("", name) == None
  {
    assert FirstCut("", 0, Neutral) == None && Split("") == [""];
    assert Strip("", 0, Bare) == "" && Parse("") == None;
    assert ParseAll([""]) == [None];
    var decls: seq<Option<Declaration>> := [None];
    assert decls[..0] == [] && Winner(decls, name) == None;
  }

  // ----- rules -----

  /** The forms a rule string takes. */
  datatype Form = ListForm(selector: string) | OwnForm(name: string) | NamedForm(selector: string, name: string) | DotForm | TextForm(selector: string)

  predicate EndsWith(s: string, tail: string) {
    |s| >= |tail| && s[|s| - |tail|..] == tail
  }

  function FormOf(e: Engine, rule: string): Form {
    if EndsWith(rule, "[]") then ListForm(rule[..|rule| - 2])
    else if rule != "" && rule[0] == '@' then OwnForm(rule[1..])
    else
      var at := e.splitAt(rule);
      if at.Some? && at.value < |rule| && rule[at.value] == '@' then NamedForm(rule[..at.value], rule[at.value + 1..])
      else if rule == "." then DotForm
      else TextForm(rule)
  }

  /** The node a "sel@name" rule means; an empty selector means the context itself. */
  function Targets(e: Engine, dom: Dom, ctx: Id, selector: string): Option<seq<Id>> {
    if selector == "" then Some([ctx]) else e.find(dom, ctx, selector)
  }

  function Texts(e: Engine, dom: Dom, rows: seq<Id>): (r: seq<Value>)
    ensures |r| == |rows|
  {
    seq(|rows|, i requires 0 <= i < |rows| => Str(Trim(e.textOf(dom, rows[i]))))
  }

  function ExtractScalar(e: Engine, dom: Dom, ctx: Id, rule: string): Option<Value> {
    FormRead(e, dom, ctx, FormOf(e, rule))
  }

  function FormRead(e: Engine, dom: Dom, ctx: Id, form: Form): Option<Value> {
    match form
    case ListForm(selector) =>
      var rows := e.find(dom, ctx, selector);
      if rows.None? then None else Some(Arr(Texts(e, dom, rows.value)))
    case OwnForm(name) => Some(ReadName(e, dom, ctx, name))
    case NamedForm(selector, name) =>
      var nodes := Targets(e, dom, ctx, selector);
      if nodes.None? then None
      else Some(if nodes.value == [] then Null else ReadName(e, dom, nodes.value[0], name))
    case DotForm => Some(Str(Trim(e.textOf(dom, ctx))))
    case TextForm(selector) =>
      var nodes := e.find(dom, ctx, selector);
      if nodes.None? then None
      else Some(if nodes.value == [] then Null else Str(Trim(e.textOf(dom, nodes.value[0]))))
  }

  /** A list rule's rows; a selector that is no string matches nothing. */
  function RowsOf(e: Engine, dom: Dom, ctx: Id, items: seq<Value>): Option<seq<Id>> {
    if items != [] && items[0].Str? then e.find(dom, ctx, items[0].text) else Some([])
  }

  function ShapeOf(items: seq<Value>): Value {
    if |items| > 1 then items[1] else Missing
  }

  /** What a rule reads, none when it fails: too deep, or a selector that does not parse. */
  function Extract(e: Engine, dom: Dom, ctx: Id, rule: Value, depth: nat): Option<Value>
    decreases MAX_RULE_DEPTH + 1 - depth, 1, 0
  {
    if depth > MAX_RULE_DEPTH then None
    else
      match rule
      case Str(r) => ExtractScalar(e, dom, ctx, r)
      case Arr(items) =>
        var rows := RowsOf(e, dom, ctx, items);
        if rows.None? then None
        else
          var read := ExtractRows(e, dom, rows.value, |rows.value|, ShapeOf(items), depth);
          if read.None? then None else Some(Arr(read.value))
      case Obj(fields) =>
        var read := ExtractFields(e, dom, ctx, fields, |fields|, depth);
        if read.None? then None else Some(Obj(read.value))
      case _ => Some(Null)
  }

  function ExtractRows(e: Engine, dom: Dom, rows: seq<Id>, k: nat, shape: Value, depth: nat): (r: Option<seq<Value>>)
    requires k <= |rows| && depth <= MAX_RULE_DEPTH
    ensures r.Some? ==> |r.value| == k
    decreases MAX_RULE_DEPTH + 1 - depth, 0, k
  {
    if k == 0 then Some([])
    else
      var before, last := ExtractRows(e, dom, rows, k - 1, shape, depth), Extract(e, dom, rows[k - 1], shape, depth + 1);
      if before.None? || last.None? then None else Some(before.value + [last.value])
  }

  /** An own "__proto__" key is resolved, and swallowed by the result. */
  function ExtractFields(e: Engine, dom: Dom, ctx: Id, fields: seq<Field>, k: nat, depth: nat): Option<seq<Field>>
    requires k <= |fields| && depth <= MAX_RULE_DEPTH
    decreases MAX_RULE_DEPTH + 1 - depth, 0, k
  {
    if k == 0 then Some([])
    else
      var before, last := ExtractFields(e, dom, ctx, fields, k - 1, depth), Extract(e, dom, ctx, fields[k - 1].value, depth + 1);
      if before.None? || last.None? then None
      else Some(before.value + if fields[k - 1].key == "__proto__" then [] else [Field(fields[k - 1].key, last.value)])
  }

  // ----- what a scalar rule writes -----

  /** Nothing to do; an error; an edit at a node. */
  datatype Act = NoAct | Bad | At(n: Id, edit: Edit)

  function FormAct(e: Engine, dom: Dom, ctx: Id, form: Form, value: Value): Act
    requires !form.ListForm?
  {
    match form
    case OwnForm(name) => At(ctx, NameEdit(e, dom, ctx, name, value))
    case DotForm => At(ctx, TextEdit(e, dom, ctx, value))
    case NamedForm(selector, name) =>
      var nodes := Targets(e, dom, ctx, selector);
      if nodes.None? then Bad else if nodes.value == [] then NoAct else At(nodes.value[0], NameEdit(e, dom, nodes.value[0], name, value))
    case TextForm(selector) =>
      var nodes := e.find(dom, ctx, selector);
      if nodes.None? then Bad else if nodes.value == [] then NoAct else At(nodes.value[0], TextEdit(e, dom, nodes.value[0], value))
  }

  predicate Silent(act: Act) {
    act.NoAct? || (act.At? && act.edit.Keep?)
  }

  /** Writing what a scalar rule read is silent just when the rule is settled. */
  lemma {:induction false} BackIsSilent(e: Engine, dom: Dom, ctx: Id, form: Form, value: Value)
    requires KnowsFlags(e) && !form.ListForm?
    ensures FormRead(e, dom, ctx, form) == Some(value) ==> Silent(FormAct(e, dom, ctx, form, value)) == FormSettled(e, dom, ctx, form)
  {
    match form
    case OwnForm(name) => ReadBackKeeps(e, dom, ctx, name);
    case NamedForm(selector, name) =>
      var nodes := Targets(e, dom, ctx, selector);
      if nodes.Some? && nodes.value != [] {
        ReadBackKeeps(e, dom, nodes.value[0], name);
      }
    case _ =>
  }

  // ----- when a whole rule is settled -----

  predicate FormSettled(e: Engine, dom: Dom, ctx: Id, form: Form) {
    match form
    case OwnForm(name) => PropSettled(e, dom, ctx, name)
    case NamedForm(selector, name) =>
      var nodes := Targets(e, dom, ctx, selector);
      nodes.Some? && nodes.value != [] ==> PropSettled(e, dom, nodes.value[0], name)
    case _ => true
  }

  /**
   When everything a rule reads can be written back without a change: its names are settled, and a
   list whose shape is a literal null, which reads null for every row and writes text, has only rows
   without text.
   */
  predicate RuleSettled(e: Engine, dom: Dom, ctx: Id, rule: Value, depth: nat)
    decreases MAX_RULE_DEPTH + 1 - depth
  {
    depth <= MAX_RULE_DEPTH ==>
      match rule
      case Str(r) => FormSettled(e, dom, ctx, FormOf(e, r))
      case Arr(items) =>
        var rows, shape := RowsOf(e, dom, ctx, items), ShapeOf(items);
        rows.Some? ==> forall i :: 0 <= i < |rows.value| ==>
          if shape.Null? then Trim(e.textOf(dom, rows.value[i])) == "" else RuleSettled(e, dom, rows.value[i], shape, depth + 1)
      case Obj(fields) =>
        forall i :: 0 <= i < |fields| && fields[i].key != "__proto__" ==> RuleSettled(e, dom, ctx, fields[i].value, depth + 1)
      case _ => true
  }

  /** A rule read at some depth reads the same at any lesser one. */
  lemma {:induction false} ShallowerReads(e: Engine, dom: Dom, ctx: Id, rule: Value, depth: nat, less: nat)
    requires less <= depth && Extract(e, dom, ctx, rule, depth).Some?
    ensures Extract(e, dom, ctx, rule, less) == Extract(e, dom, ctx, rule, depth)
    decreases MAX_RULE_DEPTH + 1 - depth, 1, 0
  {
    if rule.Arr? {
      var rows := RowsOf(e, dom, ctx, rule.items).value;
      ShallowerRows(e, dom, rows, |rows|, ShapeOf(rule.items), depth, less);
    } else if rule.Obj? {
      ShallowerFields(e, dom, ctx, rule.fields, |rule.fields|, depth, less);
    }
  }

  lemma {:induction false} ShallowerRows(e: Engine, dom: Dom, rows: seq<Id>, k: nat, shape: Value, depth: nat, less: nat)
    requires less <= depth <= MAX_RULE_DEPTH && k <= |rows| && ExtractRows(e, dom, rows, k, shape, depth).Some?
    ensures ExtractRows(e, dom, rows, k, shape, less) == ExtractRows(e, dom, rows, k, shape, depth)
    decreases MAX_RULE_DEPTH + 1 - depth, 0, k
  {
    if k > 0 {
      ShallowerRows(e, dom, rows, k - 1, shape, depth, less);
      ShallowerReads(e, dom, rows[k - 1], shape, depth + 1, less + 1);
    }
  }

  lemma {:induction false} ShallowerFields(e: Engine, dom: Dom, ctx: Id, fields: seq<Field>, k: nat, depth: nat, less: nat)
    requires less <= depth <= MAX_RULE_DEPTH && k <= |fields| && ExtractFields(e, dom, ctx, fields, k, depth).Some?
    ensures ExtractFields(e, dom, ctx, fields, k, less) == ExtractFields(e, dom, ctx, fields, k, depth)
    decreases MAX_RULE_DEPTH + 1 - depth, 0, k
  {
    if k > 0 {
      ShallowerFields(e, dom, ctx, fields, k - 1, depth, less);
      ShallowerReads(e, dom, ctx, fields[k - 1].value, depth + 1, less + 1);
    }
  }

  lemma {:induction false} RowRead(e: Engine, dom: Dom, rows: seq<Id>, k: nat, shape: Value, depth: nat, i: nat)
    requires depth <= MAX_RULE_DEPTH && i < k <= |rows| && ExtractRows(e, dom, rows, k, shape, depth).Some?
    ensures Extract(e, dom, rows[i], shape, depth + 1) == Some(ExtractRows(e, dom, rows, k, shape, depth).value[i])
  {
    if i < k - 1 {
      RowRead(e, dom, rows, k - 1, shape, depth, i);
    }
  }

  lemma {:induction false} GetAppended(fields: seq<Field>, more: seq<Field>, key: string)
    ensures Get(fields + more, key) == if HasKey(fields, |fields|, key) then Get(fields, key) else Get(more, key)
  {
    if fields == [] {
      assert fields + more == more;
    } else {
      var rest := fields[1..];
      assert (fields + more)[1..] == rest + more;
      GetAppended(rest, more, key);
      assert forall i :: 0 <= i < |rest| ==> rest[i] == fields[i + 1];
      if HasKey(fields, |fields|, key) && fields[0].key != key {
        var i :| 0 <= i < |fields| && fields[i].key == key;
        assert rest[i - 1].key == key;
      }
    }
  }

  /** The result has the rule's keys. */
  lemma {:induction false} FieldsHave(e: Engine, dom: Dom, ctx: Id, fields: seq<Field>, k: nat, depth: nat, key: string)
    requires depth <= MAX_RULE_DEPTH && k <= |fields| && ExtractFields(e, dom, ctx, fields, k, depth).Some?
    ensures var read := ExtractFields(e, dom, ctx, fields, k, depth).value;
      HasKey(read, |read|, key) <==> key != "__proto__" && HasKey(fields, k, key)
    decreases k
  {
    if k > 0 {
      FieldsHave(e, dom, ctx, fields, k - 1, depth, key);
      var before, read := ExtractFields(e, dom, ctx, fields, k - 1, depth).value, ExtractFields(e, dom, ctx, fields, k, depth).value;
      var f := fields[k - 1].key;
      assert HasKey(fields, k, key) <==> HasKey(fields, k - 1, key) || f == key;
      if f != "__proto__" {
        assert read[|before|].key == f;
        assert read[..|before|] == before;
        assert forall i :: 0 <= i < |before| ==> read[i] == before[i];
        assert HasKey(read, |read|, key) <==> HasKey(before, |before|, key) || f == key;
      } else {
        assert read == before;
      }
    }
  }

  /** What the result holds under a key is what the rule of that key reads. */
  lemma {:induction false} FieldsRead(e: Engine, dom: Dom, ctx: Id, fields: seq<Field>, k: nat, depth: nat, i: nat)
    requires depth <= MAX_RULE_DEPTH && i < k <= |fields| && UniqueKeys(fields) && ExtractFields(e, dom, ctx, fields, k, depth).Some?
    requires fields[i].key != "__proto__"
    ensures Extract(e, dom, ctx, fields[i].value, depth + 1) == Some(Get(ExtractFields(e, dom, ctx, fields, k, depth).value, fields[i].key))
    decreases k
  {
    var before, field, key := ExtractFields(e, dom, ctx, fields, k - 1, depth).value, fields[k - 1], fields[i].key;
    var last := Extract(e, dom, ctx, field.value, depth + 1).value;
    FieldsHave(e, dom, ctx, fields, k - 1, depth, key);
    GetAppended(before, if field.key == "__proto__" then [] else [Field(field.key, last)], key);
    if i < k - 1 {
      FieldsRead(e, dom, ctx, fields, k - 1, depth, i);
      assert HasKey(fields, k - 1, key);
    } else {
      assert !HasKey(fields, k - 1, key);
    }
  }
}
