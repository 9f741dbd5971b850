/**
 What a name reads after it was written (internal/dataapi/apply.go, props.go): the value that went in,
 and where not, exactly which names and values are the exceptions.
 */
module RoundTrip {
  import opened Dom
  import opened PageTree
  import opened Rules
  import opened Scanner
  import opened StyleOpen
  import opened StyleVars
  import opened Values

  ghost predicate UniqueAttrs(attrs: seq<Attr>) {
    forall i, j :: 0 <= i < j < |attrs| ==> attrs[i].key != attrs[j].key
  }

  lemma {:induction false} RemovedIsGone(attrs: seq<Attr>, key: string)
    requires UniqueAttrs(attrs)
    ensures AttrValue(RemoveAttr(attrs, key), key) == None
  {
    if attrs != [] {
      var rest := attrs[1..];
      assert forall i :: 0 <= i < |rest| ==> rest[i] == attrs[i + 1];
      if attrs[0].key == key {
        NoAttr(rest, key);
      } else {
        RemovedIsGone(rest, key);
      }
    }
  }

  lemma {:induction false} NoAttr(attrs: seq<Attr>, key: string)
    requires forall i :: 0 <= i < |attrs| ==> attrs[i].key != key
    ensures AttrValue(attrs, key) == None
  {
    if attrs != [] {
      NoAttr(attrs[1..], key);
    }
  }

  /** The attribute a name is written to. */
  function AttrName(e: Engine, name: string): string {
    match KindOf(e, name)
    case CustomVar => "style"
    case _ => if name == "className" then "class" else name
  }

  /** What the attribute is set to, none where it is taken off. */
  function AttrWanted(e: Engine, dom: Dom, n: Id, name: string, value: Value): Option<string> {
    match KindOf(e, name)
    case CustomVar => Write(StyleOf(e, dom, n), name, WantedText(value))
    case Flag => if value != Str("false") && Truthy(value) then Some("") else None
    case Settable => Some(JsString(NullToEmpty(value)))
    case _ => if IsNullish(value) then None else Some(JsString(value))
  }

  function StyleOf(e: Engine, dom: Dom, n: Id): string {
    var attr := GetAttr(e, dom, n, "style");
    if attr.None? then "" else attr.value
  }

  function WantedText(value: Value): string {
    if IsNullish(value) then "" else Trim(JsString(value))
  }

  function WithAttr(attrs: seq<Attr>, key: string, wanted: Option<string>): seq<Attr> {
    if wanted.Some? then SetAttr(attrs, key, wanted.value) else RemoveAttr(attrs, key)
  }

  lemma {:induction false} WithAttrReads(attrs: seq<Attr>, key: string, wanted: Option<string>, other: string)
    requires UniqueAttrs(attrs)
    ensures AttrValue(WithAttr(attrs, key, wanted), other) == if other == key then wanted else AttrValue(attrs, other)
  {
    if wanted.Some? {
      SetAttrReads(attrs, key, wanted.value, other);
    } else if other == key {
      RemovedIsGone(attrs, key);
    } else {
      RemoveAttrKeeps(attrs, key, other);
    }
  }

  lemma {:induction false} EditWrites(e: Engine, dom: Dom, n: Id, name: string, value: Value)
    requires NameEdit(e, dom, n, name, value).SetAttrs?
    ensures NameEdit(e, dom, n, name, value).attrs == WithAttr(Attrs(dom, n), AttrName(e, name), AttrWanted(e, dom, n, name, value))
    ensures !KindOf(e, name).PlainText?
  {
    match KindOf(e, name)
    case CustomVar =>
    case Flag =>
    case Settable =>
    case _ =>
  }

  /** A write through a name sets or takes off its own attribute and no other. */
  lemma {:induction false} OneAttribute(e: Engine, dom: Dom, n: Id, name: string, value: Value, other: string)
    requires UniqueAttrs(Attrs(dom, n)) && NameEdit(e, dom, n, name, value).SetAttrs?
    ensures var after := NameEdit(e, dom, n, name, value).attrs;
      AttrValue(after, other) == if other == AttrName(e, name) then AttrWanted(e, dom, n, name, value) else AttrValue(Attrs(dom, n), other)
  {
    EditWrites(e, dom, n, name, value);
    WithAttrReads(Attrs(dom, n), AttrName(e, name), AttrWanted(e, dom, n, name, value), other);
  }

  /** The page once a write has set the attributes. */
  function Edited(dom: Dom, n: Id, attrs: seq<Attr>): Dom
    requires Data(dom, n).Element?
  {
    dom.(nodes := dom.nodes[n := dom.nodes[n].(attrs := attrs)])
  }

  /** What a name reads when it holds the value. */
  function Held(e: Engine, name: string, value: Value): Value {
    match KindOf(e, name)
    case CustomVar => if WantedText(value) == "" then Null else Str(WantedText(value))
    case Flag => Str(if value != Str("false") && Truthy(value) then "true" else "false")
    case Settable => Str(JsString(NullToEmpty(value)))
    case _ => if IsNullish(value) then Null else Str(JsString(value))
  }

  /**
   When a written name reads as what was written. A boolean attribute that is no property reads as its
   own name, whatever it was set to. A flag is read under its lower-case name and written under the
   name as given. A custom property's value is taken for important when it ends in "!important", unless
   the property already was; and one that was not there is lost behind a style that leaves something open.
   */
  ghost predicate Holds(e: Engine, dom: Dom, n: Id, name: string, value: Value) {
    match KindOf(e, name)
    case CustomVar => Keeps(StyleOf(e, dom, n), name, WantedText(value))
    case Flag => e.fold(name) == name || GetAttr(e, dom, n, e.fold(name)).Some? == (value != Str("false") && Truthy(value))
    case Settable => true
    case _ => IsNullish(value) || !IsBoolean(e, name) || JsString(value) == name
  }

  /** The value of a custom property is one the policy lets through. */
  ghost predicate Fitting(e: Engine, name: string, value: Value) {
    KindOf(e, name).CustomVar? ==> Allowed(WantedText(value))
  }

  /** A write that goes through is what the next read gives, exactly where `Holds` says so. */
  lemma {:induction false} WrittenReads(e: Engine, dom: Dom, n: Id, name: string, value: Value, attrs: seq<Attr>)
    requires KnowsFlags(e) && Data(dom, n).Element? && UniqueAttrs(Attrs(dom, n)) && Fitting(e, name, value)
    requires !IsBoolean(e, "style") && NameEdit(e, dom, n, name, value) == SetAttrs(attrs)
    ensures ReadName(e, Edited(dom, n, attrs), n, name) == Held(e, name, value) <==> Holds(e, dom, n, name, value)
  {
    var after := Edited(dom, n, attrs);
    EditWrites(e, dom, n, name, value);
    OneAttribute(e, dom, n, name, value, AttrName(e, name));
    match KindOf(e, name)
    case CustomVar => CustomReads(e, dom, after, n, name, value);
    case Flag =>
      OneAttribute(e, dom, n, name, value, e.fold(name));
      OneAttribute(e, dom, n, name, value, "type");
      FlagReads(e, dom, after, n, name, value);
    case Settable => SettableReads(e, after, n, name, value);
    case Literal => LiteralReads(e, after, n, name, value);
    case _ => assert false;
  }

  lemma {:induction false} FlagReads(e: Engine, dom: Dom, after: Dom, n: Id, name: string, value: Value)
    requires KnowsFlags(e) && KindOf(e, name).Flag?
    requires Data(dom, n).Element? && Data(after, n).Element? && Data(after, n).tag == Data(dom, n).tag
    requires AttrValue(Attrs(after, n), "type") == AttrValue(Attrs(dom, n), "type")
    requires AttrValue(Attrs(after, n), e.fold(name)) ==
      if e.fold(name) == name then AttrWanted(e, dom, n, name, value) else AttrValue(Attrs(dom, n), e.fold(name))
    ensures ReadName(e, after, n, name) == Held(e, name, value) <==> Holds(e, dom, n, name, value)
  {
    assert name != "value";
  }

  lemma {:induction false} SettableReads(e: Engine, after: Dom, n: Id, name: string, value: Value)
    requires KnowsFlags(e) && KindOf(e, name).Settable? && Data(after, n).Element?
    requires AttrValue(Attrs(after, n), if name == "className" then "class" else name) == Some(JsString(NullToEmpty(value)))
    ensures ReadName(e, after, n, name) == Held(e, name, value)
  {
  }

  lemma {:induction false} LiteralReads(e: Engine, after: Dom, n: Id, name: string, value: Value)
    requires KindOf(e, name).Literal? && Data(after, n).Element?
    requires AttrValue(Attrs(after, n), name) == if IsNullish(value) then None else Some(JsString(value))
    ensures ReadName(e, after, n, name) == Held(e, name, value) <==> IsNullish(value) || !IsBoolean(e, name) || JsString(value) == name
  {
  }

  lemma {:induction false} StyleIs(e: Engine, dom: Dom, n: Id)
    requires !IsBoolean(e, "style")
    ensures GetAttr(e, dom, n, "style") == AttrValue(Attrs(dom, n), "style")
  {
  }

  lemma {:induction false} CustomReads(e: Engine, dom: Dom, after: Dom, n: Id, name: string, value: Value)
    requires KindOf(e, name).CustomVar? && Fitting(e, name, value) && !IsBoolean(e, "style")
    requires AttrValue(Attrs(after, n), "style") == Write(StyleOf(e, dom, n), name, WantedText(value))
    ensures ReadName(e, after, n, name) == Held(e, name, value) <==> Holds(e, dom, n, name, value)
  {
    CustomHolds(e, dom, n, name, value);
    AttrReads(StyleOf(e, dom, n), name, value);
    AttrIsName(e, after, n, name, value, Write(StyleOf(e, dom, n), name, WantedText(value)));
  }

  /** A custom property is read from the style attribute alone. */
  lemma {:induction false} AttrIsName(e: Engine, dom: Dom, n: Id, name: string, value: Value, attr: Option<string>)
    requires KindOf(e, name).CustomVar? && !IsBoolean(e, "style") && AttrValue(Attrs(dom, n), "style") == attr
    ensures ReadName(e, dom, n, name) == Held(e, name, value) <==> ReadAttr(attr, name) == Kept(WantedText(value))
  {
    NameReads(e, dom, n, name);
  }

  lemma {:induction false} CustomHolds(e: Engine, dom: Dom, n: Id, name: string, value: Value)
    requires KindOf(e, name).CustomVar?
    ensures ValidName(name)
    ensures Fitting(e, name, value) ==> Allowed(WantedText(value))
    ensures Holds(e, dom, n, name, value) == Keeps(StyleOf(e, dom, n), name, WantedText(value))
  {
  }

  lemma {:induction false} NameReads(e: Engine, dom: Dom, n: Id, name: string)
    requires KindOf(e, name).CustomVar? && !IsBoolean(e, "style")
    ensures ReadName(e, dom, n, name) == OrNull(ReadAttr(AttrValue(Attrs(dom, n), "style"), name))
  {
    StyleIs(e, dom, n);
  }

  function Kept(want: string): Option<string> {
    if want == "" then None else Some(want)
  }

  function ReadAttr(attr: Option<string>, name: string): Option<string> {
    if attr.None? then None else Read(attr.value, name)
  }

  lemma {:induction false} AttrReads(style: string, name: string, value: Value)
    requires ValidName(name) && Allowed(WantedText(value))
    ensures var want := WantedText(value);
      ReadAttr(Write(style, name, want), name) == Kept(want) <==> Keeps(style, name, want)
  {
    var want := WantedText(value);
    var next := NextText(style, name, want);
    WantedIsTrimmed(value);
    WriteReads(style, name, want);
    if Trim(next) == "" {
      BlankReadsNone(next, name);
      assert Write(style, name, want) == None;
    } else {
      assert Write(style, name, want) == Some(next);
    }
  }

  lemma {:induction false} WantedIsTrimmed(value: Value)
    ensures IsTrimmed(WantedText(value))
  {
    var lead, tail := TrimSplits(JsString(value));
  }

  /** White space declares nothing. */
  lemma {:induction false} BlankReadsNone(s: string, name: string)
    requires Trim(s) == ""
    ensures Read(s, name) == None
  {
    BlankTrims(s);
    NoCutWithoutSemicolon(s, 0, Neutral);
    assert Split(s) == [s];
    InertStrips(s, 0, |s|);
    assert s[0..|s|] == s;
    assert Strip(s, 0, Bare) == s;
    assert ':' !in s;
    assert Parse(s) == None;
    var decls := ParseAll([s]);
    assert decls == [None] && decls[..0] == [];
    assert Winner(decls, name) == None;
  }

  lemma {:induction false} BlankTrims(s: string)
    requires Trim(s) == ""
    ensures Blank(s)
  {
    var lead, tail := TrimSplits(s);
    assert s == lead + "" + tail;
  }

  // ----- two reads that do not write back in silence -----

  /** An element without a title reads null, and null is written as an empty title. */
  lemma {:induction false} UntitledIsTouched(e: Engine, dom: Dom, n: Id)
    requires KnowsFlags(e) && Data(dom, n) == Element("p", []) && "title" !in e.readOnly
    ensures ReadName(e, dom, n, "title") == Null && NameEdit(e, dom, n, "title", Null) != Keep
  {
    assert KindOf(e, "title") == Settable;
  }

  /** A read-only input reads true under its lower-case name, and is written under the other. */
  lemma {:induction false} ReadOnlyIsTouched(e: Engine, dom: Dom, n: Id)
    requires KnowsFlags(e) && Data(dom, n) == Element("input", [Attr("readonly", "")])
    requires "readOnly" !in e.readOnly && e.fold("readOnly") == "readonly"
    ensures ReadName(e, dom, n, "readOnly") == Str("true") && NameEdit(e, dom, n, "readOnly", Str("true")) != Keep
  {
    assert KindOf(e, "readOnly") == Flag;
    assert "readonly" != "readOnly" by {
      assert "readonly"[4] != "readOnly"[4];
    }
  }

  /** A list whose shape is a literal null, with one row of text: the null read is written as empty text. */
  lemma {:induction false} NullListIsTouched(e: Engine, dom: Dom, ctx: Id, selector: string, row: Id)
    requires e.find(dom, ctx, selector) == Some([row]) && e.textOf(dom, row) == "x"
    ensures var rule := Arr([Str(selector), Null]);
      Extract(e, dom, ctx, rule, 0) == Some(Arr([Null])) && !RuleSettled(e, dom, ctx, rule, 0)
  {
    var items := [Str(selector), Null];
    assert RowsOf(e, dom, ctx, items) == Some([row]) && ShapeOf(items) == Null;
    var rows, none: seq<Value> := [row], [];
    assert Extract(e, dom, rows[0], Null, 1) == Some(Null);
    assert ExtractRows(e, dom, rows, 0, Null, 0) == Some(none);
    assert none + [Null] == [Null];
    assert ExtractRows(e, dom, rows, 1, Null, 0) == Some([Null]);
    assert Trim("x") == "x" by {
      assert TrimLeft("x") == "x" && TrimRight("x") == "x";
    }
  }
}
